/** The block codec of the node: the block container over the two RLP transaction codecs. */
module NodeCodec {
  import opened Bytes
  import opened Crypto
  import opened Blocks
  import Frames
  import Ledger
  import TxBlocks
  import TxValidators

  /** Transactions that do not fit a 64-bit length have no encoding; such bytes cannot be held in memory. */
  function EncodeTx(tx: TxBlocks.TxBlock): Bytes {
    if TxBlocks.Encodable(tx) then TxBlocks.Serialize(tx, true) else []
  }

  function EncodeValidator(tx: TxValidators.TxValidator): Bytes {
    if TxValidators.Encodable(tx) then TxValidators.Serialize(tx, true) else []
  }

  function NodeCodec(c: Crypto): Codec {
    Codec(c, EncodeTx, s => TxBlocks.Parse(c, s), EncodeValidator, s => TxValidators.Parse(c, s))
  }

  predicate TxOnWire(c: Crypto, tx: TxBlocks.TxBlock) {
    TxBlocks.WellSigned(c, tx) && TxBlocks.RoundTrips(tx) && |TxBlocks.Serialize(tx, true)| < 0x1_0000_0000
  }

  predicate ValidatorTxOnWire(c: Crypto, tx: TxValidators.TxValidator, recoveryId: Byte) {
    && TxValidators.WellSigned(c, tx, recoveryId) && TxValidators.RoundTrips(tx, recoveryId)
    && |TxValidators.Serialize(tx, true)| < 0x1_0000_0000
  }

  /** Every transaction of the block is signed and within the limits of its codec. */
  ghost predicate OnWire(c: Crypto, b: Block, recoveryIds: seq<Byte>) {
    && (forall i :: 0 <= i < |b.txs| ==> TxOnWire(c, b.txs[i]))
    && |recoveryIds| == |b.txValidators|
    && (forall i :: 0 <= i < |b.txValidators| ==> ValidatorTxOnWire(c, b.txValidators[i], recoveryIds[i]))
    && ValidatorStart(NodeCodec(c), b) < LIMIT64
  }

  lemma TxOnWireRoundTrips(c: Crypto, tx: TxBlocks.TxBlock)
    requires TxOnWire(c, tx)
    ensures TxTravels(NodeCodec(c), tx)
  {
    TxBlocks.RoundTrip(c, tx);
  }

  lemma ValidatorTxOnWireRoundTrips(c: Crypto, tx: TxValidators.TxValidator, recoveryId: Byte)
    requires ValidatorTxOnWire(c, tx, recoveryId)
    ensures ValidatorTxTravels(NodeCodec(c), tx)
  {
    TxValidators.RoundTrip(c, tx, recoveryId);
  }

  lemma OnWireItemsRoundTrip(c: Crypto, b: Block, recoveryIds: seq<Byte>)
    requires OnWire(c, b, recoveryIds)
    ensures ItemsRoundTrip(NodeCodec(c), b)
  {
    forall i | 0 <= i < |b.txs|
      ensures TxTravels(NodeCodec(c), b.txs[i])
    {
      TxOnWireRoundTrips(c, b.txs[i]);
    }
    forall i | 0 <= i < |b.txValidators|
      ensures ValidatorTxTravels(NodeCodec(c), b.txValidators[i])
    {
      ValidatorTxOnWireRoundTrips(c, b.txValidators[i], recoveryIds[i]);
    }
  }

  /**
   * A finalized block of signed transactions travels as bytes and comes back as itself, sealed and checked, and
   * each of its transactions can be cut out of the bytes without decoding the others.
   */
  lemma BlockTravels(c: Crypto, b: Block, recoveryIds: seq<Byte>, i: nat)
    requires OnWire(c, b, recoveryIds) && Finalized(NodeCodec(c), b)
    ensures Parse(NodeCodec(c), Serialize(NodeCodec(c), b)) == Some(b)
    ensures i < |b.txs| ==> Extract(NodeCodec(c), Serialize(NodeCodec(c), b), i) == Some(b.txs[i])
  {
    OnWireItemsRoundTrip(c, b, recoveryIds);
    RoundTrip(NodeCodec(c), b);
    if i < |b.txs| {
      ExtractFinds(NodeCodec(c), b, i);
    }
  }

  /** How the node's storage names blocks and turns them into bytes. */
  ghost function NodeFormat(c: Crypto): Ledger.Format {
    var codec := NodeCodec(c);
    Ledger.Format(b => BlockHash(codec, b), tx => TxHash(codec, tx), b => Serialize(codec, b), s => Parse(codec, s),
                  (s: Bytes, i: nat) => Extract(codec, s, i))
  }

  /** What the storage needs of its blocks holds of every finalized block of signed transactions. */
  lemma BlockIsStorable(c: Crypto, b: Block, recoveryIds: seq<Byte>)
    requires OnWire(c, b, recoveryIds) && Finalized(NodeCodec(c), b)
    ensures Ledger.Storable(NodeFormat(c), b)
  {
    BlockTravels(c, b, recoveryIds, 0);
    forall k | 0 <= k < |b.txs|
      ensures NodeFormat(c).extract(NodeFormat(c).encode(b), k) == Some(b.txs[k])
    {
      BlockTravels(c, b, recoveryIds, k);
    }
  }

  // ---------------------------------------------------------------- what a node can reload

  /** The decoder lets this transaction through in some form. */
  ghost predicate TxReceived(c: Crypto, tx: TxBlocks.TxBlock) {
    exists bytes :: TxBlocks.Parse(c, bytes) == Some(tx)
  }

  ghost predicate ValidatorTxReceived(c: Crypto, tx: TxValidators.TxValidator) {
    exists bytes :: TxValidators.Parse(c, bytes) == Some(tx)
  }

  ghost predicate Received(c: Crypto, b: Block) {
    && (forall i :: 0 <= i < |b.txs| ==> TxReceived(c, b.txs[i]))
    && (forall i :: 0 <= i < |b.txValidators| ==> ValidatorTxReceived(c, b.txValidators[i]))
  }

  /** The data is not 55 bytes long, and the list is longer than 55 bytes. */
  predicate TxSurvives(tx: TxBlocks.TxBlock) {
    |tx.data| < LIMIT64 && |tx.data| != 55 && |TxBlocks.Payload(tx, true)| > 55
  }

  predicate ValidatorTxSurvives(tx: TxValidators.TxValidator) {
    |tx.data| < LIMIT64 && |tx.data| != 55 && |TxValidators.Payload(tx, true)| > 55
  }

  ghost predicate AllSurvive(b: Block) {
    && (forall i :: 0 <= i < |b.txs| ==> TxSurvives(b.txs[i]))
    && (forall i :: 0 <= i < |b.txValidators| ==> ValidatorTxSurvives(b.txValidators[i]))
  }

  lemma TxTravelsExactly(c: Crypto, tx: TxBlocks.TxBlock)
    requires TxReceived(c, tx) && Frames.Framable(EncodeTx(tx))
    ensures TxTravels(NodeCodec(c), tx) <==> TxSurvives(tx)
  {
    hide TxBlocks.Parse, TxBlocks.Serialize, TxBlocks.Payload;
    var bytes :| TxBlocks.Parse(c, bytes) == Some(tx);
    TxBlocks.ParsedRoundTripsExactly(c, bytes, tx);
  }

  lemma ValidatorTxTravelsExactly(c: Crypto, tx: TxValidators.TxValidator)
    requires ValidatorTxReceived(c, tx) && Frames.Framable(EncodeValidator(tx))
    ensures ValidatorTxTravels(NodeCodec(c), tx) <==> ValidatorTxSurvives(tx)
  {
    hide TxValidators.Parse, TxValidators.Serialize, TxValidators.Payload;
    var bytes :| TxValidators.Parse(c, bytes) == Some(tx);
    TxValidators.ParsedRoundTripsExactly(c, bytes, tx);
  }

  lemma ItemsRoundTripExactly(c: Crypto, b: Block)
    requires Fits(NodeCodec(c), b) && Received(c, b)
    ensures ItemsRoundTrip(NodeCodec(c), b) <==> AllSurvive(b)
  {
    hide TxTravels, ValidatorTxTravels, TxSurvives, ValidatorTxSurvives, Frames.Framable, EncodeTx, EncodeValidator;
    var codec := NodeCodec(c);
    forall i | 0 <= i < |b.txs|
      ensures TxTravels(codec, b.txs[i]) <==> TxSurvives(b.txs[i])
    {
      assert Frames.Framable(TxItems(codec, b.txs)[i]);
      TxTravelsExactly(c, b.txs[i]);
    }
    forall i | 0 <= i < |b.txValidators|
      ensures ValidatorTxTravels(codec, b.txValidators[i]) <==> ValidatorTxSurvives(b.txValidators[i])
    {
      assert Frames.Framable(ValidatorItems(codec, b.txValidators)[i]);
      ValidatorTxTravelsExactly(c, b.txValidators[i]);
    }
  }

  /**
   * Exactly which blocks of received transactions a node can reload: those in which no transaction has 55 bytes of
   * data or a list of at most 55 bytes.
   */
  lemma StorableExactly(c: Crypto, b: Block)
    requires Finalized(NodeCodec(c), b) && Fits(NodeCodec(c), b) && Received(c, b)
    ensures Ledger.Storable(NodeFormat(c), b) <==> AllSurvive(b)
  {
    hide Finalized, Fits, Received, AllSurvive, ItemsRoundTrip, Parse, Serialize, Extract;
    var codec := NodeCodec(c);
    RoundTripExactly(codec, b);
    ItemsRoundTripExactly(c, b);
    if AllSurvive(b) {
      forall k | 0 <= k < |b.txs|
        ensures Extract(codec, Serialize(codec, b), k) == Some(b.txs[k])
      {
        ExtractFinds(codec, b, k);
      }
    }
  }

  /** One transaction with 55 bytes of data is enough to make a block unreadable. */
  lemma FiftyFiveBytesUnreadable(c: Crypto, b: Block, i: nat)
    requires Finalized(NodeCodec(c), b) && Fits(NodeCodec(c), b) && Received(c, b)
    requires i < |b.txs| && |b.txs[i].data| == 55
    ensures !Ledger.Storable(NodeFormat(c), b)
  {
    hide Finalized, Fits, Received, Ledger.Storable;
    StorableExactly(c, b);
    assert !TxSurvives(b.txs[i]);
  }
}
