/** Blocks: building, finalizing, and the byte container they are stored and sent in. */
module Blocks {
  import opened Bytes
  import opened Crypto
  import opened Frames
  import opened Merkle
  import opened Round
  import opened TxBlocks
  import opened TxValidators

  datatype Block = Block(
    validatorSig: Signature, prevBlockHash: Hash, blockRandomness: Hash, validatorMerkleRoot: Hash,
    txMerkleRoot: Hash, timestamp: U64, nHeight: U64, txValidators: seq<TxValidator>, txs: seq<TxBlock>,
    validatorPubKey: PubKey, finalized: bool)

  /** How transactions become bytes and back; the two RLP codecs are instances. */
  datatype Codec = Codec(
    crypto: Crypto,
    encodeTx: TxBlock -> Bytes,
    parseTx: Bytes -> Option<TxBlock>,
    encodeValidator: TxValidator -> Bytes,
    parseValidator: Bytes -> Option<TxValidator>)

  function TxHash(c: Codec, tx: TxBlock): Hash {
    c.crypto.sha3(c.encodeTx(tx))
  }

  function TxItems(c: Codec, txs: seq<TxBlock>): (r: seq<Bytes>)
    ensures |r| == |txs|
  {
    seq(|txs|, i requires 0 <= i < |txs| => c.encodeTx(txs[i]))
  }

  function ValidatorItems(c: Codec, txs: seq<TxValidator>): (r: seq<Bytes>)
    ensures |r| == |txs|
  {
    seq(|txs|, i requires 0 <= i < |txs| => c.encodeValidator(txs[i]))
  }

  function ItemsRoot(c: Codec, items: seq<Bytes>): Hash {
    Root(c.crypto.sha3, Leaves(c.crypto.sha3, seq(|items|, i requires 0 <= i < |items| => c.crypto.sha3(items[i]))))
  }

  // ---------------------------------------------------------------- the container

  function Header(b: Block): (r: Bytes)
    ensures |r| == 144
  {
    b.prevBlockHash + (b.blockRandomness + (b.validatorMerkleRoot + (b.txMerkleRoot
    + (Fixed(b.timestamp, 8) + Fixed(b.nHeight, 8)))))
  }

  function BlockHash(c: Codec, b: Block): Hash {
    c.crypto.sha3(Header(b))
  }

  /** Signature, header and the position of the validator transactions: 217 bytes. */
  function Preamble(b: Block, validatorStart: nat): (r: Bytes)
    ensures |r| == 217
  {
    b.validatorSig + (Header(b) + Fixed(validatorStart, 8))
  }

  function ValidatorStart(c: Codec, b: Block): nat {
    217 + |Pack(TxItems(c, b.txs))|
  }

  function Serialize(c: Codec, b: Block): Bytes {
    Preamble(b, ValidatorStart(c, b)) + (Pack(TxItems(c, b.txs)) + Pack(ValidatorItems(c, b.txValidators)))
  }

  /** The fixed fields, read at their offsets. */
  function ParsePreamble(s: Bytes): Block
    requires |s| >= 217
  {
    FromBigEndianBound(s[193..201]);
    FromBigEndianBound(s[201..209]);
    Pow256Values();
    Block(s[..65], s[65..97], s[97..129], s[129..161], s[161..193], FromBigEndian(s[193..201]),
          FromBigEndian(s[201..209]), [], [], NO_KEY, false)
  }

  ghost predicate SameHeight(txs: seq<TxValidator>, height: nat) {
    forall i :: 0 <= i < |txs| ==> txs[i].nHeight == height
  }

  /** The checks made on a decoded block: heights, roots, randomness and signature range. */
  ghost predicate Checked(c: Codec, b: Block) {
    && SameHeight(b.txValidators, b.nHeight)
    && b.txMerkleRoot == ItemsRoot(c, TxItems(c, b.txs))
    && b.validatorMerkleRoot == ItemsRoot(c, ValidatorItems(c, b.txValidators))
    && b.blockRandomness == Randomness(c.crypto.sha3, b.txValidators)
    && VerifySig(SigR(b.validatorSig), SigS(b.validatorSig), b.validatorSig[64])
  }

  ghost function Seal(c: Codec, b: Block): Option<Block> {
    if Checked(c, b)
    then Some(b.(validatorPubKey := c.crypto.recover(b.validatorSig, BlockHash(c, b)), finalized := true))
    else None
  }

  ghost function ParseTxs(c: Codec, s: Bytes, start: nat): Option<seq<TxBlock>> {
    match Count(s, 217, start)
    case None => None
    case Some(n) => Decode(s, 217, n, c.parseTx)
  }

  ghost function ParseValidators(c: Codec, s: Bytes, start: nat): Option<seq<TxValidator>> {
    match Count(s, start, |s|)
    case None => None
    case Some(n) => Decode(s, start, n, c.parseValidator)
  }

  ghost function Parse(c: Codec, s: Bytes): Option<Block> {
    if |s| < 217 then None
    else
      var start := FromBigEndian(s[209..217]);
      match ParseTxs(c, s, start)
      case None => None
      case Some(txs) =>
        match ParseValidators(c, s, start)
        case None => None
        case Some(vals) => Seal(c, ParsePreamble(s).(txs := txs, txValidators := vals))
  }

  // ---------------------------------------------------------------- round trip

  /** A block as `finalize` leaves it, with a signature in range. */
  ghost predicate Finalized(c: Codec, b: Block) {
    && b.finalized
    && Checked(c, b)
    && b.validatorPubKey == c.crypto.recover(b.validatorSig, BlockHash(c, b))
  }

  /** Every transaction survives its own codec and fits a 32-bit size. */
  ghost predicate ItemsRoundTrip(c: Codec, b: Block) {
    && (forall i :: 0 <= i < |b.txs| ==> TxTravels(c, b.txs[i]))
    && (forall i :: 0 <= i < |b.txValidators| ==> ValidatorTxTravels(c, b.txValidators[i]))
    && ValidatorStart(c, b) < LIMIT64
  }

  predicate TxTravels(c: Codec, tx: TxBlock) {
    Framable(c.encodeTx(tx)) && c.parseTx(c.encodeTx(tx)) == Some(tx)
  }

  predicate ValidatorTxTravels(c: Codec, tx: TxValidator) {
    Framable(c.encodeValidator(tx)) && c.parseValidator(c.encodeValidator(tx)) == Some(tx)
  }

  lemma HeaderParts(b: Block, h: Bytes)
    requires h == Header(b)
    ensures h[..32] == b.prevBlockHash && h[32..64] == b.blockRandomness
    ensures h[64..96] == b.validatorMerkleRoot && h[96..128] == b.txMerkleRoot
    ensures h[128..136] == Fixed(b.timestamp, 8) && h[136..144] == Fixed(b.nHeight, 8)
  {
  }

  lemma ShiftedSlice(a: Bytes, b: Bytes, i: nat, j: nat)
    requires i <= j <= |b|
    ensures (a + b)[|a| + i..|a| + j] == b[i..j]
  {
  }

  lemma PrefixSlice(a: Bytes, b: Bytes, i: nat, j: nat)
    requires i <= j <= |a|
    ensures (a + b)[i..j] == a[i..j]
  {
  }

  /** The preamble's fields are found at their offsets, whatever follows. */
  lemma PreambleParsed(b: Block, start: nat, rest: Bytes)
    requires start < LIMIT64
    ensures var s := Preamble(b, start) + rest;
            && FromBigEndian(s[209..217]) == start
            && ParsePreamble(s) == b.(txValidators := [], txs := [], validatorPubKey := NO_KEY, finalized := false)
  {
    hide Header, Fixed, FromBigEndian, Pow256;
    var tail := Fixed(start, 8) + rest;
    var s := Preamble(b, start) + rest;
    var h := Header(b);
    assert s == b.validatorSig + (h + tail);
    HeaderParts(b, h);
    Pow256Values();
    FromBigEndianOfFixed(start, 8);
    FromBigEndianOfFixed(b.timestamp, 8);
    FromBigEndianOfFixed(b.nHeight, 8);
    assert s[..65] == b.validatorSig;
    HeaderFieldAt(b, tail, 0, 32);
    HeaderFieldAt(b, tail, 32, 64);
    HeaderFieldAt(b, tail, 64, 96);
    HeaderFieldAt(b, tail, 96, 128);
    HeaderFieldAt(b, tail, 128, 136);
    HeaderFieldAt(b, tail, 136, 144);
    assert s[209..217] == Fixed(start, 8);
  }

  lemma HeaderFieldAt(b: Block, tail: Bytes, i: nat, j: nat)
    requires i <= j <= 144
    ensures (b.validatorSig + (Header(b) + tail))[65 + i..65 + j] == Header(b)[i..j]
  {
    ShiftedSlice(b.validatorSig, Header(b) + tail, i, j);
    PrefixSlice(Header(b), tail, i, j);
  }

  /**
   * Where everything is in the bytes of a block: signature, parent, randomness, the two roots, timestamp, height, the
   * position of the validator transactions, and from there to the end these transactions.
   */
  lemma FieldsAtOffsets(c: Codec, b: Block)
    requires ValidatorStart(c, b) < LIMIT64
    ensures var s := Serialize(c, b);
            && s[..65] == b.validatorSig && s[65..97] == b.prevBlockHash && s[97..129] == b.blockRandomness
            && s[129..161] == b.validatorMerkleRoot && s[161..193] == b.txMerkleRoot
            && FromBigEndian(s[193..201]) == b.timestamp && FromBigEndian(s[201..209]) == b.nHeight
            && FromBigEndian(s[209..217]) == ValidatorStart(c, b) <= |s|
            && s[217..ValidatorStart(c, b)] == Pack(TxItems(c, b.txs))
            && s[ValidatorStart(c, b)..] == Pack(ValidatorItems(c, b.txValidators))
            && BlockHash(c, b) == c.crypto.sha3(s[65..209])
  {
    hide Pack, FromBigEndian, TxItems, ValidatorItems, Fixed, Header;
    var start, rest := ValidatorStart(c, b), Pack(TxItems(c, b.txs)) + Pack(ValidatorItems(c, b.txValidators));
    var s, tail := Serialize(c, b), Fixed(start, 8) + rest;
    PreambleParsed(b, start, rest);
    assert s == b.validatorSig + (Header(b) + tail);
    HeaderFieldAt(b, tail, 0, 144);
    assert Header(b)[0..144] == Header(b);
    CutMiddle(Preamble(b, start), Pack(TxItems(c, b.txs)), Pack(ValidatorItems(c, b.txValidators)));
  }

  lemma ItemsFramable(c: Codec, b: Block)
    requires ItemsRoundTrip(c, b)
    ensures AllFramable(TxItems(c, b.txs)) && AllFramable(ValidatorItems(c, b.txValidators))
  {
  }

  lemma TxsParsed(c: Codec, b: Block)
    requires ItemsRoundTrip(c, b)
    ensures ParseTxs(c, Serialize(c, b), ValidatorStart(c, b)) == Some(b.txs)
  {
    var pre := Preamble(b, ValidatorStart(c, b));
    var items := TxItems(c, b.txs);
    var after := Pack(ValidatorItems(c, b.txValidators));
    ItemsFramable(c, b);
    PackedCount(pre, items, after);
    PackedDecodes(pre, items, after, b.txs, c.parseTx);
  }

  lemma ValidatorsParsed(c: Codec, b: Block)
    requires ItemsRoundTrip(c, b)
    ensures ParseValidators(c, Serialize(c, b), ValidatorStart(c, b)) == Some(b.txValidators)
  {
    hide Preamble, Pack, Count, Decode, Framable;
    var before := Preamble(b, ValidatorStart(c, b)) + Pack(TxItems(c, b.txs));
    var items := ValidatorItems(c, b.txValidators);
    ItemsFramable(c, b);
    PackedCount(before, items, []);
    PackedDecodes(before, items, [], b.txValidators, c.parseValidator);
    ValidatorsLast(c, b);
  }

  lemma ValidatorsLast(c: Codec, b: Block)
    ensures var before := Preamble(b, ValidatorStart(c, b)) + Pack(TxItems(c, b.txs));
            Serialize(c, b) == before + (Pack(ValidatorItems(c, b.txValidators)) + [])
  {
    hide Preamble, Pack, TxItems, ValidatorItems;
  }

  /** The sizes of a block's parts fit their fields. */
  ghost predicate Fits(c: Codec, b: Block) {
    && AllFramable(TxItems(c, b.txs)) && AllFramable(ValidatorItems(c, b.txValidators))
    && ValidatorStart(c, b) < LIMIT64
  }

  lemma TxsParsedApart(c: Codec, b: Block, i: nat)
    requires Fits(c, b) && i < |b.txs| && ParseTxs(c, Serialize(c, b), ValidatorStart(c, b)) == Some(b.txs)
    ensures TxTravels(c, b.txs[i])
  {
    hide Preamble, Pack, Count, Decode, Framable;
    var pre := Preamble(b, ValidatorStart(c, b));
    var items, after := TxItems(c, b.txs), Pack(ValidatorItems(c, b.txValidators));
    PackedCount(pre, items, after);
    DecodedApart(pre, items, after, b.txs, c.parseTx, i);
    assert Framable(items[i]);
  }

  lemma ValidatorsParsedApart(c: Codec, b: Block, i: nat)
    requires Fits(c, b) && i < |b.txValidators|
    requires ParseValidators(c, Serialize(c, b), ValidatorStart(c, b)) == Some(b.txValidators)
    ensures ValidatorTxTravels(c, b.txValidators[i])
  {
    hide Preamble, Pack, Count, Decode, Framable;
    var before := Preamble(b, ValidatorStart(c, b)) + Pack(TxItems(c, b.txs));
    var items := ValidatorItems(c, b.txValidators);
    PackedCount(before, items, []);
    ValidatorsLast(c, b);
    DecodedApart(before, items, [], b.txValidators, c.parseValidator, i);
    assert Framable(items[i]);
  }

  /** Parsing rebuilds a finalized block exactly when each of its transactions survives its own codec. */
  lemma RoundTripExactly(c: Codec, b: Block)
    requires Finalized(c, b) && Fits(c, b)
    ensures Parse(c, Serialize(c, b)) == Some(b) <==> ItemsRoundTrip(c, b)
  {
    hide Finalized, Seal, Preamble, ParsePreamble, ParseTxs, ParseValidators, TxTravels, ValidatorTxTravels;
    if ItemsRoundTrip(c, b) {
      RoundTrip(c, b);
    }
    if Parse(c, Serialize(c, b)) == Some(b) {
      ParsedParts(c, b);
      forall i | 0 <= i < |b.txs|
        ensures TxTravels(c, b.txs[i])
      {
        TxsParsedApart(c, b, i);
      }
      forall i | 0 <= i < |b.txValidators|
        ensures ValidatorTxTravels(c, b.txValidators[i])
      {
        ValidatorsParsedApart(c, b, i);
      }
    }
  }

  lemma ParsedParts(c: Codec, b: Block)
    requires ValidatorStart(c, b) < LIMIT64 && Parse(c, Serialize(c, b)) == Some(b)
    ensures ParseTxs(c, Serialize(c, b), ValidatorStart(c, b)) == Some(b.txs)
    ensures ParseValidators(c, Serialize(c, b), ValidatorStart(c, b)) == Some(b.txValidators)
  {
    hide ParseTxs, ParseValidators, Checked, Preamble, ParsePreamble, Pack, FromBigEndian;
    PreambleParsed(b, ValidatorStart(c, b), Pack(TxItems(c, b.txs)) + Pack(ValidatorItems(c, b.txValidators)));
  }

  /** Parsing a serialized block rebuilds it, and all checks pass. */
  lemma RoundTrip(c: Codec, b: Block)
    requires Finalized(c, b) && ItemsRoundTrip(c, b)
    ensures Parse(c, Serialize(c, b)) == Some(b)
  {
    var start := ValidatorStart(c, b);
    PreambleParsed(b, start, Pack(TxItems(c, b.txs)) + Pack(ValidatorItems(c, b.txValidators)));
    TxsParsed(c, b);
    ValidatorsParsed(c, b);
    var read := ParsePreamble(Serialize(c, b)).(txs := b.txs, txValidators := b.txValidators);
    assert read == b.(validatorPubKey := NO_KEY, finalized := false);
    SealRestores(c, b);
  }

  lemma SealRestores(c: Codec, b: Block)
    requires Finalized(c, b)
    ensures Seal(c, b.(validatorPubKey := NO_KEY, finalized := false)) == Some(b)
  {
    var read := b.(validatorPubKey := NO_KEY, finalized := false);
    assert Header(read) == Header(b);
  }

  /** Every block that parsing lets through is finalized and checked. */
  lemma ParsedIsFinalized(c: Codec, s: Bytes)
    requires Parse(c, s).Some?
    ensures Finalized(c, Parse(c, s).value)
  {
    var start := FromBigEndian(s[209..217]);
    var read := ParsePreamble(s).(txs := ParseTxs(c, s, start).value,
                                  txValidators := ParseValidators(c, s, start).value);
    assert Parse(c, s) == Seal(c, read);
    assert Header(Parse(c, s).value) == Header(read);
  }

  // ---------------------------------------------------------------- fast extraction

  /** The i-th transaction of a stored block, found by skipping the ones before it. */
  function Extract(c: Codec, s: Bytes, i: nat): Option<TxBlock> {
    match SkipMany(s, 217, i)
    case None => None
    case Some(index) => DecodeOne(s, index, c.parseTx)
  }

  lemma ExtractFinds(c: Codec, b: Block, i: nat)
    requires ItemsRoundTrip(c, b) && i < |b.txs|
    ensures Extract(c, Serialize(c, b), i) == Some(b.txs[i])
  {
    ItemsFramable(c, b);
    PackedAt(Preamble(b, ValidatorStart(c, b)), TxItems(c, b.txs), Pack(ValidatorItems(c, b.txValidators)), i);
  }

  method GetTxFromBlockWithIndex(c: Codec, blockData: Bytes, txIndex: nat) returns (r: Option<TxBlock>)
    ensures r == Extract(c, blockData, txIndex)
  {
    var index := 217;
    var currentTx := 0;
    while currentTx < txIndex
      invariant currentTx <= txIndex
      invariant SkipMany(blockData, 217, currentTx) == Some(index)
    {
      SkipSplit(blockData, 217, currentTx, 1);
      SkipSplit(blockData, 217, currentTx, txIndex - currentTx);
      if index + 4 > |blockData| {
        return None;
      }
      index := index + FromBigEndian(blockData[index..index + 4]) + 4;
      currentTx := currentTx + 1;
    }
    if index + 4 > |blockData| {
      return None;
    }
    var size := FromBigEndian(blockData[index..index + 4]);
    index := index + 4;
    r := if index + size > |blockData| then None else c.parseTx(blockData[index..index + size]);
  }

  // ---------------------------------------------------------------- building a block

  /** What finalizing makes of an open block. */
  function Finalize(c: Codec, b: Block, key: PrivKey, newTimestamp: U64): Option<Block> {
    if b.finalized || b.timestamp > newTimestamp then None
    else
      var filled := b.(timestamp := newTimestamp,
                       txMerkleRoot := ItemsRoot(c, TxItems(c, b.txs)),
                       validatorMerkleRoot := ItemsRoot(c, ValidatorItems(c, b.txValidators)),
                       blockRandomness := Randomness(c.crypto.sha3, b.txValidators));
      var sig := c.crypto.sign(BlockHash(c, filled), key);
      Some(filled.(validatorSig := sig,
                   validatorPubKey := c.crypto.recover(sig, BlockHash(c, filled)), finalized := true))
  }

  /**
   * What the decoder checks, exactly: the heights, a signature in range, and that finalizing the same contents again
   * would lead to the same header.
   */
  lemma CheckedExactly(c: Codec, b: Block, key: PrivKey)
    ensures var again := Finalize(c, b.(finalized := false), key, b.timestamp);
            && again.Some?
            && (Checked(c, b) <==>
                  && (forall i :: 0 <= i < |b.txValidators| ==> b.txValidators[i].nHeight == b.nHeight)
                  && 0 < SigR(b.validatorSig) < EC_ORDER && 0 < SigS(b.validatorSig) < EC_ORDER
                  && b.validatorSig[64] <= 1
                  && Header(again.value) == Header(b))
  {
    hide ItemsRoot, Randomness, SigR, SigS, Header, TxItems, ValidatorItems;
    var again := Finalize(c, b.(finalized := false), key, b.timestamp).value;
    if Header(again) == Header(b) {
      HeaderBinds(again, b);
    }
    if Checked(c, b) {
      SameHeader(again, b);
    }
  }

  lemma SameHeader(a: Block, b: Block)
    requires a.prevBlockHash == b.prevBlockHash && a.blockRandomness == b.blockRandomness
    requires a.validatorMerkleRoot == b.validatorMerkleRoot && a.txMerkleRoot == b.txMerkleRoot
    requires a.timestamp == b.timestamp && a.nHeight == b.nHeight
    ensures Header(a) == Header(b)
  {
  }

  /** Equal headers have equal fields. */
  lemma HeaderBinds(a: Block, b: Block)
    requires Header(a) == Header(b)
    ensures a.prevBlockHash == b.prevBlockHash && a.blockRandomness == b.blockRandomness
    ensures a.validatorMerkleRoot == b.validatorMerkleRoot && a.txMerkleRoot == b.txMerkleRoot
    ensures a.timestamp == b.timestamp && a.nHeight == b.nHeight
  {
    hide Fixed, Pow256, Header;
    HeaderParts(a, Header(a));
    HeaderParts(b, Header(b));
    Pow256Values();
    FromBigEndianOfFixed(a.timestamp, 8);
    FromBigEndianOfFixed(b.timestamp, 8);
    FromBigEndianOfFixed(a.nHeight, 8);
    FromBigEndianOfFixed(b.nHeight, 8);
  }

  /** A finalized block passes the checks of the decoder, if its signature and heights do. */
  lemma FinalizeChecks(c: Codec, b: Block, key: PrivKey, newTimestamp: U64, done: Block)
    requires Finalize(c, b, key, newTimestamp) == Some(done)
    requires SameHeight(b.txValidators, b.nHeight)
    requires VerifySig(SigR(done.validatorSig), SigS(done.validatorSig), done.validatorSig[64])
    ensures Finalized(c, done)
    ensures done.txs == b.txs && done.txValidators == b.txValidators
    ensures done.prevBlockHash == b.prevBlockHash && done.nHeight == b.nHeight && done.timestamp == newTimestamp
  {
    var filled := b.(timestamp := newTimestamp,
                     txMerkleRoot := ItemsRoot(c, TxItems(c, b.txs)),
                     validatorMerkleRoot := ItemsRoot(c, ValidatorItems(c, b.txValidators)),
                     blockRandomness := Randomness(c.crypto.sha3, b.txValidators));
    assert Header(done) == Header(filled);
  }

  /** The block object while it is being filled. */
  class BlockBuilder {
    const codec: Codec
    var block: Block

    constructor (codec: Codec, prevBlockHash: Hash, timestamp: U64, nHeight: U64)
      ensures this.codec == codec
      ensures block == Block(Zeros(65), prevBlockHash, ZERO_HASH, ZERO_HASH, ZERO_HASH, timestamp, nHeight, [], [],
                             NO_KEY, false)
    {
      this.codec := codec;
      block := Block(Zeros(65), prevBlockHash, ZERO_HASH, ZERO_HASH, ZERO_HASH, timestamp, nHeight, [], [], NO_KEY,
                     false);
    }

    method AppendTx(tx: TxBlock) returns (ok: bool)
      modifies this
      ensures ok == !old(block.finalized)
      ensures block == if ok then old(block).(txs := old(block.txs) + [tx]) else old(block)
    {
      if block.finalized {
        return false;
      }
      block := block.(txs := block.txs + [tx]);
      ok := true;
    }

    method AppendTxValidator(tx: TxValidator) returns (ok: bool)
      modifies this
      ensures ok == !old(block.finalized)
      ensures block == if ok then old(block).(txValidators := old(block.txValidators) + [tx]) else old(block)
    {
      if block.finalized {
        return false;
      }
      block := block.(txValidators := block.txValidators + [tx]);
      ok := true;
    }

    /** Fill in roots and randomness, sign, and close the block. */
    method FinalizeBlock(key: PrivKey, newTimestamp: U64) returns (ok: bool)
      modifies this
      ensures ok == Finalize(codec, old(block), key, newTimestamp).Some?
      ensures block == if ok then Finalize(codec, old(block), key, newTimestamp).value else old(block)
    {
      if block.finalized || block.timestamp > newTimestamp {
        return false;
      }
      block := block.(timestamp := newTimestamp);
      block := block.(txMerkleRoot := ItemsRoot(codec, TxItems(codec, block.txs)));
      block := block.(validatorMerkleRoot := ItemsRoot(codec, ValidatorItems(codec, block.txValidators)));
      var randomness := ParseTxSeedList(codec.crypto.sha3, block.txValidators);
      block := block.(blockRandomness := randomness);
      var hash := BlockHash(codec, block);
      block := block.(validatorSig := codec.crypto.sign(hash, key));
      block := block.(validatorPubKey := codec.crypto.recover(block.validatorSig, hash), finalized := true);
      ok := true;
    }
  }

  // ---------------------------------------------------------------- the source's buffer and cursor

  lemma {:induction false} PackAppend(items: seq<Bytes>, item: Bytes)
    ensures Pack(items + [item]) == Pack(items) + Frame(item)
  {
    if items == [] {
      assert [item][1..] == [];
      assert Pack([item]) == Frame(item) + Pack([]);
      assert Frame(item) + [] == Frame(item) && [] + Frame(item) == Frame(item);
      assert items + [item] == [item];
    } else {
      PackAppend(items[1..], item);
      assert (items + [item])[1..] == items[1..] + [item];
      assert Frame(items[0]) + (Pack(items[1..]) + Frame(item)) == (Frame(items[0]) + Pack(items[1..])) + Frame(item);
    }
  }

  method AppendFrames(buffer: Bytes, items: seq<Bytes>) returns (ret: Bytes)
    ensures ret == buffer + Pack(items)
  {
    ret := buffer;
    assert items[..0] == [] && buffer + [] == buffer;
    for i := 0 to |items|
      invariant ret == buffer + Pack(items[..i])
    {
      PackAppend(items[..i], items[i]);
      assert items[..i + 1] == items[..i] + [items[i]];
      assert (buffer + Pack(items[..i])) + Frame(items[i]) == buffer + (Pack(items[..i]) + Frame(items[i]));
      ret := ret + Frame(items[i]);
    }
    assert items[..|items|] == items;
  }

  /** Serializing: the position of the validator transactions is patched in once it is known. */
  method SerializeBlock(c: Codec, b: Block) returns (ret: Bytes)
    ensures ret == Serialize(c, b)
  {
    hide Header, Pack, Preamble, Fixed;
    ret := b.validatorSig + Header(b);
    var startLocation := |ret|;
    ret := ret + Zeros(8);
    ghost var front := ret;
    ret := AppendFrames(ret, TxItems(c, b.txs));
    var start := Fixed(|ret|, 8);
    ret := ret[..startLocation] + start + ret[startLocation + 8..];
    Patched(b, |front| + |Pack(TxItems(c, b.txs))|, front, Pack(TxItems(c, b.txs)));
    ghost var filled := ret;
    ret := AppendFrames(ret, ValidatorItems(c, b.txValidators));
    SerializeShape(c, b, filled);
  }

  lemma Patched(b: Block, start: nat, front: Bytes, items: Bytes)
    requires front == b.validatorSig + Header(b) + Zeros(8)
    ensures (front + items)[..209] + Fixed(start, 8) + (front + items)[217..] == Preamble(b, start) + items
  {
    assert (front + items)[..209] == b.validatorSig + Header(b);
    assert (front + items)[217..] == items;
    assert b.validatorSig + Header(b) + Fixed(start, 8) == Preamble(b, start);
  }

  lemma SerializeShape(c: Codec, b: Block, filled: Bytes)
    requires filled == Preamble(b, ValidatorStart(c, b)) + Pack(TxItems(c, b.txs))
    ensures filled + Pack(ValidatorItems(c, b.txValidators)) == Serialize(c, b)
  {
  }

  /** The decoder, for every number of hardware threads: threads are used above 2000 transactions. */
  method ParseBytes(c: Codec, s: Bytes, threads: nat) returns (r: Option<Block>)
    ensures r == Parse(c, s)
  {
    if |s| < 217 {
      return None;
    }
    var start := FromBigEndian(s[209..217]);
    var txCount :- CountItems(s, 217, start);
    var valCount := CountItems(s, start, |s|);
    if valCount == None {
      return None;
    }
    var txs;
    if threads <= 1 || txCount <= 2000 {
      txs := DecodeSequentially(s, 217, txCount, c.parseTx);
    } else {
      txs := DecodeInParallel(s, 217, txCount, threads, c.parseTx);
    }
    if txs == None {
      return None;
    }
    var vals :- DecodeSequentially(s, start, valCount.value, c.parseValidator);
    r := SealBlock(c, ParsePreamble(s).(txs := txs.value, txValidators := vals));
  }

  method SealBlock(c: Codec, b: Block) returns (r: Option<Block>)
    ensures r == Seal(c, b)
  {
    for i := 0 to |b.txValidators|
      invariant forall k :: 0 <= k < i ==> b.txValidators[k].nHeight == b.nHeight
    {
      if b.txValidators[i].nHeight != b.nHeight {
        return None;
      }
    }
    var randomness := ParseTxSeedList(c.crypto.sha3, b.txValidators);
    if ItemsRoot(c, TxItems(c, b.txs)) != b.txMerkleRoot
       || ItemsRoot(c, ValidatorItems(c, b.txValidators)) != b.validatorMerkleRoot
       || randomness != b.blockRandomness
       || !VerifySig(SigR(b.validatorSig), SigS(b.validatorSig), b.validatorSig[64]) {
      return None;
    }
    r := Some(b.(validatorPubKey := c.crypto.recover(b.validatorSig, BlockHash(c, b)), finalized := true));
  }
}
