/** The plain history a storage stands for, and what each of its indexes has to agree with. */
module Ledger {
  import opened Bytes
  import opened TxBlocks
  import opened Blocks

  /** How blocks are named and how they become bytes. */
  datatype Format = Format(
    hashOf: Block -> Hash,
    txHashOf: TxBlock -> Hash,
    encode: Block -> Bytes,
    decode: Bytes -> Option<Block>,
    extract: (Bytes, nat) -> Option<TxBlock>)

  /** Where a transaction is: its block's hash, its position and the block's height. */
  datatype TxPlace = TxPlace(blockHash: Hash, index: nat, height: nat)

  datatype TxAnswer = TxAnswer(tx: TxBlock, place: TxPlace)

  /** The bytes of a block give back the block, and each transaction by its position. */
  ghost predicate Storable(f: Format, b: Block) {
    && f.decode(f.encode(b)) == Some(b)
    && forall k :: 0 <= k < |b.txs| ==> f.extract(f.encode(b), k) == Some(b.txs[k])
  }

  /** The transactions of a block have different hashes. */
  ghost predicate OwnTxsDistinct(f: Format, b: Block) {
    forall k, l :: 0 <= k < l < |b.txs| ==> f.txHashOf(b.txs[k]) != f.txHashOf(b.txs[l])
  }

  /** The positions of its transactions fit 32 bits, and its hash is new to the history. */
  ghost predicate Fresh(f: Format, hist: seq<Block>, b: Block) {
    |b.txs| < 0x1_0000_0000 && forall i :: 0 <= i < |hist| ==> f.hashOf(hist[i]) != f.hashOf(b)
  }

  ghost predicate Carries(f: Format, b: Block, h: Hash) {
    exists k :: 0 <= k < |b.txs| && f.txHashOf(b.txs[k]) == h
  }

  /** No transaction of the block is in the history already. */
  ghost predicate TxsNew(f: Format, hist: seq<Block>, b: Block) {
    forall i, k :: 0 <= i < |hist| && 0 <= k < |hist[i].txs| ==> !Carries(f, b, f.txHashOf(hist[i].txs[k]))
  }

  /** `b` may follow the history: right parent, right height. */
  predicate Follows(f: Format, last: Block, b: Block) {
    f.hashOf(last) == b.prevBlockHash && b.nHeight == last.nHeight + 1
  }

  ghost predicate LinkedAt(f: Format, hist: seq<Block>, i: nat)
    requires 1 <= i < |hist|
  {
    Follows(f, hist[i - 1], hist[i])
  }

  /** A hash-linked history with consecutive heights, in which no block repeats. */
  ghost predicate IsHistory(f: Format, hist: seq<Block>) {
    && (forall i :: 0 <= i < |hist| ==> hist[i].nHeight == i && |hist[i].txs| < 0x1_0000_0000)
    && (forall i :: 1 <= i < |hist| ==> LinkedAt(f, hist, i))
    && BlocksDistinct(f, hist)
  }

  ghost predicate BlocksDistinct(f: Format, hist: seq<Block>) {
    forall i, j :: SameBlockName(f, hist, i, j) ==> i == j
  }

  ghost predicate SameBlockName(f: Format, hist: seq<Block>, i: int, j: int) {
    0 <= i < |hist| && 0 <= j < |hist| && f.hashOf(hist[i]) == f.hashOf(hist[j])
  }

  ghost predicate TxsDistinct(f: Format, hist: seq<Block>) {
    forall p, q :: SameTxName(f, hist, p, q) ==> p == q
  }

  ghost predicate SameTxName(f: Format, hist: seq<Block>, p: TxPlace, q: TxPlace) {
    IsPlace(f, hist, p) && IsPlace(f, hist, q) && NameAt(f, hist, p) == NameAt(f, hist, q)
  }

  /** `p` is the place of a transaction of the history. */
  predicate IsPlace(f: Format, hist: seq<Block>, p: TxPlace) {
    && p.height < |hist| && p.index < |hist[p.height].txs|
    && p.blockHash == f.hashOf(hist[p.height])
  }

  function TxAt(f: Format, hist: seq<Block>, p: TxPlace): TxBlock
    requires IsPlace(f, hist, p)
  {
    hist[p.height].txs[p.index]
  }

  function NameAt(f: Format, hist: seq<Block>, p: TxPlace): Hash
    requires IsPlace(f, hist, p)
  {
    f.txHashOf(TxAt(f, hist, p))
  }

  // ---------------------------------------------------------------- the answers a history gives

  ghost predicate AnswersBlock(f: Format, hist: seq<Block>, h: Hash, r: Option<Block>) {
    match r
    case Some(b) => b in hist && f.hashOf(b) == h
    case None => forall i :: 0 <= i < |hist| ==> f.hashOf(hist[i]) != h
  }

  ghost predicate AnswersTx(f: Format, hist: seq<Block>, h: Hash, r: Option<TxAnswer>) {
    match r
    case Some(a) => IsPlace(f, hist, a.place) && a.tx == TxAt(f, hist, a.place) && f.txHashOf(a.tx) == h
    case None => forall p :: IsPlace(f, hist, p) ==> NameAt(f, hist, p) != h
  }

  /** The history leaves no choice: whoever answers a lookup correctly answers it the same way. */
  lemma AnswersAreUnique(f: Format, hist: seq<Block>, h: Hash, r: Option<Block>, t: Option<Block>)
    requires IsHistory(f, hist) && AnswersBlock(f, hist, h, r) && AnswersBlock(f, hist, h, t)
    ensures r == t
  {
    if r.Some? && t.Some? {
      var i :| 0 <= i < |hist| && hist[i] == r.value;
      var j :| 0 <= j < |hist| && hist[j] == t.value;
      assert SameBlockName(f, hist, i, j);
    }
  }

  lemma TxAnswersAreUnique(f: Format, hist: seq<Block>, h: Hash, r: Option<TxAnswer>, t: Option<TxAnswer>)
    requires TxsDistinct(f, hist) && AnswersTx(f, hist, h, r) && AnswersTx(f, hist, h, t)
    ensures r == t
  {
    if r.Some? && t.Some? {
      assert SameTxName(f, hist, r.value.place, t.value.place);
    }
  }

  // ---------------------------------------------------------------- growing a history

  lemma PlaceGrows(f: Format, hist: seq<Block>, b: Block, p: TxPlace)
    ensures IsPlace(f, hist + [b], p) <==>
              IsPlace(f, hist, p) || (p.height == |hist| && p.index < |b.txs| && p.blockHash == f.hashOf(b))
    ensures IsPlace(f, hist, p) ==> TxAt(f, hist + [b], p) == TxAt(f, hist, p)
  {
  }

  /** Exactly when a history determines the answer to every lookup of a transaction: no transaction is in it twice. */
  lemma TxAnswersUniqueExactly(f: Format, hist: seq<Block>)
    ensures TxsDistinct(f, hist) <==>
              forall h, r, t :: AnswersTx(f, hist, h, r) && AnswersTx(f, hist, h, t) ==> r == t
  {
    if TxsDistinct(f, hist) {
      forall h, r, t | AnswersTx(f, hist, h, r) && AnswersTx(f, hist, h, t)
        ensures r == t
      {
        TxAnswersAreUnique(f, hist, h, r, t);
      }
    } else {
      var p, q :| SameTxName(f, hist, p, q) && p != q;
      var h := NameAt(f, hist, p);
      assert AnswersTx(f, hist, h, Some(TxAnswer(TxAt(f, hist, p), p)));
      assert AnswersTx(f, hist, h, Some(TxAnswer(TxAt(f, hist, q), q)));
    }
  }

  lemma OldNameNotCarried(f: Format, hist: seq<Block>, b: Block, p: TxPlace)
    requires TxsNew(f, hist, b) && IsPlace(f, hist, p)
    ensures !Carries(f, b, NameAt(f, hist, p))
  {
    assert TxAt(f, hist, p) == hist[p.height].txs[p.index];
  }

  lemma TxsStayDistinct(f: Format, hist: seq<Block>, b: Block)
    requires TxsDistinct(f, hist) && TxsNew(f, hist, b) && OwnTxsDistinct(f, b)
    ensures TxsDistinct(f, hist + [b])
  {
    var longer := hist + [b];
    forall p, q | SameTxName(f, longer, p, q)
      ensures p == q
    {
      PlaceGrows(f, hist, b, p);
      PlaceGrows(f, hist, b, q);
      assert IsPlace(f, hist, p) && IsPlace(f, hist, q) ==> SameTxName(f, hist, p, q);
      if IsPlace(f, hist, p) {
        OldNameNotCarried(f, hist, b, p);
      }
      if IsPlace(f, hist, q) {
        OldNameNotCarried(f, hist, b, q);
      }
    }
  }

  /** A block of new transactions keeps the history without repetition exactly when it repeats none itself. */
  lemma TxsDistinctExactly(f: Format, hist: seq<Block>, b: Block)
    requires TxsDistinct(f, hist) && TxsNew(f, hist, b)
    ensures TxsDistinct(f, hist + [b]) <==> OwnTxsDistinct(f, b)
  {
    if OwnTxsDistinct(f, b) {
      TxsStayDistinct(f, hist, b);
    } else {
      var k, l :| 0 <= k < l < |b.txs| && f.txHashOf(b.txs[k]) == f.txHashOf(b.txs[l]);
      var p, q := TxPlace(f.hashOf(b), k, |hist|), TxPlace(f.hashOf(b), l, |hist|);
      assert SameTxName(f, hist + [b], p, q);
    }
  }

  lemma BlocksStayDistinct(f: Format, hist: seq<Block>, b: Block)
    requires BlocksDistinct(f, hist) && Fresh(f, hist, b)
    ensures BlocksDistinct(f, hist + [b])
  {
    forall i, j | SameBlockName(f, hist + [b], i, j)
      ensures i == j
    {
      assert i < |hist| && j < |hist| ==> SameBlockName(f, hist, i, j);
    }
  }

  /** A history in plain words: every block but the first names the one before it, and heights count from zero. */
  lemma HistoryIsLinked(f: Format, hist: seq<Block>, i: nat)
    requires IsHistory(f, hist) && i < |hist|
    ensures hist[i].nHeight == i
    ensures i >= 1 ==> hist[i].prevBlockHash == f.hashOf(hist[i - 1])
    ensures forall j :: 0 <= j < |hist| && f.hashOf(hist[j]) == f.hashOf(hist[i]) ==> j == i
  {
    assert i >= 1 ==> LinkedAt(f, hist, i);
    forall j | 0 <= j < |hist| && f.hashOf(hist[j]) == f.hashOf(hist[i])
      ensures j == i
    {
      assert SameBlockName(f, hist, i, j);
    }
  }

  /** A fresh block with the right parent and height extends the history. */
  lemma HistoryGrows(f: Format, hist: seq<Block>, b: Block)
    requires IsHistory(f, hist) && Fresh(f, hist, b)
    requires hist != [] && Follows(f, hist[|hist| - 1], b)
    ensures IsHistory(f, hist + [b])
  {
    BlocksStayDistinct(f, hist, b);
    forall i | 1 <= i < |hist| + 1
      ensures LinkedAt(f, hist + [b], i)
    {
      assert i < |hist| ==> LinkedAt(f, hist, i);
    }
  }
}
