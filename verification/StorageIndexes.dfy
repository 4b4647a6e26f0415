/** The indexes of the storage and its database image, and what it takes to add a block to each of them. */
module StorageIndexes {
  import opened Bytes
  import opened Blocks
  import opened Ledger

  // ---------------------------------------------------------------- the database

  /** What the database holds under the prefixes of the storage. */
  datatype Image = Image(
    blocks: map<Hash, Bytes>, latest: Option<Bytes>, heights: map<nat, Hash>, txs: map<Hash, Bytes>)

  const NO_IMAGE := Image(map[], None, map[], map[])

  /** The stored form of a place: hash, 32-bit position, 64-bit height. */
  function EncodePlace(p: TxPlace): (r: Bytes)
    ensures |r| == 44
  {
    p.blockHash + (Fixed(p.index, 4) + Fixed(p.height, 8))
  }

  function DecodePlace(r: Bytes): TxPlace {
    if |r| != 44 then TxPlace(ZERO_HASH, 0, 0)
    else TxPlace(r[..32], FromBigEndian(r[32..36]), FromBigEndian(r[36..44]))
  }

  lemma PlaceRoundTrip(p: TxPlace)
    requires p.index < 0x1_0000_0000 && p.height < LIMIT64
    ensures DecodePlace(EncodePlace(p)) == p
  {
    var r := EncodePlace(p);
    assert r[..32] == p.blockHash && r[32..36] == Fixed(p.index, 4) && r[36..44] == Fixed(p.height, 8);
    Pow256Values();
    FromBigEndianOfFixed(p.index, 4);
    FromBigEndianOfFixed(p.height, 8);
  }

  /** The record as one number: the hash counts most, then the position, then the height. */
  lemma PlaceIsOneNumber(p: TxPlace)
    requires p.index < 0x1_0000_0000 && p.height < LIMIT64
    ensures FromBigEndian(EncodePlace(p))
         == (FromBigEndian(p.blockHash) * Pow256(4) + p.index) * Pow256(8) + p.height
  {
    hide FromBigEndian, Pow256, Fixed;
    Pow256Values();
    FromBigEndianOfFixed(p.index, 4);
    FromBigEndianOfFixed(p.height, 8);
    assert EncodePlace(p) == (p.blockHash + Fixed(p.index, 4)) + Fixed(p.height, 8);
    FromBigEndianConcat(p.blockHash, Fixed(p.index, 4));
    FromBigEndianConcat(p.blockHash + Fixed(p.index, 4), Fixed(p.height, 8));
  }

  function DecodePlaces(txs: map<Hash, Bytes>): map<Hash, TxPlace> {
    map h | h in txs :: DecodePlace(txs[h])
  }

  lemma RecordPut(txs: map<Hash, Bytes>, h: Hash, p: TxPlace)
    requires p.index < 0x1_0000_0000 && p.height < LIMIT64
    ensures DecodePlaces(txs[h := EncodePlace(p)]) == DecodePlaces(txs)[h := p]
  {
    PlaceRoundTrip(p);
  }

  // ---------------------------------------------------------------- what the indexes have to hold

  ghost predicate NamedIn(f: Format, hist: seq<Block>, lo: nat, hi: nat, h: Hash)
    requires hi <= |hist|
  {
    exists i :: lo <= i < hi && f.hashOf(hist[i]) == h
  }

  /** The map holds exactly the blocks `lo` to `hi` under their hashes. */
  ghost predicate BlocksIndexed(f: Format, hist: seq<Block>, lo: nat, hi: nat, m: map<Hash, Block>)
    requires hi <= |hist|
  {
    && (forall i :: lo <= i < hi ==> f.hashOf(hist[i]) in m && m[f.hashOf(hist[i])] == hist[i])
    && (forall h :: h in m ==> NamedIn(f, hist, lo, hi, h))
  }

  /** The database holds exactly the first `n` blocks. */
  ghost predicate BlocksSaved(f: Format, hist: seq<Block>, n: nat, m: map<Hash, Bytes>)
    requires n <= |hist|
  {
    && (forall i :: 0 <= i < n ==> f.hashOf(hist[i]) in m && m[f.hashOf(hist[i])] == f.encode(hist[i]))
    && (forall h :: h in m ==> NamedIn(f, hist, 0, n, h))
  }

  ghost function HeightMap(f: Format, hist: seq<Block>, n: nat): map<nat, Hash>
    requires n <= |hist|
  {
    map i: nat | i < n :: f.hashOf(hist[i])
  }

  /** The transactions of blocks `lo` to `hi`, and the first `k` of block `at`. */
  predicate Covers(lo: nat, hi: nat, at: nat, k: nat, p: TxPlace) {
    lo <= p.height < hi || (p.height == at && p.index < k)
  }

  /** The map holds the hashes of the covered transactions and no others, each with a place where it is. */
  ghost predicate Placed(f: Format, hist: seq<Block>, lo: nat, hi: nat, at: nat, k: nat, m: map<Hash, TxPlace>) {
    && (forall p :: IsPlace(f, hist, p) && Covers(lo, hi, at, k, p) ==> NameAt(f, hist, p) in m)
    && (forall h :: h in m ==> PlacedAt(f, hist, lo, hi, at, k, h, m[h]))
  }

  ghost predicate PlacedAt(f: Format, hist: seq<Block>, lo: nat, hi: nat, at: nat, k: nat, h: Hash, p: TxPlace) {
    IsPlace(f, hist, p) && Covers(lo, hi, at, k, p) && NameAt(f, hist, p) == h
  }

  /** The database without its pointer to the latest block. */
  ghost predicate BodySaved(f: Format, hist: seq<Block>, n: nat, db: Image)
    requires n <= |hist|
  {
    && BlocksSaved(f, hist, n, db.blocks)
    && db.heights == HeightMap(f, hist, n)
    && Placed(f, hist, 0, n, 0, 0, DecodePlaces(db.txs))
  }

  /** The database is the image of the first `n` blocks of the history. */
  ghost predicate Saved(f: Format, hist: seq<Block>, n: nat, db: Image)
    requires n <= |hist|
  {
    n >= 1 && BodySaved(f, hist, n, db) && db.latest == Some(f.encode(hist[n - 1]))
  }

  // ---------------------------------------------------------------- adding one transaction, one block

  /** What `std::unordered_map::insert` does: an existing entry stays. */
  function Inserted<K, V>(m: map<K, V>, k: K, v: V): map<K, V> {
    if k in m then m else m[k := v]
  }

  /** Entering the next transaction of block `at`, whether an earlier entry under its hash stays or is replaced. */
  lemma PlaceNext(f: Format, hist: seq<Block>, lo: nat, hi: nat, at: nat, k: nat, m: map<Hash, TxPlace>)
    requires at < |hist| && k < |hist[at].txs| && Placed(f, hist, lo, hi, at, k, m)
    ensures var p, h := TxPlace(f.hashOf(hist[at]), k, at), f.txHashOf(hist[at].txs[k]);
            Placed(f, hist, lo, hi, at, k + 1, m[h := p]) && Placed(f, hist, lo, hi, at, k + 1, Inserted(m, h, p))
  {
    hide Placed, Covers;
    var p, h := TxPlace(f.hashOf(hist[at]), k, at), f.txHashOf(hist[at].txs[k]);
    PlaceOne(f, hist, lo, hi, at, k, m, m[h := p]);
    PlaceOne(f, hist, lo, hi, at, k, m, Inserted(m, h, p));
  }

  lemma PlaceOne(f: Format, hist: seq<Block>, lo: nat, hi: nat, at: nat, k: nat, m: map<Hash, TxPlace>,
                 more: map<Hash, TxPlace>)
    requires at < |hist| && k < |hist[at].txs| && Placed(f, hist, lo, hi, at, k, m)
    requires var p, h := TxPlace(f.hashOf(hist[at]), k, at), f.txHashOf(hist[at].txs[k]);
             more == m[h := p] || more == Inserted(m, h, p)
    ensures Placed(f, hist, lo, hi, at, k + 1, more)
  {
    var p, h := TxPlace(f.hashOf(hist[at]), k, at), f.txHashOf(hist[at].txs[k]);
    forall q | IsPlace(f, hist, q) && Covers(lo, hi, at, k + 1, q)
      ensures NameAt(f, hist, q) in more
    {
      assert Covers(lo, hi, at, k, q) || NameAt(f, hist, q) == h;
    }
    forall g | g in more
      ensures PlacedAt(f, hist, lo, hi, at, k + 1, g, more[g])
    {
      assert g in m ==> PlacedAt(f, hist, lo, hi, at, k, g, m[g]);
    }
  }

  /** Two ways of covering the same transactions. */
  lemma PlacedAlike(f: Format, hist: seq<Block>, lo: nat, hi: nat, at: nat, k: nat, lo': nat, hi': nat, at': nat,
                    k': nat, m: map<Hash, TxPlace>)
    requires Placed(f, hist, lo, hi, at, k, m)
    requires forall p :: IsPlace(f, hist, p) ==> (Covers(lo, hi, at, k, p) <==> Covers(lo', hi', at', k', p))
    ensures Placed(f, hist, lo', hi', at', k', m)
  {
    forall h | h in m
      ensures PlacedAt(f, hist, lo', hi', at', k', h, m[h])
    {
      assert PlacedAt(f, hist, lo, hi, at, k, h, m[h]);
    }
  }

  /** A block at the end of the history adds nothing to the index before its transactions are entered. */
  lemma PlacedBeforeGrowth(f: Format, hist: seq<Block>, b: Block, lo: nat, m: map<Hash, TxPlace>)
    requires Placed(f, hist, lo, |hist|, 0, 0, m)
    ensures Placed(f, hist + [b], lo, |hist|, |hist|, 0, m)
  {
    var longer := hist + [b];
    forall p | IsPlace(f, longer, p) && Covers(lo, |hist|, |hist|, 0, p)
      ensures NameAt(f, longer, p) in m
    {
      PlaceGrows(f, hist, b, p);
      assert Covers(lo, |hist|, 0, 0, p);
    }
    forall h | h in m
      ensures PlacedAt(f, longer, lo, |hist|, |hist|, 0, h, m[h])
    {
      assert PlacedAt(f, hist, lo, |hist|, 0, 0, h, m[h]);
      PlaceGrows(f, hist, b, m[h]);
    }
  }

  function PlaceIn(f: Format, b: Block, k: nat): TxPlace {
    TxPlace(f.hashOf(b), k, b.nHeight)
  }

  /** The first `k` transactions of a block entered into an index in memory, where an earlier entry stays. */
  function Entered(f: Format, b: Block, k: nat, m: map<Hash, TxPlace>): map<Hash, TxPlace>
    requires k <= |b.txs|
  {
    if k == 0 then m else Inserted(Entered(f, b, k - 1, m), f.txHashOf(b.txs[k - 1]), PlaceIn(f, b, k - 1))
  }

  /** The first `k` transactions of a block put into the database, where an earlier record is replaced. */
  function Put(f: Format, b: Block, k: nat, m: map<Hash, TxPlace>): map<Hash, TxPlace>
    requires k <= |b.txs|
  {
    if k == 0 then m else Put(f, b, k - 1, m)[f.txHashOf(b.txs[k - 1]) := PlaceIn(f, b, k - 1)]
  }

  lemma {:induction false} FirstStays(f: Format, b: Block, i: nat, k: nat)
    requires i < k <= |b.txs|
    ensures f.txHashOf(b.txs[i]) in Entered(f, b, k, map[])
    ensures Entered(f, b, k, map[])[f.txHashOf(b.txs[i])].index <= i
    decreases k
  {
    EnteredBelow(f, b, k - 1);
    if i < k - 1 {
      FirstStays(f, b, i, k - 1);
    }
  }

  lemma {:induction false} EnteredBelow(f: Format, b: Block, k: nat)
    requires k <= |b.txs|
    ensures forall h :: h in Entered(f, b, k, map[]) ==> Entered(f, b, k, map[])[h].index < k
    decreases k
  {
    if k > 0 {
      EnteredBelow(f, b, k - 1);
    }
  }

  lemma {:induction false} LastReplaces(f: Format, b: Block, i: nat, k: nat)
    requires i < k <= |b.txs|
    ensures f.txHashOf(b.txs[i]) in Put(f, b, k, map[])
    ensures Put(f, b, k, map[])[f.txHashOf(b.txs[i])].index >= i
    decreases k
  {
    if i < k - 1 {
      LastReplaces(f, b, i, k - 1);
    }
  }

  lemma {:induction false} SamePlaces(f: Format, b: Block, k: nat)
    requires k <= |b.txs| && OwnTxsDistinct(f, b)
    ensures Entered(f, b, k, map[]) == Put(f, b, k, map[])
    ensures forall h :: h in Put(f, b, k, map[]) ==> exists i :: 0 <= i < k && f.txHashOf(b.txs[i]) == h
    decreases k
  {
    if k > 0 {
      SamePlaces(f, b, k - 1);
    }
  }

  /** Memory and database give the transactions of a block the same places exactly when it repeats none of them. */
  lemma PlacesAgreeExactly(f: Format, b: Block)
    ensures Entered(f, b, |b.txs|, map[]) == Put(f, b, |b.txs|, map[]) <==> OwnTxsDistinct(f, b)
  {
    if OwnTxsDistinct(f, b) {
      SamePlaces(f, b, |b.txs|);
    } else {
      var i, j :| 0 <= i < j < |b.txs| && f.txHashOf(b.txs[i]) == f.txHashOf(b.txs[j]);
      FirstStays(f, b, i, |b.txs|);
      LastReplaces(f, b, j, |b.txs|);
    }
  }

  /** Enter the transactions of a block, leaving alone what is already there. */
  method IndexTxs(f: Format, b: Block, m: map<Hash, TxPlace>) returns (r: map<Hash, TxPlace>)
    ensures r == Entered(f, b, |b.txs|, m)
  {
    r := m;
    for i := 0 to |b.txs|
      invariant r == Entered(f, b, i, m)
    {
      r := Inserted(r, f.txHashOf(b.txs[i]), TxPlace(f.hashOf(b), i, b.nHeight));
    }
  }

  /** Batch the records of a block's transactions for the database. */
  method SaveTxs(f: Format, b: Block, txs: map<Hash, Bytes>) returns (r: map<Hash, Bytes>)
    requires |b.txs| < 0x1_0000_0000
    ensures DecodePlaces(r) == Put(f, b, |b.txs|, DecodePlaces(txs))
  {
    hide EncodePlace, DecodePlace, DecodePlaces;
    r := txs;
    for i := 0 to |b.txs|
      invariant DecodePlaces(r) == Put(f, b, i, DecodePlaces(txs))
    {
      var h, p := f.txHashOf(b.txs[i]), TxPlace(f.hashOf(b), i, b.nHeight);
      RecordPut(r, h, p);
      r := r[h := EncodePlace(p)];
    }
  }

  /** Entered or put, the transactions of a block of the history end up where they are. */
  lemma {:induction false} BlockPlaced(f: Format, hist: seq<Block>, lo: nat, hi: nat, b: Block, k: nat,
                                       m: map<Hash, TxPlace>)
    requires b.nHeight < |hist| && hist[b.nHeight] == b && k <= |b.txs| && Placed(f, hist, lo, hi, b.nHeight, 0, m)
    ensures Placed(f, hist, lo, hi, b.nHeight, k, Entered(f, b, k, m))
    ensures Placed(f, hist, lo, hi, b.nHeight, k, Put(f, b, k, m))
    decreases k
  {
    hide Placed;
    if k > 0 {
      BlockPlaced(f, hist, lo, hi, b, k - 1, m);
      PlaceNext(f, hist, lo, hi, b.nHeight, k - 1, Entered(f, b, k - 1, m));
      PlaceNext(f, hist, lo, hi, b.nHeight, k - 1, Put(f, b, k - 1, m));
    }
  }

  lemma BlockIndexGrows(f: Format, hist: seq<Block>, b: Block, lo: nat, m: map<Hash, Block>)
    requires lo <= |hist| && BlocksDistinct(f, hist + [b]) && BlocksIndexed(f, hist, lo, |hist|, m)
    ensures BlocksIndexed(f, hist + [b], lo, |hist| + 1, Inserted(m, f.hashOf(b), b))
  {
    var longer, more := hist + [b], Inserted(m, f.hashOf(b), b);
    assert longer[|hist|] == b;
    assert !NamedIn(f, hist, lo, |hist|, f.hashOf(b)) by {
      forall i | lo <= i < |hist|
        ensures f.hashOf(hist[i]) != f.hashOf(b)
      {
        assert !SameBlockName(f, longer, i, |hist|);
      }
    }
    forall h | h in more
      ensures NamedIn(f, longer, lo, |hist| + 1, h)
    {
      if h in m {
        var i :| lo <= i < |hist| && f.hashOf(hist[i]) == h;
        assert longer[i] == hist[i];
      }
    }
  }

  lemma BlockIndexGrowsFront(f: Format, hist: seq<Block>, lo: nat, m: map<Hash, Block>)
    requires 1 <= lo <= |hist| && BlocksDistinct(f, hist) && BlocksIndexed(f, hist, lo, |hist|, m)
    ensures BlocksIndexed(f, hist, lo - 1, |hist|, Inserted(m, f.hashOf(hist[lo - 1]), hist[lo - 1]))
  {
    var b := hist[lo - 1];
    var more := Inserted(m, f.hashOf(b), b);
    assert !NamedIn(f, hist, lo, |hist|, f.hashOf(b)) by {
      forall i | lo <= i < |hist|
        ensures f.hashOf(hist[i]) != f.hashOf(b)
      {
        assert !SameBlockName(f, hist, i, lo - 1);
      }
    }
    forall h | h in more
      ensures NamedIn(f, hist, lo - 1, |hist|, h)
    {
      if h in m {
        var i :| lo <= i < |hist| && f.hashOf(hist[i]) == h;
      }
    }
  }

  /** Saving block `i` again, or as the next one. */
  lemma BlockSaved(f: Format, hist: seq<Block>, n: nat, i: nat, m: map<Hash, Bytes>)
    requires i <= n <= |hist| && i < |hist| && BlocksDistinct(f, hist) && BlocksSaved(f, hist, n, m)
    ensures BlocksSaved(f, hist, if i == n then n + 1 else n, m[f.hashOf(hist[i]) := f.encode(hist[i])])
  {
    var more, n' := m[f.hashOf(hist[i]) := f.encode(hist[i])], if i == n then n + 1 else n;
    forall j | 0 <= j < n'
      ensures f.hashOf(hist[j]) in more && more[f.hashOf(hist[j])] == f.encode(hist[j])
    {
      assert SameBlockName(f, hist, i, j) || f.hashOf(hist[j]) != f.hashOf(hist[i]);
    }
    forall h | h in more
      ensures NamedIn(f, hist, 0, n', h)
    {
      if h in m {
        var j :| 0 <= j < n && f.hashOf(hist[j]) == h;
        assert j < n';
      } else {
        assert f.hashOf(hist[i]) == h;
      }
    }
  }

  lemma HeightSaved(f: Format, hist: seq<Block>, n: nat, i: nat)
    requires i <= n <= |hist| && i < |hist|
    ensures HeightMap(f, hist, n)[i := f.hashOf(hist[i])] == HeightMap(f, hist, if i == n then n + 1 else n)
  {
  }

  /** The database keeps describing the same prefix when the history grows behind it. */
  lemma SavedPersists(f: Format, hist: seq<Block>, b: Block, n: nat, db: Image)
    requires n <= |hist| && Saved(f, hist, n, db)
    ensures Saved(f, hist + [b], n, db)
  {
    var longer, m := hist + [b], DecodePlaces(db.txs);
    assert forall i :: 0 <= i < n ==> longer[i] == hist[i];
    assert HeightMap(f, hist, n) == HeightMap(f, longer, n);
    PlacedPersists(f, hist, b, n, m);
  }

  lemma PlacedPersists(f: Format, hist: seq<Block>, b: Block, n: nat, m: map<Hash, TxPlace>)
    requires n <= |hist| && Placed(f, hist, 0, n, 0, 0, m)
    ensures Placed(f, hist + [b], 0, n, 0, 0, m)
  {
    var longer := hist + [b];
    forall p | IsPlace(f, longer, p) && Covers(0, n, 0, 0, p)
      ensures NameAt(f, longer, p) in m
    {
      PlaceGrows(f, hist, b, p);
    }
    forall h | h in m
      ensures PlacedAt(f, longer, 0, n, 0, 0, h, m[h])
    {
      assert PlacedAt(f, hist, 0, n, 0, 0, h, m[h]);
      PlaceGrows(f, hist, b, m[h]);
    }
  }

  // ---------------------------------------------------------------- what comes back from the database

  /** The block with this hash, if there is one, survives its own bytes. */
  ghost predicate Reloads(f: Format, hist: seq<Block>, h: Hash) {
    forall i :: 0 <= i < |hist| && f.hashOf(hist[i]) == h ==> Storable(f, hist[i])
  }

  /** Every block that has this transaction survives its own bytes. */
  ghost predicate TxReloads(f: Format, hist: seq<Block>, h: Hash) {
    forall p :: IsPlace(f, hist, p) && NameAt(f, hist, p) == h ==> Storable(f, hist[p.height])
  }

  /** A cached block is known, and answers for its hash if its bytes could be trusted. */
  ghost predicate BlocksCached(f: Format, hist: seq<Block>, m: map<Hash, Block>) {
    forall h :: h in m ==> BlockCached(f, hist, h, m[h])
  }

  ghost predicate BlockCached(f: Format, hist: seq<Block>, h: Hash, b: Block) {
    !AnswersBlock(f, hist, h, None) && (Reloads(f, hist, h) ==> AnswersBlock(f, hist, h, Some(b)))
  }

  ghost predicate TxsCached(f: Format, hist: seq<Block>, m: map<Hash, TxAnswer>) {
    forall h :: h in m ==> TxCached(f, hist, h, m[h])
  }

  ghost predicate TxCached(f: Format, hist: seq<Block>, h: Hash, a: TxAnswer) {
    !AnswersTx(f, hist, h, None) && (TxReloads(f, hist, h) ==> AnswersTx(f, hist, h, Some(a)))
  }

  lemma PlacedByMember(f: Format, hist: seq<Block>, lo: nat, hi: nat, m: map<Hash, TxPlace>, h: Hash)
    requires Placed(f, hist, lo, hi, 0, 0, m) && h in m
    ensures IsPlace(f, hist, m[h]) && lo <= m[h].height < hi
    ensures AnswersTx(f, hist, h, Some(TxAnswer(TxAt(f, hist, m[h]), m[h])))
  {
    assert PlacedAt(f, hist, lo, hi, 0, 0, h, m[h]);
  }

  lemma BlockCachedPersists(f: Format, hist: seq<Block>, b: Block, h: Hash, c: Block)
    requires BlockCached(f, hist, h, c)
    ensures BlockCached(f, hist + [b], h, c)
  {
    var longer := hist + [b];
    var i :| 0 <= i < |hist| && f.hashOf(hist[i]) == h;
    assert f.hashOf(longer[i]) == h;
    if Reloads(f, longer, h) {
      forall j | 0 <= j < |hist| && f.hashOf(hist[j]) == h
        ensures Storable(f, hist[j])
      {
        assert longer[j] == hist[j];
      }
    }
  }

  lemma TxCachedPersists(f: Format, hist: seq<Block>, b: Block, h: Hash, a: TxAnswer)
    requires TxCached(f, hist, h, a)
    ensures TxCached(f, hist + [b], h, a)
  {
    hide Storable;
    var longer := hist + [b];
    var p :| IsPlace(f, hist, p) && NameAt(f, hist, p) == h;
    PlaceGrows(f, hist, b, p);
    assert NameAt(f, longer, p) == h;
    if TxReloads(f, longer, h) {
      forall q | IsPlace(f, hist, q) && NameAt(f, hist, q) == h
        ensures Storable(f, hist[q.height])
      {
        PlaceGrows(f, hist, b, q);
        assert NameAt(f, longer, q) == h;
      }
      PlaceGrows(f, hist, b, a.place);
    }
  }

  /** What was cached stays right when the history grows. */
  lemma CachesPersist(f: Format, hist: seq<Block>, b: Block, blocks: map<Hash, Block>, txs: map<Hash, TxAnswer>)
    requires BlocksCached(f, hist, blocks) && TxsCached(f, hist, txs)
    ensures BlocksCached(f, hist + [b], blocks) && TxsCached(f, hist + [b], txs)
  {
    hide BlockCached, TxCached;
    forall h | h in blocks
      ensures BlockCached(f, hist + [b], h, blocks[h])
    {
      BlockCachedPersists(f, hist, b, h, blocks[h]);
    }
    forall h | h in txs
      ensures TxCached(f, hist + [b], h, txs[h])
    {
      TxCachedPersists(f, hist, b, h, txs[h]);
    }
  }

  // ---------------------------------------------------------------- all of it together

  /** The chain in memory and its indexes. */
  datatype Memory = Memory(
    chain: seq<Block>, blockByHash: map<Hash, Block>, txByHash: map<Hash, TxPlace>, blockHashByHeight: map<nat, Hash>)

  /** Memory holds exactly the blocks of the history from `lo` on. */
  ghost predicate InMemory(f: Format, hist: seq<Block>, lo: nat, mem: Memory)
    requires lo <= |hist|
  {
    && mem.chain == hist[lo..]
    && BlocksIndexed(f, hist, lo, |hist|, mem.blockByHash)
    && Placed(f, hist, lo, |hist|, 0, 0, mem.txByHash)
    && mem.blockHashByHeight == HeightMap(f, hist, |hist|)
  }

  /** Memory and database agree with the history, and together they hold all of it. */
  ghost predicate Agrees(f: Format, hist: seq<Block>, lo: nat, n: nat, mem: Memory, db: Image) {
    lo <= n <= |hist| && IsHistory(f, hist) && InMemory(f, hist, lo, mem) && Saved(f, hist, n, db)
  }

  /** Wherever a block is found by its hash, it is the block of the history; where it is nowhere, there is none. */
  lemma LookupBlock(f: Format, hist: seq<Block>, lo: nat, n: nat, mem: Memory, db: Image, h: Hash)
    requires Agrees(f, hist, lo, n, mem, db)
    ensures h in mem.blockByHash ==> AnswersBlock(f, hist, h, Some(mem.blockByHash[h]))
    ensures h in db.blocks ==> !AnswersBlock(f, hist, h, None)
    ensures h in db.blocks && Reloads(f, hist, h) ==>
              f.decode(db.blocks[h]).Some? && AnswersBlock(f, hist, h, f.decode(db.blocks[h]))
    ensures h !in mem.blockByHash && h !in db.blocks ==> AnswersBlock(f, hist, h, None)
  {
    hide Placed, HeightMap, BlocksDistinct;
    if h in db.blocks {
      BlockInDatabase(f, hist, n, db, h);
    }
  }

  lemma BlockKnown(f: Format, hist: seq<Block>, lo: nat, n: nat, mem: Memory, db: Image, h: Hash)
    requires Agrees(f, hist, lo, n, mem, db)
    ensures h in mem.blockByHash || h in db.blocks <==> !AnswersBlock(f, hist, h, None)
  {
    hide Placed, HeightMap, BlocksDistinct;
    if h in db.blocks {
      BlockInDatabase(f, hist, n, db, h);
    }
  }

  /** The block at a height is in memory, or it is as readable as its own bytes are. */
  lemma HeightReloads(f: Format, hist: seq<Block>, lo: nat, n: nat, mem: Memory, db: Image, i: nat)
    requires Agrees(f, hist, lo, n, mem, db) && i < |hist|
    ensures lo <= i ==> f.hashOf(hist[i]) in mem.blockByHash
    ensures Storable(f, hist[i]) ==> Reloads(f, hist, f.hashOf(hist[i]))
  {
    hide Placed, HeightMap, Storable;
    forall j | 0 <= j < |hist| && f.hashOf(hist[j]) == f.hashOf(hist[i])
      ensures j == i
    {
      assert SameBlockName(f, hist, i, j);
    }
  }

  lemma LastInMemory(f: Format, hist: seq<Block>, lo: nat, n: nat, mem: Memory, db: Image)
    requires Agrees(f, hist, lo, n, mem, db) && mem.chain != []
    ensures hist != [] && mem.chain[|mem.chain| - 1] == hist[|hist| - 1]
  {
  }

  lemma BlockInDatabase(f: Format, hist: seq<Block>, n: nat, db: Image, h: Hash)
    requires n <= |hist| && BlocksSaved(f, hist, n, db.blocks) && h in db.blocks
    ensures !AnswersBlock(f, hist, h, None)
    ensures Reloads(f, hist, h) ==> f.decode(db.blocks[h]).Some? && AnswersBlock(f, hist, h, f.decode(db.blocks[h]))
  {
    var i :| 0 <= i < n && f.hashOf(hist[i]) == h;
    assert db.blocks[h] == f.encode(hist[i]);
  }

  lemma TxInMemory(f: Format, hist: seq<Block>, lo: nat, mem: Memory, h: Hash)
    requires lo <= |hist| && InMemory(f, hist, lo, mem) && h in mem.txByHash
    ensures var p := mem.txByHash[h];
            && p.blockHash in mem.blockByHash && p.index < |mem.blockByHash[p.blockHash].txs|
            && AnswersTx(f, hist, h, Some(TxAnswer(mem.blockByHash[p.blockHash].txs[p.index], p)))
  {
    PlacedByMember(f, hist, lo, |hist|, mem.txByHash, h);
    assert mem.blockByHash[mem.txByHash[h].blockHash] == hist[mem.txByHash[h].height];
  }

  lemma TxInDatabase(f: Format, hist: seq<Block>, n: nat, db: Image, h: Hash)
    requires n <= |hist| && Saved(f, hist, n, db) && h in db.txs
    ensures var p := DecodePlace(db.txs[h]);
            && IsPlace(f, hist, p) && NameAt(f, hist, p) == h && p.blockHash in db.blocks
            && (TxReloads(f, hist, h) ==>
                  && f.extract(db.blocks[p.blockHash], p.index).Some?
                  && AnswersTx(f, hist, h, Some(TxAnswer(f.extract(db.blocks[p.blockHash], p.index).value, p))))
  {
    hide DecodePlace, BlocksDistinct, HeightMap;
    PlacedByMember(f, hist, 0, n, DecodePlaces(db.txs), h);
    var p := DecodePlace(db.txs[h]);
    assert db.blocks[p.blockHash] == f.encode(hist[p.height]);
  }

  lemma TxNowhere(f: Format, hist: seq<Block>, lo: nat, n: nat, mem: Memory, db: Image, h: Hash)
    requires lo <= n <= |hist| && InMemory(f, hist, lo, mem) && Saved(f, hist, n, db)
    requires h !in mem.txByHash && h !in db.txs
    ensures AnswersTx(f, hist, h, None)
  {
    hide DecodePlace, BlocksIndexed, BlocksSaved, HeightMap;
    assert h !in DecodePlaces(db.txs);
    forall p | IsPlace(f, hist, p)
      ensures NameAt(f, hist, p) != h
    {
      assert Covers(lo, |hist|, 0, 0, p) || Covers(0, n, 0, 0, p);
    }
  }

  /** The same for a transaction, with the block that has to be opened to get at it. */
  lemma LookupTx(f: Format, hist: seq<Block>, lo: nat, n: nat, mem: Memory, db: Image, h: Hash)
    requires Agrees(f, hist, lo, n, mem, db)
    ensures h in mem.txByHash ==>
              var p := mem.txByHash[h];
              && p.blockHash in mem.blockByHash && p.index < |mem.blockByHash[p.blockHash].txs|
              && AnswersTx(f, hist, h, Some(TxAnswer(mem.blockByHash[p.blockHash].txs[p.index], p)))
    ensures h in db.txs ==> DecodePlace(db.txs[h]).blockHash in db.blocks
    ensures h in db.txs && TxReloads(f, hist, h) ==>
              var p := DecodePlace(db.txs[h]);
              && f.extract(db.blocks[p.blockHash], p.index).Some?
              && AnswersTx(f, hist, h, Some(TxAnswer(f.extract(db.blocks[p.blockHash], p.index).value, p)))
    ensures h in mem.txByHash || h in db.txs <==> !AnswersTx(f, hist, h, None)
  {
    hide IsHistory, InMemory, Saved, AnswersTx, DecodePlace, TxReloads;
    if h in mem.txByHash {
      TxInMemory(f, hist, lo, mem, h);
      var p := mem.txByHash[h];
      FoundOrNone(f, hist, h, TxAnswer(mem.blockByHash[p.blockHash].txs[p.index], p));
    }
    if h in db.txs {
      TxInDatabase(f, hist, n, db, h);
      PlaceOrNone(f, hist, h, DecodePlace(db.txs[h]));
    }
    if h !in mem.txByHash && h !in db.txs {
      TxNowhere(f, hist, lo, n, mem, db, h);
    }
  }

  lemma PlaceOrNone(f: Format, hist: seq<Block>, h: Hash, p: TxPlace)
    requires IsPlace(f, hist, p) && NameAt(f, hist, p) == h
    ensures !AnswersTx(f, hist, h, None)
  {
  }

  lemma FoundOrNone(f: Format, hist: seq<Block>, h: Hash, a: TxAnswer)
    requires AnswersTx(f, hist, h, Some(a))
    ensures !AnswersTx(f, hist, h, None)
  {
    assert NameAt(f, hist, a.place) == h;
  }

  /** A transaction is in memory, in the cache or in the database exactly when the history has it. */
  lemma TxKnown(f: Format, hist: seq<Block>, lo: nat, n: nat, mem: Memory, db: Image, cached: map<Hash, TxAnswer>,
                h: Hash)
    requires Agrees(f, hist, lo, n, mem, db) && TxsCached(f, hist, cached)
    ensures h in mem.txByHash || h in cached || h in db.txs <==> !AnswersTx(f, hist, h, None)
  {
    hide Agrees, AnswersTx, DecodePlace, TxReloads;
    LookupTx(f, hist, lo, n, mem, db, h);
    assert h in cached ==> TxCached(f, hist, h, cached[h]);
  }

  /** Memory after a block was entered behind the others. */
  function Back(f: Format, mem: Memory, b: Block): Memory {
    Memory(mem.chain + [b], Inserted(mem.blockByHash, f.hashOf(b), b), Entered(f, b, |b.txs|, mem.txByHash),
           Inserted(mem.blockHashByHeight, b.nHeight, f.hashOf(b)))
  }

  /** Memory after a block was entered before the others. */
  function Front(f: Format, mem: Memory, b: Block): Memory {
    Memory([b] + mem.chain, Inserted(mem.blockByHash, f.hashOf(b), b), Entered(f, b, |b.txs|, mem.txByHash),
           Inserted(mem.blockHashByHeight, b.nHeight, f.hashOf(b)))
  }

  /** A fresh block behind the last one: memory agrees with the longer history. */
  lemma BackAgrees(f: Format, hist: seq<Block>, lo: nat, n: nat, mem: Memory, db: Image, b: Block)
    requires Agrees(f, hist, lo, n, mem, db) && Fresh(f, hist, b)
    requires hist != [] && Follows(f, hist[|hist| - 1], b)
    ensures Agrees(f, hist + [b], lo, n, Back(f, mem, b), db) && Back(f, mem, b).chain != []
  {
    hide Placed, BlocksIndexed, HeightMap, Saved, Entered;
    var longer := hist + [b];
    HistoryGrows(f, hist, b);
    SavedPersists(f, hist, b, n, db);
    PlacedBeforeGrowth(f, hist, b, lo, mem.txByHash);
    assert b.nHeight == |hist| && longer[|hist|] == b;
    BlockPlaced(f, longer, lo, |hist|, b, |b.txs|, mem.txByHash);
    InMemoryAfterLast(f, hist, lo, mem, b, Entered(f, b, |b.txs|, mem.txByHash));
  }

  lemma InMemoryAfterLast(f: Format, hist: seq<Block>, lo: nat, mem: Memory, b: Block, places: map<Hash, TxPlace>)
    requires lo <= |hist| && InMemory(f, hist, lo, mem) && BlocksDistinct(f, hist + [b]) && b.nHeight == |hist|
    requires Placed(f, hist + [b], lo, |hist|, |hist|, |b.txs|, places)
    ensures InMemory(f, hist + [b], lo,
                     Memory(mem.chain + [b], Inserted(mem.blockByHash, f.hashOf(b), b), places,
                            Inserted(mem.blockHashByHeight, b.nHeight, f.hashOf(b))))
  {
    hide BlocksIndexed, BlocksDistinct, Placed;
    var longer := hist + [b];
    assert BlocksIndexed(f, longer, lo, |longer|, Inserted(mem.blockByHash, f.hashOf(b), b)) by {
      BlockIndexGrows(f, hist, b, lo, mem.blockByHash);
    }
    assert Placed(f, longer, lo, |longer|, 0, 0, places) by {
      PlacedLast(f, hist, b, lo, places);
    }
    assert Inserted(mem.blockHashByHeight, b.nHeight, f.hashOf(b)) == HeightMap(f, longer, |longer|);
    assert mem.chain + [b] == longer[lo..];
  }

  lemma PlacedLast(f: Format, hist: seq<Block>, b: Block, lo: nat, m: map<Hash, TxPlace>)
    requires lo <= |hist| && Placed(f, hist + [b], lo, |hist|, |hist|, |b.txs|, m)
    ensures Placed(f, hist + [b], lo, |hist| + 1, 0, 0, m)
  {
    PlacedAlike(f, hist + [b], lo, |hist|, |hist|, |b.txs|, lo, |hist| + 1, 0, 0, m);
  }

  /** The block before the first one: memory agrees with the history from it on. */
  lemma FrontAgrees(f: Format, hist: seq<Block>, lo: nat, n: nat, mem: Memory, db: Image)
    requires Agrees(f, hist, lo, n, mem, db) && lo >= 1
    ensures Agrees(f, hist, lo - 1, n, Front(f, mem, hist[lo - 1]), db)
  {
    hide Placed, BlocksIndexed, HeightMap, Saved, Entered;
    var b := hist[lo - 1];
    assert b.nHeight == lo - 1;
    PlacedAlike(f, hist, lo, |hist|, 0, 0, lo, |hist|, lo - 1, 0, mem.txByHash);
    BlockPlaced(f, hist, lo, |hist|, b, |b.txs|, mem.txByHash);
    InMemoryAfterFirst(f, hist, lo, mem, Entered(f, b, |b.txs|, mem.txByHash));
  }

  lemma InMemoryAfterFirst(f: Format, hist: seq<Block>, lo: nat, mem: Memory, places: map<Hash, TxPlace>)
    requires 1 <= lo <= |hist| && InMemory(f, hist, lo, mem)
    requires BlocksDistinct(f, hist) && hist[lo - 1].nHeight == lo - 1
    requires Placed(f, hist, lo, |hist|, lo - 1, |hist[lo - 1].txs|, places)
    ensures var b := hist[lo - 1];
            InMemory(f, hist, lo - 1,
                     Memory([b] + mem.chain, Inserted(mem.blockByHash, f.hashOf(b), b), places,
                            Inserted(mem.blockHashByHeight, b.nHeight, f.hashOf(b))))
  {
    hide BlocksIndexed, BlocksDistinct, Placed;
    var b := hist[lo - 1];
    BlockIndexGrowsFront(f, hist, lo, mem.blockByHash);
    PlacedFirst(f, hist, lo, places);
    assert [b] + mem.chain == hist[lo - 1..];
    assert Inserted(mem.blockHashByHeight, b.nHeight, f.hashOf(b)) == mem.blockHashByHeight by {
      HeightKnown(f, hist, lo - 1);
    }
  }

  lemma PlacedFirst(f: Format, hist: seq<Block>, lo: nat, m: map<Hash, TxPlace>)
    requires 1 <= lo <= |hist| && Placed(f, hist, lo, |hist|, lo - 1, |hist[lo - 1].txs|, m)
    ensures Placed(f, hist, lo - 1, |hist|, 0, 0, m)
  {
    hide Placed;
    PlacedAlike(f, hist, lo, |hist|, lo - 1, |hist[lo - 1].txs|, lo - 1, |hist|, 0, 0, m);
  }

  lemma HeightKnown(f: Format, hist: seq<Block>, i: nat)
    requires i < |hist|
    ensures i in HeightMap(f, hist, |hist|)
  {
  }

  /** Append a block; one with the wrong parent or height is refused and changes nothing. */
  method PushBack(f: Format, mem: Memory, b: Block) returns (ok: bool, after: Memory)
    ensures ok <==> mem.chain == [] || (var last := mem.chain[|mem.chain| - 1];
                                        b.prevBlockHash == f.hashOf(last) && b.nHeight == last.nHeight + 1)
    ensures after == if ok then Back(f, mem, b) else mem
  {
    if |mem.chain| != 0 {
      var last := mem.chain[|mem.chain| - 1];
      if f.hashOf(last) != b.prevBlockHash {
        return false, mem;
      }
      if b.nHeight != last.nHeight + 1 {
        return false, mem;
      }
    }
    ok := true;
    var places := IndexTxs(f, b, mem.txByHash);
    after := Memory(mem.chain + [b], Inserted(mem.blockByHash, f.hashOf(b), b), places,
                    Inserted(mem.blockHashByHeight, b.nHeight, f.hashOf(b)));
  }

  // ---------------------------------------------------------------- writing and reading the database

  ghost predicate IsGenesis(f: Format, genesis: Block) {
    genesis.nHeight == 0 && genesis.txs == []
  }

  /** What a fresh database is initialized with. */
  function GenesisImage(f: Format, genesis: Block): Image {
    Image(map[f.hashOf(genesis) := f.encode(genesis)], Some(f.encode(genesis)),
          map[genesis.nHeight := f.hashOf(genesis)], map[])
  }

  lemma GenesisSaved(f: Format, genesis: Block)
    requires IsGenesis(f, genesis)
    ensures IsHistory(f, [genesis]) && Saved(f, [genesis], 1, GenesisImage(f, genesis))
  {
    var hist := [genesis];
    assert forall p :: !IsPlace(f, hist, p);
    assert DecodePlaces(map[]) == map[];
    assert f.hashOf(hist[0]) == f.hashOf(genesis);
    assert HeightMap(f, hist, 1) == map[0 := f.hashOf(genesis)];
  }

  /** Write a block, its height and its transactions. */
  method SaveBlock(f: Format, b: Block, db: Image, ghost hist: seq<Block>, ghost n: nat)
    returns (r: Image)
    requires IsHistory(f, hist) && n <= |hist| && BodySaved(f, hist, n, db)
    requires b.nHeight < |hist| && b == hist[b.nHeight] && b.nHeight <= n
    ensures BodySaved(f, hist, if b.nHeight == n then n + 1 else n, r)
  {
    ghost var n' := if b.nHeight == n then n + 1 else n;
    BlockSaved(f, hist, n, b.nHeight, db.blocks);
    HeightSaved(f, hist, n, b.nHeight);
    PlacedAlike(f, hist, 0, n, 0, 0, 0, n, b.nHeight, 0, DecodePlaces(db.txs));
    BlockPlaced(f, hist, 0, n, b, |b.txs|, DecodePlaces(db.txs));
    var txs := SaveTxs(f, b, db.txs);
    PlacedAlike(f, hist, 0, n, b.nHeight, |b.txs|, 0, n', 0, 0, DecodePlaces(txs));
    r := Image(db.blocks[f.hashOf(b) := f.encode(b)], db.latest, db.heights[b.nHeight := f.hashOf(b)], txs);
  }

  /** Create the genesis block where the database has no latest block. */
  method Initialize(f: Format, image: Image, genesis: Block, ghost hist: seq<Block>) returns (r: Image)
    requires image.latest.None? ==> image == NO_IMAGE && IsGenesis(f, genesis) && hist == [genesis]
    requires image.latest.Some? ==> IsHistory(f, hist) && Saved(f, hist, |hist|, image)
    ensures IsHistory(f, hist) && Saved(f, hist, |hist|, r)
  {
    if image.latest.Some? {
      r := image;
    } else {
      GenesisSaved(f, genesis);
      r := GenesisImage(f, genesis);
    }
  }

  /** `b` may stand before the first block in memory: that block's parent, one below it. */
  predicate Precedes(f: Format, mem: Memory, b: Block) {
    mem.chain == [] || (mem.chain[0].prevBlockHash == f.hashOf(b) && b.nHeight + 1 == mem.chain[0].nHeight)
  }

  /** Put an older block in front; one that is not the parent of the first block is refused and changes nothing. */
  method PushFront(f: Format, mem: Memory, b: Block) returns (ok: bool, after: Memory)
    ensures ok <==> mem.chain == [] || (mem.chain[0].prevBlockHash == f.hashOf(b)
                                        && b.nHeight + 1 == mem.chain[0].nHeight)
    ensures after == if ok then Front(f, mem, b) else mem
  {
    if |mem.chain| != 0 {
      if mem.chain[0].prevBlockHash != f.hashOf(b) {
        return false, mem;
      }
      if b.nHeight != mem.chain[0].nHeight - 1 {
        return false, mem;
      }
    }
    ok := true;
    var places := IndexTxs(f, b, mem.txByHash);
    after := Memory([b] + mem.chain, Inserted(mem.blockByHash, f.hashOf(b), b), places,
                    Inserted(mem.blockHashByHeight, b.nHeight, f.hashOf(b)));
  }

  const RECENT: nat := 500

  /** The blocks that are loaded into memory survive their own bytes. */
  ghost predicate Loadable(f: Format, hist: seq<Block>) {
    forall i :: 0 <= i < |hist| <= i + RECENT + 1 ==> Storable(f, hist[i])
  }

  lemma LoadedPrecedes(f: Format, hist: seq<Block>, lo: nat, mem: Memory)
    requires IsHistory(f, hist) && 1 <= lo <= |hist| && mem.chain == hist[lo..]
    ensures Precedes(f, mem, hist[lo - 1])
  {
    assert lo < |hist| ==> LinkedAt(f, hist, lo);
  }

  /** What a block that survives its bytes is read back as. */
  lemma ReadBack(f: Format, hist: seq<Block>, db: Image, i: nat)
    requires Saved(f, hist, |hist|, db) && i < |hist| && Storable(f, hist[i])
    ensures i in db.heights && db.heights[i] in db.blocks && f.decode(db.blocks[db.heights[i]]) == Some(hist[i])
  {
    assert f.hashOf(hist[i]) in db.blocks;
  }

  /** Read the block at a height; `None` when there is none or its bytes cannot be decoded. */
  method BlockOf(f: Format, db: Image, height: nat) returns (b: Option<Block>)
    ensures height in db.heights && db.heights[height] in db.blocks ==> b == f.decode(db.blocks[db.heights[height]])
  {
    if height !in db.heights || db.heights[height] !in db.blocks {
      return None;
    }
    b := f.decode(db.blocks[db.heights[height]]);
  }

  /** The height of the first block that is loaded from a history of `n` blocks. */
  function FirstLoaded(n: nat): nat {
    if n <= RECENT + 1 then 0 else n - RECENT - 1
  }

  /** Load the latest block and up to 500 blocks before it; `None` when one of them cannot be read back. */
  method LoadMemory(f: Format, db: Image, ghost hist: seq<Block>) returns (r: Option<Memory>)
    requires IsHistory(f, hist) && Saved(f, hist, |hist|, db)
    ensures Loadable(f, hist) ==>
              && r.Some? && r.value.chain != [] && Agrees(f, hist, FirstLoaded(|hist|), |hist|, r.value, db)
              && |r.value.chain| == |hist| - FirstLoaded(|hist|)
  {
    hide Agrees, Saved, IsHistory, Storable, Front, Precedes;
    var mem := Memory([], map[], map[], db.heights);
    ghost var lo := |hist|;
    LoadingStarts(f, hist, db);
    var latest := f.decode(db.latest.value);
    if latest.None? {
      return None;
    }
    var depth: nat := latest.value.nHeight;
    var i := 0;
    while i <= RECENT && i <= depth
      invariant i <= depth + 1 && i <= RECENT + 1
      invariant Loadable(f, hist) ==> depth == |hist| - 1 && lo == depth + 1 - i && |mem.chain| == i
      invariant Loadable(f, hist) ==> Agrees(f, hist, lo, |hist|, mem, db)
    {
      var b := BlockOf(f, db, depth - i);
      if Loadable(f, hist) {
        LoadingGoesOn(f, hist, lo, mem, db);
      }
      if b.None? {
        return None;
      }
      var ok;
      ok, mem := PushFront(f, mem, b.value);
      if !ok {
        return None;
      }
      if lo > 0 {
        lo := lo - 1;
      }
      i := i + 1;
    }
    r := Some(mem);
  }

  lemma LoadingStarts(f: Format, hist: seq<Block>, db: Image)
    requires IsHistory(f, hist) && Saved(f, hist, |hist|, db)
    ensures db.latest.Some? && Agrees(f, hist, |hist|, |hist|, Memory([], map[], map[], db.heights), db)
    ensures Loadable(f, hist) ==>
              f.decode(db.latest.value).Some? && f.decode(db.latest.value).value.nHeight == |hist| - 1
  {
    assert Loadable(f, hist) ==> Storable(f, hist[|hist| - 1]);
  }

  lemma LoadingGoesOn(f: Format, hist: seq<Block>, lo: nat, mem: Memory, db: Image)
    requires Loadable(f, hist) && Agrees(f, hist, lo, |hist|, mem, db) && 1 <= lo && |hist| <= lo + RECENT
    ensures lo - 1 in db.heights && db.heights[lo - 1] in db.blocks
    ensures f.decode(db.blocks[db.heights[lo - 1]]) == Some(hist[lo - 1])
    ensures mem.chain == [] || (mem.chain[0].prevBlockHash == f.hashOf(hist[lo - 1])
                                && hist[lo - 1].nHeight + 1 == mem.chain[0].nHeight)
    ensures Agrees(f, hist, lo - 1, |hist|, Front(f, mem, hist[lo - 1]), db)
    ensures |Front(f, mem, hist[lo - 1]).chain| == |mem.chain| + 1
  {
    hide IsHistory, Saved, Placed, BlocksIndexed, HeightMap;
    assert Storable(f, hist[lo - 1]);
    ReadBack(f, hist, db, lo - 1);
    LoadedPrecedes(f, hist, lo, mem);
    FrontAgrees(f, hist, lo, |hist|, mem, db);
  }

  lemma LatestWritten(f: Format, hist: seq<Block>, db: Image)
    requires hist != [] && BodySaved(f, hist, |hist|, db)
    ensures Saved(f, hist, |hist|, db.(latest := Some(f.encode(hist[|hist| - 1]))))
  {
  }

  /** Write the blocks in memory behind those already written, then the latest one under its own name. */
  method SaveMemory(f: Format, mem: Memory, db: Image, ghost hist: seq<Block>, ghost lo: nat, ghost n: nat)
    returns (image: Image)
    requires Agrees(f, hist, lo, n, mem, db) && mem.chain != []
    ensures Saved(f, hist, |hist|, image)
  {
    hide BodySaved, IsHistory, BlocksIndexed, Placed, HeightMap;
    image := SaveChain(f, mem.chain, db, hist, lo, n);
    LatestWritten(f, hist, image);
    image := image.(latest := Some(f.encode(mem.chain[|mem.chain| - 1])));
  }

  method SaveChain(f: Format, chain: seq<Block>, db: Image, ghost hist: seq<Block>, ghost lo: nat, ghost n: nat)
    returns (image: Image)
    requires IsHistory(f, hist) && lo <= n <= |hist| && chain == hist[lo..] && BodySaved(f, hist, n, db)
    ensures BodySaved(f, hist, |hist|, image)
  {
    hide BodySaved, BlocksDistinct, Storable;
    image := db;
    ghost var done := n;
    for i := 0 to |chain|
      invariant lo + i <= done <= |hist| && BodySaved(f, hist, done, image)
    {
      assert chain[i] == hist[lo + i] && chain[i].nHeight == lo + i;
      image := SaveBlock(f, chain[i], image, hist, done);
      done := if chain[i].nHeight == done then done + 1 else done;
    }
  }
}
