/** The storage of a node: the recent chain, its indexes, the read caches and the database behind them. */
module Storage {
  import opened Bytes
  import opened Blocks
  import opened Ledger
  import opened StorageIndexes

  datatype Status = NotFound | OnChain | OnCache | OnDb

  /** `Broken` stands for the exception thrown when stored bytes cannot be decoded. */
  datatype Reply<T> = Found(value: T) | Missing | Broken

  /** Missing exactly when there is no such block; the right one where its bytes need not or can be trusted. */
  ghost predicate RepliesBlock(f: Format, hist: seq<Block>, h: Hash, sure: bool, r: Reply<Block>) {
    && (r.Missing? <==> AnswersBlock(f, hist, h, None))
    && (sure ==> !r.Broken? && (r.Found? ==> AnswersBlock(f, hist, h, Some(r.value))))
  }

  ghost predicate RepliesTx(f: Format, hist: seq<Block>, h: Hash, sure: bool, r: Reply<TxAnswer>) {
    && (r.Missing? <==> AnswersTx(f, hist, h, None))
    && (sure ==> !r.Broken? && (r.Found? ==> AnswersTx(f, hist, h, Some(r.value))))
  }

  class Storage {
    const format: Format
    var mem: Memory
    var cachedBlocks: map<Hash, Block>
    var cachedTxs: map<Hash, TxAnswer>
    var db: Image

    /** Every block ever pushed; the first one in memory; how many of them the database holds. */
    ghost var history: seq<Block>
    ghost var first: nat
    ghost var saved: nat

    /** Memory holds the history from `first` on; whatever is not there is in the database. */
    ghost predicate Valid()
      reads this`mem, this`db, this`history, this`first, this`saved
    {
      mem.chain != [] && Agrees(format, history, first, saved, mem, db)
    }

    ghost predicate CachesOk()
      reads this`cachedBlocks, this`cachedTxs, this`history
    {
      BlocksCached(format, history, cachedBlocks) && TxsCached(format, history, cachedTxs)
    }

    // -------------------------------------------------------------- looking up blocks

    method BlockExists(hash: Hash) returns (status: Status)
      requires Valid() && CachesOk()
      ensures status == NotFound <==> AnswersBlock(format, history, hash, None)
      ensures status != NotFound ==> FoundAt(hash, status)
      ensures status != OnChain ==> hash !in mem.blockByHash
    {
      hide Agrees, TxsCached, AnswersBlock, Reloads;
      BlockKnown(format, history, first, saved, mem, db, hash);
      assert hash in cachedBlocks ==> BlockCached(format, history, hash, cachedBlocks[hash]);
      LookupBlock(format, history, first, saved, mem, db, hash);
      if hash in mem.blockByHash {
        return OnChain;
      } else if hash in cachedBlocks {
        return OnCache;
      } else if hash in db.blocks {
        return OnDb;
      } else {
        return NotFound;
      }
    }

    /** Read a block from the database into the cache. */
    method CacheBlock(hash: Hash) returns (b: Option<Block>)
      requires Valid() && CachesOk() && hash in db.blocks
      modifies this`cachedBlocks
      ensures Valid() && CachesOk()
      ensures Reloads(format, history, hash) ==> b.Some? && AnswersBlock(format, history, hash, b)
    {
      hide Agrees, TxsCached, AnswersBlock, Reloads;
      LookupBlock(format, history, first, saved, mem, db, hash);
      b := format.decode(db.blocks[hash]);
      if b.Some? {
        cachedBlocks := Inserted(cachedBlocks, hash, b.value);
        assert BlockCached(format, history, hash, cachedBlocks[hash]);
        b := Some(cachedBlocks[hash]);
      }
    }

    /** `status` says where the block with this hash can be found. */
    ghost predicate FoundAt(hash: Hash, status: Status)
      reads this`mem, this`cachedBlocks, this`db
    {
      match status
      case NotFound => false
      case OnChain => hash in mem.blockByHash
      case OnCache => hash in cachedBlocks
      case OnDb => hash in db.blocks
    }

    /** Fetch a block from where it was found. */
    method Fetch(hash: Hash, status: Status) returns (b: Option<Block>)
      requires Valid() && CachesOk() && FoundAt(hash, status)
      requires status != OnChain ==> hash !in mem.blockByHash
      modifies this`cachedBlocks
      ensures Valid() && CachesOk()
      ensures hash in mem.blockByHash || Reloads(format, history, hash) ==>
                b.Some? && AnswersBlock(format, history, hash, b)
    {
      hide Agrees, TxsCached, AnswersBlock, Reloads;
      match status
      case OnChain =>
        LookupBlock(format, history, first, saved, mem, db, hash);
        b := Some(mem.blockByHash[hash]);
      case OnCache =>
        assert BlockCached(format, history, hash, cachedBlocks[hash]);
        b := Some(cachedBlocks[hash]);
      case OnDb =>
        b := CacheBlock(hash);
    }

    /** A block by its hash; a block read from the database stays in the cache. */
    method GetBlock(hash: Hash) returns (r: Reply<Block>)
      requires Valid() && CachesOk()
      modifies this`cachedBlocks
      ensures Valid() && CachesOk()
      ensures RepliesBlock(format, history, hash, hash in mem.blockByHash || Reloads(format, history, hash), r)
    {
      hide Agrees, BlocksCached, TxsCached, AnswersBlock, Reloads;
      var status := BlockExists(hash);
      if status == NotFound {
        return Missing;
      }
      var b := Fetch(hash, status);
      r := if b.None? then Broken else Found(b.value);
    }

    method BlockExistsAt(height: nat) returns (status: Status)
      requires Valid() && CachesOk()
      ensures status == NotFound <==> height >= |history|
      ensures status != NotFound ==>
                height in mem.blockHashByHeight && mem.blockHashByHeight[height] == format.hashOf(history[height])
      ensures status != NotFound ==> FoundAt(mem.blockHashByHeight[height], status)
      ensures status != NotFound && status != OnChain ==> mem.blockHashByHeight[height] !in mem.blockByHash
    {
      if height in mem.blockHashByHeight {
        if mem.blockHashByHeight[height] in mem.blockByHash {
          return OnChain;
        }
        if mem.blockHashByHeight[height] in cachedBlocks {
          return OnCache;
        }
        return OnDb;
      } else {
        return NotFound;
      }
    }

    /** A block by its height: right if it is in memory or survives its own bytes. */
    method GetBlockAt(height: nat) returns (r: Reply<Block>)
      requires Valid() && CachesOk()
      modifies this`cachedBlocks
      ensures Valid() && CachesOk()
      ensures r.Missing? <==> height >= |history|
      ensures height < |history| && (first <= height || Storable(format, history[height])) ==>
                r == Found(history[height])
    {
      var status := BlockExistsAt(height);
      if status == NotFound {
        return Missing;
      }
      var hash := mem.blockHashByHeight[height];
      HeightReloads(format, history, first, saved, mem, db, height);
      var b := Fetch(hash, status);
      if b.None? {
        return Broken;
      }
      if AnswersBlock(format, history, hash, b) {
        AnswersAreUnique(format, history, hash, b, Some(history[height]));
      }
      r := Found(b.value);
    }

    // -------------------------------------------------------------- looking up transactions

    ghost predicate TxFoundAt(tx: Hash, status: Status)
      reads this`mem, this`cachedTxs, this`db
    {
      match status
      case NotFound => false
      case OnChain => tx in mem.txByHash
      case OnCache => tx in cachedTxs
      case OnDb => tx in db.txs
    }

    method TxExists(tx: Hash) returns (status: Status)
      requires Valid() && CachesOk()
      ensures status == NotFound <==> AnswersTx(format, history, tx, None)
      ensures status != NotFound ==> TxFoundAt(tx, status)
      ensures status != OnChain ==> tx !in mem.txByHash
    {
      hide Agrees, TxsCached, BlocksCached, AnswersTx;
      TxKnown(format, history, first, saved, mem, db, cachedTxs, tx);
      if tx in mem.txByHash {
        return OnChain;
      } else if tx in cachedTxs {
        return OnCache;
      } else if tx in db.txs {
        return OnDb;
      } else {
        return NotFound;
      }
    }

    /** A transaction of the chain in memory; its hash always matches, so the mismatch error is never raised. */
    method TxOnChain(tx: Hash) returns (a: TxAnswer)
      requires Valid() && tx in mem.txByHash
      ensures AnswersTx(format, history, tx, Some(a))
    {
      LookupTx(format, history, first, saved, mem, db, tx);
      var place := mem.txByHash[tx];
      var transaction := mem.blockByHash[place.blockHash].txs[place.index];
      assert format.txHashOf(transaction) == tx;
      a := TxAnswer(transaction, place);
    }

    /** Cut a transaction out of its stored block and keep it in the cache. */
    method CacheTx(tx: Hash) returns (a: Option<TxAnswer>)
      requires Valid() && CachesOk() && tx in db.txs
      modifies this`cachedTxs
      ensures Valid() && CachesOk()
      ensures TxReloads(format, history, tx) ==> a.Some? && AnswersTx(format, history, tx, a)
    {
      hide Agrees, BlocksCached, AnswersTx, DecodePlace, TxReloads;
      LookupTx(format, history, first, saved, mem, db, tx);
      var place := DecodePlace(db.txs[tx]);
      var transaction := format.extract(db.blocks[place.blockHash], place.index);
      if transaction.None? {
        return None;
      }
      cachedTxs := Inserted(cachedTxs, tx, TxAnswer(transaction.value, place));
      assert TxCached(format, history, tx, cachedTxs[tx]);
      a := Some(cachedTxs[tx]);
    }

    /** A transaction by its hash, with the place where it is. */
    method GetTx(tx: Hash) returns (r: Reply<TxAnswer>)
      requires Valid() && CachesOk()
      modifies this`cachedTxs
      ensures Valid() && CachesOk()
      ensures RepliesTx(format, history, tx, tx in mem.txByHash || TxReloads(format, history, tx), r)
    {
      hide Agrees, BlocksCached, AnswersTx, TxReloads;
      var status := TxExists(tx);
      var a: Option<TxAnswer>;
      match status {
        case NotFound =>
          return Missing;
        case OnChain =>
          var found := TxOnChain(tx);
          a := Some(found);
        case OnCache =>
          assert TxCached(format, history, tx, cachedTxs[tx]);
          a := Some(cachedTxs[tx]);
        case OnDb =>
          a := CacheTx(tx);
      }
      r := if a.None? then Broken else Found(a.value);
    }

    method Latest() returns (b: Block)
      requires Valid()
      ensures b == history[|history| - 1]
    {
      b := mem.chain[|mem.chain| - 1];
    }

    // -------------------------------------------------------------- adding blocks

    /** Append a block; one with the wrong parent or height is refused and changes nothing. */
    method PushBack(b: Block) returns (ok: bool)
      requires Valid() && CachesOk() && history != []
      requires Follows(format, history[|history| - 1], b) ==> Fresh(format, history, b)
      modifies this`mem, this`history
      ensures Valid() && CachesOk()
      ensures var last := old(history)[|old(history)| - 1];
              ok <==> b.prevBlockHash == format.hashOf(last) && b.nHeight == last.nHeight + 1
      ensures history == if ok then old(history) + [b] else old(history)
    {
      hide Agrees, Fresh, BlocksCached, TxsCached, Back;
      LastInMemory(format, history, first, saved, mem, db);
      var after;
      ok, after := StorageIndexes.PushBack(format, mem, b);
      if ok {
        BackAgrees(format, history, first, saved, mem, db, b);
        CachesPersist(format, history, b, cachedBlocks, cachedTxs);
        mem := after;
        history := history + [b];
      }
    }

    // -------------------------------------------------------------- restarting

    /** A storage with this much in memory. */
    constructor (format: Format, loaded: Memory, image: Image, ghost hist: seq<Block>, ghost lo: nat)
      ensures this.format == format && mem == loaded && db == image && history == hist && first == lo
      ensures saved == |hist| && CachesOk()
    {
      this.format := format;
      this.db := image;
      this.mem := loaded;
      this.cachedBlocks := map[];
      this.cachedTxs := map[];
      this.history := hist;
      this.first := lo;
      this.saved := |hist|;
    }

    /** Write every block of the chain and its transactions to the database, then the latest block. */
    method Shutdown() returns (image: Image)
      requires Valid()
      ensures Saved(format, history, |history|, image)
    {
      image := SaveMemory(format, mem, db, history, first, saved);
    }
  }

  /**
   * Load the chain from the database: its latest block and up to 500 blocks before it. `None` when one of these cannot
   * be decoded.
   */
  method Open(format: Format, image: Image, genesis: Block, ghost hist: seq<Block>) returns (t: Option<Storage>)
    requires image.latest.None? ==> image == NO_IMAGE && IsGenesis(format, genesis) && hist == [genesis]
    requires image.latest.Some? ==> IsHistory(format, hist) && Saved(format, hist, |hist|, image)
    ensures Loadable(format, hist) ==>
              && t.Some? && t.value.Valid() && t.value.CachesOk()
              && t.value.format == format && t.value.history == hist
              && |t.value.mem.chain| == if |hist| <= 501 then |hist| else 501
  {
    hide Agrees, Saved, IsHistory, IsGenesis, Loadable, BlocksCached, TxsCached;
    var ready := Initialize(format, image, genesis, hist);
    var loaded := LoadMemory(format, ready, hist);
    if loaded.None? {
      return None;
    }
    var storage := new Storage(format, loaded.value, ready, hist, FirstLoaded(|hist|));
    t := Some(storage);
  }

  /** Restarting keeps the history, whatever was in memory and in the caches, if recent blocks survive their bytes. */
  method Restart(s: Storage, genesis: Block) returns (t: Option<Storage>)
    requires s.Valid()
    ensures Loadable(s.format, s.history) ==>
              && t.Some? && t.value.Valid() && t.value.CachesOk()
              && t.value.format == s.format && t.value.history == s.history
  {
    var image := s.Shutdown();
    t := Open(s.format, image, genesis, s.history);
  }
}
