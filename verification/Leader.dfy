/** The ordered validator set and the random list drawn from it: who creates and who participates. */
module Leader {
  import opened Bytes
  import opened RandomGen

  /** The iteration order of a `std::set`: strictly ascending. */
  ghost predicate Ascending(s: seq<Address>) {
    forall i, j :: 0 <= i < j < |s| ==> Less(s[i], s[j])
  }

  /** Inserting into an ordered set; an element already there changes nothing. */
  function Insert(s: seq<Address>, a: Address): seq<Address> {
    if s == [] then [a]
    else if a == s[0] then s
    else if Less(a, s[0]) then [a] + s
    else [s[0]] + Insert(s[1..], a)
  }

  lemma {:induction false} InsertElements(s: seq<Address>, a: Address, x: Address)
    ensures x in Insert(s, a) <==> x in s || x == a
  {
    if s != [] && a != s[0] && !Less(a, s[0]) {
      InsertElements(s[1..], a, x);
      assert x in s <==> x == s[0] || x in s[1..];
    }
  }

  lemma {:induction false} InsertAscending(s: seq<Address>, a: Address)
    requires Ascending(s)
    ensures Ascending(Insert(s, a))
  {
    if s == [] || a == s[0] {
    } else if Less(a, s[0]) {
      forall j | 0 <= j < |s|
        ensures Less(a, s[j])
      {
        if j > 0 {
          LessTransitive(a, s[0], s[j]);
        }
      }
    } else {
      LessTotal(a, s[0]);
      var rest := Insert(s[1..], a);
      InsertAscending(s[1..], a);
      forall j | 0 <= j < |rest|
        ensures Less(s[0], rest[j])
      {
        InsertElements(s[1..], a, rest[j]);
      }
    }
  }

  /** Two ascending lists with the same elements are the same list. */
  lemma {:induction false} AscendingUnique(s: seq<Address>, t: seq<Address>)
    requires Ascending(s) && Ascending(t)
    requires forall x :: x in s <==> x in t
    ensures s == t
  {
    assert s != [] ==> s[0] in t;
    assert t != [] ==> t[0] in s;
    if s != [] {
      SameHead(s, t);
      forall x | true
        ensures x in s[1..] <==> x in t[1..]
      {
        HeadNotInTail(s);
        HeadNotInTail(t);
        assert x in s <==> x == s[0] || x in s[1..];
        assert x in t <==> x == t[0] || x in t[1..];
      }
      AscendingUnique(s[1..], t[1..]);
      assert s == [s[0]] + s[1..] && t == [t[0]] + t[1..];
    }
  }

  lemma SameHead(s: seq<Address>, t: seq<Address>)
    requires Ascending(s) && Ascending(t) && s != [] && t != []
    requires forall x :: x in s <==> x in t
    ensures s[0] == t[0]
  {
    assert s[0] in t && t[0] in s;
    var j :| 0 <= j < |t| && t[j] == s[0];
    var k :| 0 <= k < |s| && s[k] == t[0];
    LessTotal(s[0], t[0]);
  }

  lemma HeadNotInTail(s: seq<Address>)
    requires Ascending(s) && s != []
    ensures s[0] !in s[1..]
  {
    forall j | 1 <= j < |s|
      ensures s[j] != s[0]
    {
      LessTotal(s[0], s[j]);
    }
  }

  lemma AscendingDistinct(s: seq<Address>)
    requires Ascending(s)
    ensures Distinct(s)
  {
    forall i, j | 0 <= i < j < |s|
      ensures s[i] != s[j]
    {
      LessTotal(s[i], s[j]);
    }
  }

  // ---------------------------------------------------------------- loading and saving

  /** Inserting the stored entries one after the other, in whatever order they are read. */
  method LoadValidators(entries: seq<Address>) returns (validators: seq<Address>)
    ensures Ascending(validators)
    ensures forall a :: a in validators <==> a in entries
  {
    validators := [];
    for i := 0 to |entries|
      invariant Ascending(validators)
      invariant forall a :: a in validators <==> a in entries[..i]
    {
      InsertAscending(validators, entries[i]);
      forall a | true
        ensures a in Insert(validators, entries[i]) <==> a in entries[..i + 1]
      {
        InsertElements(validators, entries[i], a);
      }
      validators := Insert(validators, entries[i]);
    }
    assert entries[..|entries|] == entries;
  }

  /** Shutting down writes the validators under their positions and leaves other entries alone. */
  function Save(db: map<nat, Address>, validators: seq<Address>): map<nat, Address> {
    db + (map i: nat | i < |validators| :: validators[i])
  }

  /** Whatever part of the validators is stored, saving them and loading again gives them all. */
  lemma RestartKeepsValidators(db: map<nat, Address>, validators: seq<Address>, reloaded: seq<Address>)
    requires Ascending(validators) && (forall a :: a in db.Values ==> a in validators)
    requires Ascending(reloaded) && (forall a :: a in reloaded <==> a in Save(db, validators).Values)
    ensures reloaded == validators
  {
    var saved := Save(db, validators);
    forall a | true
      ensures a in saved.Values <==> a in validators
    {
      if a in validators {
        var i :| 0 <= i < |validators| && validators[i] == a;
        assert i in saved.Keys && saved[i] == a;
      }
      if a in saved.Values {
        var k :| k in saved.Keys && saved[k] == a;
        assert k < |validators| || (k in db.Keys && db[k] == a);
      }
    }
    AscendingUnique(reloaded, validators);
  }

  // ---------------------------------------------------------------- the random list

  /** The order of a round: creator first, then the participants. */
  function RandomList(sha3: Bytes -> Hash, validators: seq<Address>, randomness: Hash): (r: seq<Address>)
    ensures |r| == |validators|
  {
    Shuffle(sha3, validators, randomness)
  }

  /** The random list holds every validator exactly once. */
  lemma RandomListIsPermutation(sha3: Bytes -> Hash, validators: seq<Address>, randomness: Hash)
    requires Ascending(validators)
    ensures multiset(RandomList(sha3, validators, randomness)) == multiset(validators)
    ensures Distinct(RandomList(sha3, validators, randomness))
    ensures forall a :: a in RandomList(sha3, validators, randomness) <==> a in validators
  {
    ShuffleFromPermutes(sha3, validators, randomness, 0);
    AscendingDistinct(validators);
    PermutationDistinct(validators, RandomList(sha3, validators, randomness));
  }

  /**
   * Who leads: the validator at the index that the hashed randomness gives modulo their number. Everyone behind the
   * leader is drawn in the same way from the validators still left, with the randomness hashed once more each time.
   */
  lemma LeaderIsDrawn(sha3: Bytes -> Hash, validators: seq<Address>, randomness: Hash, i: nat)
    requires i < |validators|
    ensures RandomList(sha3, validators, randomness)[0] == validators[FromBigEndian(sha3(randomness)) % |validators|]
    ensures RandomList(sha3, validators, randomness)[i]
         == Left(sha3, validators, randomness, i)
              [FromBigEndian(SeedAfter(sha3, randomness, i + 1)) % (|validators| - i)]
  {
    hide FromBigEndian;
    ShuffleDraws(sha3, validators, randomness, 0);
    ShuffleDraws(sha3, validators, randomness, i);
    SeedNext(sha3, randomness, 0);
  }

  lemma PermutationDistinct<T>(s: seq<T>, t: seq<T>)
    requires multiset(s) == multiset(t) && Distinct(s)
    ensures Distinct(t)
    ensures forall a :: a in t <==> a in s
  {
    forall a | true
      ensures a in t <==> a in s
    {
      assert a in t <==> a in multiset(t);
      assert a in s <==> a in multiset(s);
    }
    forall i, j | 0 <= i < j < |t|
      ensures t[i] != t[j]
    {
      if t[i] == t[j] {
        TwiceInMultiset(t, i, j);
        OnceInMultiset(s, t[i]);
      }
    }
  }

  lemma TwiceInMultiset<T>(t: seq<T>, i: nat, j: nat)
    requires i < j < |t| && t[i] == t[j]
    ensures multiset(t)[t[i]] >= 2
  {
    assert t == t[..i] + [t[i]] + t[i + 1..j] + [t[j]] + t[j + 1..];
  }

  lemma {:induction false} OnceInMultiset<T>(s: seq<T>, a: T)
    requires Distinct(s)
    ensures multiset(s)[a] <= 1
  {
    if s != [] {
      assert s == [s[0]] + s[1..];
      OnceInMultiset(s[1..], a);
      if s[0] == a {
        assert a !in s[1..];
        assert multiset(s[1..])[a] == 0;
      }
    }
  }

  /** Two nodes with the same validators and the same latest randomness agree on the whole round. */
  lemma NodesAgree(sha3: Bytes -> Hash, mine: seq<Address>, yours: seq<Address>, randomness: Hash)
    requires Ascending(mine) && Ascending(yours) && forall a :: a in mine <==> a in yours
    ensures RandomList(sha3, mine, randomness) == RandomList(sha3, yours, randomness)
  {
    AscendingUnique(mine, yours);
  }
}
