/** The seeded shuffle that orders the validators of a round. */
module RandomGen {
  import opened Bytes

  function Swap<T>(s: seq<T>, i: nat, j: nat): (r: seq<T>)
    requires i < |s| && j < |s|
    ensures |r| == |s|
  {
    s[i := s[j]][j := s[i]]
  }

  /** The position that goes to place `i` out of `n`, drawn from the current seed. */
  function Choice(seed: Hash, i: nat, n: nat): (k: nat)
    requires i < n
    ensures i <= k < n
  {
    i + FromBigEndian(seed) % (n - i)
  }

  /** The shuffle from place `i` on; every step hashes the seed and draws from it. */
  function ShuffleFrom<T>(sha3: Bytes -> Hash, s: seq<T>, seed: Hash, i: nat): (r: seq<T>)
    requires i <= |s|
    ensures |r| == |s|
    decreases |s| - i
  {
    if i == |s| then s
    else ShuffleFrom(sha3, Swap(s, Choice(sha3(seed), i, |s|), i), sha3(seed), i + 1)
  }

  function Shuffle<T>(sha3: Bytes -> Hash, s: seq<T>, seed: Hash): seq<T> {
    ShuffleFrom(sha3, s, seed, 0)
  }

  lemma {:induction false} ShuffleFromPermutes<T>(sha3: Bytes -> Hash, s: seq<T>, seed: Hash, i: nat)
    requires i <= |s|
    ensures multiset(ShuffleFrom(sha3, s, seed, i)) == multiset(s)
    decreases |s| - i
  {
    if i < |s| {
      var n := Choice(sha3(seed), i, |s|);
      ShuffleFromPermutes(sha3, Swap(s, n, i), sha3(seed), i + 1);
    }
  }

  // ---------------------------------------------------------------- every order is reached exactly once

  /** One choice per place from `i` on, each at or after its place. */
  predicate ValidChoices(n: nat, choices: seq<nat>, i: nat) {
    i <= n && |choices| == n - i && forall k :: 0 <= k < |choices| ==> i + k <= choices[k] < n
  }

  /** The swaps of a shuffle, with the choices given instead of drawn. */
  function Arrange<T>(s: seq<T>, choices: seq<nat>, i: nat): (r: seq<T>)
    requires ValidChoices(|s|, choices, i)
    ensures |r| == |s|
    decreases |s| - i
  {
    if i == |s| then s else Arrange(Swap(s, choices[0], i), choices[1..], i + 1)
  }

  function Drawn(sha3: Bytes -> Hash, n: nat, seed: Hash, i: nat): (choices: seq<nat>)
    requires i <= n
    ensures ValidChoices(n, choices, i)
    decreases n - i
  {
    if i == n then [] else [Choice(sha3(seed), i, n)] + Drawn(sha3, n, sha3(seed), i + 1)
  }

  /** The shuffle is the arrangement by the choices its seeds draw. */
  lemma {:induction false} ShuffleArranges<T>(sha3: Bytes -> Hash, s: seq<T>, seed: Hash, i: nat)
    requires i <= |s|
    ensures ShuffleFrom(sha3, s, seed, i) == Arrange(s, Drawn(sha3, |s|, seed, i), i)
    decreases |s| - i
  {
    if i < |s| {
      var choices := Drawn(sha3, |s|, seed, i);
      assert choices[1..] == Drawn(sha3, |s|, sha3(seed), i + 1);
      ShuffleArranges(sha3, Swap(s, choices[0], i), sha3(seed), i + 1);
    }
  }

  predicate Distinct<T(==)>(s: seq<T>) {
    forall i, j :: 0 <= i < j < |s| ==> s[i] != s[j]
  }

  lemma {:induction false} ArrangeKeepsFront<T>(s: seq<T>, choices: seq<nat>, i: nat, k: nat)
    requires ValidChoices(|s|, choices, i) && k < i
    ensures Arrange(s, choices, i)[k] == s[k]
    decreases |s| - i
  {
    if i < |s| {
      ArrangeKeepsFront(Swap(s, choices[0], i), choices[1..], i + 1, k);
    }
  }

  /** The first choice decides what ends up in front. */
  lemma FirstChosen<T>(s: seq<T>, c: seq<nat>, i: nat)
    requires ValidChoices(|s|, c, i) && i < |s|
    ensures Arrange(s, c, i)[i] == s[c[0]]
  {
    ArrangeKeepsFront(Swap(s, c[0], i), c[1..], i + 1, i);
  }

  lemma SameFirstChoice<T>(s: seq<T>, c: seq<nat>, d: seq<nat>, i: nat)
    requires ValidChoices(|s|, c, i) && ValidChoices(|s|, d, i) && Distinct(s) && i < |s|
    requires Arrange(s, c, i) == Arrange(s, d, i)
    ensures c[0] == d[0]
  {
    hide Arrange;
    FirstChosen(s, c, i);
    FirstChosen(s, d, i);
  }

  /** Different choices give different orders: no order is favoured by being reachable twice. */
  lemma {:induction false} ChoicesUnique<T>(s: seq<T>, c: seq<nat>, d: seq<nat>, i: nat)
    requires ValidChoices(|s|, c, i) && ValidChoices(|s|, d, i) && Distinct(s)
    requires Arrange(s, c, i) == Arrange(s, d, i)
    ensures c == d
    decreases |s| - i
  {
    if i < |s| {
      SameFirstChoice(s, c, d, i);
      ChoicesUnique(Swap(s, c[0], i), c[1..], d[1..], i + 1);
      assert c == [c[0]] + c[1..] && d == [d[0]] + d[1..];
    }
  }

  /** Every order of the elements is reached by some choices. */
  lemma {:induction false} ChoicesExist<T>(s: seq<T>, target: seq<T>, i: nat) returns (c: seq<nat>)
    requires i <= |s| == |target|
    requires s[..i] == target[..i] && multiset(s) == multiset(target)
    ensures ValidChoices(|s|, c, i) && Arrange(s, c, i) == target
    decreases |s| - i
  {
    if i == |s| {
      c := [];
      assert s == s[..i] && target == target[..i];
    } else {
      var n := FindFrom(s, target, i);
      var swapped := Swap(s, n, i);
      assert swapped[..i + 1] == target[..i + 1];
      var rest := ChoicesExist(swapped, target, i + 1);
      c := [n] + rest;
      assert c[1..] == rest;
    }
  }

  lemma SplitMultiset<T>(s: seq<T>, i: nat)
    requires i <= |s|
    ensures multiset(s) == multiset(s[..i]) + multiset(s[i..])
  {
    assert s == s[..i] + s[i..];
  }

  lemma FindFrom<T>(s: seq<T>, target: seq<T>, i: nat) returns (n: nat)
    requires i < |s| == |target|
    requires s[..i] == target[..i] && multiset(s) == multiset(target)
    ensures i <= n < |s| && s[n] == target[i]
  {
    SplitMultiset(s, i);
    SplitMultiset(target, i);
    assert multiset(s[i..]) == multiset(s) - multiset(s[..i]);
    assert multiset(target[i..]) == multiset(target) - multiset(target[..i]);
    assert target[i..][0] in multiset(target[i..]);
    assert target[i] in s[i..];
    n :| i <= n < |s| && s[n] == target[i];
  }

  // ---------------------------------------------------------------- the generator

  function SeedAfter(sha3: Bytes -> Hash, seed: Hash, steps: nat): Hash
    decreases steps
  {
    if steps == 0 then seed else SeedAfter(sha3, sha3(seed), steps - 1)
  }

  /** One more step hashes the seed reached so far once more. */
  lemma {:induction false} SeedNext(sha3: Bytes -> Hash, seed: Hash, steps: nat)
    ensures SeedAfter(sha3, seed, steps + 1) == sha3(SeedAfter(sha3, seed, steps))
    decreases steps
  {
    if steps > 0 {
      SeedNext(sha3, sha3(seed), steps - 1);
    }
  }

  // ---------------------------------------------------------------- drawing without replacement

  /** Take out the element at `k`; the first one moves to its place. */
  function TakeOut<T>(s: seq<T>, k: nat): (r: seq<T>)
    requires k < |s|
    ensures |r| == |s| - 1
  {
    s[k := s[0]][1..]
  }

  /** What is left after `i` draws, the seed hashed once more before each. */
  function Left<T>(sha3: Bytes -> Hash, s: seq<T>, seed: Hash, i: nat): (r: seq<T>)
    requires i <= |s|
    ensures |r| == |s| - i
    decreases i
  {
    if i == 0 then s
    else
      var before := Left(sha3, s, seed, i - 1);
      TakeOut(before, FromBigEndian(SeedAfter(sha3, seed, i)) % |before|)
  }

  /** One step of a shuffle takes the chosen element out of the rest. */
  lemma StepTakesOut<T>(s: seq<T>, i: nat, k: nat)
    requires i + k < |s|
    ensures Swap(s, i + k, i)[i + 1..] == TakeOut(s[i..], k)
  {
    var after, left := Swap(s, i + k, i), TakeOut(s[i..], k);
    forall j | 0 <= j < |left|
      ensures after[i + 1..][j] == left[j]
    {
      assert left[j] == s[i..][k := s[i]][j + 1];
      assert after[i + 1..][j] == after[i + 1 + j];
    }
  }

  /** Where a shuffle stands after `i` steps: the rest of the list is what is left. */
  lemma {:induction false} Midway<T>(sha3: Bytes -> Hash, s: seq<T>, seed: Hash, i: nat) returns (mid: seq<T>)
    requires i <= |s|
    ensures |mid| == |s| && mid[i..] == Left(sha3, s, seed, i)
    ensures ShuffleFrom(sha3, mid, SeedAfter(sha3, seed, i), i) == Shuffle(sha3, s, seed)
    decreases i
  {
    hide FromBigEndian, Swap, TakeOut;
    if i == 0 {
      mid := s;
    } else {
      var before := Midway(sha3, s, seed, i - 1);
      SeedNext(sha3, seed, i - 1);
      var next := SeedAfter(sha3, seed, i);
      mid := Swap(before, Choice(next, i - 1, |s|), i - 1);
      StepTakesOut(before, i - 1, FromBigEndian(next) % (|s| - (i - 1)));
    }
  }

  lemma {:induction false} FrontStays<T>(sha3: Bytes -> Hash, s: seq<T>, seed: Hash, i: nat, k: nat)
    requires k < i <= |s|
    ensures ShuffleFrom(sha3, s, seed, i)[k] == s[k]
    decreases |s| - i
  {
    hide FromBigEndian;
    if i < |s| {
      FrontStays(sha3, Swap(s, Choice(sha3(seed), i, |s|), i), sha3(seed), i + 1, k);
    }
  }

  /**
   * Which element a shuffle puts at place `i`: of the elements still left, the one at the index that the seed, hashed
   * i + 1 times and read as a number, gives modulo how many are left.
   */
  lemma ShuffleDraws<T>(sha3: Bytes -> Hash, s: seq<T>, seed: Hash, i: nat)
    requires i < |s|
    ensures Shuffle(sha3, s, seed)[i]
         == Left(sha3, s, seed, i)[FromBigEndian(SeedAfter(sha3, seed, i + 1)) % (|s| - i)]
  {
    hide FromBigEndian, Left;
    var mid := Midway(sha3, s, seed, i);
    SeedNext(sha3, seed, i);
    var next := SeedAfter(sha3, seed, i + 1);
    var after := Swap(mid, Choice(next, i, |s|), i);
    FrontStays(sha3, after, next, i + 1, i);
    assert mid[i..][FromBigEndian(next) % (|s| - i)] == mid[Choice(next, i, |s|)];
  }

  class RandomGen {
    const sha3: Bytes -> Hash
    var seed: Hash

    constructor (sha3: Bytes -> Hash, seed: Hash)
      ensures this.sha3 == sha3 && this.seed == seed
    {
      this.sha3 := sha3;
      this.seed := seed;
    }

    method SetSeed(seed: Hash)
      modifies this
      ensures this.seed == seed
    {
      this.seed := seed;
    }

    /** Shuffle an array in place, hashing the seed once for every element. */
    method ShuffleInPlace<T>(v: array<T>)
      modifies this, v
      ensures v[..] == Shuffle(sha3, old(v[..]), old(seed))
      ensures seed == SeedAfter(sha3, old(seed), v.Length)
    {
      ghost var start, startSeed := v[..], seed;
      for i := 0 to v.Length
        invariant ShuffleFrom(sha3, v[..], seed, i) == ShuffleFrom(sha3, start, startSeed, 0)
        invariant SeedAfter(sha3, seed, v.Length - i) == SeedAfter(sha3, startSeed, v.Length)
      {
        ghost var before := v[..];
        seed := sha3(seed);
        var n := Choice(seed, i, v.Length);
        v[n], v[i] := v[i], v[n];
        assert v[..] == Swap(before, n, i);
      }
    }
  }
}
