/** Byte strings, big-endian numbers, fixed-width padding and the byte order used by the node. */
module Bytes {
  type Byte = b: int | 0 <= b < 256
  type Bytes = seq<Byte>

  /** A value, or nothing: `None` stands for an exception thrown by the source. */
  datatype Option<+T> = None | Some(value: T) {
    predicate IsFailure() {
      None?
    }

    function PropagateFailure<U>(): Option<U>
      requires None?
    {
      None
    }

    function Extract(): T
      requires Some?
    {
      value
    }
  }

  const ZERO_HASH: Hash := Zeros(32)

  type Hash = h: Bytes | |h| == 32 witness seq(32, _ => 0)
  type Address = a: Bytes | |a| == 20 witness seq(20, _ => 0)

  const LIMIT64: nat := 0x1_0000_0000_0000_0000
  const LIMIT256: nat := 0x1_0000_0000_0000_0000_0000_0000_0000_0000_0000_0000_0000_0000_0000_0000_0000_0000

  type U64 = n: nat | n < 0x1_0000_0000_0000_0000
  type U256 = n: nat | n < 0x1_0000_0000_0000_0000_0000_0000_0000_0000_0000_0000_0000_0000_0000_0000_0000_0000

  function Pow256(w: nat): (p: nat)
    ensures p > 0
  {
    if w == 0 then 1 else 256 * Pow256(w - 1)
  }

  lemma Pow256Values()
    ensures Pow256(4) == 0x1_0000_0000
    ensures Pow256(8) == LIMIT64
    ensures Pow256(32) == LIMIT256
  {
    hide Pow256;
    Pow256Four();
    Pow256Sum(4, 4);
    Pow256Sum(8, 8);
    Pow256Sum(16, 16);
  }

  lemma Pow256Four()
    ensures Pow256(4) == 0x1_0000_0000
  {
  }

  lemma {:induction false} Pow256Sum(a: nat, b: nat)
    ensures Pow256(a + b) == Pow256(a) * Pow256(b)
  {
    if a != 0 {
      Pow256Sum(a - 1, b);
      assert Pow256(a) * Pow256(b) == 256 * (Pow256(a - 1) * Pow256(b));
    }
  }

  /** The minimal big-endian representation; zero has no bytes. */
  function BigEndian(n: nat): Bytes {
    if n == 0 then [] else BigEndian(n / 256) + [n % 256]
  }

  /** The number a big-endian byte string denotes. */
  function FromBigEndian(s: Bytes): nat {
    if s == [] then 0 else FromBigEndian(s[..|s| - 1]) * 256 + s[|s| - 1]
  }

  /** The low `w` bytes of `n`, most significant first. */
  function Fixed(n: nat, w: nat): (s: Bytes)
    ensures |s| == w
  {
    if w == 0 then [] else Fixed(n / 256, w - 1) + [n % 256]
  }

  function Zeros(k: nat): (s: Bytes)
    ensures |s| == k
  {
    seq(k, _ => 0)
  }

  function PadLeft(s: Bytes, w: nat): (r: Bytes)
    ensures |r| == if |s| < w then w else |s|
  {
    if |s| < w then Zeros(w - |s|) + s else s
  }

  function PadRight(s: Bytes, w: nat): (r: Bytes)
    ensures |r| == if |s| < w then w else |s|
    ensures s <= r
  {
    if |s| < w then s + Zeros(w - |s|) else s
  }

  lemma {:induction false} FromBigEndianOfBigEndian(n: nat)
    ensures FromBigEndian(BigEndian(n)) == n
  {
    if n != 0 {
      FromBigEndianOfBigEndian(n / 256);
      assert BigEndian(n)[..|BigEndian(n)| - 1] == BigEndian(n / 256);
    }
  }

  lemma {:induction false} FromBigEndianBound(s: Bytes)
    ensures FromBigEndian(s) < Pow256(|s|)
  {
    if s != [] {
      FromBigEndianBound(s[..|s| - 1]);
    }
  }

  /** A number needs at most `w` bytes exactly when it is below 256^w. */
  lemma {:induction false} BigEndianLength(n: nat, w: nat)
    ensures |BigEndian(n)| <= w <==> n < Pow256(w)
    decreases w
  {
    if n == 0 {
    } else if w == 0 {
    } else {
      BigEndianLength(n / 256, w - 1);
    }
  }

  lemma BigEndianNonempty(n: nat)
    requires n != 0
    ensures BigEndian(n) != []
  {
  }

  lemma BigEndianLength64(n: nat)
    ensures |BigEndian(n)| <= 8 <==> n < LIMIT64
  {
    BigEndianLength(n, 8);
    Pow256Values();
  }

  lemma BigEndianLength256(n: nat)
    ensures |BigEndian(n)| <= 32 <==> n < LIMIT256
  {
    BigEndianLength(n, 32);
    Pow256Values();
  }

  lemma {:induction false} BigEndianMonotone(a: nat, b: nat)
    requires a <= b
    ensures |BigEndian(a)| <= |BigEndian(b)|
    decreases b
  {
    if a != 0 {
      BigEndianMonotone(a / 256, b / 256);
    }
  }

  lemma {:induction false} FromBigEndianOfFixed(n: nat, w: nat)
    requires n < Pow256(w)
    ensures FromBigEndian(Fixed(n, w)) == n
  {
    if w != 0 {
      var front, last := n / 256, n % 256;
      assert n == front * 256 + last && front < Pow256(w - 1);
      FromBigEndianOfFixed(front, w - 1);
      assert Fixed(n, w)[..w - 1] == Fixed(front, w - 1);
    }
  }

  lemma {:induction false} FixedOfFromBigEndian(s: Bytes)
    ensures Fixed(FromBigEndian(s), |s|) == s
  {
    if s != [] {
      var front := s[..|s| - 1];
      FixedOfFromBigEndian(front);
      assert FromBigEndian(s) / 256 == FromBigEndian(front);
      assert s == front + [s[|s| - 1]];
    }
  }

  /** Leading zero bytes do not change the value. */
  lemma {:induction false} FromBigEndianZeros(k: nat, s: Bytes)
    ensures FromBigEndian(Zeros(k) + s) == FromBigEndian(s)
    decreases k + |s|
  {
    var z := Zeros(k) + s;
    if s == [] {
      if k != 0 {
        assert z[..|z| - 1] == Zeros(k - 1) + [];
        FromBigEndianZeros(k - 1, []);
      }
    } else {
      assert z[..|z| - 1] == Zeros(k) + s[..|s| - 1];
      FromBigEndianZeros(k, s[..|s| - 1]);
    }
  }

  lemma FromBigEndianPadLeft(s: Bytes, w: nat)
    ensures FromBigEndian(PadLeft(s, w)) == FromBigEndian(s)
  {
    if |s| < w {
      FromBigEndianZeros(w - |s|, s);
    }
  }

  /** Counting the bytes a number needs, by shifting it right until nothing is left. */
  method BytesRequired(n: nat) returns (count: nat)
    ensures count == |BigEndian(n)|
  {
    count := 0;
    var i := n;
    while i != 0
      invariant count + |BigEndian(i)| == |BigEndian(n)|
    {
      i := i / 256;
      count := count + 1;
    }
  }

  /** Writing the bytes of a number from the last one backwards. */
  method UintToBytes(n: nat) returns (s: Bytes)
    ensures s == BigEndian(n)
  {
    s := [];
    var i := n;
    while i != 0
      invariant BigEndian(i) + s == BigEndian(n)
    {
      var b: Byte := i % 256;
      assert BigEndian(i) + s == BigEndian(i / 256) + ([b] + s);
      s := [b] + s;
      i := i / 256;
    }
  }

  /** The value left in a 64-bit register. */
  function Wrap64(n: nat): U64 {
    if n < LIMIT64 then n else Wrap64(n - LIMIT64)
  }

  lemma {:induction false} WrapIsModulo(n: nat)
    ensures Wrap64(n) == n % LIMIT64
  {
    if n >= LIMIT64 {
      WrapIsModulo(n - LIMIT64);
    }
  }

  /** Counting on from a register is counting on from what was put into it. */
  lemma {:induction false} WrapAdd(n: nat, k: nat)
    ensures Wrap64(Wrap64(n) + k) == Wrap64(n + k)
    decreases n
  {
    if n >= LIMIT64 {
      WrapAdd(n - LIMIT64, k);
    }
  }

  /** A 64-bit counter shows the same number again exactly after a multiple of 2^64 steps. */
  lemma {:induction false} WrapReturns(n: U64, k: nat)
    ensures Wrap64(n + k) == n <==> Wrap64(k) == 0
    decreases k
  {
    if k >= LIMIT64 {
      WrapReturns(n, k - LIMIT64);
    }
  }

  /** Lexicographic order on byte strings, as `std::array::operator<` compares them. */
  predicate Less(a: Bytes, b: Bytes) {
    if b == [] then false
    else if a == [] then true
    else if a[0] != b[0] then a[0] < b[0]
    else Less(a[1..], b[1..])
  }

  /** The first byte counts most. */
  lemma {:induction false} MostSignificantFirst(s: Bytes)
    requires s != []
    ensures FromBigEndian(s) == s[0] * Pow256(|s| - 1) + FromBigEndian(s[1..])
  {
    if |s| == 1 {
      assert s[..0] == [] && s[1..] == [];
    } else {
      var front := s[..|s| - 1];
      MostSignificantFirst(front);
      assert front[1..] == s[1..][..|s| - 2];
      assert s[0] * Pow256(|s| - 1) == 256 * (s[0] * Pow256(|s| - 2));
    }
  }

  /** Byte strings of one length are ordered as the numbers they denote. */
  lemma {:induction false} OrderIsNumeric(a: Bytes, b: Bytes)
    requires |a| == |b|
    ensures Less(a, b) <==> FromBigEndian(a) < FromBigEndian(b)
  {
    if a != [] {
      hide FromBigEndian, Pow256;
      MostSignificantFirst(a);
      MostSignificantFirst(b);
      FromBigEndianBound(a[1..]);
      FromBigEndianBound(b[1..]);
      OrderIsNumeric(a[1..], b[1..]);
      if a[0] < b[0] {
        LeadingDecides(a[0], b[0], FromBigEndian(a[1..]), FromBigEndian(b[1..]), Pow256(|a| - 1));
      } else if b[0] < a[0] {
        LeadingDecides(b[0], a[0], FromBigEndian(b[1..]), FromBigEndian(a[1..]), Pow256(|a| - 1));
      }
    }
  }

  lemma {:induction false} LeadingDecides(a: nat, b: nat, x: nat, y: nat, p: nat)
    requires x < p && a < b
    ensures a * p + x < b * p + y
    decreases b
  {
    assert b * p == (b - 1) * p + p;
    if a < b - 1 {
      LeadingDecides(a, b - 1, x, 0, p);
    }
  }

  lemma FromBigEndianFits(s: Bytes)
    requires |s| <= 32
    ensures FromBigEndian(s) < LIMIT256
  {
    hide FromBigEndian, Pow256;
    FromBigEndianZeros(32 - |s|, s);
    FromBigEndianBound(Zeros(32 - |s|) + s);
    Pow256Values();
  }

  lemma LowByte(s: Bytes)
    requires s != []
    ensures FromBigEndian(s) % 256 == s[|s| - 1]
  {
    var front, last: int := FromBigEndian(s[..|s| - 1]), s[|s| - 1];
    assert FromBigEndian(s) == front * 256 + last;
    hide FromBigEndian;
  }

  /** A string in front of another is shifted by the length of the other. */
  lemma {:induction false} FromBigEndianConcat(a: Bytes, b: Bytes)
    ensures FromBigEndian(a + b) == FromBigEndian(a) * Pow256(|b|) + FromBigEndian(b)
    decreases |b|
  {
    if b == [] {
      assert a + b == a;
    } else {
      var front := b[..|b| - 1];
      assert (a + b)[..|a + b| - 1] == a + front;
      FromBigEndianConcat(a, front);
      assert FromBigEndian(a) * Pow256(|b|) == FromBigEndian(a) * Pow256(|b| - 1) * 256;
    }
  }

  lemma {:induction false} LessTotal(a: Bytes, b: Bytes)
    ensures a == b || Less(a, b) || Less(b, a)
    ensures !(Less(a, b) && Less(b, a))
    ensures a == b ==> !Less(a, b)
  {
    if a != [] && b != [] {
      assert a == [a[0]] + a[1..] && b == [b[0]] + b[1..];
      LessTotal(a[1..], b[1..]);
    }
  }

  lemma {:induction false} LessTransitive(a: Bytes, b: Bytes, c: Bytes)
    requires Less(a, b) && Less(b, c)
    ensures Less(a, c)
  {
    if a != [] && a[0] == b[0] && b[0] == c[0] {
      LessTransitive(a[1..], b[1..], c[1..]);
    }
  }

  /** A run of `len` bytes starting at `index`; `None` when it does not fit. */
  function Span(s: Bytes, index: nat, len: nat): (r: Option<Bytes>)
    ensures r.Some? ==> index + len <= |s| && |r.value| == len
  {
    if index + len <= |s| then Some(s[index..index + len]) else None
  }

  function Concat(parts: seq<Bytes>): Bytes {
    if parts == [] then [] else parts[0] + Concat(parts[1..])
  }

  lemma CutMiddle(a: Bytes, b: Bytes, c: Bytes)
    ensures (a + (b + c))[|a|..|a| + |b|] == b
    ensures (a + (b + c))[|a| + |b|..] == c
  {
  }

  /** `front` before what follows, if that succeeded. */
  function Prepend<T>(front: seq<T>, rest: Option<seq<T>>): Option<seq<T>> {
    if rest.None? then None else Some(front + rest.value)
  }

  lemma PrependEmpty<T>(rest: Option<seq<T>>)
    ensures Prepend([], rest) == rest
  {
    if rest.Some? {
      assert [] + rest.value == rest.value;
    }
  }

  lemma PrependStep<T>(front: seq<T>, x: T, rest: Option<seq<T>>)
    ensures Prepend(front, if rest.None? then None else Some([x] + rest.value)) == Prepend(front + [x], rest)
  {
    if rest.Some? {
      assert front + ([x] + rest.value) == front + [x] + rest.value;
    }
  }
}
