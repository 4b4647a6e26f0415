/** Heads and tails: how a list of values of any size is laid out in 32-byte lines. */
module AbiLayout {
  import opened Bytes

  /** `t` occurs in `data` at position `at`. */
  predicate Has(data: Bytes, at: nat, t: Bytes) {
    at + |t| <= |data| && data[at..at + |t|] == t
  }

  lemma HasPart(data: Bytes, at: nat, t: Bytes, k: nat, u: Bytes)
    requires Has(data, at, t) && Has(t, k, u)
    ensures Has(data, at + k, u)
  {
    forall j | 0 <= j < |u|
      ensures data[at + k..at + k + |u|][j] == u[j]
    {
      assert data[at..at + |t|][k + j] == t[k + j] && t[k..k + |u|][j] == u[j];
    }
  }

  // ---------------------------------------------------------------- parts one after the other

  /** How many bytes come before part `i`. */
  function Before(parts: seq<Bytes>, i: nat): nat
    requires i <= |parts|
  {
    if i == 0 then 0 else Before(parts, i - 1) + |parts[i - 1]|
  }

  lemma {:induction false} ConcatSplit(parts: seq<Bytes>, i: nat)
    requires i <= |parts|
    ensures Concat(parts) == Concat(parts[..i]) + Concat(parts[i..])
    ensures |Concat(parts[..i])| == Before(parts, i)
  {
    if i == 0 {
      assert parts[0..] == parts;
    } else {
      ConcatSplit(parts, i - 1);
      ConcatSnoc(parts[..i - 1], parts[i - 1]);
      assert parts[..i - 1] + [parts[i - 1]] == parts[..i];
      assert Concat(parts[..i - 1]) + (parts[i - 1] + Concat(parts[i..]))
          == Concat(parts[..i - 1]) + parts[i - 1] + Concat(parts[i..]);
    }
  }

  lemma {:induction false} ConcatSnoc(parts: seq<Bytes>, last: Bytes)
    ensures Concat(parts + [last]) == Concat(parts) + last
  {
    if parts == [] {
      assert [last][1..] == [];
      assert last + [] == last;
    } else {
      ConcatSnoc(parts[1..], last);
      assert (parts + [last])[1..] == parts[1..] + [last];
      assert parts[0] + (Concat(parts[1..]) + last) == parts[0] + Concat(parts[1..]) + last;
    }
  }

  /** Every part is where the parts before it end. */
  lemma ConcatHas(parts: seq<Bytes>, i: nat)
    requires i < |parts|
    ensures Has(Concat(parts), Before(parts, i), parts[i])
  {
    ConcatSplit(parts, i);
  }

  lemma ConcatLength(parts: seq<Bytes>)
    ensures |Concat(parts)| == Before(parts, |parts|)
  {
    ConcatSplit(parts, |parts|);
    assert parts[..|parts|] == parts && parts[|parts|..] == [];
  }

  ghost predicate AllLines(parts: seq<Bytes>) {
    forall i :: 0 <= i < |parts| ==> |parts[i]| == 32
  }

  lemma {:induction false} LinesBefore(parts: seq<Bytes>, i: nat)
    requires i <= |parts| && AllLines(parts)
    ensures Before(parts, i) == 32 * i
  {
    if i > 0 {
      LinesBefore(parts, i - 1);
    }
  }

  // ---------------------------------------------------------------- numbers in a line

  /** The line that denotes a number; a number that needs more than a line has none. */
  ghost function Word(n: nat): (w: Bytes)
    ensures |w| == 32 && (n < LIMIT256 ==> FromBigEndian(w) == n)
  {
    if n >= LIMIT256 then Zeros(32)
    else
      assert |PadLeft(BigEndian(n), 32)| == 32 && FromBigEndian(PadLeft(BigEndian(n), 32)) == n by { PaddedIsLine(n); }
      var w: Bytes :| |w| == 32 && FromBigEndian(w) == n;
      w
  }

  lemma PaddedIsLine(n: nat)
    requires n < LIMIT256
    ensures |PadLeft(BigEndian(n), 32)| == 32 && FromBigEndian(PadLeft(BigEndian(n), 32)) == n
  {
    BigEndianLength256(n);
    FromBigEndianPadLeft(BigEndian(n), 32);
    FromBigEndianOfBigEndian(n);
  }

  /** The line is the minimal big-endian form, padded on the left. */
  lemma WordIsPadded(n: nat)
    requires n < LIMIT256
    ensures Word(n) == PadLeft(BigEndian(n), 32)
  {
    PaddedIsLine(n);
    FixedOfFromBigEndian(Word(n));
    FixedOfFromBigEndian(PadLeft(BigEndian(n), 32));
  }

  /** A line read into a 64-bit register, which keeps the last eight bytes; reading past the end fails. */
  function Number(data: Bytes, at: nat): Option<U64> {
    match Span(data, at, 32)
    case None => None
    case Some(line) => Some(LowBytes(line))
  }

  function LowBytes(line: Bytes): U64
    requires |line| == 32
  {
    FromBigEndianBound(line[24..32]);
    Pow256Values();
    FromBigEndian(line[24..32])
  }

  lemma LowBytesOfWord(n: nat)
    requires n < LIMIT64
    ensures LowBytes(Word(n)) == n
  {
    WordIsPadded(n);
    BigEndianLength64(n);
    assert PadLeft(BigEndian(n), 32)[24..32] == PadLeft(BigEndian(n), 8);
    FromBigEndianPadLeft(BigEndian(n), 8);
    FromBigEndianOfBigEndian(n);
  }

  lemma NumberRead(data: Bytes, at: nat, n: nat)
    requires n < LIMIT64 && Has(data, at, Word(n))
    ensures Number(data, at) == Some(n)
  {
    LowBytesOfWord(n);
  }

  // ---------------------------------------------------------------- heads and tails

  /** A value is its own head, or has a tail its head points to. */
  datatype Item = Static(line: Bytes) | Dynamic(tail: Bytes)

  function TailOf(item: Item): Bytes {
    match item
    case Static(_) => []
    case Dynamic(tail) => tail
  }

  function Tails(items: seq<Item>): (r: seq<Bytes>)
    ensures |r| == |items|
  {
    seq(|items|, i requires 0 <= i < |items| => TailOf(items[i]))
  }

  /** Where the tail of item `i` starts. */
  function Offset(items: seq<Item>, i: nat): nat
    requires i <= |items|
  {
    32 * |items| + Before(Tails(items), i)
  }

  ghost function HeadOf(items: seq<Item>, i: nat): Bytes
    requires i < |items|
  {
    match items[i]
    case Static(line) => line
    case Dynamic(_) => Word(Offset(items, i))
  }

  ghost function Heads(items: seq<Item>): (r: seq<Bytes>)
    ensures |r| == |items|
  {
    seq(|items|, i requires 0 <= i < |items| => HeadOf(items, i))
  }

  ghost function Layout(items: seq<Item>): Bytes {
    Concat(Heads(items)) + Concat(Tails(items))
  }

  /** Static values fill one line, and everything fits the address space of a line. */
  ghost predicate Fits(items: seq<Item>) {
    && (forall i :: 0 <= i < |items| && items[i].Static? ==> |items[i].line| == 32)
    && Offset(items, |items|) < LIMIT64
  }

  lemma {:induction false} BeforeMonotone(parts: seq<Bytes>, i: nat, j: nat)
    requires i <= j <= |parts|
    ensures Before(parts, i) <= Before(parts, j)
    decreases j
  {
    if i < j {
      BeforeMonotone(parts, i, j - 1);
    }
  }

  /** A layout is never shorter than its offsets say. */
  lemma LayoutAtLeast(items: seq<Item>)
    requires forall i :: 0 <= i < |items| && items[i].Static? ==> |items[i].line| == 32
    ensures Offset(items, |items|) <= |Layout(items)|
  {
    HeadsAtLeast(items, |items|);
    ConcatLength(Heads(items));
    ConcatLength(Tails(items));
  }

  lemma {:induction false} HeadsAtLeast(items: seq<Item>, i: nat)
    requires i <= |items| && forall k :: 0 <= k < |items| && items[k].Static? ==> |items[k].line| == 32
    ensures Before(Heads(items), i) >= 32 * i
  {
    if i > 0 {
      HeadsAtLeast(items, i - 1);
    }
  }

  lemma HeadsAreLines(items: seq<Item>)
    requires Fits(items)
    ensures AllLines(Heads(items)) && |Concat(Heads(items))| == 32 * |items|
  {
    forall i | 0 <= i < |items|
      ensures |Heads(items)[i]| == 32
    {
      if items[i].Dynamic? {
        BeforeMonotone(Tails(items), i, |items|);
      }
    }
    LinesBefore(Heads(items), |items|);
    ConcatLength(Heads(items));
  }

  /** Head `i` is on line `i`. */
  lemma HeadPlace(items: seq<Item>, i: nat)
    requires Fits(items) && i < |items|
    ensures Has(Layout(items), 32 * i, HeadOf(items, i))
  {
    HeadsAreLines(items);
    LinesBefore(Heads(items), i);
    ConcatHas(Heads(items), i);
    HasPart(Layout(items), 0, Concat(Heads(items)), 32 * i, HeadOf(items, i));
  }

  /** Every tail is where its offset says, and the next one starts where it ends. */
  lemma TailPlace(items: seq<Item>, i: nat)
    requires Fits(items) && i < |items|
    ensures Has(Layout(items), Offset(items, i), TailOf(items[i]))
    ensures Offset(items, i + 1) == Offset(items, i) + |TailOf(items[i])|
    ensures 32 * |items| <= Offset(items, i)
  {
    HeadsAreLines(items);
    ConcatHas(Tails(items), i);
    HasPart(Layout(items), 32 * |items|, Concat(Tails(items)), Before(Tails(items), i), TailOf(items[i]));
  }

  /** The layout is its heads followed by its tails, with nothing between, behind or on top of each other. */
  lemma LayoutLength(items: seq<Item>)
    requires Fits(items)
    ensures |Layout(items)| == Offset(items, |items|)
  {
    HeadsAreLines(items);
    ConcatLength(Tails(items));
  }

  /** Tails of different items do not overlap. */
  lemma TailsDisjoint(items: seq<Item>, i: nat, j: nat)
    requires i < j < |items|
    ensures Offset(items, i) + |TailOf(items[i])| <= Offset(items, j)
  {
    BeforeMonotone(Tails(items), i + 1, j);
  }

  /** Line `i` behind `base` holds the offset of `tail`, counted from `base`. */
  ghost predicate PointsAt(data: Bytes, base: nat, i: nat, offset: nat, tail: Bytes) {
    Number(data, base + 32 * i) == Some(offset) && Has(data, base + offset, tail)
  }

  /** What a decoder reads as the offset of a dynamic item is the place of its tail. */
  lemma HeadPointsAtTail(items: seq<Item>, i: nat, data: Bytes, base: nat)
    requires Fits(items) && i < |items| && items[i].Dynamic? && Has(data, base, Layout(items))
    ensures PointsAt(data, base, i, Offset(items, i), items[i].tail)
  {
    HeadPlace(items, i);
    TailPlace(items, i);
    BeforeMonotone(Tails(items), i, |items|);
    HasPart(data, base, Layout(items), 32 * i, HeadOf(items, i));
    HasPart(data, base, Layout(items), Offset(items, i), items[i].tail);
    NumberRead(data, base + 32 * i, Offset(items, i));
  }
}
