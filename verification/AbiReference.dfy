/** The contract ABI as section "Formal Specification of the Encoding" of the Solidity manual defines it. */
module AbiReference {
  import opened Bytes
  import opened AbiLayout
  import opened Abi

  /** A number of up to 256 bits, a byte string, or a dynamic array. */
  datatype Value = Num(n: U256) | Raw(s: Bytes) | Arr(vs: seq<Value>)

  /** The zeros that fill a byte string up to whole lines; the empty one needs none. */
  function Padding(n: nat): nat {
    if n == 0 then 0 else if n <= 32 then 32 - n else Padding(n - 32)
  }

  function Enc(v: Value): Bytes
    decreases v, 0
  {
    match v
    case Num(n) => Fixed(n, 32)
    case Raw(s) => Fixed(|s|, 32) + (s + Zeros(Padding(|s|)))
    case Arr(vs) => Fixed(|vs|, 32) + EncTuple(vs)
  }

  /** Numbers have no tail, everything else is its own tail. */
  function TupleTails(vs: seq<Value>): (r: seq<Bytes>)
    ensures |r| == |vs|
    decreases vs, 1
  {
    seq(|vs|, i requires 0 <= i < |vs| => if vs[i].Num? then [] else Enc(vs[i]))
  }

  /** A number is its own head; other heads are the lengths of all heads and of the tails before. */
  function TupleHead(vs: seq<Value>, i: nat): (r: Bytes)
    requires i < |vs|
    ensures |r| == 32
    decreases vs, 2
  {
    if vs[i].Num? then Enc(vs[i]) else Fixed(32 * |vs| + |Concat(TupleTails(vs)[..i])|, 32)
  }

  function TupleHeads(vs: seq<Value>): (r: seq<Bytes>)
    ensures |r| == |vs|
    decreases vs, 3
  {
    seq(|vs|, i requires 0 <= i < |vs| => TupleHead(vs, i))
  }

  function EncTuple(vs: seq<Value>): Bytes
    decreases vs, 4
  {
    Concat(TupleHeads(vs)) + Concat(TupleTails(vs))
  }

  // ---------------------------------------------------------------- the arguments as values

  function AddressValue(a: Address): Value {
    FromBigEndianBound(a);
    Pow256Values();
    Pow256Twenty();
    Num(FromBigEndian(a))
  }

  lemma Pow256Twenty()
    ensures Pow256(20) <= LIMIT256
  {
    hide Pow256;
    Pow256Sum(20, 12);
    Pow256Values();
    assert Pow256(20) * Pow256(12) >= Pow256(20);
  }

  function ValueOf(arg: Arg): Value {
    match arg
    case Uint(n) => Num(n)
    case Addr(a) => AddressValue(a)
    case Bool(b) => Num(if b then 1 else 0)
    case Blob(s) => Raw(s)
    case Text(s) => Raw(s)
    case Uints(ns) => Arr(seq(|ns|, i requires 0 <= i < |ns| => Num(ns[i])))
    case Addrs(addrs) => Arr(seq(|addrs|, i requires 0 <= i < |addrs| => AddressValue(addrs[i])))
    case Bools(bs) => Arr(seq(|bs|, i requires 0 <= i < |bs| => Num(if bs[i] then 1 else 0)))
    case Blobs(ss) => Arr(Raws(ss))
    case Texts(ss) => Arr(Raws(ss))
  }

  function Raws(ss: seq<Bytes>): (r: seq<Value>)
    ensures |r| == |ss|
  {
    seq(|ss|, i requires 0 <= i < |ss| => Raw(ss[i]))
  }

  function Values(args: seq<Arg>): (r: seq<Value>)
    ensures |r| == |args|
  {
    seq(|args|, i requires 0 <= i < |args| => ValueOf(args[i]))
  }

  /** There is an empty byte string in the argument. */
  predicate HasEmpty(arg: Arg) {
    match arg
    case Blob(s) => s == []
    case Text(s) => s == []
    case Blobs(ss) => [] in ss
    case Texts(ss) => [] in ss
    case _ => false
  }

  // ---------------------------------------------------------------- lines

  lemma WordIsFixed(n: nat)
    requires n < LIMIT256
    ensures Word(n) == Fixed(n, 32)
  {
    FixedOfFromBigEndian(Word(n));
  }

  lemma AddressLineIsNumber(a: Address)
    ensures AddressLine(a) == Enc(AddressValue(a)) && |AddressLine(a)| == 32
  {
    hide FromBigEndian, Fixed;
    FromBigEndianPadLeft(a, 32);
    FixedOfFromBigEndian(PadLeft(a, 32));
  }

  lemma BoolLineIsNumber(b: bool)
    ensures BoolLine(b) == Enc(Num(if b then 1 else 0)) && |BoolLine(b)| == 32
  {
    var s: Bytes := [if b then 1 else 0];
    assert FromBigEndian(s) == (if b then 1 else 0) by {
      assert s[..0] == [];
    }
    hide FromBigEndian, Fixed;
    FromBigEndianPadLeft(s, 32);
    FixedOfFromBigEndian(PadLeft(s, 32));
  }

  // ---------------------------------------------------------------- heads and tails

  /** The item is laid out as the specification encodes the value. */
  ghost predicate Matches(v: Value, item: Item) {
    if v.Num? then item == Static(Enc(v)) else item == Dynamic(Enc(v))
  }

  ghost predicate AllMatch(vs: seq<Value>, items: seq<Item>) {
    |vs| == |items| && forall i :: 0 <= i < |vs| ==> Matches(vs[i], items[i])
  }

  lemma TailsMatch(vs: seq<Value>, items: seq<Item>)
    requires AllMatch(vs, items)
    ensures TupleTails(vs) == Tails(items)
  {
    hide Enc, Concat;
    forall i | 0 <= i < |vs|
      ensures TupleTails(vs)[i] == Tails(items)[i]
    {
      assert Matches(vs[i], items[i]);
    }
  }

  lemma HeadMatches(vs: seq<Value>, items: seq<Item>, i: nat)
    requires i < |vs| == |items| && Matches(vs[i], items[i]) && TupleTails(vs) == Tails(items) && Fits(items)
    ensures TupleHead(vs, i) == HeadOf(items, i)
  {
    hide Enc, Fixed, Word, Concat, Before, TupleTails, Tails, Offset, Fits;
    OffsetIsFixed(items, i);
  }

  lemma OffsetIsFixed(items: seq<Item>, i: nat)
    requires Fits(items) && i < |items|
    ensures Word(Offset(items, i)) == Fixed(32 * |items| + |Concat(Tails(items)[..i])|, 32)
  {
    hide Fixed, Word, Concat, Before, Tails;
    ConcatSplit(Tails(items), i);
    BeforeMonotone(Tails(items), i, |items|);
    WordIsFixed(Offset(items, i));
  }

  /** The layout of heads and tails is the one the specification gives. */
  lemma TupleIsLayout(vs: seq<Value>, items: seq<Item>)
    requires AllMatch(vs, items) && Fits(items)
    ensures EncTuple(vs) == Layout(items)
  {
    hide Enc, Fixed, Concat, TupleHead, TupleTails, Tails, HeadOf, Fits;
    TailsMatch(vs, items);
    forall i | 0 <= i < |vs|
      ensures TupleHeads(vs)[i] == Heads(items)[i]
    {
      assert Matches(vs[i], items[i]);
      HeadMatches(vs, items, i);
    }
    assert TupleHeads(vs) == Heads(items);
  }

  lemma {:induction false} NoTails(parts: seq<Bytes>)
    requires forall i :: 0 <= i < |parts| ==> parts[i] == []
    ensures Concat(parts) == []
  {
    if parts != [] {
      NoTails(parts[1..]);
    }
  }

  /** Numbers one after the other. */
  lemma NumbersTuple(vs: seq<Value>, lines: seq<Bytes>)
    requires |vs| == |lines| && forall i :: 0 <= i < |vs| ==> vs[i].Num? && Enc(vs[i]) == lines[i]
    ensures EncTuple(vs) == Concat(lines)
  {
    hide Enc;
    assert TupleHeads(vs) == lines;
    NoTails(TupleTails(vs));
    assert Concat(lines) + [] == Concat(lines);
  }

  // ---------------------------------------------------------------- byte strings

  lemma {:induction false} PaddingFills(n: nat)
    requires n > 0
    ensures 32 * LineCount(n) == n + Padding(n)
    decreases n
  {
    if n > 32 {
      PaddingFills(n - 32);
    }
  }

  /** A byte string is encoded as specified exactly when it is not empty; the empty one takes a line too many. */
  lemma BytesAgree(s: Bytes)
    requires |s| < LIMIT64
    ensures s != [] ==> EncodeBytes(s) == Enc(Raw(s))
    ensures s == [] ==> |EncodeBytes(s)| == |Enc(Raw(s))| + 32
  {
    hide Fixed, Word;
    WordIsFixed(|s|);
    if s != [] {
      PaddingFills(|s|);
      assert PadRight(s, 32 * LineCount(|s|)) == s + Zeros(Padding(|s|));
    }
  }

  /** Where parts are never shorter, and one is longer, everything together is longer. */
  lemma {:induction false} LongerTogether(parts: seq<Bytes>, others: seq<Bytes>, n: nat)
    requires n <= |parts| == |others| && forall i :: 0 <= i < |parts| ==> |parts[i]| >= |others[i]|
    ensures Before(parts, n) >= Before(others, n)
    ensures (exists i :: 0 <= i < n && |parts[i]| > |others[i]|) ==> Before(parts, n) > Before(others, n)
    decreases n
  {
    if n > 0 {
      LongerTogether(parts, others, n - 1);
    }
  }

  lemma TupleLength(vs: seq<Value>)
    ensures |EncTuple(vs)| == 32 * |vs| + Before(TupleTails(vs), |vs|)
  {
    hide Fixed;
    assert AllLines(TupleHeads(vs));
    LinesBefore(TupleHeads(vs), |vs|);
    ConcatLength(TupleHeads(vs));
    ConcatLength(TupleTails(vs));
  }

  /** An array of byte strings agrees if none is empty, and is longer than specified otherwise. */
  lemma ArrayAgrees(ss: seq<Bytes>)
    requires |EncodeBytesArr(ss)| < LIMIT64
    ensures [] !in ss ==> EncodeBytesArr(ss) == Enc(Arr(Raws(ss)))
    ensures |EncodeBytesArr(ss)| >= |Enc(Arr(Raws(ss)))|
    ensures [] in ss ==> |EncodeBytesArr(ss)| > |Enc(Arr(Raws(ss)))|
  {
    hide Fixed, Word, EncodeBytes, EncTuple, Layout;
    var vs, items := Raws(ss), BytesItems(ss);
    ElementsFit(ss);
    WordIsFixed(|ss|);
    forall i | 0 <= i < |ss|
      ensures |ss[i]| < LIMIT64 && |Tails(items)[i]| >= |TupleTails(vs)[i]|
      ensures ss[i] != [] ==> Matches(vs[i], items[i])
      ensures ss[i] == [] ==> |Tails(items)[i]| > |TupleTails(vs)[i]|
    {
      ElementShort(ss, i);
      BytesAgree(ss[i]);
    }
    if [] !in ss {
      TupleIsLayout(vs, items);
    }
    LongerTogether(Tails(items), TupleTails(vs), |ss|);
    TupleLength(vs);
    LayoutLength(items);
    if [] in ss {
      var k :| 0 <= k < |ss| && ss[k] == [];
      assert |Tails(items)[k]| > |TupleTails(vs)[k]|;
    }
  }

  lemma ElementShort(ss: seq<Bytes>, i: nat)
    requires Fits(BytesItems(ss)) && i < |ss|
    ensures |ss[i]| < LIMIT64
  {
    hide Word, LineCount, Fits;
    TailShort(BytesItems(ss), i);
    assert |TailOf(BytesItems(ss)[i])| >= |ss[i]|;
  }

  // ---------------------------------------------------------------- whole argument lists

  lemma LinesAgree(vs: seq<Value>, lines: seq<Bytes>)
    requires |vs| == |lines| < LIMIT64 && forall i :: 0 <= i < |vs| ==> vs[i].Num? && Enc(vs[i]) == lines[i]
    ensures EncodeLines(lines) == Enc(Arr(vs))
  {
    hide EncTuple, Word, Fixed;
    WordIsFixed(|lines|);
    NumbersTuple(vs, lines);
  }

  /** An argument is encoded as specified exactly when there is no empty byte string in it, and else it is longer. */
  lemma ArgAgrees(arg: Arg)
    requires |TailOf(ItemOf(arg))| < LIMIT64
    ensures !HasEmpty(arg) ==> Matches(ValueOf(arg), ItemOf(arg))
    ensures ItemOf(arg).Dynamic? <==> !ValueOf(arg).Num?
    ensures ItemOf(arg).Dynamic? ==> |TailOf(ItemOf(arg))| >= |Enc(ValueOf(arg))|
    ensures HasEmpty(arg) ==> ItemOf(arg).Dynamic? && |TailOf(ItemOf(arg))| > |Enc(ValueOf(arg))|
  {
    hide EncTuple, Word, Fixed, Layout, FromBigEndian, PadLeft;
    match arg
    case Uint(n) => WordIsFixed(n);
    case Addr(a) => AddressLineIsNumber(a);
    case Bool(b) => BoolLineIsNumber(b);
    case Blob(s) => BytesAgree(s);
    case Text(s) => BytesAgree(s);
    case Uints(ns) =>
      LinesCounted(UintLines(ns));
      UintsAgree(ns);
    case Addrs(addrs) =>
      LinesCounted(AddressLines(addrs));
      AddressesAgree(addrs);
    case Bools(bs) =>
      LinesCounted(BoolLines(bs));
      BoolsAgree(bs);
    case Blobs(ss) => ArrayAgrees(ss);
    case Texts(ss) => ArrayAgrees(ss);
  }

  lemma LinesCounted(lines: seq<Bytes>)
    requires |EncodeLines(lines)| < LIMIT64 && AllLines(lines)
    ensures |lines| < LIMIT64
  {
    hide Word;
    ConcatLength(lines);
    LinesBefore(lines, |lines|);
  }

  lemma UintsAgree(ns: seq<U256>)
    requires |ns| < LIMIT64
    ensures EncodeLines(UintLines(ns)) == Enc(ValueOf(Uints(ns)))
  {
    hide EncTuple, Word, Fixed;
    var vs := ValueOf(Uints(ns)).vs;
    forall i | 0 <= i < |ns|
      ensures Enc(vs[i]) == UintLines(ns)[i]
    {
      WordIsFixed(ns[i]);
    }
    LinesAgree(vs, UintLines(ns));
  }

  lemma AddressesAgree(addrs: seq<Address>)
    requires |addrs| < LIMIT64
    ensures EncodeLines(AddressLines(addrs)) == Enc(ValueOf(Addrs(addrs)))
  {
    hide EncTuple, Word, Fixed, AddressLine;
    var vs := ValueOf(Addrs(addrs)).vs;
    forall i | 0 <= i < |addrs|
      ensures vs[i].Num? && Enc(vs[i]) == AddressLines(addrs)[i]
    {
      AddressLineIsNumber(addrs[i]);
    }
    LinesAgree(vs, AddressLines(addrs));
  }

  lemma BoolsAgree(bs: seq<bool>)
    requires |bs| < LIMIT64
    ensures EncodeLines(BoolLines(bs)) == Enc(ValueOf(Bools(bs)))
  {
    hide EncTuple, Word, Fixed, BoolLine;
    var vs := ValueOf(Bools(bs)).vs;
    forall i | 0 <= i < |bs|
      ensures vs[i].Num? && Enc(vs[i]) == BoolLines(bs)[i]
    {
      BoolLineIsNumber(bs[i]);
    }
    LinesAgree(vs, BoolLines(bs));
  }

  /**
   * The encoder produces what the Solidity manual specifies exactly when there is no empty byte string or string among
   * the arguments and their elements.
   */
  lemma SpecifiedExactly(args: seq<Arg>)
    requires Encodable(args)
    ensures Encode(args) == EncTuple(Values(args)) <==> forall i :: 0 <= i < |args| ==> !HasEmpty(args[i])
  {
    hide ItemOf, ValueOf, Enc, EncTuple, Layout, HasEmpty;
    var vs, items := Values(args), Items(args);
    EncodableFits(args);
    forall i | 0 <= i < |args|
      ensures |Tails(items)[i]| >= |TupleTails(vs)[i]|
      ensures !HasEmpty(args[i]) ==> Matches(vs[i], items[i])
      ensures HasEmpty(args[i]) ==> |Tails(items)[i]| > |TupleTails(vs)[i]|
    {
      TailShort(items, i);
      ArgAgrees(args[i]);
    }
    if k :| 0 <= k < |args| && HasEmpty(args[k]) {
      assert |Tails(items)[k]| > |TupleTails(vs)[k]|;
      LongerTogether(Tails(items), TupleTails(vs), |args|);
      TupleLength(vs);
      LayoutLength(items);
    } else {
      TupleIsLayout(vs, items);
    }
  }

  lemma TailShort(items: seq<Item>, i: nat)
    requires Fits(items) && i < |items|
    ensures |TailOf(items[i])| < LIMIT64
  {
    BeforeMonotone(Tails(items), i + 1, |items|);
  }
}
