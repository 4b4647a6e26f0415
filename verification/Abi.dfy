/** Solidity ABI encoding and decoding of argument lists over the ten types both sides know. */
module Abi {
  import opened Bytes
  import opened AbiLayout

  /** Strings are byte strings. */
  datatype Arg =
    | Uint(n: U256) | Addr(a: Address) | Bool(b: bool) | Blob(s: Bytes) | Text(s: Bytes)
    | Uints(ns: seq<U256>) | Addrs(addrs: seq<Address>) | Bools(bs: seq<bool>)
    | Blobs(ss: seq<Bytes>) | Texts(ss: seq<Bytes>)

  datatype Type =
    | UintType | AddressType | BoolType | BytesType | StringType
    | UintsType | AddressesType | BoolsType | BytesArrType | StringsType

  function TypeOf(arg: Arg): Type {
    match arg
    case Uint(_) => UintType
    case Addr(_) => AddressType
    case Bool(_) => BoolType
    case Blob(_) => BytesType
    case Text(_) => StringType
    case Uints(_) => UintsType
    case Addrs(_) => AddressesType
    case Bools(_) => BoolsType
    case Blobs(_) => BytesArrType
    case Texts(_) => StringsType
  }

  function TypesOf(args: seq<Arg>): (r: seq<Type>)
    ensures |r| == |args|
  {
    seq(|args|, i requires 0 <= i < |args| => TypeOf(args[i]))
  }

  // ---------------------------------------------------------------- encoding

  function AddressLine(a: Address): Bytes {
    PadLeft(a, 32)
  }

  function BoolLine(b: bool): Bytes {
    PadLeft([if b then 1 else 0], 32)
  }

  /** How many lines a byte string takes; the empty one takes a line of zeros. */
  function LineCount(n: nat): (r: nat)
    ensures r >= 1 && n <= 32 * r
  {
    if n <= 32 then 1 else 1 + LineCount(n - 32)
  }

  ghost function EncodeBytes(s: Bytes): Bytes {
    Word(|s|) + PadRight(s, 32 * LineCount(|s|))
  }

  ghost function EncodeLines(lines: seq<Bytes>): Bytes {
    Word(|lines|) + Concat(lines)
  }

  ghost function UintLines(ns: seq<U256>): (r: seq<Bytes>)
    ensures |r| == |ns|
  {
    seq(|ns|, i requires 0 <= i < |ns| => Word(ns[i]))
  }

  function AddressLines(addrs: seq<Address>): (r: seq<Bytes>)
    ensures |r| == |addrs|
  {
    seq(|addrs|, i requires 0 <= i < |addrs| => AddressLine(addrs[i]))
  }

  function BoolLines(bs: seq<bool>): (r: seq<Bytes>)
    ensures |r| == |bs|
  {
    seq(|bs|, i requires 0 <= i < |bs| => BoolLine(bs[i]))
  }

  ghost function BytesItems(ss: seq<Bytes>): (r: seq<Item>)
    ensures |r| == |ss|
  {
    seq(|ss|, i requires 0 <= i < |ss| => Dynamic(EncodeBytes(ss[i])))
  }

  /** The offsets of the elements count from behind the length. */
  ghost function EncodeBytesArr(ss: seq<Bytes>): Bytes {
    Word(|ss|) + Layout(BytesItems(ss))
  }

  ghost function ItemOf(arg: Arg): Item {
    match arg
    case Uint(n) => Static(Word(n))
    case Addr(a) => Static(AddressLine(a))
    case Bool(b) => Static(BoolLine(b))
    case Blob(s) => Dynamic(EncodeBytes(s))
    case Text(s) => Dynamic(EncodeBytes(s))
    case Uints(ns) => Dynamic(EncodeLines(UintLines(ns)))
    case Addrs(addrs) => Dynamic(EncodeLines(AddressLines(addrs)))
    case Bools(bs) => Dynamic(EncodeLines(BoolLines(bs)))
    case Blobs(ss) => Dynamic(EncodeBytesArr(ss))
    case Texts(ss) => Dynamic(EncodeBytesArr(ss))
  }

  ghost function Items(args: seq<Arg>): (r: seq<Item>)
    ensures |r| == |args|
  {
    seq(|args|, i requires 0 <= i < |args| => ItemOf(args[i]))
  }

  ghost function Encode(args: seq<Arg>): Bytes {
    Layout(Items(args))
  }

  // ---------------------------------------------------------------- decoding

  function UintOf(line: Bytes): U256
    requires |line| == 32
  {
    FromBigEndianBound(line);
    Pow256Values();
    FromBigEndian(line)
  }

  function AddressOf(line: Bytes): Address
    requires |line| == 32
  {
    line[12..32]
  }

  function BoolOf(line: Bytes): bool
    requires |line| == 32
  {
    line[31] == 1
  }

  /** What is read from a line, as numbers: all of it, its low 160 bits, or whether its low 8 bits are 1. */
  lemma LineReadExactly(line: Bytes)
    requires |line| == 32
    ensures UintOf(line) == FromBigEndian(line)
    ensures FromBigEndian(line) == FromBigEndian(line[..12]) * Pow256(20) + FromBigEndian(AddressOf(line))
    ensures BoolOf(line) <==> FromBigEndian(line) % 256 == 1
  {
    hide Pow256, FromBigEndian;
    LowByte(line);
    FromBigEndianConcat(line[..12], line[12..32]);
    assert line == line[..12] + line[12..32];
  }

  /** `n` lines from `at` on. */
  function LinesAt(data: Bytes, at: nat, n: nat): (r: Option<seq<Bytes>>)
    ensures r.Some? ==> |r.value| == n && forall i :: 0 <= i < n ==> |r.value[i]| == 32
  {
    if at + 32 * n <= |data| then Some(seq(n, i requires 0 <= i < n => data[at + 32 * i..at + 32 * i + 32])) else None
  }

  /** A length and that many lines. */
  function DecodeLines(data: Bytes, at: nat): (r: Option<seq<Bytes>>)
    ensures r.Some? ==> forall i :: 0 <= i < |r.value| ==> |r.value[i]| == 32
  {
    match Number(data, at)
    case None => None
    case Some(n) => LinesAt(data, at + 32, n)
  }

  /** A length and that many bytes. */
  function DecodeBytes(data: Bytes, at: nat): Option<Bytes> {
    match Number(data, at)
    case None => None
    case Some(n) => Span(data, at + 32, n)
  }

  /** Element `i` of an array of byte strings; the sum of its offset is taken in 64 bits. */
  function DecodeElement(data: Bytes, at: nat, i: nat): Option<Bytes> {
    match Number(data, at + 32 + 32 * i)
    case None => None
    case Some(offset) => DecodeBytes(data, Wrap64(offset + (at + 32)))
  }

  /** What the low eight bytes of the line at a position say; zero where there is no such line. */
  function NumberAt(data: Bytes, at: nat): nat {
    if at + 32 <= |data| then FromBigEndian(data[at + 24..at + 32]) else 0
  }

  /** Any bytes, read as a byte string: refused exactly when the length or the announced bytes are missing. */
  lemma BytesReadExactly(data: Bytes, at: nat)
    ensures var n := NumberAt(data, at);
            && (DecodeBytes(data, at).Some? <==> at + 32 + n <= |data|)
            && (DecodeBytes(data, at).Some? ==> DecodeBytes(data, at).value == data[at + 32..at + 32 + n])
  {
    hide FromBigEndian;
    if at + 32 <= |data| {
      assert data[at..at + 32][24..32] == data[at + 24..at + 32];
    }
  }

  /** Any bytes, read as lines: refused exactly when the length or one of the announced lines is missing. */
  lemma LinesReadExactly(data: Bytes, at: nat)
    ensures var n, r := NumberAt(data, at), DecodeLines(data, at);
            && (r.Some? <==> at + 32 + 32 * n <= |data|)
            && (r.Some? ==> |r.value| == n
                            && forall i :: 0 <= i < n ==> r.value[i] == data[at + 32 + 32 * i..at + 64 + 32 * i])
  {
    hide FromBigEndian;
    if at + 32 <= |data| {
      assert data[at..at + 32][24..32] == data[at + 24..at + 32];
    }
  }

  /** The i-th element of an array of byte strings stands where its offset says, counted in 64 bits. */
  lemma ElementReadExactly(data: Bytes, at: nat, i: nat)
    ensures var line := at + 32 + 32 * i;
            DecodeElement(data, at, i)
            == if line + 32 <= |data| then DecodeBytes(data, (NumberAt(data, line) + at + 32) % LIMIT64) else None
  {
    hide FromBigEndian, DecodeBytes;
    var line := at + 32 + 32 * i;
    if line + 32 <= |data| {
      assert data[line..line + 32][24..32] == data[line + 24..line + 32];
      WrapIsModulo(NumberAt(data, line) + at + 32);
    }
  }

  /** The elements from `i` to `n`. */
  function DecodeElements(data: Bytes, at: nat, n: nat, i: nat): Option<seq<Bytes>>
    requires i <= n
    decreases n - i
  {
    if i == n then Some([])
    else
      match DecodeElement(data, at, i)
      case None => None
      case Some(s) =>
        var rest := DecodeElements(data, at, n, i + 1);
        if rest.None? then None else Some([s] + rest.value)
  }

  function DecodeBytesArr(data: Bytes, at: nat): Option<seq<Bytes>> {
    match Number(data, at)
    case None => None
    case Some(n) => DecodeElements(data, at, n, 0)
  }

  function UintsOf(lines: seq<Bytes>): seq<U256>
    requires forall i :: 0 <= i < |lines| ==> |lines[i]| == 32
  {
    seq(|lines|, i requires 0 <= i < |lines| => UintOf(lines[i]))
  }

  function AddressesOf(lines: seq<Bytes>): seq<Address>
    requires forall i :: 0 <= i < |lines| ==> |lines[i]| == 32
  {
    seq(|lines|, i requires 0 <= i < |lines| => AddressOf(lines[i]))
  }

  function BoolsOf(lines: seq<Bytes>): seq<bool>
    requires forall i :: 0 <= i < |lines| ==> |lines[i]| == 32
  {
    seq(|lines|, i requires 0 <= i < |lines| => BoolOf(lines[i]))
  }

  function DecodeStatic(t: Type, data: Bytes, start: nat): Option<Arg> {
    match Span(data, start, 32)
    case None => None
    case Some(line) =>
      match t
      case UintType => Some(Uint(UintOf(line)))
      case AddressType => Some(Addr(AddressOf(line)))
      case _ => Some(Bool(BoolOf(line)))
  }

  /** A dynamic value whose tail starts at `at`. */
  function DecodeTail(t: Type, data: Bytes, at: nat): Option<Arg> {
    if t == BytesType || t == StringType then
      match DecodeBytes(data, at)
      case None => None
      case Some(s) => Some(if t == BytesType then Blob(s) else Text(s))
    else if t == BytesArrType || t == StringsType then
      match DecodeBytesArr(data, at)
      case None => None
      case Some(ss) => Some(if t == BytesArrType then Blobs(ss) else Texts(ss))
    else
      match DecodeLines(data, at)
      case None => None
      case Some(lines) =>
        Some(if t == UintsType then Uints(UintsOf(lines))
             else if t == AddressesType then Addrs(AddressesOf(lines)) else Bools(BoolsOf(lines)))
  }

  predicate IsStatic(t: Type) {
    t == UintType || t == AddressType || t == BoolType
  }

  function DecodeArg(t: Type, data: Bytes, start: nat): Option<Arg> {
    if IsStatic(t) then DecodeStatic(t, data, start)
    else
      match Number(data, start)
      case None => None
      case Some(at) => DecodeTail(t, data, at)
  }

  /** The arguments from `i` on. */
  function DecodeFrom(types: seq<Type>, data: Bytes, i: nat): Option<seq<Arg>>
    requires i <= |types|
    decreases |types| - i
  {
    if i == |types| then Some([])
    else
      match DecodeArg(types[i], data, 32 * i)
      case None => None
      case Some(arg) =>
        var rest := DecodeFrom(types, data, i + 1);
        if rest.None? then None else Some([arg] + rest.value)
  }

  function Decode(types: seq<Type>, data: Bytes): Option<seq<Arg>> {
    DecodeFrom(types, data, 0)
  }

  // ---------------------------------------------------------------- sizes

  lemma StaticIsLine(arg: Arg)
    ensures ItemOf(arg).Static? ==> |ItemOf(arg).line| == 32
  {
  }

  /** An argument list whose encoding stays below 2^31 bytes, so that no 32-bit counter of the encoder overflows. */
  ghost predicate Encodable(args: seq<Arg>) {
    |Encode(args)| < 0x8000_0000
  }

  lemma EncodableFits(args: seq<Arg>)
    requires Encodable(args)
    ensures Fits(Items(args))
  {
    forall i | 0 <= i < |args|
      ensures Items(args)[i].Static? ==> |Items(args)[i].line| == 32
    {
      StaticIsLine(args[i]);
    }
    LayoutAtLeast(Items(args));
  }

  // ---------------------------------------------------------------- reading back what was written

  /** A length in front of what it counts. */
  lemma LengthRead(data: Bytes, at: nat, n: nat, rest: Bytes)
    requires n < LIMIT64 && Has(data, at, Word(n) + rest)
    ensures Number(data, at) == Some(n) && Has(data, at + 32, rest)
  {
    HasPart(data, at, Word(n) + rest, 0, Word(n));
    NumberRead(data, at, n);
    HasPart(data, at, Word(n) + rest, 32, rest);
  }

  lemma PaddedRead(data: Bytes, at: nat, s: Bytes, width: nat)
    requires Has(data, at, PadRight(s, width))
    ensures Span(data, at, |s|) == Some(s)
  {
    assert Has(PadRight(s, width), 0, s);
    HasPart(data, at, PadRight(s, width), 0, s);
  }

  lemma BytesDecoded(data: Bytes, at: nat, s: Bytes)
    requires |data| < LIMIT64 && Has(data, at, EncodeBytes(s))
    ensures DecodeBytes(data, at) == Some(s)
  {
    LengthRead(data, at, |s|, PadRight(s, 32 * LineCount(|s|)));
    PaddedRead(data, at + 32, s, 32 * LineCount(|s|));
  }

  lemma LinesDecoded(data: Bytes, at: nat, lines: seq<Bytes>)
    requires |lines| < LIMIT64 && AllLines(lines) && Has(data, at, EncodeLines(lines))
    ensures DecodeLines(data, at) == Some(lines)
  {
    LengthRead(data, at, |lines|, Concat(lines));
    ConcatLength(lines);
    LinesBefore(lines, |lines|);
    LinesRead(data, at + 32, lines);
  }

  lemma LinesRead(data: Bytes, at: nat, lines: seq<Bytes>)
    requires AllLines(lines) && |Concat(lines)| == 32 * |lines| && Has(data, at, Concat(lines))
    ensures LinesAt(data, at, |lines|) == Some(lines)
  {
    var read := LinesAt(data, at, |lines|).value;
    forall i | 0 <= i < |lines|
      ensures read[i] == lines[i]
    {
      ConcatHas(lines, i);
      LinesBefore(lines, i);
      HasPart(data, at, Concat(lines), 32 * i, lines[i]);
    }
    assert read == lines;
  }

  lemma {:induction false} ElementsDecoded(data: Bytes, at: nat, ss: seq<Bytes>, i: nat)
    requires i <= |ss| && |data| < LIMIT64 && Fits(BytesItems(ss)) && Has(data, at + 32, Layout(BytesItems(ss)))
    ensures DecodeElements(data, at, |ss|, i) == Some(ss[i..])
    decreases |ss| - i
  {
    hide DecodeElement, Fits, Has, Layout;
    if i == |ss| {
      assert ss[i..] == [];
    } else {
      ElementDecoded(data, at, ss, i);
      ElementsDecoded(data, at, ss, i + 1);
      assert ss[i..] == [ss[i]] + ss[i + 1..];
    }
  }

  lemma ElementDecoded(data: Bytes, at: nat, ss: seq<Bytes>, i: nat)
    requires i < |ss| && |data| < LIMIT64 && Fits(BytesItems(ss)) && Has(data, at + 32, Layout(BytesItems(ss)))
    ensures DecodeElement(data, at, i) == Some(ss[i])
  {
    hide *;
    var offset := ElementPointed(data, at + 32, ss, i);
    ElementAt(data, at, i, offset, ss[i]);
  }

  lemma ElementPointed(data: Bytes, base: nat, ss: seq<Bytes>, i: nat) returns (offset: nat)
    requires i < |ss| && |data| < LIMIT64 && Fits(BytesItems(ss)) && Has(data, base, Layout(BytesItems(ss)))
    ensures Number(data, base + 32 * i) == Some(offset) && base + offset < LIMIT64
    ensures DecodeBytes(data, base + offset) == Some(ss[i])
  {
    hide Fits, Has, Layout, PointsAt, Number, DecodeBytes, EncodeBytes;
    offset := Offset(BytesItems(ss), i);
    HeadPointsAtTail(BytesItems(ss), i, data, base);
    PointedBytes(data, base, i, offset, ss[i]);
  }

  lemma PointedBytes(data: Bytes, base: nat, i: nat, offset: nat, s: Bytes)
    requires |data| < LIMIT64 && PointsAt(data, base, i, offset, EncodeBytes(s))
    ensures Number(data, base + 32 * i) == Some(offset) && base + offset < LIMIT64
    ensures DecodeBytes(data, base + offset) == Some(s)
  {
    BytesDecoded(data, base + offset, s);
  }

  lemma ElementAt(data: Bytes, at: nat, i: nat, offset: nat, s: Bytes)
    requires Number(data, at + 32 + 32 * i) == Some(offset) && at + 32 + offset < LIMIT64
    requires DecodeBytes(data, at + 32 + offset) == Some(s)
    ensures DecodeElement(data, at, i) == Some(s)
  {
    assert Wrap64(offset + (at + 32)) == at + 32 + offset;
  }

  lemma ElementsFit(ss: seq<Bytes>)
    requires |EncodeBytesArr(ss)| < LIMIT64
    ensures Fits(BytesItems(ss)) && |ss| < LIMIT64
  {
    LayoutAtLeast(BytesItems(ss));
  }

  lemma BytesArrDecoded(data: Bytes, at: nat, ss: seq<Bytes>)
    requires |data| < LIMIT64 && Has(data, at, EncodeBytesArr(ss))
    ensures DecodeBytesArr(data, at) == Some(ss)
  {
    ElementsFit(ss);
    LengthRead(data, at, |ss|, Layout(BytesItems(ss)));
    ElementsDecoded(data, at, ss, 0);
    assert ss[0..] == ss;
  }

  lemma UintRead(n: U256)
    ensures |Word(n)| == 32 && UintOf(Word(n)) == n
  {
  }

  lemma AddressRead(a: Address)
    ensures AddressOf(AddressLine(a)) == a
  {
  }

  lemma BoolRead(b: bool)
    ensures BoolOf(BoolLine(b)) == b
  {
  }

  lemma UintsRead(ns: seq<U256>)
    ensures AllLines(UintLines(ns)) && UintsOf(UintLines(ns)) == ns
  {
    forall i | 0 <= i < |ns|
      ensures |UintLines(ns)[i]| == 32 && UintOf(UintLines(ns)[i]) == ns[i]
    {
      UintRead(ns[i]);
    }
    assert UintsOf(UintLines(ns)) == ns;
  }

  lemma AddressesRead(addrs: seq<Address>)
    ensures AllLines(AddressLines(addrs)) && AddressesOf(AddressLines(addrs)) == addrs
  {
    forall i | 0 <= i < |addrs|
      ensures AddressOf(AddressLines(addrs)[i]) == addrs[i]
    {
      AddressRead(addrs[i]);
    }
    assert AddressesOf(AddressLines(addrs)) == addrs;
  }

  lemma BoolsRead(bs: seq<bool>)
    ensures AllLines(BoolLines(bs)) && BoolsOf(BoolLines(bs)) == bs
  {
    forall i | 0 <= i < |bs|
      ensures BoolOf(BoolLines(bs)[i]) == bs[i]
    {
      BoolRead(bs[i]);
    }
    assert BoolsOf(BoolLines(bs)) == bs;
  }

  lemma StaticDecoded(arg: Arg, data: Bytes, start: nat)
    requires ItemOf(arg).Static? && Has(data, start, ItemOf(arg).line)
    ensures DecodeStatic(TypeOf(arg), data, start) == Some(arg)
  {
    match arg
    case Uint(n) => UintRead(n);
    case Addr(a) => AddressRead(a);
    case Bool(b) => BoolRead(b);
  }

  lemma LineCountBound(data: Bytes, at: nat, lines: seq<Bytes>)
    requires |data| < LIMIT64 && AllLines(lines) && Has(data, at, EncodeLines(lines))
    ensures |lines| < LIMIT64
  {
    ConcatLength(lines);
    LinesBefore(lines, |lines|);
  }

  lemma TailDecoded(arg: Arg, data: Bytes, at: nat)
    requires |data| < LIMIT64 && ItemOf(arg).Dynamic? && Has(data, at, ItemOf(arg).tail)
    ensures DecodeTail(TypeOf(arg), data, at) == Some(arg)
  {
    hide DecodeBytes, DecodeBytesArr, DecodeLines, EncodeBytes, EncodeBytesArr, EncodeLines, Has;
    match arg
    case Blob(s) => BytesDecoded(data, at, s);
    case Text(s) => BytesDecoded(data, at, s);
    case Blobs(ss) => BytesArrDecoded(data, at, ss);
    case Texts(ss) => BytesArrDecoded(data, at, ss);
    case Uints(ns) =>
      UintsRead(ns);
      LineCountBound(data, at, UintLines(ns));
      LinesDecoded(data, at, UintLines(ns));
    case Addrs(addrs) =>
      AddressesRead(addrs);
      LineCountBound(data, at, AddressLines(addrs));
      LinesDecoded(data, at, AddressLines(addrs));
    case Bools(bs) =>
      BoolsRead(bs);
      LineCountBound(data, at, BoolLines(bs));
      LinesDecoded(data, at, BoolLines(bs));
  }

  lemma StaticArgDecoded(arg: Arg, items: seq<Item>, i: nat)
    requires Fits(items) && i < |items| && items[i] == ItemOf(arg) && items[i].Static?
    ensures DecodeArg(TypeOf(arg), Layout(items), 32 * i) == Some(arg)
  {
    HeadPlace(items, i);
    StaticDecoded(arg, Layout(items), 32 * i);
  }

  lemma DynamicArgDecoded(arg: Arg, items: seq<Item>, i: nat)
    requires Fits(items) && i < |items| && items[i] == ItemOf(arg) && items[i].Dynamic? && |Layout(items)| < LIMIT64
    ensures DecodeArg(TypeOf(arg), Layout(items), 32 * i) == Some(arg)
  {
    assert Has(Layout(items), 0, Layout(items));
    HeadPointsAtTail(items, i, Layout(items), 0);
    PointedDecoded(arg, Layout(items), i, Offset(items, i));
  }

  lemma PointedDecoded(arg: Arg, data: Bytes, i: nat, offset: nat)
    requires |data| < LIMIT64 && ItemOf(arg).Dynamic? && PointsAt(data, 0, i, offset, ItemOf(arg).tail)
    ensures DecodeArg(TypeOf(arg), data, 32 * i) == Some(arg)
  {
    TailDecoded(arg, data, offset);
  }

  lemma ArgDecoded(args: seq<Arg>, i: nat)
    requires Encodable(args) && i < |args|
    ensures DecodeArg(TypeOf(args[i]), Encode(args), 32 * i) == Some(args[i])
  {
    hide DecodeArg, ItemOf, TypeOf, Fits, Layout;
    EncodableFits(args);
    assert Items(args)[i] == ItemOf(args[i]);
    if Items(args)[i].Static? {
      StaticArgDecoded(args[i], Items(args), i);
    } else {
      DynamicArgDecoded(args[i], Items(args), i);
    }
  }

  lemma {:induction false} ArgsDecoded(args: seq<Arg>, i: nat)
    requires Encodable(args) && i <= |args|
    ensures DecodeFrom(TypesOf(args), Encode(args), i) == Some(args[i..])
    decreases |args| - i
  {
    hide DecodeArg, Encode, Encodable, TypeOf;
    if i == |args| {
      assert args[i..] == [];
    } else {
      ArgDecoded(args, i);
      ArgsDecoded(args, i + 1);
      assert args[i..] == [args[i]] + args[i + 1..];
    }
  }

  /** Decoding what was encoded, with the types it was encoded from, gives back every argument. */
  lemma RoundTrip(args: seq<Arg>)
    requires Encodable(args)
    ensures Decode(TypesOf(args), Encode(args)) == Some(args)
  {
    ArgsDecoded(args, 0);
    assert args[0..] == args;
  }

  /** The head of a dynamic argument is the position of its own tail. */
  lemma OffsetsPointAtTails(args: seq<Arg>, i: nat)
    requires Encodable(args) && i < |args| && ItemOf(args[i]).Dynamic?
    ensures PointsAt(Encode(args), 0, i, Offset(Items(args), i), ItemOf(args[i]).tail)
  {
    EncodableFits(args);
    assert Has(Encode(args), 0, Layout(Items(args)));
    HeadPointsAtTail(Items(args), i, Encode(args), 0);
  }

  /** Tails start behind the heads, follow each other without gap or overlap, and the last one ends the encoding. */
  lemma TailsAreContiguous(args: seq<Arg>, i: nat, j: nat)
    requires Encodable(args) && i < j < |args|
    ensures Offset(Items(args), 0) == 32 * |args| && Offset(Items(args), |args|) == |Encode(args)|
    ensures Offset(Items(args), i + 1) == Offset(Items(args), i) + |TailOf(ItemOf(args[i]))|
    ensures Offset(Items(args), i) + |TailOf(ItemOf(args[i]))| <= Offset(Items(args), j)
  {
    EncodableFits(args);
    LayoutLength(Items(args));
    TailsDisjoint(Items(args), i, j);
  }
}
