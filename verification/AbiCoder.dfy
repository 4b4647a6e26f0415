/** The loops of the ABI encoder and decoder, proved against the layout. */
module AbiCoder {
  import opened Bytes
  import opened AbiLayout
  import opened Abi

  // ---------------------------------------------------------------- encoding

  /** A number, padded on the left to a line. */
  method EncodeNumber(n: nat) returns (line: Bytes)
    requires n < LIMIT256
    ensures line == Word(n)
  {
    var s := UintToBytes(n);
    WordIsPadded(n);
    line := PadLeft(s, 32);
  }

  /** A number, written into a zeroed line from the last byte backwards. */
  method EncodeUint256(num: U256) returns (line: Bytes)
    ensures line == Word(num)
  {
    var tmp := UintToBytes(num);
    BigEndianLength256(num);
    var ret := new Byte[32](_ => 0);
    for i := 0 to |tmp|
      invariant forall k :: 0 <= k < 32 - i ==> ret[k] == 0
      invariant forall k :: 32 - i <= k < 32 ==> ret[k] == tmp[k - 32 + |tmp|]
    {
      ret[31 - i] := tmp[|tmp| - i - 1];
    }
    line := ret[..];
    WordIsPadded(num);
    assert line == PadLeft(tmp, 32);
  }

  /** The width a byte string is padded to. */
  method PadWidth(n: nat) returns (pad: nat)
    ensures pad == 32 * LineCount(n)
  {
    pad := 32;
    ghost var rest := n;
    while pad < n
      invariant pad + rest == n + 32 && 32 * LineCount(n) == pad - 32 + 32 * LineCount(rest)
      invariant rest >= 0
      decreases n - pad
    {
      pad := pad + 32;
      rest := rest - 32;
    }
  }

  method EncodeByteString(bytes: Bytes) returns (r: Bytes)
    requires |bytes| < LIMIT256
    ensures r == EncodeBytes(bytes)
  {
    var pad := PadWidth(|bytes|);
    var len := EncodeNumber(|bytes|);
    r := len + PadRight(bytes, pad);
  }

  lemma ConcatGrows(parts: seq<Bytes>, i: nat)
    requires i < |parts|
    ensures Concat(parts[..i]) + parts[i] == Concat(parts[..i + 1])
  {
    ConcatSnoc(parts[..i], parts[i]);
    assert parts[..i] + [parts[i]] == parts[..i + 1];
  }

  lemma ConcatWhole(parts: seq<Bytes>)
    ensures Concat(parts[..0]) == [] && Concat(parts[..|parts|]) == Concat(parts)
  {
    assert parts[..|parts|] == parts;
  }

  method EncodeUint256Arr(ns: seq<U256>) returns (ret: Bytes)
    requires |ns| < LIMIT256
    ensures ret == EncodeLines(UintLines(ns))
  {
    var len := EncodeNumber(|ns|);
    ret := len;
    ghost var lines := UintLines(ns);
    ConcatWhole(lines);
    assert len + [] == len;
    for i := 0 to |ns|
      invariant ret == len + Concat(lines[..i])
    {
      var line := EncodeUint256(ns[i]);
      ConcatGrows(lines, i);
      assert len + Concat(lines[..i]) + lines[i] == len + (Concat(lines[..i]) + lines[i]);
      ret := ret + line;
    }
  }

  method EncodeAddressArr(addrs: seq<Address>) returns (ret: Bytes)
    requires |addrs| < LIMIT256
    ensures ret == EncodeLines(AddressLines(addrs))
  {
    var len := EncodeNumber(|addrs|);
    ret := len;
    ghost var lines := AddressLines(addrs);
    ConcatWhole(lines);
    assert len + [] == len;
    for i := 0 to |addrs|
      invariant ret == len + Concat(lines[..i])
    {
      ConcatGrows(lines, i);
      assert len + Concat(lines[..i]) + lines[i] == len + (Concat(lines[..i]) + lines[i]);
      ret := ret + AddressLine(addrs[i]);
    }
  }

  method EncodeBoolArr(bs: seq<bool>) returns (ret: Bytes)
    requires |bs| < LIMIT256
    ensures ret == EncodeLines(BoolLines(bs))
  {
    var len := EncodeNumber(|bs|);
    ret := len;
    ghost var lines := BoolLines(bs);
    ConcatWhole(lines);
    assert len + [] == len;
    for i := 0 to |bs|
      invariant ret == len + Concat(lines[..i])
    {
      ConcatGrows(lines, i);
      assert len + Concat(lines[..i]) + lines[i] == len + (Concat(lines[..i]) + lines[i]);
      ret := ret + BoolLine(bs[i]);
    }
  }

  /** Append parts one after the other. */
  method AppendParts(buffer: Bytes, parts: seq<Bytes>) returns (ret: Bytes)
    ensures ret == buffer + Concat(parts)
  {
    ret := buffer;
    ConcatWhole(parts);
    assert buffer + [] == buffer;
    for i := 0 to |parts|
      invariant ret == buffer + Concat(parts[..i])
    {
      ConcatGrows(parts, i);
      assert buffer + Concat(parts[..i]) + parts[i] == buffer + (Concat(parts[..i]) + parts[i]);
      ret := ret + parts[i];
    }
  }

  lemma OffsetBound(items: seq<Item>, i: nat)
    requires Fits(items) && i <= |items|
    ensures Offset(items, i) < LIMIT64
  {
    BeforeMonotone(Tails(items), i, |items|);
  }

  /** One byte string of an array: its offset, its length and its padded data. */
  method Column(s: Bytes, offset: nat) returns (off: Bytes, len: Bytes, data: Bytes, pad: nat)
    requires |s| < LIMIT256 && offset < LIMIT256
    ensures off == Word(offset) && len + data == EncodeBytes(s) && |EncodeBytes(s)| == 32 + 32 * (pad / 32)
  {
    len := EncodeNumber(|s|);
    off := EncodeNumber(offset);
    pad := PadWidth(|s|);
    data := PadRight(s, pad);
  }

  lemma ElementBound(ss: seq<Bytes>, i: nat)
    requires |EncodeBytesArr(ss)| < LIMIT64 && i < |ss|
    ensures |ss[i]| < LIMIT64 && Offset(BytesItems(ss), i) < LIMIT64
    ensures Offset(BytesItems(ss), i + 1) == Offset(BytesItems(ss), i) + |EncodeBytes(ss[i])|
    ensures Heads(BytesItems(ss))[i] == Word(Offset(BytesItems(ss), i))
    ensures Tails(BytesItems(ss))[i] == EncodeBytes(ss[i])
  {
    ElementsFit(ss);
    OffsetBound(BytesItems(ss), i + 1);
    assert Tails(BytesItems(ss))[i] == EncodeBytes(ss[i]);
  }

  /** The three columns of an array of byte strings: offsets, lengths and padded data. */
  method Columns(ss: seq<Bytes>) returns (offs: seq<Bytes>, lens: seq<Bytes>, datas: seq<Bytes>)
    requires |EncodeBytesArr(ss)| < LIMIT64
    ensures |offs| == |ss| && forall k :: 0 <= k < |ss| ==> offs[k] == Heads(BytesItems(ss))[k]
    ensures |lens| == |datas| == |ss| && forall k :: 0 <= k < |ss| ==> lens[k] + datas[k] == Tails(BytesItems(ss))[k]
  {
    hide EncodeBytes, EncodeBytesArr, Word, Offset, BytesItems, Heads, Tails;
    offs, lens, datas := [], [], [];
    var pads := 0;
    ghost var items := BytesItems(ss);
    FirstOffset(items);
    for i := 0 to |ss|
      invariant |offs| == |lens| == |datas| == i && pads >= 0
      invariant Offset(items, i) == 32 * |ss| + 32 * i + 32 * pads
      invariant forall k :: 0 <= k < i ==> offs[k] == Heads(items)[k]
      invariant forall k :: 0 <= k < i ==> lens[k] + datas[k] == Tails(items)[k]
    {
      ElementBound(ss, i);
      var off, len, data, pad := Column(ss[i], 32 * |ss| + 32 * i + 32 * pads);
      pads := pads + pad / 32;
      offs := offs + [off];
      lens := lens + [len];
      datas := datas + [data];
    }
  }

  lemma FirstOffset(items: seq<Item>)
    ensures Offset(items, 0) == 32 * |items|
  {
  }

  /** Append length and data of each element in turn. */
  method AppendPairs(buffer: Bytes, lens: seq<Bytes>, datas: seq<Bytes>, ghost parts: seq<Bytes>) returns (ret: Bytes)
    requires |lens| == |datas| == |parts| && forall k :: 0 <= k < |parts| ==> lens[k] + datas[k] == parts[k]
    ensures ret == buffer + Concat(parts)
  {
    ret := buffer;
    ConcatWhole(parts);
    assert buffer + [] == buffer;
    for i := 0 to |lens|
      invariant ret == buffer + Concat(parts[..i])
    {
      ConcatGrows(parts, i);
      assert buffer + Concat(parts[..i]) + lens[i] + datas[i] == buffer + (Concat(parts[..i]) + (lens[i] + datas[i]));
      ret := ret + lens[i] + datas[i];
    }
  }

  lemma ArrayShape(ss: seq<Bytes>)
    ensures EncodeBytesArr(ss) == Word(|ss|) + Concat(Heads(BytesItems(ss))) + Concat(Tails(BytesItems(ss)))
  {
    hide Word, BytesItems, Heads, Tails;
    var heads, tails := Concat(Heads(BytesItems(ss))), Concat(Tails(BytesItems(ss)));
    assert Word(|ss|) + (heads + tails) == Word(|ss|) + heads + tails;
  }

  method EncodeByteStringArr(ss: seq<Bytes>) returns (ret: Bytes)
    requires |EncodeBytesArr(ss)| < LIMIT64
    ensures ret == EncodeBytesArr(ss)
  {
    hide EncodeBytesArr, Fits, Word, BytesItems, Heads, Tails, Concat;
    ElementsFit(ss);
    var len := EncodeNumber(|ss|);
    var offs, lens, datas := Columns(ss);
    assert offs == Heads(BytesItems(ss));
    ret := AppendParts(len, offs);
    ret := AppendPairs(ret, lens, datas, Tails(BytesItems(ss)));
    ArrayShape(ss);
  }

  predicate WholeLines(n: nat) {
    32 * (n / 32) == n
  }

  lemma BytesWholeLines(s: Bytes)
    ensures WholeLines(|EncodeBytes(s)|)
  {
    assert |EncodeBytes(s)| == 32 * (1 + LineCount(|s|));
  }

  lemma {:induction false} OffsetsWholeLines(ss: seq<Bytes>, i: nat)
    requires |EncodeBytesArr(ss)| < LIMIT64 && i <= |ss|
    ensures WholeLines(Offset(BytesItems(ss), i))
  {
    hide EncodeBytes, EncodeBytesArr, Offset, BytesItems;
    if i == 0 {
      FirstOffset(BytesItems(ss));
    } else {
      OffsetsWholeLines(ss, i - 1);
      ElementBound(ss, i - 1);
      BytesWholeLines(ss[i - 1]);
    }
  }

  lemma ArrayWholeLines(ss: seq<Bytes>)
    requires |EncodeBytesArr(ss)| < LIMIT64
    ensures WholeLines(|EncodeBytesArr(ss)|)
  {
    hide Offset, BytesItems, Layout, Fits;
    ElementsFit(ss);
    LayoutLength(BytesItems(ss));
    OffsetsWholeLines(ss, |ss|);
  }

  lemma LinesLength(lines: seq<Bytes>)
    requires AllLines(lines)
    ensures |EncodeLines(lines)| == 32 + 32 * |lines|
  {
    ConcatLength(lines);
    LinesBefore(lines, |lines|);
  }

  ghost function HeadAt(item: Item, offset: nat): Bytes {
    match item
    case Static(line) => line
    case Dynamic(_) => Word(offset)
  }

  method EncodeStatic(arg: Arg) returns (head: Bytes)
    requires ItemOf(arg).Static?
    ensures head == ItemOf(arg).line
  {
    match arg
    case Uint(n) => head := EncodeUint256(n);
    case Addr(a) => head := AddressLine(a);
    case Bool(b) => head := BoolLine(b);
  }

  /** The tail of a dynamic argument, and by how much it moves the offset of the next one. */
  method EncodeTail(arg: Arg) returns (tail: Bytes, advance: nat)
    requires ItemOf(arg).Dynamic? && |ItemOf(arg).tail| < LIMIT64
    ensures tail == ItemOf(arg).tail && advance == |tail|
  {
    hide EncodeBytes, EncodeBytesArr, EncodeLines;
    match arg
    case Blob(s) => tail, advance := PackBytes(s);
    case Text(s) => tail, advance := PackBytes(s);
    case Blobs(ss) =>
      tail := EncodeByteStringArr(ss);
      ArrayWholeLines(ss);
      advance := 32 * (|tail| / 32);
    case Texts(ss) =>
      tail := EncodeByteStringArr(ss);
      ArrayWholeLines(ss);
      advance := 32 * (|tail| / 32);
    case Uints(ns) =>
      UintsRead(ns);
      LinesLength(UintLines(ns));
      tail := EncodeUint256Arr(ns);
      advance := 32 + 32 * |ns|;
    case Addrs(addrs) =>
      AddressesRead(addrs);
      LinesLength(AddressLines(addrs));
      tail := EncodeAddressArr(addrs);
      advance := 32 + 32 * |addrs|;
    case Bools(bs) =>
      BoolsRead(bs);
      LinesLength(BoolLines(bs));
      tail := EncodeBoolArr(bs);
      advance := 32 + 32 * |bs|;
  }

  method PackBytes(s: Bytes) returns (tail: Bytes, advance: nat)
    requires |EncodeBytes(s)| < LIMIT64
    ensures tail == EncodeBytes(s) && advance == |tail|
  {
    tail := EncodeByteString(s);
    BytesWholeLines(s);
    advance := 32 * (|tail| / 32);
  }

  /** Whether the encoder puts an argument into its own head. */
  predicate IsStaticArg(arg: Arg) {
    arg.Uint? || arg.Addr? || arg.Bool?
  }

  lemma ArgBound(args: seq<Arg>, i: nat)
    requires Encodable(args) && i < |args|
    ensures Offset(Items(args), i) < LIMIT64 && |TailOf(ItemOf(args[i]))| < LIMIT64
    ensures Offset(Items(args), i + 1) == Offset(Items(args), i) + |TailOf(ItemOf(args[i]))|
    ensures Heads(Items(args))[i] == HeadAt(ItemOf(args[i]), Offset(Items(args), i))
    ensures Tails(Items(args))[i] == TailOf(ItemOf(args[i]))
  {
    hide ItemOf, Word, Encode, Layout;
    EncodableFits(args);
    OffsetBound(Items(args), i + 1);
    assert Tails(Items(args))[i] == TailOf(ItemOf(args[i]));
  }

  /** The encoder: heads go to the data, tails to the dynamic part, which is appended at the end. */
  method EncodeArgs(args: seq<Arg>) returns (data: Bytes)
    requires Encodable(args)
    ensures data == Encode(args)
  {
    hide Encodable, ItemOf, Offset, Items, Heads, Tails, Word;
    ghost var items := Items(args);
    ghost var heads, tails := Heads(items), Tails(items);
    var nextOffset := 32 * |args|;
    var dynamicBytes: Bytes := [];
    data := [];
    FirstOffset(items);
    ConcatWhole(heads);
    ConcatWhole(tails);
    for i := 0 to |args|
      invariant nextOffset == Offset(items, i)
      invariant data == Concat(heads[..i]) && dynamicBytes == Concat(tails[..i])
    {
      ArgBound(args, i);
      ConcatGrows(heads, i);
      ConcatGrows(tails, i);
      var head, tail, next := EncodeArg(args[i], nextOffset);
      data := data + head;
      dynamicBytes := dynamicBytes + tail;
      nextOffset := next;
    }
    data := data + dynamicBytes;
  }

  method EncodeArg(arg: Arg, nextOffset: nat) returns (head: Bytes, tail: Bytes, next: nat)
    requires nextOffset < LIMIT64 && |TailOf(ItemOf(arg))| < LIMIT64
    ensures head == HeadAt(ItemOf(arg), nextOffset) && tail == TailOf(ItemOf(arg)) && next == nextOffset + |tail|
  {
    if IsStaticArg(arg) {
      head := EncodeStatic(arg);
      tail := [];
      next := nextOffset;
    } else {
      var advance;
      head := EncodeNumber(nextOffset);
      tail, advance := EncodeTail(arg);
      next := nextOffset + advance;
    }
  }

  // ---------------------------------------------------------------- decoding

  /** Read the elements of an array of numbers. */
  method ReadUints(data: Bytes, at: nat) returns (r: Option<seq<U256>>)
    ensures r == match DecodeLines(data, at) case None => None case Some(lines) => Some(UintsOf(lines))
  {
    var length := Number(data, at);
    if length.None? {
      return None;
    }
    var n: nat := length.value;
    if at + 32 + 32 * n > |data| {
      return None;
    }
    var values: seq<U256> := [];
    for i := 0 to n
      invariant |values| == i
      invariant forall k :: 0 <= k < i ==> values[k] == UintOf(LinesAt(data, at + 32, n).value[k])
    {
      values := values + [UintOf(data[at + 32 + 32 * i..at + 32 + 32 * i + 32])];
    }
    assert values == UintsOf(DecodeLines(data, at).value);
    r := Some(values);
  }

  method ReadAddresses(data: Bytes, at: nat) returns (r: Option<seq<Address>>)
    ensures r == match DecodeLines(data, at) case None => None case Some(lines) => Some(AddressesOf(lines))
  {
    var length := Number(data, at);
    if length.None? {
      return None;
    }
    var n: nat := length.value;
    if at + 32 + 32 * n > |data| {
      return None;
    }
    var values: seq<Address> := [];
    for i := 0 to n
      invariant |values| == i
      invariant forall k :: 0 <= k < i ==> values[k] == AddressOf(LinesAt(data, at + 32, n).value[k])
    {
      assert data[at + 32 + 32 * i + 12..at + 32 + 32 * i + 32]
          == AddressOf(data[at + 32 + 32 * i..at + 32 + 32 * i + 32]);
      values := values + [data[at + 32 + 32 * i + 12..at + 32 + 32 * i + 32]];
    }
    assert values == AddressesOf(DecodeLines(data, at).value);
    r := Some(values);
  }

  method ReadBools(data: Bytes, at: nat) returns (r: Option<seq<bool>>)
    ensures r == match DecodeLines(data, at) case None => None case Some(lines) => Some(BoolsOf(lines))
  {
    var length := Number(data, at);
    if length.None? {
      return None;
    }
    var n: nat := length.value;
    if at + 32 + 32 * n > |data| {
      return None;
    }
    var values: seq<bool> := [];
    for i := 0 to n
      invariant |values| == i
      invariant forall k :: 0 <= k < i ==> values[k] == BoolOf(LinesAt(data, at + 32, n).value[k])
    {
      values := values + [data[at + 32 + 32 * i + 31] == 1];
    }
    assert values == BoolsOf(DecodeLines(data, at).value);
    r := Some(values);
  }

  /** Read the elements of an array of byte strings, each through its own offset. */
  method ReadByteStrings(data: Bytes, at: nat) returns (r: Option<seq<Bytes>>)
    ensures r == DecodeBytesArr(data, at)
  {
    hide DecodeElement;
    var n := Number(data, at);
    if n.None? {
      return None;
    }
    var values: seq<Bytes> := [];
    PrependEmpty(DecodeElements(data, at, n.value, 0));
    for i := 0 to n.value
      invariant DecodeElements(data, at, n.value, 0) == Prepend(values, DecodeElements(data, at, n.value, i))
    {
      var element := DecodeElement(data, at, i);
      if element.None? {
        return None;
      }
      PrependStep(values, element.value, DecodeElements(data, at, n.value, i + 1));
      values := values + [element.value];
    }
    assert values + [] == values;
    r := Some(values);
  }

  method ReadArg(t: Type, data: Bytes, start: nat) returns (r: Option<Arg>)
    ensures r == DecodeArg(t, data, start)
  {
    if IsStatic(t) {
      return DecodeStatic(t, data, start);
    }
    var at := Number(data, start);
    if at.None? {
      return None;
    }
    r := ReadTail(t, data, at.value);
  }

  method ReadTail(t: Type, data: Bytes, at: nat) returns (r: Option<Arg>)
    requires !IsStatic(t)
    ensures r == DecodeTail(t, data, at)
  {
    hide DecodeBytes, DecodeBytesArr, DecodeLines;
    match t
    case BytesType =>
      var s := DecodeBytes(data, at);
      r := if s.None? then None else Some(Blob(s.value));
    case StringType =>
      var s := DecodeBytes(data, at);
      r := if s.None? then None else Some(Text(s.value));
    case UintsType =>
      var ns := ReadUints(data, at);
      r := if ns.None? then None else Some(Uints(ns.value));
    case AddressesType =>
      var addrs := ReadAddresses(data, at);
      r := if addrs.None? then None else Some(Addrs(addrs.value));
    case BoolsType =>
      var bs := ReadBools(data, at);
      r := if bs.None? then None else Some(Bools(bs.value));
    case BytesArrType =>
      var ss := ReadByteStrings(data, at);
      r := if ss.None? then None else Some(Blobs(ss.value));
    case StringsType =>
      var ss := ReadByteStrings(data, at);
      r := if ss.None? then None else Some(Texts(ss.value));
  }

  /** The decoder: one head per type, 32 bytes apart. */
  method DecodeArgs(types: seq<Type>, data: Bytes) returns (r: Option<seq<Arg>>)
    ensures r == Decode(types, data)
  {
    hide DecodeArg;
    var values: seq<Arg> := [];
    var argIdx, dataIdx := 0, 0;
    PrependEmpty(Decode(types, data));
    while argIdx < |types|
      invariant argIdx <= |types| && dataIdx == 32 * argIdx
      invariant Decode(types, data) == Prepend(values, DecodeFrom(types, data, argIdx))
    {
      var arg := ReadArg(types[argIdx], data, dataIdx);
      if arg.None? {
        return None;
      }
      PrependStep(values, arg.value, DecodeFrom(types, data, argIdx + 1));
      values := values + [arg.value];
      dataIdx := dataIdx + 32;
      argIdx := argIdx + 1;
    }
    assert values + [] == values;
    r := Some(values);
  }
}
