/** The RLP items the transactions are made of, and how the decoders read them. */
module Rlp {
  import opened Bytes

  function EncodeUint(n: U256): Bytes {
    BigEndianLength256(n);
    if n == 0 then [0x80]
    else if n < 0x80 then [n]
    else [0x80 + |BigEndian(n)|] + BigEndian(n)
  }

  function EncodeData(d: Bytes): Bytes
    requires |d| < LIMIT64
  {
    BigEndianLength64(|d|);
    if |d| == 0 then [0x80]
    else if |d| <= 55 then [0x80 + |d|] + d
    else [0xb7 + |BigEndian(|d|)|] + (BigEndian(|d|) + d)
  }

  /** A number that is always sent with a length prefix (r and s). */
  function EncodeLong(n: U256): Bytes {
    BigEndianLength256(n);
    [0x80 + |BigEndian(n)|] + BigEndian(n)
  }

  function ListHeader(n: nat): Bytes
    requires n < LIMIT64
  {
    BigEndianLength64(n);
    if n <= 55 then [0xc0 + n] else [0xf7 + |BigEndian(n)|] + BigEndian(n)
  }

  /** One number, as the decoders read it: its value and what follows it. */
  function TakeUint(s: Bytes, maxLength: nat): (r: Option<(nat, Bytes)>)
    ensures r.Some? ==> |r.value.1| < |s|
  {
    if s == [] then None
    else if s[0] > 0x80 then
      var len := s[0] - 0x80;
      if len > maxLength || 1 + len > |s| then None
      else Some((FromBigEndian(s[1..1 + len]), s[1 + len..]))
    else Some((if s[0] == 0x80 then 0 else s[0], s[1..]))
  }

  /** A number read into a 64-bit register. */
  function TakeU64(s: Bytes, maxLength: nat): Option<(U64, Bytes)> {
    var r :- TakeUint(s, maxLength);
    Some((Wrap64(r.0), r.1))
  }

  /** A number read into a checked 256-bit register. */
  function TakeU256(s: Bytes): Option<(U256, Bytes)> {
    var r :- TakeUint(s, 0x37);
    if r.0 < LIMIT256 then Some((r.0, r.1)) else None
  }

  /** A number with a length prefix; a first byte below 0x80 wraps to a huge length. */
  function TakeLong(s: Bytes, maxLength: nat): Option<(U256, Bytes)> {
    if s == [] then None
    else
      var len := if s[0] >= 0x80 then s[0] - 0x80 else s[0] + 0x80;
      if len > maxLength || 1 + len > |s| then None
      else
        var n := FromBigEndian(s[1..1 + len]);
        if n < LIMIT256 then Some((n, s[1 + len..])) else None
  }

  /** The data field. A first byte of 0xb7 is read as a long string with no length bytes. */
  function TakeData(s: Bytes, longLimit: nat): Option<(Bytes, Bytes)> {
    if s == [] then None
    else if s[0] < 0x80 then Some(([s[0]], s[1..]))
    else if s[0] < 0xb7 then
      var len := s[0] - 0x80;
      if 1 + len > |s| then None else Some((s[1..1 + len], s[1 + len..]))
    else if s[0] < longLimit then TakeLongData(s[0] - 0xb7, s[1..])
    else None
  }

  function TakeLongData(sizeLength: nat, s: Bytes): Option<(Bytes, Bytes)> {
    if sizeLength > |s| then None
    else
      var len := Wrap64(FromBigEndian(s[..sizeLength]));
      if sizeLength + len > |s| then None
      else Some((s[sizeLength..sizeLength + len], s[sizeLength + len..]))
  }

  /** The data field as Appendix B of the Ethereum Yellow Paper reads it: 0xb7 is a short string. */
  function TakeDataReference(s: Bytes): Option<(Bytes, Bytes)> {
    if s == [] then None
    else if s[0] < 0x80 then Some(([s[0]], s[1..]))
    else if s[0] <= 0xb7 then
      var len := s[0] - 0x80;
      if 1 + len > |s| then None else Some((s[1..1 + len], s[1 + len..]))
    else if s[0] < 0xc0 then TakeLongData(s[0] - 0xb7, s[1..])
    else None
  }

  lemma UintTaken(n: U256, rest: Bytes, maxLength: nat)
    requires maxLength >= 32
    ensures TakeUint(EncodeUint(n) + rest, maxLength) == Some((n, rest))
  {
    var s := EncodeUint(n) + rest;
    BigEndianLength256(n);
    FromBigEndianOfBigEndian(n);
    if n < 0x80 {
      assert s[1..] == rest;
    } else {
      BigEndianNonempty(n);
      assert s[1..1 + |BigEndian(n)|] == BigEndian(n);
      assert s[1 + |BigEndian(n)|..] == rest;
    }
  }

  lemma LongTaken(n: U256, rest: Bytes, maxLength: nat)
    requires maxLength >= 32
    ensures TakeLong(EncodeLong(n) + rest, maxLength) == Some((n, rest))
  {
    var s := EncodeLong(n) + rest;
    BigEndianLength256(n);
    FromBigEndianOfBigEndian(n);
    assert s[1..1 + |BigEndian(n)|] == BigEndian(n);
    assert s[1 + |BigEndian(n)|..] == rest;
  }

  lemma LongDataTaken(size: Bytes, d: Bytes, rest: Bytes)
    requires FromBigEndian(size) == |d| < LIMIT64
    ensures TakeLongData(|size|, size + (d + rest)) == Some((d, rest))
  {
    CutMiddle(size, d, rest);
  }

  lemma LongSize(n: nat)
    requires 0 < n < LIMIT64
    ensures 1 <= |BigEndian(n)| <= 8
  {
    BigEndianLength64(n);
    BigEndianNonempty(n);
  }

  /** A long data field is its length prefix, the length, and the data. */
  lemma LongDataShape(d: Bytes, rest: Bytes, size: Bytes)
    requires 55 < |d| < LIMIT64 && size == BigEndian(|d|) && 1 <= |size| <= 8
    ensures EncodeData(d) + rest == [0xb7 + |size|] + (size + (d + rest))
  {
    hide BigEndian;
    assert EncodeData(d) == [0xb7 + |size|] + (size + d);
    Assoc(size, d, rest);
    Assoc([0xb7 + |size|], size + d, rest);
  }

  lemma UintAtMost(n: U256)
    ensures |EncodeUint(n)| <= 33
  {
    BigEndianLength256(n);
  }

  lemma LongAtMost(n: U256)
    ensures |EncodeLong(n)| <= 33
  {
    BigEndianLength256(n);
  }

  /** Data sent with a length byte of its own, as a long string: 55 bytes are read back in this form. */
  lemma LongFormTaken(d: Bytes, rest: Bytes)
    requires |d| == 55
    ensures TakeData([0xb8, 55] + (d + rest), 0xc0) == Some((d, rest))
  {
    var s := [0xb8, 55] + (d + rest);
    var size: Bytes := [55];
    assert s[1..] == size + (d + rest);
    assert FromBigEndian(size) == 55 by {
      assert size[..0] == [];
    }
    LongDataTaken(size, d, rest);
  }

  /** A long data field: its first byte, and what the length and payload behind it give. */
  lemma LongDataPrefix(d: Bytes, rest: Bytes, s: Bytes)
    requires 55 < |d| < LIMIT64
    requires s == EncodeData(d) + rest
    ensures 0xb8 <= s[0] < 0xc0
    ensures TakeLongData(s[0] - 0xb7, s[1..]) == Some((d, rest))
  {
    var size := BigEndian(|d|);
    FromBigEndianOfBigEndian(|d|);
    LongSize(|d|);
    LongDataShape(d, rest, size);
    LongDataTaken(size, d, rest);
  }

  /** Every data field but a 55-byte one is read back; a 55-byte one is read as empty. */
  lemma DataTaken(d: Bytes, rest: Bytes, longLimit: nat)
    requires |d| < LIMIT64
    requires longLimit >= 0xc0
    ensures |d| != 55 ==> TakeData(EncodeData(d) + rest, longLimit) == Some((d, rest))
    ensures |d| == 55 ==> TakeData(EncodeData(d) + rest, longLimit) == Some(([], d + rest))
  {
    if |d| > 55 {
      LongDataPrefix(d, rest, EncodeData(d) + rest);
    } else {
      ShortDataTaken(d, rest, longLimit);
    }
  }

  lemma ShortDataTaken(d: Bytes, rest: Bytes, longLimit: nat)
    requires |d| <= 55
    requires longLimit >= 0xc0
    ensures |d| != 55 ==> TakeData(EncodeData(d) + rest, longLimit) == Some((d, rest))
    ensures |d| == 55 ==> TakeData(EncodeData(d) + rest, longLimit) == Some(([], d + rest))
  {
    var s := EncodeData(d) + rest;
    Assoc([0x80 + |d|], d, rest);
    CutMiddle([0x80 + |d|], d, rest);
  }

  lemma DataTakenReference(d: Bytes, rest: Bytes)
    requires |d| < LIMIT64
    ensures TakeDataReference(EncodeData(d) + rest) == Some((d, rest))
  {
    if |d| > 55 {
      LongDataPrefix(d, rest, EncodeData(d) + rest);
    } else {
      Assoc([0x80 + |d|], d, rest);
      CutMiddle([0x80 + |d|], d, rest);
    }
  }

  // ---------------------------------------------------------------- reading with a cursor

  lemma SliceOfSuffix(s: Bytes, index: nat, from: nat, to: nat)
    requires index + from <= index + to <= |s|
    ensures s[index..][from..to] == s[index + from..index + to]
    ensures s[index..][to..] == s[index + to..]
  {
  }

  /** What a cursor-based reader returns when a suffix-based one returns `taken`. */
  ghost predicate Reads<T>(s: Bytes, r: Option<(T, nat)>, taken: Option<(T, Bytes)>) {
    match r
    case None => taken == None
    case Some(v) => v.1 <= |s| && taken == Some((v.0, s[v.1..]))
  }

  method ReadUint(s: Bytes, start: nat, maxLength: nat) returns (r: Option<(nat, nat)>)
    requires start <= |s|
    ensures Reads(s, r, TakeUint(s[start..], maxLength))
  {
    var index := start;
    if index == |s| {
      return None;
    }
    var length := if s[index] >= 0x80 then s[index] - 0x80 else 0;
    if length != 0 {
      if length > maxLength || index + 1 + length > |s| {
        return None;
      }
      SliceOfSuffix(s, index, 1, 1 + length);
      index := index + 1;
      r := Some((FromBigEndian(s[index..index + length]), index + length));
    } else {
      SliceOfSuffix(s, index, 0, 1);
      r := Some((if s[index] == 0x80 then 0 else s[index], index + 1));
    }
  }

  method ReadU64(s: Bytes, start: nat, maxLength: nat) returns (r: Option<(U64, nat)>)
    requires start <= |s|
    ensures Reads(s, r, TakeU64(s[start..], maxLength))
  {
    var n :- ReadUint(s, start, maxLength);
    r := Some((Wrap64(n.0), n.1));
  }

  method ReadU256(s: Bytes, start: nat) returns (r: Option<(U256, nat)>)
    requires start <= |s|
    ensures Reads(s, r, TakeU256(s[start..]))
  {
    var n :- ReadUint(s, start, 0x37);
    r := if n.0 < LIMIT256 then Some((n.0, n.1)) else None;
  }

  method ReadLong(s: Bytes, start: nat, maxLength: nat) returns (r: Option<(U256, nat)>)
    requires start <= |s|
    ensures Reads(s, r, TakeLong(s[start..], maxLength))
  {
    var index := start;
    if index == |s| {
      return None;
    }
    var length: nat := if s[index] >= 0x80 then s[index] - 0x80 else s[index] + 0x80;
    if length > maxLength || index + 1 + length > |s| {
      return None;
    }
    SliceOfSuffix(s, index, 1, 1 + length);
    index := index + 1;
    var n := FromBigEndian(s[index..index + length]);
    r := if n < LIMIT256 then Some((n, index + length)) else None;
  }

  method ReadData(s: Bytes, start: nat, longLimit: nat) returns (r: Option<(Bytes, nat)>)
    requires start <= |s|
    ensures Reads(s, r, TakeData(s[start..], longLimit))
  {
    var index := start;
    if index == |s| {
      return None;
    }
    SliceOfSuffix(s, index, 0, 1);
    if s[index] < 0x80 {
      r := Some(([s[index]], index + 1));
    } else if s[index] < 0xb7 {
      var length := s[index] - 0x80;
      if index + 1 + length > |s| {
        return None;
      }
      SliceOfSuffix(s, index, 1, 1 + length);
      r := Some((s[index + 1..index + 1 + length], index + 1 + length));
    } else if s[index] < longLimit {
      r := ReadLongData(s, index + 1, s[index] - 0xb7);
    } else {
      r := None;
    }
  }

  method ReadLongData(s: Bytes, start: nat, sizeLength: nat) returns (r: Option<(Bytes, nat)>)
    requires start <= |s|
    ensures Reads(s, r, TakeLongData(sizeLength, s[start..]))
  {
    var index := start;
    if index + sizeLength > |s| {
      return None;
    }
    SliceOfSuffix(s, index, 0, sizeLength);
    var length := Wrap64(FromBigEndian(s[index..index + sizeLength]));
    index := index + sizeLength;
    if index + length > |s| {
      return None;
    }
    SliceOfSuffix(s, start, sizeLength, sizeLength + length);
    r := Some((s[index..index + length], index + length));
  }

  lemma U64Taken(n: U256, rest: Bytes)
    ensures TakeU64(EncodeUint(n) + rest, 0x37) == Some((Wrap64(n), rest))
  {
    UintTaken(n, rest, 0x37);
  }

  lemma U256Taken(n: U256, rest: Bytes)
    ensures TakeU256(EncodeUint(n) + rest) == Some((n, rest))
  {
    UintTaken(n, rest, 0x37);
  }

  lemma UintPrefixFree(a: U256, b: U256, x: Bytes, y: Bytes)
    requires EncodeUint(a) + x == EncodeUint(b) + y
    ensures a == b && x == y
  {
    U256Taken(a, x);
    U256Taken(b, y);
  }

  /** The list header; the declared length must be exactly what follows. */
  function TakeList(s: Bytes): Option<Bytes> {
    if s == [] || s[0] < 0xf7 then None
    else
      var sizeLength := s[0] - 0xf7;
      if 1 + sizeLength > |s| then None
      else if Wrap64(FromBigEndian(s[1..1 + sizeLength])) != |s| - sizeLength - 1 then None
      else Some(s[1 + sizeLength..])
  }

  /** The list header is read back exactly when the payload is longer than 55 bytes. */
  lemma ListTaken(payload: Bytes)
    requires |payload| < LIMIT64
    ensures |payload| > 55 ==> TakeList(ListHeader(|payload|) + payload) == Some(payload)
    ensures |payload| <= 55 ==> TakeList(ListHeader(|payload|) + payload) == None
  {
    if |payload| > 55 {
      LongListTaken(payload);
    } else {
      ShortListRefused(payload);
    }
  }

  lemma LongListTaken(payload: Bytes)
    requires 55 < |payload| < LIMIT64
    ensures TakeList(ListHeader(|payload|) + payload) == Some(payload)
  {
    hide BigEndian, FromBigEndian;
    var size := BigEndian(|payload|);
    var s := ListHeader(|payload|) + payload;
    BigEndianLength64(|payload|);
    FromBigEndianOfBigEndian(|payload|);
    assert s == [0xf7 + |size|] + (size + payload);
    CutMiddle([0xf7 + |size|], size, payload);
  }

  lemma ShortListRefused(payload: Bytes)
    requires |payload| <= 55
    ensures TakeList(ListHeader(|payload|) + payload) == None
  {
    var s := ListHeader(|payload|) + payload;
    assert s == [0xc0 + |payload|] + payload;
    assert s[1..1] == [];
  }

  lemma ListLengthMonotone(a: nat, b: nat)
    requires a < LIMIT64 && b < LIMIT64
    ensures a < b ==> |ListHeader(a)| + a < |ListHeader(b)| + b
  {
    if a < b {
      BigEndianMonotone(a, b);
    }
  }

  /** A list header with its payload determines the payload. */
  lemma ListInjective(p: Bytes, q: Bytes)
    requires |p| < LIMIT64 && |q| < LIMIT64
    requires ListHeader(|p|) + p == ListHeader(|q|) + q
    ensures p == q
  {
    ListLengthMonotone(|p|, |q|);
    ListLengthMonotone(|q|, |p|);
    assert |p| == |q|;
    var k := |ListHeader(|p|)|;
    assert (ListHeader(|p|) + p)[k..] == p;
    assert (ListHeader(|q|) + q)[k..] == q;
  }

  /** The bytes one number takes, from the precomputed byte count. */
  function UintSize(n: U256): nat {
    if n < 0x80 then 1 else 1 + |BigEndian(n)|
  }

  function DataSize(d: Bytes): nat {
    if |d| == 0 then 1
    else if |d| <= 55 then 1 + |d|
    else 1 + |BigEndian(|d|)| + |d|
  }

  lemma UintSizeCorrect(n: U256)
    ensures |EncodeUint(n)| == UintSize(n)
  {
  }

  lemma Assoc(a: Bytes, b: Bytes, c: Bytes)
    ensures (a + b) + c == a + (b + c)
  {
  }

  method AppendLong(buffer: Bytes, n: U256) returns (ret: Bytes)
    ensures ret == buffer + EncodeLong(n)
  {
    var required := BytesRequired(n);
    BigEndianLength256(n);
    var bytes := UintToBytes(n);
    ret := buffer + [required + 0x80];
    ret := ret + bytes;
  }

  method AppendUint(buffer: Bytes, n: U256) returns (ret: Bytes)
    ensures ret == buffer + EncodeUint(n)
  {
    if n == 0 {
      ret := buffer + [0x80];
    } else if n < 0x80 {
      ret := buffer + [n];
    } else {
      ret := AppendLong(buffer, n);
    }
  }

  method AppendData(buffer: Bytes, d: Bytes) returns (ret: Bytes)
    requires |d| < LIMIT64
    ensures ret == buffer + EncodeData(d)
  {
    if |d| == 0 {
      ret := buffer + [0x80];
    } else if |d| <= 55 {
      ret := buffer + [|d| + 0x80];
      Assoc(buffer, [|d| + 0x80], d);
      ret := ret + d;
    } else {
      ret := AppendSize(buffer, |d|, 0xb7);
      Assoc(buffer, [0xb7 + |BigEndian(|d|)|] + BigEndian(|d|), d);
      Assoc([0xb7 + |BigEndian(|d|)|], BigEndian(|d|), d);
      ret := ret + d;
    }
  }

  /** A byte that says how many size bytes follow, and those bytes. */
  method AppendSize(buffer: Bytes, n: nat, base: Byte) returns (ret: Bytes)
    requires n < LIMIT64 && base <= 0xf7
    ensures |BigEndian(n)| <= 8
    ensures ret == buffer + ([base + |BigEndian(n)|] + BigEndian(n))
  {
    BigEndianLength64(n);
    var required := BytesRequired(n);
    var size := UintToBytes(n);
    Assoc(buffer, [base + required], size);
    ret := buffer + [base + required];
    ret := ret + size;
  }

  method AppendListHeader(buffer: Bytes, totalSize: nat) returns (ret: Bytes)
    requires totalSize < LIMIT64
    ensures ret == buffer + ListHeader(totalSize)
  {
    if totalSize <= 55 {
      ret := buffer + [totalSize + 0xc0];
    } else {
      ret := AppendSize(buffer, totalSize, 0xf7);
    }
  }

  method UintFieldSize(n: U256) returns (size: nat)
    ensures size == UintSize(n)
  {
    var required := BytesRequired(n);
    size := if n < 0x80 then 1 else 1 + required;
  }

  /** The list header: its size byte count, the declared length, and the check against what follows. */
  method ReadListHeader(s: Bytes) returns (r: Option<nat>)
    ensures match r
            case None => TakeList(s) == None
            case Some(start) => start <= |s| && TakeList(s) == Some(s[start..])
  {
    if s == [] || s[0] < 0xf7 {
      return None;
    }
    var listLengthSize := s[0] - 0xf7;
    var index := 1;
    if index + listLengthSize > |s| {
      return None;
    }
    var listLength := Wrap64(FromBigEndian(s[index..index + listLengthSize]));
    index := index + listLengthSize;
    if listLength != |s| - listLengthSize - 1 {
      return None;
    }
    r := Some(index);
  }

  // ---------------------------------------------------------------- what the decoders make of any bytes

  /** A number: a byte up to 0x80 stands for itself or zero, any other announces a length. */
  lemma UintReadExactly(b: Byte, d: Bytes, rest: Bytes, maxLength: nat)
    ensures b <= 0x80 ==> TakeUint([b] + rest, maxLength) == Some((if b == 0x80 then 0 else b, rest))
    ensures b > 0x80 && |d| == b - 0x80 ==>
              TakeUint([b] + (d + rest), maxLength) == if |d| <= maxLength then Some((FromBigEndian(d), rest)) else None
    ensures b > 0x80 && |d| < b - 0x80 ==> TakeUint([b] + d, maxLength).None?
    ensures TakeUint([], maxLength).None?
  {
    hide FromBigEndian;
    assert ([b] + rest)[1..] == rest;
    CutMiddle([b], d, rest);
  }

  /** A number with a length prefix: refused when the length or the number is too large. */
  lemma LongReadExactly(b: Byte, d: Bytes, rest: Bytes, maxLength: nat)
    requires maxLength < 0x80
    ensures b < 0x80 ==> TakeLong([b] + rest, maxLength).None?
    ensures b >= 0x80 && |d| == b - 0x80 ==>
              TakeLong([b] + (d + rest), maxLength)
              == if |d| <= maxLength && FromBigEndian(d) < LIMIT256 then Some((FromBigEndian(d), rest)) else None
    ensures b >= 0x80 && |d| < b - 0x80 ==> TakeLong([b] + d, maxLength).None?
  {
    hide FromBigEndian;
    CutMiddle([b], d, rest);
  }

  /** Data: a small byte is itself, up to 0xb6 a length, from 0xb7 on the length of a length. */
  lemma DataReadExactly(b: Byte, size: Bytes, d: Bytes, rest: Bytes, longLimit: nat)
    requires longLimit >= 0xc0
    ensures b < 0x80 ==> TakeData([b] + rest, longLimit) == Some(([b], rest))
    ensures 0x80 <= b < 0xb7 && |d| == b - 0x80 ==> TakeData([b] + (d + rest), longLimit) == Some((d, rest))
    ensures 0x80 <= b < 0xb7 && |d| < b - 0x80 ==> TakeData([b] + d, longLimit).None?
    ensures 0xb7 <= b < longLimit && |size| == b - 0xb7 && Wrap64(FromBigEndian(size)) == |d| ==>
              TakeData([b] + (size + (d + rest)), longLimit) == Some((d, rest))
    ensures 0xb7 <= b < longLimit && |size| == b - 0xb7 && Wrap64(FromBigEndian(size)) > |d| ==>
              TakeData([b] + (size + d), longLimit).None?
    ensures b >= longLimit ==> TakeData([b] + rest, longLimit).None?
  {
    hide FromBigEndian, Wrap64;
    assert ([b] + rest)[1..] == rest;
    CutMiddle([b], d, rest);
    assert ([b] + (size + (d + rest)))[1..] == size + (d + rest);
    assert ([b] + (size + d))[1..] == size + d;
    CutMiddle(size, d, rest);
    assert (size + (d + rest))[..|size|] == size && (size + d)[..|size|] == size;
  }

  /** A list: only the long form, and only with exactly as many bytes behind it as it announces. */
  lemma ListReadExactly(b: Byte, size: Bytes, payload: Bytes)
    ensures b < 0xf7 ==> TakeList([b] + payload).None?
    ensures b >= 0xf7 && |size| == b - 0xf7 ==>
              TakeList([b] + (size + payload))
              == if Wrap64(FromBigEndian(size)) == |payload| then Some(payload) else None
    ensures b >= 0xf7 && |size| < b - 0xf7 ==> TakeList([b] + size).None?
  {
    hide FromBigEndian, Wrap64;
    CutMiddle([b], size, payload);
  }
}
