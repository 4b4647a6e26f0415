/** Recursive Length Prefix as Appendix B of the Ethereum Yellow Paper defines it, and where the node agrees with it. */
module RlpReference {
  import opened Bytes
  import opened Rlp
  import TxBlocks
  import TxValidators

  /** A byte string. */
  function RlpString(s: Bytes): Bytes
    requires |s| < LIMIT64
  {
    BigEndianLength64(|s|);
    if |s| == 1 && s[0] < 128 then s
    else if |s| < 56 then [128 + |s|] + s
    else [183 + |BigEndian(|s|)|] + (BigEndian(|s|) + s)
  }

  /** A list whose items are encoded already. */
  function RlpList(items: Bytes): Bytes
    requires |items| < LIMIT64
  {
    BigEndianLength64(|items|);
    if |items| < 56 then [192 + |items|] + items
    else [247 + |BigEndian(|items|)|] + (BigEndian(|items|) + items)
  }

  /** A number: its minimal big-endian form, which is empty for zero. */
  function RlpNumber(n: U256): Bytes {
    BigEndianLength256(n);
    RlpString(BigEndian(n))
  }

  // ---------------------------------------------------------------- single items

  lemma SmallNumber(n: nat)
    requires 0 < n < 256
    ensures BigEndian(n) == [n]
  {
    assert BigEndian(n / 256) == [];
  }

  lemma LargeNumber(n: nat)
    requires n >= 256
    ensures |BigEndian(n)| >= 2
  {
    BigEndianNonempty(n / 256);
  }

  /** The numbers of a head are always canonical. */
  lemma UintIsCanonical(n: U256)
    ensures EncodeUint(n) == RlpNumber(n)
  {
    hide BigEndian;
    BigEndianLength256(n);
    if n == 0 {
      BigEndianOfZero();
      assert [128 + 0] + [] == [0x80];
    } else if n < 256 {
      SmallNumber(n);
    } else {
      LargeNumber(n);
    }
  }

  lemma BigEndianOfZero()
    ensures BigEndian(0) == []
  {
  }

  /** Data is canonical exactly when it is not a single byte below 128, which gets a length byte it should not have. */
  lemma DataCanonicalExactly(d: Bytes)
    requires |d| < LIMIT64
    ensures EncodeData(d) == RlpString(d) <==> !(|d| == 1 && d[0] < 128)
    ensures |EncodeData(d)| == |RlpString(d)| + if |d| == 1 && d[0] < 128 then 1 else 0
  {
    hide BigEndian;
    if d == [] {
      assert [128 + 0] + d == [0x80];
    }
  }

  /** r and s are canonical exactly when they are zero or at least 128. */
  lemma LongCanonicalExactly(n: U256)
    ensures EncodeLong(n) == RlpNumber(n) <==> n == 0 || n >= 128
    ensures |EncodeLong(n)| == |RlpNumber(n)| + if 0 < n < 128 then 1 else 0
  {
    hide BigEndian;
    BigEndianLength256(n);
    if n == 0 {
      BigEndianOfZero();
    } else if n < 256 {
      SmallNumber(n);
    } else {
      LargeNumber(n);
    }
  }

  /** A chain id or v of a validator transaction is canonical exactly when it is not zero. */
  lemma IdCanonicalExactly(n: U256)
    ensures TxValidators.EncodeId(n) == RlpNumber(n) <==> n != 0
    ensures |TxValidators.EncodeId(n)| == |RlpNumber(n)|
    ensures n == 0 ==> TxValidators.EncodeId(n)[0] != RlpNumber(n)[0]
  {
    hide BigEndian;
    if n == 0 {
      ZeroIsEmpty();
      assert TxValidators.EncodeId(n)[0] == 0 && [0x80][0] == 0x80;
    } else if n < 128 {
      SmallNumber(n);
    } else {
      LongCanonicalExactly(n);
    }
  }

  lemma ListIsCanonical(payload: Bytes)
    requires |payload| < LIMIT64
    ensures ListHeader(|payload|) + payload == RlpList(payload)
  {
    hide BigEndian;
    BigEndianLength64(|payload|);
    if |payload| > 55 {
      Assoc([0xf7 + |BigEndian(|payload|)|], BigEndian(|payload|), payload);
    }
  }

  // ---------------------------------------------------------------- block transactions

  /** The list of EIP-1559, section "Specification", without the signature. */
  function UnsignedItems(tx: TxBlocks.TxBlock): seq<Bytes>
    requires |tx.data| < LIMIT64
  {
    [RlpNumber(tx.chainId), RlpNumber(tx.nonce), RlpNumber(tx.maxPriorityFeePerGas), RlpNumber(tx.maxFeePerGas),
     RlpNumber(tx.gasLimit), RlpString(tx.to), RlpNumber(tx.value), RlpString(tx.data), RlpList([])]
  }

  function SignatureItems(tx: TxBlocks.TxBlock): seq<Bytes> {
    [RlpNumber(tx.v), RlpNumber(tx.r), RlpNumber(tx.s)]
  }

  predicate CanonicalData(d: Bytes) {
    !(|d| == 1 && d[0] < 128)
  }

  predicate CanonicalSig(r: U256, s: U256) {
    (r == 0 || r >= 128) && (s == 0 || s >= 128)
  }

  /** The bytes in front of the data. */
  function HeadItems(tx: TxBlocks.TxBlock): seq<Bytes> {
    [RlpNumber(tx.chainId), RlpNumber(tx.nonce), RlpNumber(tx.maxPriorityFeePerGas), RlpNumber(tx.maxFeePerGas),
     RlpNumber(tx.gasLimit), RlpString(tx.to), RlpNumber(tx.value)]
  }

  lemma {:induction false} ConcatTwo(a: seq<Bytes>, b: seq<Bytes>)
    ensures Concat(a + b) == Concat(a) + Concat(b)
    decreases |a|
  {
    if a == [] {
      assert a + b == b;
    } else {
      assert (a + b)[1..] == a[1..] + b;
      ConcatTwo(a[1..], b);
      Assoc(a[0], Concat(a[1..]), Concat(b));
    }
  }

  lemma ConcatOne(a: Bytes)
    ensures Concat([a]) == a
  {
    assert [a][1..] == [];
    assert a + [] == a;
  }

  lemma HeadIsItems(tx: TxBlocks.TxBlock, rest: Bytes)
    ensures TxBlocks.EncodeHead(TxBlocks.HeadOf(tx), rest) == Concat(HeadItems(tx)) + rest
  {
    hide RlpNumber, EncodeUint;
    UintIsCanonical(tx.chainId);
    UintIsCanonical(tx.nonce);
    UintIsCanonical(tx.maxPriorityFeePerGas);
    UintIsCanonical(tx.maxFeePerGas);
    UintIsCanonical(tx.gasLimit);
    UintIsCanonical(tx.value);
    var items := HeadItems(tx);
    assert RlpString(tx.to) == [0x94] + tx.to;
    Assoc([0x94], tx.to, EncodeUint(tx.value) + rest);
    Sevenfold(items[0], items[1], items[2], items[3], items[4], items[5], items[6], rest);
  }

  lemma Sevenfold(a: Bytes, b: Bytes, c: Bytes, d: Bytes, e: Bytes, f: Bytes, g: Bytes, rest: Bytes)
    ensures Concat([a, b, c, d, e, f, g]) + rest == a + (b + (c + (d + (e + (f + (g + rest))))))
  {
    Fourfold(a, b, c, d, Concat([e, f, g]) + rest);
    Threefold(e, f, g, rest);
    assert [a, b, c, d, e, f, g] == [a, b, c, d] + [e, f, g];
    ConcatTwo([a, b, c, d], [e, f, g]);
    Assoc(Concat([a, b, c, d]), Concat([e, f, g]), rest);
  }

  lemma Fourfold(a: Bytes, b: Bytes, c: Bytes, d: Bytes, rest: Bytes)
    ensures Concat([a, b, c, d]) + rest == a + (b + (c + (d + rest)))
  {
    Threefold(b, c, d, rest);
    assert [a, b, c, d] == [a] + [b, c, d];
    ConcatTwo([a], [b, c, d]);
    ConcatOne(a);
    Assoc(a, Concat([b, c, d]), rest);
  }

  lemma Threefold(a: Bytes, b: Bytes, c: Bytes, rest: Bytes)
    ensures Concat([a, b, c]) + rest == a + (b + (c + rest))
  {
    assert [a, b, c] == [a] + [b, c] && [b, c] == [b] + [c];
    ConcatTwo([a], [b, c]);
    ConcatTwo([b], [c]);
    ConcatOne(a);
    ConcatOne(b);
    ConcatOne(c);
    Assoc(a, b + c, rest);
    Assoc(b, c, rest);
  }

  lemma UnsignedSplit(tx: TxBlocks.TxBlock)
    requires |tx.data| < LIMIT64
    ensures Concat(UnsignedItems(tx)) == Concat(HeadItems(tx)) + (RlpString(tx.data) + [0xc0])
  {
    hide RlpNumber, RlpString, Concat;
    assert UnsignedItems(tx) == HeadItems(tx) + [RlpString(tx.data), RlpList([])];
    ConcatTwo(HeadItems(tx), [RlpString(tx.data), RlpList([])]);
    assert [RlpString(tx.data), RlpList([])] == [RlpString(tx.data)] + [RlpList([])];
    ConcatTwo([RlpString(tx.data)], [RlpList([])]);
    ConcatOne(RlpString(tx.data));
    ConcatOne(RlpList([]));
    assert [192 + 0] + [] == [0xc0];
  }

  lemma UnsignedPayload(tx: TxBlocks.TxBlock)
    requires |tx.data| < LIMIT64
    ensures TxBlocks.Payload(tx, false) == Concat(HeadItems(tx)) + (EncodeData(tx.data) + [0xc0])
  {
    hide RlpNumber, EncodeData, TxBlocks.EncodeHead, Concat;
    assert [0xc0] + [] == [0xc0];
    HeadIsItems(tx, EncodeData(tx.data) + [0xc0]);
  }

  lemma SamePrefix(a: Bytes, x: Bytes, y: Bytes)
    ensures a + x == a + y <==> x == y
  {
    if a + x == a + y {
      assert (a + x)[|a|..] == x && (a + y)[|a|..] == y;
    }
  }

  lemma SameSuffix(x: Bytes, y: Bytes, a: Bytes)
    ensures x + a == y + a <==> x == y
  {
    if x + a == y + a {
      assert |x| == |y|;
      assert (x + a)[..|x|] == x && (y + a)[..|y|] == y;
    }
  }

  /** What is signed is the EIP-1559 list, exactly when the data is not a single byte below 128. */
  lemma PreimageIsCanonicalExactly(tx: TxBlocks.TxBlock)
    requires |tx.data| < LIMIT64
    ensures TxBlocks.Payload(tx, false) == Concat(UnsignedItems(tx)) <==> CanonicalData(tx.data)
  {
    hide RlpNumber, RlpString, EncodeData, TxBlocks.Payload, Concat;
    UnsignedPayload(tx);
    UnsignedSplit(tx);
    DataCanonicalExactly(tx.data);
    SamePrefix(Concat(HeadItems(tx)), EncodeData(tx.data) + [0xc0], RlpString(tx.data) + [0xc0]);
    SameSuffix(EncodeData(tx.data), RlpString(tx.data), [0xc0]);
  }

  /** The signature follows what was signed. */
  lemma SignatureFollows(tx: TxBlocks.TxBlock)
    requires |tx.data| < LIMIT64
    ensures TxBlocks.Payload(tx, true) == TxBlocks.Payload(tx, false) + TxBlocks.EncodeSig(TxBlocks.SigOf(tx))
  {
    hide RlpNumber, EncodeData, TxBlocks.EncodeHead, TxBlocks.EncodeSig, Concat;
    var sig, head := TxBlocks.EncodeSig(TxBlocks.SigOf(tx)), Concat(HeadItems(tx));
    UnsignedPayload(tx);
    HeadIsItems(tx, EncodeData(tx.data) + ([0xc0] + sig));
    Assoc(EncodeData(tx.data), [0xc0], sig);
    Assoc(head, EncodeData(tx.data) + [0xc0], sig);
  }

  lemma SignatureItemsCanonical(tx: TxBlocks.TxBlock)
    requires tx.v <= 1
    ensures var sig := TxBlocks.EncodeSig(TxBlocks.SigOf(tx));
            && (CanonicalSig(tx.r, tx.s) ==> sig == Concat(SignatureItems(tx)))
            && (!CanonicalSig(tx.r, tx.s) ==> |sig| > |Concat(SignatureItems(tx))|)
  {
    hide RlpNumber, EncodeLong;
    Threefold(RlpNumber(tx.v), RlpNumber(tx.r), RlpNumber(tx.s), []);
    assert Concat(SignatureItems(tx)) + [] == Concat(SignatureItems(tx));
    assert RlpNumber(tx.s) + [] == RlpNumber(tx.s);
    SmallV(tx.v);
    LongCanonicalExactly(tx.r);
    LongCanonicalExactly(tx.s);
  }

  lemma SmallV(v: Byte)
    requires v <= 1
    ensures TxBlocks.EncodeV(v) == RlpNumber(v)
  {
    hide BigEndian;
    if v == 0 {
      BigEndianOfZero();
      assert [128 + 0] + [] == [0x80];
    } else {
      SmallNumber(v);
    }
  }

  /**
   * What is sent is the type byte and the signed EIP-1559 list, exactly when the data is not a single byte below 128
   * and neither r nor s is a positive number below 128.
   */
  lemma SerializedIsCanonicalExactly(tx: TxBlocks.TxBlock)
    requires TxBlocks.Encodable(tx) && tx.v <= 1
    ensures |Concat(UnsignedItems(tx) + SignatureItems(tx))| < LIMIT64
    ensures TxBlocks.Serialize(tx, true) == [0x02] + RlpList(Concat(UnsignedItems(tx) + SignatureItems(tx)))
       <==> CanonicalData(tx.data) && CanonicalSig(tx.r, tx.s)
  {
    hide RlpNumber, RlpString, RlpList, EncodeData, TxBlocks.Payload, TxBlocks.EncodeSig, Concat, CanonicalSig;
    var p, items := TxBlocks.Payload(tx, true), Concat(UnsignedItems(tx) + SignatureItems(tx));
    PayloadLengths(tx);
    ListIsCanonical(p);
    if p != items {
      assert |p| > |items|;
      RlpListGrows(p, items);
      SamePrefix([0x02], RlpList(p), RlpList(items));
    }
  }

  lemma PayloadLengths(tx: TxBlocks.TxBlock)
    requires |tx.data| < LIMIT64 && tx.v <= 1
    ensures var p, items := TxBlocks.Payload(tx, true), Concat(UnsignedItems(tx) + SignatureItems(tx));
            if CanonicalData(tx.data) && CanonicalSig(tx.r, tx.s) then p == items else |p| > |items|
  {
    hide RlpNumber, RlpString, RlpList, EncodeData, TxBlocks.Payload, TxBlocks.EncodeSig, Concat, CanonicalSig;
    var sig := TxBlocks.EncodeSig(TxBlocks.SigOf(tx));
    SignatureFollows(tx);
    ConcatTwo(UnsignedItems(tx), SignatureItems(tx));
    SignatureItemsCanonical(tx);
    UnsignedPayload(tx);
    UnsignedSplit(tx);
    DataCanonicalExactly(tx.data);
  }

  lemma RlpListGrows(p: Bytes, q: Bytes)
    requires |q| < |p| < LIMIT64
    ensures RlpList(p) != RlpList(q)
  {
    hide BigEndian;
    BigEndianLength64(|p|);
    BigEndianLength64(|q|);
    BigEndianMonotone(|q|, |p|);
    if |q| >= 56 {
      assert |RlpList(p)| == 1 + |BigEndian(|p|)| + |p| && |RlpList(q)| == 1 + |BigEndian(|q|)| + |q|;
    } else {
      assert |RlpList(q)| == 1 + |q|;
    }
  }

  // ---------------------------------------------------------------- validator transactions

  /** Data, height and id, then two numbers: zeros before signing, as section "Specification" of EIP-155 has it. */
  function ValidatorItems(data: Bytes, height: U64, id: U256, r: U256, s: U256): seq<Bytes>
    requires |data| < LIMIT64
  {
    [RlpString(data), RlpNumber(height), RlpNumber(id), RlpNumber(r), RlpNumber(s)]
  }

  lemma Fivefold(a: Bytes, b: Bytes, c: Bytes, d: Bytes, e: Bytes)
    ensures Concat([a, b, c, d, e]) == a + (b + (c + (d + e)))
  {
    assert [a, b, c, d, e] == [a, b, c, d] + [e];
    ConcatTwo([a, b, c, d], [e]);
    ConcatOne(e);
    Fourfold(a, b, c, d, e);
  }

  lemma MiddleDiffers(a: Bytes, b: Bytes, x: Bytes, y: Bytes, rest: Bytes)
    requires |x| == |y|
    ensures a + (b + (x + rest)) == a + (b + (y + rest)) <==> x == y
  {
    SamePrefix(a, b + (x + rest), b + (y + rest));
    SamePrefix(b, x + rest, y + rest);
    SameSuffix(x, y, rest);
  }

  /**
   * What a validator signs is the RLP list of data, height, chain id and two empty strings, exactly when the data is
   * not a single byte below 128 and the chain id is not zero.
   */
  lemma ValidatorPreimageIsCanonicalExactly(tx: TxValidators.TxValidator)
    requires |tx.data| < LIMIT64
    ensures TxValidators.Payload(tx, false) == Concat(ValidatorItems(tx.data, tx.nHeight, tx.chainId, 0, 0))
       <==> CanonicalData(tx.data) && tx.chainId != 0
  {
    hide RlpString, EncodeData, EncodeUint, TxValidators.EncodeId, Concat;
    UintIsCanonical(tx.nHeight);
    IdCanonicalExactly(tx.chainId);
    DataCanonicalExactly(tx.data);
    ZeroIsEmpty();
    hide RlpNumber;
    Fivefold(RlpString(tx.data), RlpNumber(tx.nHeight), RlpNumber(tx.chainId), [0x80], [0x80]);
    MiddleDiffers(RlpString(tx.data), RlpNumber(tx.nHeight), TxValidators.EncodeId(tx.chainId), RlpNumber(tx.chainId),
                  [0x80] + [0x80]);
  }

  lemma ZeroIsEmpty()
    ensures RlpNumber(0) == [0x80]
  {
    BigEndianOfZero();
    assert [128 + 0] + [] == [0x80];
  }

  /** What is sent is the RLP list of data, height, v, r and s, exactly when each of them is canonical. */
  lemma ValidatorPayloadIsCanonicalExactly(tx: TxValidators.TxValidator)
    requires |tx.data| < LIMIT64
    ensures TxValidators.Payload(tx, true) == Concat(ValidatorItems(tx.data, tx.nHeight, tx.v, tx.r, tx.s))
       <==> CanonicalData(tx.data) && tx.v != 0 && CanonicalSig(tx.r, tx.s)
  {
    hide RlpString, RlpNumber, EncodeData, EncodeUint, EncodeLong, TxValidators.EncodeId, Concat;
    UintIsCanonical(tx.nHeight);
    IdCanonicalExactly(tx.v);
    DataCanonicalExactly(tx.data);
    LongCanonicalExactly(tx.r);
    LongCanonicalExactly(tx.s);
    Fivefold(RlpString(tx.data), RlpNumber(tx.nHeight), RlpNumber(tx.v), RlpNumber(tx.r), RlpNumber(tx.s));
    MiddleDiffers(RlpString(tx.data), RlpNumber(tx.nHeight), TxValidators.EncodeId(tx.v), RlpNumber(tx.v),
                  RlpNumber(tx.r) + RlpNumber(tx.s));
  }
}
