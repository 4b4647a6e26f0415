/** Block transactions: the EIP-1559 encoding and its decoder. */
module TxBlocks {
  import opened Bytes
  import opened Crypto
  import opened Rlp

  datatype TxBlock = TxBlock(
    to: Address, from: Address, data: Bytes, chainId: U64, nonce: U256, value: U256,
    maxPriorityFeePerGas: U256, maxFeePerGas: U256, gasLimit: U256, v: Byte, r: U256, s: U256)

  /** The fields before the data, as read back. */
  datatype Head = Head(
    chainId: U64, nonce: U256, maxPriorityFeePerGas: U256, maxFeePerGas: U256, gasLimit: U256,
    to: Address, value: U256)

  datatype SigFields = SigFields(v: Byte, r: U256, s: U256)

  const NO_ADDRESS: Address := Zeros(20)

  // ---------------------------------------------------------------- encoding

  function EncodeHead(h: Head, rest: Bytes): Bytes {
    EncodeUint(h.chainId) + (EncodeUint(h.nonce) + (EncodeUint(h.maxPriorityFeePerGas)
    + (EncodeUint(h.maxFeePerGas) + (EncodeUint(h.gasLimit)
    + ([0x94] + (h.to + (EncodeUint(h.value) + rest)))))))
  }

  function EncodeV(v: Byte): Bytes {
    if v == 0 then [0x80] else [v]
  }

  function EncodeSig(sig: SigFields): Bytes {
    EncodeV(sig.v) + (EncodeLong(sig.r) + EncodeLong(sig.s))
  }

  function HeadOf(tx: TxBlock): Head {
    Head(tx.chainId, tx.nonce, tx.maxPriorityFeePerGas, tx.maxFeePerGas, tx.gasLimit, tx.to, tx.value)
  }

  function SigOf(tx: TxBlock): SigFields {
    SigFields(tx.v, tx.r, tx.s)
  }

  /** The list payload: head, data, empty access list and, when asked for, the signature. */
  function Payload(tx: TxBlock, includeSig: bool): Bytes
    requires |tx.data| < LIMIT64
  {
    EncodeHead(HeadOf(tx), EncodeData(tx.data) + ([0xc0] + (if includeSig then EncodeSig(SigOf(tx)) else [])))
  }

  /** Everything but memory bounds: what the 64-bit sizes of the encoder can count. */
  predicate Encodable(tx: TxBlock) {
    |tx.data| < LIMIT64 && |Payload(tx, true)| < LIMIT64 && |Payload(tx, false)| < LIMIT64
  }

  function Serialize(tx: TxBlock, includeSig: bool): Bytes
    requires Encodable(tx)
  {
    [0x02] + (ListHeader(|Payload(tx, includeSig)|) + Payload(tx, includeSig))
  }

  // ---------------------------------------------------------------- decoding

  function TakeAddress(s: Bytes): Option<(Address, Bytes)> {
    if |s| < 21 || s[0] != 0x94 then None else Some((s[1..21], s[21..]))
  }

  /** Chain id and nonce. */
  function TakeIds(s: Bytes): Option<(U64, U64, Bytes)> {
    match TakeU64(s, 0x37)
    case None => None
    case Some(chainId) =>
      match TakeU64(chainId.1, 0x37)
      case None => None
      case Some(nonce) => Some((chainId.0, nonce.0, nonce.1))
  }

  /** The two fees and the gas limit. */
  function TakeGas(s: Bytes): Option<(U256, U256, U64, Bytes)> {
    match TakeU256(s)
    case None => None
    case Some(priority) =>
      match TakeU256(priority.1)
      case None => None
      case Some(fee) =>
        match TakeU64(fee.1, 0x37)
        case None => None
        case Some(gasLimit) => Some((priority.0, fee.0, gasLimit.0, gasLimit.1))
  }

  /** Receiver and value. */
  function TakeTransfer(s: Bytes): Option<(Address, U256, Bytes)> {
    match TakeAddress(s)
    case None => None
    case Some(to) =>
      match TakeU256(to.1)
      case None => None
      case Some(value) => Some((to.0, value.0, value.1))
  }

  function TakeHead(s: Bytes): Option<(Head, Bytes)> {
    match TakeIds(s)
    case None => None
    case Some(ids) =>
      match TakeGas(ids.2)
      case None => None
      case Some(gas) =>
        match TakeTransfer(gas.3)
        case None => None
        case Some(transfer) =>
          Some((Head(ids.0, ids.1, gas.0, gas.1, gas.2, transfer.0, transfer.1), transfer.2))
  }

  function TakeV(s: Bytes): Option<(Byte, Bytes)> {
    if s == [] then None
    else if s[0] == 0x80 then Some((0, s[1..]))
    else if s[0] > 0x01 then None
    else Some((s[0], s[1..]))
  }

  /** The empty access list and the signature; what follows them is not looked at. */
  function TakeSig(s: Bytes): Option<SigFields> {
    if s == [] || s[0] != 0xc0 then None
    else
      match TakeV(s[1..])
      case None => None
      case Some(v) => TakeRS(v.0, v.1)
  }

  function TakeRS(v: Byte, s: Bytes): Option<SigFields> {
    match TakeLong(s, 0x20)
    case None => None
    case Some(r) =>
      match TakeLong(r.1, 0x20)
      case None => None
      case Some(t) => Some(SigFields(v, r.0, t.0))
  }

  function Assemble(h: Head, data: Bytes, sig: SigFields): TxBlock {
    TxBlock(h.to, NO_ADDRESS, data, h.chainId, h.nonce, h.value, h.maxPriorityFeePerGas,
            h.maxFeePerGas, h.gasLimit, sig.v, sig.r, sig.s)
  }

  function TakeFields(s: Bytes): Option<TxBlock> {
    match TakeHead(s)
    case None => None
    case Some(head) =>
      match TakeData(head.1, 0xc0)
      case None => None
      case Some(data) =>
        match TakeSig(data.1)
        case None => None
        case Some(sig) => Some(Assemble(head.0, data.0, sig))
  }

  /** Recover the sender from the signature over the unsigned encoding. */
  function Authenticate(c: Crypto, tx: TxBlock): Option<TxBlock> {
    if !VerifySig(tx.r, tx.s, tx.v) || !Encodable(tx) then None
    else
      var key := c.recover(MakeSig(tx.r, tx.s, tx.v), c.sha3(Serialize(tx, false)));
      if key == NO_KEY then None else Some(tx.(from := ToAddress(c, key)))
  }

  function Parse(c: Crypto, bytes: Bytes): Option<TxBlock> {
    if bytes == [] || bytes[0] != 0x02 then None
    else
      match TakeList(bytes[1..])
      case None => None
      case Some(payload) =>
        match TakeFields(payload)
        case None => None
        case Some(tx) => Authenticate(c, tx)
  }

  // ---------------------------------------------------------------- round trip

  /** What the signing constructor establishes: the signature recovers the sender. */
  predicate WellSigned(c: Crypto, tx: TxBlock) {
    && Encodable(tx)
    && VerifySig(tx.r, tx.s, tx.v)
    && var key := c.recover(MakeSig(tx.r, tx.s, tx.v), c.sha3(Serialize(tx, false)));
    key != NO_KEY && ToAddress(c, key) == tx.from
  }

  lemma AddressTaken(a: Address, rest: Bytes)
    ensures TakeAddress([0x94] + (a + rest)) == Some((a, rest))
  {
    var s := [0x94] + (a + rest);
    assert s[1..21] == a;
    assert s[21..] == rest;
  }

  /** The marks a decoder insists on: the type of the transaction, the length of an address, an empty access list. */
  lemma MarksExactly(c: Crypto, b: Byte, a: Address, rest: Bytes)
    ensures b != 0x02 ==> Parse(c, [b] + rest).None?
    ensures TakeAddress([b] + (a + rest)) == if b == 0x94 then Some((a, rest)) else None
    ensures b != 0xc0 ==> TakeSig([b] + rest).None?
    ensures TakeV([b] + rest) == if b == 0x80 then Some((0, rest)) else if b <= 1 then Some((b, rest)) else None
  {
    AddressTaken(a, rest);
    assert ([b] + rest)[1..] == rest;
  }

  /** Which signatures are read: r and s of at most 32 bytes each. */
  lemma SigReadExactly(v: Byte, r: Bytes, s: Bytes, rest: Bytes)
    requires |r| < 0x80 && |s| < 0x80
    ensures var sig := TakeSig([0xc0] + ([v] + ([0x80 + |r|] + (r + ([0x80 + |s|] + (s + rest))))));
            && (sig.Some? <==> (v <= 1 || v == 0x80) && |r| <= 32 && |s| <= 32)
            && (sig.Some? ==> && sig.value.v == (if v == 0x80 then 0 else v)
                              && sig.value.r == FromBigEndian(r) && sig.value.s == FromBigEndian(s))
  {
    hide FromBigEndian, TakeLong, Pow256;
    var second := [0x80 + |s|] + (s + rest);
    var first := [0x80 + |r|] + (r + second);
    LongReadExactly(0x80 + |r|, r, second, 0x20);
    LongReadExactly(0x80 + |s|, s, rest, 0x20);
    if |r| <= 32 {
      FromBigEndianFits(r);
    }
    if |s| <= 32 {
      FromBigEndianFits(s);
    }
    assert ([0xc0] + ([v] + first))[1..] == [v] + first;
    assert ([v] + first)[1..] == first;
  }

  /** Reading a head back: the nonce and the gas limit go through 64-bit registers. */
  lemma HeadTaken(h: Head, rest: Bytes)
    ensures TakeHead(EncodeHead(h, rest))
         == Some((h.(nonce := Wrap64(h.nonce), gasLimit := Wrap64(h.gasLimit)), rest))
  {
    hide EncodeUint, TakeU64, TakeU256, TakeAddress;
    var s6 := EncodeUint(h.value) + rest;
    var s5 := [0x94] + (h.to + s6);
    var s4 := EncodeUint(h.gasLimit) + s5;
    var s3 := EncodeUint(h.maxFeePerGas) + s4;
    var s2 := EncodeUint(h.maxPriorityFeePerGas) + s3;
    var s1 := EncodeUint(h.nonce) + s2;
    U64Taken(h.chainId, s1);
    U64Taken(h.nonce, s2);
    U256Taken(h.maxPriorityFeePerGas, s3);
    U256Taken(h.maxFeePerGas, s4);
    U64Taken(h.gasLimit, s5);
    AddressTaken(h.to, s6);
    U256Taken(h.value, rest);
  }

  lemma RSTaken(sig: SigFields)
    ensures TakeRS(sig.v, EncodeLong(sig.r) + EncodeLong(sig.s)) == Some(sig)
  {
    LongTaken(sig.r, EncodeLong(sig.s), 0x20);
    LongTaken(sig.s, [], 0x20);
    assert EncodeLong(sig.s) + [] == EncodeLong(sig.s);
  }

  lemma SigTaken(sig: SigFields)
    requires sig.v <= 1
    ensures TakeSig([0xc0] + EncodeSig(sig)) == Some(sig)
  {
    var rs := EncodeLong(sig.r) + EncodeLong(sig.s);
    var s := EncodeV(sig.v) + rs;
    assert ([0xc0] + s)[1..] == s;
    assert s[1..] == rs;
    assert TakeV(s) == Some((sig.v, rs));
    RSTaken(sig);
  }

  /** All fields of a signed payload, whatever the data length; 55-byte data never survives. */
  lemma FieldsTaken(tx: TxBlock)
    requires Encodable(tx) && tx.v <= 1
    ensures |tx.data| != 55 ==>
              TakeFields(Payload(tx, true))
              == Some(tx.(from := NO_ADDRESS, nonce := Wrap64(tx.nonce), gasLimit := Wrap64(tx.gasLimit)))
    ensures |tx.data| == 55 && TakeFields(Payload(tx, true)).Some? ==>
              TakeFields(Payload(tx, true)).value.data == []
  {
    var tail := [0xc0] + EncodeSig(SigOf(tx));
    HeadTaken(HeadOf(tx), EncodeData(tx.data) + tail);
    DataTaken(tx.data, tail, 0xc0);
    SigTaken(SigOf(tx));
  }

  lemma ParseSerialized(c: Crypto, tx: TxBlock)
    requires Encodable(tx)
    ensures |Payload(tx, true)| <= 55 ==> Parse(c, Serialize(tx, true)) == None
    ensures |Payload(tx, true)| > 55 ==>
              Parse(c, Serialize(tx, true))
              == match TakeFields(Payload(tx, true))
                 case None => None
                 case Some(t) => Authenticate(c, t)
  {
    var p := Payload(tx, true);
    ListTaken(p);
    assert Serialize(tx, true)[1..] == ListHeader(|p|) + p;
  }

  /** When a signed transaction survives its own encoding: a condition on its fields alone. */
  predicate RoundTrips(tx: TxBlock)
    requires |tx.data| < LIMIT64
  {
    tx.nonce < LIMIT64 && tx.gasLimit < LIMIT64 && |tx.data| != 55 && |Payload(tx, true)| > 55
  }

  /** Decoding undoes encoding exactly for the transactions `RoundTrips` describes. */
  lemma RoundTrip(c: Crypto, tx: TxBlock)
    requires WellSigned(c, tx)
    ensures Parse(c, Serialize(tx, true)) == Some(tx) <==> RoundTrips(tx)
  {
    hide Payload, TakeFields, Parse;
    ParseSerialized(c, tx);
    FieldsTaken(tx);
    if RoundTrips(tx) {
      SenderIrrelevant(tx);
      assert tx.(from := NO_ADDRESS).(from := tx.from) == tx;
    }
  }

  /** The sender is not part of what is encoded. */
  lemma SenderIrrelevant(tx: TxBlock)
    requires Encodable(tx)
    ensures Encodable(tx.(from := NO_ADDRESS))
    ensures Serialize(tx.(from := NO_ADDRESS), false) == Serialize(tx, false)
  {
  }

  lemma HeadInRegisters(s: Bytes)
    requires TakeHead(s).Some?
    ensures TakeHead(s).value.0.nonce < LIMIT64 && TakeHead(s).value.0.gasLimit < LIMIT64
  {
    hide TakeU64, TakeU256, TakeAddress;
  }

  /** What the decoder lets through is well signed, with nonce and gas limit of 64 bits. */
  lemma ParsedIsWellSigned(c: Crypto, bytes: Bytes, tx: TxBlock)
    requires Parse(c, bytes) == Some(tx)
    ensures WellSigned(c, tx) && tx.nonce < LIMIT64 && tx.gasLimit < LIMIT64
  {
    hide TakeList, TakeHead, TakeData, TakeSig, Serialize, Encodable, MakeSig, ToAddress, VerifySig;
    var payload := TakeList(bytes[1..]).value;
    HeadInRegisters(payload);
    var t := TakeFields(payload).value;
    SameUnsigned(t, tx);
  }

  lemma SameUnsigned(t: TxBlock, tx: TxBlock)
    requires Encodable(t) && tx == t.(from := tx.from)
    ensures Encodable(tx) && Serialize(tx, false) == Serialize(t, false)
  {
  }

  /** A decoded transaction survives being sent on exactly when its data is not 55 bytes and its list is long. */
  lemma ParsedRoundTripsExactly(c: Crypto, bytes: Bytes, tx: TxBlock)
    requires Parse(c, bytes) == Some(tx)
    ensures Encodable(tx)
    ensures Parse(c, Serialize(tx, true)) == Some(tx) <==> |tx.data| != 55 && |Payload(tx, true)| > 55
  {
    hide Parse, Payload, Serialize;
    ParsedIsWellSigned(c, bytes, tx);
    RoundTrip(c, tx);
  }

  /** The list payload with the data in long form. */
  function LongForm(tx: TxBlock): Bytes {
    EncodeHead(HeadOf(tx), [0xb8, 55] + (tx.data + ([0xc0] + EncodeSig(SigOf(tx)))))
  }

  lemma LongFormSize(tx: TxBlock)
    requires |tx.data| == 55
    ensures 55 < |LongForm(tx)| < LIMIT64
  {
    hide EncodeUint, EncodeLong;
    UintAtMost(tx.chainId);
    UintAtMost(tx.nonce);
    UintAtMost(tx.maxPriorityFeePerGas);
    UintAtMost(tx.maxFeePerGas);
    UintAtMost(tx.gasLimit);
    UintAtMost(tx.value);
    LongAtMost(tx.r);
    LongAtMost(tx.s);
  }

  lemma LongFormFields(tx: TxBlock)
    requires |tx.data| == 55 && tx.v <= 1 && tx.nonce < LIMIT64 && tx.gasLimit < LIMIT64
    ensures TakeFields(LongForm(tx)) == Some(tx.(from := NO_ADDRESS))
  {
    hide EncodeHead, EncodeSig, TakeHead, TakeData, TakeSig;
    var tail := [0xc0] + EncodeSig(SigOf(tx));
    HeadTaken(HeadOf(tx), [0xb8, 55] + (tx.data + tail));
    LongFormTaken(tx.data, tail);
    SigTaken(SigOf(tx));
  }

  /** A transaction with 55 bytes of data can be received, but not sent on. */
  lemma ReceivedButLost(c: Crypto, tx: TxBlock)
    requires WellSigned(c, tx) && |tx.data| == 55 && tx.nonce < LIMIT64 && tx.gasLimit < LIMIT64
    ensures |LongForm(tx)| < LIMIT64
    ensures Parse(c, [0x02] + (ListHeader(|LongForm(tx)|) + LongForm(tx))) == Some(tx)
    ensures Parse(c, Serialize(tx, true)) != Some(tx)
  {
    hide LongForm, Parse, Serialize;
    LongFormSize(tx);
    RoundTrip(c, tx);
    LongFormParses(c, tx);
  }

  lemma LongFormParses(c: Crypto, tx: TxBlock)
    requires WellSigned(c, tx) && |tx.data| == 55 && tx.nonce < LIMIT64 && tx.gasLimit < LIMIT64
    requires 55 < |LongForm(tx)| < LIMIT64
    ensures Parse(c, [0x02] + (ListHeader(|LongForm(tx)|) + LongForm(tx))) == Some(tx)
  {
    hide LongForm, ListHeader, TakeList, TakeFields, Serialize, Encodable, MakeSig, ToAddress;
    var p := LongForm(tx);
    var bytes := [0x02] + (ListHeader(|p|) + p);
    ListTaken(p);
    assert bytes[1..] == ListHeader(|p|) + p;
    LongFormFields(tx);
    SenderIrrelevant(tx);
    assert tx.(from := NO_ADDRESS).(from := tx.from) == tx;
  }

  /** The signing constructor: derive the signature fields from the key, and check them. */
  function Sign(c: Crypto, tx: TxBlock, key: PrivKey): Option<TxBlock>
    requires Encodable(tx)
  {
    var hash := c.sha3(Serialize(tx, false));
    var sig := c.sign(hash, key);
    var signed := tx.(r := SigR(sig), s := SigS(sig), v := sig[64]);
    if ToAddress(c, c.toUPub(key)) != tx.from then None
    else if c.toUPub(key) != c.recover(sig, hash) then None
    else if !VerifySig(signed.r, signed.s, signed.v) then None
    else Some(signed)
  }

  /** Signing succeeds exactly for the sender's own key, with a signature that recovers it and is in range. */
  lemma SignsExactly(c: Crypto, tx: TxBlock, key: PrivKey)
    requires Encodable(tx)
    ensures var hash := c.sha3(Serialize(tx, false));
            var sig := c.sign(hash, key);
            Sign(c, tx, key).Some? <==>
              && ToAddress(c, c.toUPub(key)) == tx.from && SignRecovers(c, hash, key)
              && 0 < SigR(sig) < EC_ORDER && 0 < SigS(sig) < EC_ORDER && sig[64] <= 1
  {
    hide Serialize, SigR, SigS, ToAddress;
  }

  /** Whatever the signing constructor accepts with a real key is well signed. */
  lemma SignedIsWellSigned(c: Crypto, tx: TxBlock, key: PrivKey, signed: TxBlock)
    requires Encodable(tx) && Encodable(signed) && c.toUPub(key) != NO_KEY
    requires Sign(c, tx, key) == Some(signed)
    ensures WellSigned(c, signed)
  {
    var sig := c.sign(c.sha3(Serialize(tx, false)), key);
    MakeSigOfParts(sig);
    assert Payload(signed, false) == Payload(tx, false);
    assert MakeSig(signed.r, signed.s, signed.v) == sig;
  }

  // ---------------------------------------------------------------- signing preimage

  lemma AddressPrefixFree(a: Address, b: Address, x: Bytes, y: Bytes)
    requires [0x94] + (a + x) == [0x94] + (b + y)
    ensures a == b && x == y
  {
    AddressTaken(a, x);
    AddressTaken(b, y);
  }

  lemma HeadPrefixFree(h: Head, k: Head, x: Bytes, y: Bytes)
    requires EncodeHead(h, x) == EncodeHead(k, y)
    ensures h == k && x == y
  {
    var hx6, ky6 := EncodeUint(h.value) + x, EncodeUint(k.value) + y;
    var hx5, ky5 := [0x94] + (h.to + hx6), [0x94] + (k.to + ky6);
    var hx4, ky4 := EncodeUint(h.gasLimit) + hx5, EncodeUint(k.gasLimit) + ky5;
    var hx3, ky3 := EncodeUint(h.maxFeePerGas) + hx4, EncodeUint(k.maxFeePerGas) + ky4;
    var hx2, ky2 := EncodeUint(h.maxPriorityFeePerGas) + hx3, EncodeUint(k.maxPriorityFeePerGas) + ky3;
    var hx1, ky1 := EncodeUint(h.nonce) + hx2, EncodeUint(k.nonce) + ky2;
    UintPrefixFree(h.chainId, k.chainId, hx1, ky1);
    UintPrefixFree(h.nonce, k.nonce, hx2, ky2);
    UintPrefixFree(h.maxPriorityFeePerGas, k.maxPriorityFeePerGas, hx3, ky3);
    UintPrefixFree(h.maxFeePerGas, k.maxFeePerGas, hx4, ky4);
    UintPrefixFree(h.gasLimit, k.gasLimit, hx5, ky5);
    AddressPrefixFree(h.to, k.to, hx6, ky6);
    UintPrefixFree(h.value, k.value, x, y);
  }

  /** Signing binds every unsigned field, for every data length. */
  lemma PreimageInjective(t: TxBlock, u: TxBlock)
    requires Encodable(t) && Encodable(u)
    requires Serialize(t, false) == Serialize(u, false)
    ensures HeadOf(t) == HeadOf(u) && t.data == u.data
  {
    var p, q := Payload(t, false), Payload(u, false);
    assert Serialize(t, false)[1..] == ListHeader(|p|) + p;
    assert Serialize(u, false)[1..] == ListHeader(|q|) + q;
    ListInjective(p, q);
    HeadPrefixFree(HeadOf(t), HeadOf(u), EncodeData(t.data) + ([0xc0] + []), EncodeData(u.data) + ([0xc0] + []));
    DataTakenReference(t.data, [0xc0] + []);
    DataTakenReference(u.data, [0xc0] + []);
  }

  // ---------------------------------------------------------------- the source's loops and cursors

  function HeadSize(h: Head): nat {
    UintSize(h.chainId) + UintSize(h.nonce) + UintSize(h.maxPriorityFeePerGas) + UintSize(h.maxFeePerGas)
    + UintSize(h.gasLimit) + (1 + 20) + UintSize(h.value)
  }

  lemma HeadSizeCorrect(h: Head, rest: Bytes)
    ensures |EncodeHead(h, rest)| == HeadSize(h) + |rest|
  {
    UintSizeCorrect(h.chainId);
    UintSizeCorrect(h.nonce);
    UintSizeCorrect(h.maxPriorityFeePerGas);
    UintSizeCorrect(h.maxFeePerGas);
    UintSizeCorrect(h.gasLimit);
    UintSizeCorrect(h.value);
  }

  /** The size the encoder announces is the size of what it then writes. */
  lemma TotalSizeCorrect(tx: TxBlock, includeSig: bool)
    requires |tx.data| < LIMIT64
    ensures |Payload(tx, includeSig)|
         == HeadSize(HeadOf(tx)) + 1 + DataSize(tx.data)
            + (if includeSig then 1 + (1 + |BigEndian(tx.r)|) + (1 + |BigEndian(tx.s)|) else 0)
  {
    HeadSizeCorrect(HeadOf(tx), EncodeData(tx.data) + ([0xc0] + (if includeSig then EncodeSig(SigOf(tx)) else [])));
  }

  /** The total size, summed up before anything is written. */
  method TotalSize(tx: TxBlock, includeSig: bool) returns (totalSize: nat)
    requires |tx.data| < LIMIT64
    ensures totalSize
         == HeadSize(HeadOf(tx)) + 1 + DataSize(tx.data)
            + (if includeSig then 1 + (1 + |BigEndian(tx.r)|) + (1 + |BigEndian(tx.s)|) else 0)
  {
    totalSize := HeadTotalSize(HeadOf(tx));
    totalSize := totalSize + 1;
    var required := BytesRequired(|tx.data|);
    totalSize := totalSize + if |tx.data| == 0 then 1
                             else if |tx.data| <= 55 then 1 + |tx.data| else 1 + required + |tx.data|;
    if includeSig {
      totalSize := totalSize + 1;
      required := BytesRequired(tx.r);
      totalSize := totalSize + 1 + required;
      required := BytesRequired(tx.s);
      totalSize := totalSize + 1 + required;
    }
  }

  method HeadTotalSize(h: Head) returns (totalSize: nat)
    ensures totalSize == HeadSize(h)
  {
    totalSize := UintFieldSize(h.chainId);
    var size := UintFieldSize(h.nonce);
    totalSize := totalSize + size;
    size := UintFieldSize(h.maxPriorityFeePerGas);
    totalSize := totalSize + size;
    size := UintFieldSize(h.maxFeePerGas);
    totalSize := totalSize + size;
    size := UintFieldSize(h.gasLimit);
    totalSize := totalSize + size;
    totalSize := totalSize + 1 + 20;
    size := UintFieldSize(h.value);
    totalSize := totalSize + size;
  }

  /** Appending the head fields one after the other. */
  method AppendHead(buffer: Bytes, h: Head, ghost rest: Bytes) returns (ret: Bytes)
    ensures ret + rest == buffer + EncodeHead(h, rest)
  {
    ghost var s6 := EncodeUint(h.value) + rest;
    ghost var s5 := [0x94] + (h.to + s6);
    ghost var s4 := EncodeUint(h.gasLimit) + s5;
    ghost var s3 := EncodeUint(h.maxFeePerGas) + s4;
    ghost var s2 := EncodeUint(h.maxPriorityFeePerGas) + s3;
    ghost var s1 := EncodeUint(h.nonce) + s2;
    Assoc(buffer, EncodeUint(h.chainId), s1);
    ret := AppendUint(buffer, h.chainId);
    Assoc(ret, EncodeUint(h.nonce), s2);
    ret := AppendUint(ret, h.nonce);
    Assoc(ret, EncodeUint(h.maxPriorityFeePerGas), s3);
    ret := AppendUint(ret, h.maxPriorityFeePerGas);
    Assoc(ret, EncodeUint(h.maxFeePerGas), s4);
    ret := AppendUint(ret, h.maxFeePerGas);
    Assoc(ret, EncodeUint(h.gasLimit), s5);
    ret := AppendUint(ret, h.gasLimit);
    Assoc(ret, [0x94], h.to + s6);
    ret := ret + [0x94];
    Assoc(ret, h.to, s6);
    ret := ret + h.to;
    Assoc(ret, EncodeUint(h.value), rest);
    ret := AppendUint(ret, h.value);
  }

  method AppendSig(buffer: Bytes, sig: SigFields) returns (ret: Bytes)
    ensures ret == buffer + EncodeSig(sig)
  {
    ret := buffer + if sig.v == 0 then [0x80] else [sig.v];
    Assoc(ret, EncodeLong(sig.r), EncodeLong(sig.s));
    ret := AppendLong(ret, sig.r);
    ret := AppendLong(ret, sig.s);
    Assoc(buffer, EncodeV(sig.v), EncodeLong(sig.r) + EncodeLong(sig.s));
  }

  /** The encoder: announce the size, then append field after field. */
  method RlpSerialize(tx: TxBlock, includeSig: bool) returns (ret: Bytes)
    requires Encodable(tx)
    ensures ret == Serialize(tx, includeSig)
  {
    var totalSize := TotalSize(tx, includeSig);
    TotalSizeCorrect(tx, includeSig);
    ghost var sig := if includeSig then EncodeSig(SigOf(tx)) else [];
    ghost var tail := EncodeData(tx.data) + ([0xc0] + sig);
    ret := AppendListHeader([0x02], totalSize);
    ghost var start := ret;
    ret := AppendHead(ret, HeadOf(tx), tail);
    Assoc(ret, EncodeData(tx.data), [0xc0] + sig);
    ret := AppendData(ret, tx.data);
    Assoc(ret, [0xc0], sig);
    ret := ret + [0xc0];
    if includeSig {
      ret := AppendSig(ret, SigOf(tx));
    } else {
      assert ret + sig == ret;
    }
    Assoc([0x02], ListHeader(totalSize), Payload(tx, includeSig));
  }

  method ReadAddress(s: Bytes, start: nat) returns (r: Option<(Address, nat)>)
    requires start <= |s|
    ensures Reads(s, r, TakeAddress(s[start..]))
  {
    if start + 21 > |s| || s[start] != 0x94 {
      return None;
    }
    SliceOfSuffix(s, start, 1, 21);
    r := Some((s[start + 1..start + 21], start + 21));
  }

  method ReadHead(s: Bytes, start: nat) returns (r: Option<(Head, nat)>)
    requires start <= |s|
    ensures Reads(s, r, TakeHead(s[start..]))
  {
    hide TakeU64, TakeU256, TakeAddress;
    var chainId :- ReadU64(s, start, 0x37);
    var nonce :- ReadU64(s, chainId.1, 0x37);
    var priority :- ReadU256(s, nonce.1);
    var fee :- ReadU256(s, priority.1);
    var gasLimit :- ReadU64(s, fee.1, 0x37);
    var to :- ReadAddress(s, gasLimit.1);
    var value :- ReadU256(s, to.1);
    r := Some((Head(chainId.0, nonce.0, priority.0, fee.0, gasLimit.0, to.0, value.0), value.1));
  }

  method ReadSig(s: Bytes, start: nat) returns (r: Option<SigFields>)
    requires start <= |s|
    ensures r == TakeSig(s[start..])
  {
    hide TakeLong, FromBigEndian;
    var index := start;
    if index == |s| || s[index] != 0xc0 {
      return None;
    }
    SliceOfSuffix(s, index, 0, 1);
    index := index + 1;
    if index == |s| || (s[index] != 0x80 && s[index] > 0x01) {
      return None;
    }
    var v: Byte := if s[index] == 0x80 then 0 else s[index];
    SliceOfSuffix(s, index, 0, 1);
    index := index + 1;
    var rr :- ReadLong(s, index, 0x20);
    var ss :- ReadLong(s, rr.1, 0x20);
    r := Some(SigFields(v, rr.0, ss.0));
  }

  method ReadFields(s: Bytes, start: nat) returns (r: Option<TxBlock>)
    requires start <= |s|
    ensures r == TakeFields(s[start..])
  {
    var head :- ReadHead(s, start);
    var data :- ReadData(s, head.1, 0xc0);
    var sig :- ReadSig(s, data.1);
    r := Some(Assemble(head.0, data.0, sig));
  }

  /** The decoding constructor: a cursor moving over the bytes, field after field. */
  method ParseBytes(c: Crypto, bytes: Bytes) returns (r: Option<TxBlock>)
    ensures r == Parse(c, bytes)
  {
    if bytes == [] || bytes[0] != 0x02 {
      return None;
    }
    var txData := bytes[1..];
    var start :- ReadListHeader(txData);
    var tx :- ReadFields(txData, start);
    r := Authenticate(c, tx);
  }
}
