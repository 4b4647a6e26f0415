/** Validator transactions: the five-item list whose `v` carries the chain id (EIP-155). */
module TxValidators {
  import opened Bytes
  import opened Crypto
  import opened Rlp

  datatype TxValidator = TxValidator(
    from: Address, data: Bytes, chainId: U64, nHeight: U64, v: U256, r: U256, s: U256)

  const NO_ADDRESS: Address := Zeros(20)

  // ---------------------------------------------------------------- encoding

  /** Unlike the other numbers, a zero here is sent as a zero byte. */
  function EncodeId(n: U256): Bytes {
    if n < 0x80 then [n] else EncodeLong(n)
  }

  function EncodeRS(r: U256, s: U256): Bytes {
    EncodeLong(r) + EncodeLong(s)
  }

  /** With the signature: data, height, v, r, s. Without: data, height, chain id and two empty items. */
  function Payload(tx: TxValidator, includeSig: bool): Bytes
    requires |tx.data| < LIMIT64
  {
    EncodeData(tx.data) + (EncodeUint(tx.nHeight)
    + if includeSig then EncodeId(tx.v) + EncodeRS(tx.r, tx.s) else EncodeId(tx.chainId) + ([0x80] + [0x80]))
  }

  predicate Encodable(tx: TxValidator) {
    |tx.data| < LIMIT64 && |Payload(tx, true)| < LIMIT64 && |Payload(tx, false)| < LIMIT64
  }

  function Serialize(tx: TxValidator, includeSig: bool): Bytes
    requires Encodable(tx)
  {
    ListHeader(|Payload(tx, includeSig)|) + Payload(tx, includeSig)
  }

  // ---------------------------------------------------------------- decoding

  function TakeRS(s: Bytes): Option<(U256, U256)> {
    match TakeLong(s, 0x37)
    case None => None
    case Some(r) =>
      match TakeLong(r.1, 0x37)
      case None => None
      case Some(t) => Some((r.0, t.0))
  }

  /** Which signatures are read: r and s below 2^256, of at most 55 bytes each. */
  lemma SigReadExactly(r: Bytes, s: Bytes, rest: Bytes)
    requires |r| < 0x80 && |s| < 0x80
    ensures var sig := TakeRS([0x80 + |r|] + (r + ([0x80 + |s|] + (s + rest))));
            && (sig.Some? <==>
                  |r| <= 55 && FromBigEndian(r) < LIMIT256 && |s| <= 55 && FromBigEndian(s) < LIMIT256)
            && (sig.Some? ==> sig.value.0 == FromBigEndian(r) && sig.value.1 == FromBigEndian(s))
  {
    hide FromBigEndian, TakeLong;
    LongReadExactly(0x80 + |r|, r, [0x80 + |s|] + (s + rest), 0x37);
    LongReadExactly(0x80 + |s|, s, rest, 0x37);
  }

  /** Height, v, r and s. */
  function TakeNumbers(s: Bytes): Option<(U64, U256, U256, U256)> {
    match TakeU64(s, 0x7f)
    case None => None
    case Some(height) =>
      match TakeU256(height.1)
      case None => None
      case Some(v) =>
        match TakeRS(v.1)
        case None => None
        case Some(rs) => Some((height.0, v.0, rs.0, rs.1))
  }

  function TakeFields(s: Bytes): Option<TxValidator> {
    match TakeData(s, 0x100)
    case None => None
    case Some(data) =>
      match TakeNumbers(data.1)
      case None => None
      case Some(n) => Some(TxValidator(NO_ADDRESS, data.0, 0, n.0, n.1, n.2, n.3))
  }

  /** The chain id out of `v`. Below 37 the recovery id would underflow, so decoding always fails. */
  function ChainIdOf(v: U256): Option<U64> {
    if v > 36 && (v - 35) / 2 < LIMIT64 then Some((v - 35) / 2) else None
  }

  function Authenticate(c: Crypto, tx: TxValidator): Option<TxValidator> {
    match ChainIdOf(tx.v)
    case None => None
    case Some(chainId) => AuthenticateFor(c, tx.(chainId := chainId))
  }

  function AuthenticateFor(c: Crypto, tx: TxValidator): Option<TxValidator>
    requires ChainIdOf(tx.v) == Some(tx.chainId)
  {
    var recoveryId := tx.v - (tx.chainId * 2 + 35);
    if !VerifySig(tx.r, tx.s, recoveryId) || !Encodable(tx) then None
    else
      var key := c.recover(MakeSig(tx.r, tx.s, recoveryId), c.sha3(Serialize(tx, false)));
      if key == NO_KEY then None else Some(tx.(from := ToAddress(c, key)))
  }

  function Parse(c: Crypto, bytes: Bytes): Option<TxValidator> {
    match TakeList(bytes)
    case None => None
    case Some(payload) =>
      match TakeFields(payload)
      case None => None
      case Some(tx) => Authenticate(c, tx)
  }

  // ---------------------------------------------------------------- round trip

  /** What the signing constructor establishes; `v` is summed in 64 bits. */
  predicate WellSigned(c: Crypto, tx: TxValidator, recoveryId: Byte) {
    && Encodable(tx)
    && VerifySig(tx.r, tx.s, recoveryId)
    && tx.v == Wrap64(recoveryId + tx.chainId * 2 + 35)
    && var key := c.recover(MakeSig(tx.r, tx.s, recoveryId), c.sha3(Serialize(tx, false)));
    key != NO_KEY && ToAddress(c, key) == tx.from
  }

  lemma IdTaken(n: U256, rest: Bytes)
    ensures TakeU256(EncodeId(n) + rest) == Some((n, rest))
  {
    if n == 0 {
      assert (EncodeId(n) + rest)[1..] == rest;
    } else {
      U256Taken(n, rest);
    }
  }

  lemma RSTaken(r: U256, s: U256)
    ensures TakeRS(EncodeRS(r, s)) == Some((r, s))
  {
    LongTaken(r, EncodeLong(s), 0x37);
    LongTaken(s, [], 0x37);
    assert EncodeLong(s) + [] == EncodeLong(s);
  }

  lemma NumbersTaken(height: U64, v: U256, r: U256, s: U256)
    ensures TakeNumbers(EncodeUint(height) + (EncodeId(v) + EncodeRS(r, s))) == Some((height, v, r, s))
  {
    UintTaken(height, EncodeId(v) + EncodeRS(r, s), 0x7f);
    IdTaken(v, EncodeRS(r, s));
    RSTaken(r, s);
  }

  lemma FieldsTaken(tx: TxValidator)
    requires Encodable(tx)
    ensures |tx.data| != 55 ==> TakeFields(Payload(tx, true)) == Some(tx.(from := NO_ADDRESS, chainId := 0))
    ensures |tx.data| == 55 && TakeFields(Payload(tx, true)).Some? ==>
              TakeFields(Payload(tx, true)).value.data == []
  {
    var tail := EncodeUint(tx.nHeight) + (EncodeId(tx.v) + EncodeRS(tx.r, tx.s));
    DataTaken(tx.data, tail, 0x100);
    NumbersTaken(tx.nHeight, tx.v, tx.r, tx.s);
  }

  lemma ChainIdWraps(chainId: U64, recoveryId: nat)
    requires recoveryId <= 1
    ensures ChainIdOf(Wrap64(recoveryId + chainId * 2 + 35)) == Some(chainId)
       <==> chainId >= 1 && recoveryId + chainId * 2 + 35 < LIMIT64
  {
  }

  /** The chain id survives in `v`, summed modulo 2^64, exactly when it is positive and the sum did not wrap. */
  lemma ChainIdSurvives(chainId: U64, recoveryId: nat)
    requires recoveryId <= 1
    ensures ChainIdOf((recoveryId + chainId * 2 + 35) % LIMIT64) == Some(chainId)
       <==> chainId >= 1 && recoveryId + chainId * 2 + 35 < LIMIT64
  {
    hide Wrap64;
    WrapIsModulo(recoveryId + chainId * 2 + 35);
    ChainIdWraps(chainId, recoveryId);
  }

  /** When a signed validator transaction survives its own encoding. */
  predicate RoundTrips(tx: TxValidator, recoveryId: nat)
    requires |tx.data| < LIMIT64
  {
    && tx.chainId >= 1
    && recoveryId + tx.chainId * 2 + 35 < LIMIT64
    && |tx.data| != 55
    && |Payload(tx, true)| > 55
  }

  lemma ParseSerialized(c: Crypto, tx: TxValidator)
    requires Encodable(tx)
    ensures |Payload(tx, true)| <= 55 ==> Parse(c, Serialize(tx, true)) == None
    ensures |Payload(tx, true)| > 55 ==>
              Parse(c, Serialize(tx, true))
              == match TakeFields(Payload(tx, true))
                 case None => None
                 case Some(t) => Authenticate(c, t)
  {
    ListTaken(Payload(tx, true));
  }

  /** Authentication restores sender and chain id, exactly when the chain id survived. */
  lemma AuthenticateRestores(c: Crypto, tx: TxValidator, recoveryId: Byte)
    requires WellSigned(c, tx, recoveryId)
    ensures Authenticate(c, tx.(from := NO_ADDRESS, chainId := 0)) == Some(tx)
       <==> tx.chainId >= 1 && recoveryId + tx.chainId * 2 + 35 < LIMIT64
  {
    ChainIdWraps(tx.chainId, recoveryId);
    var t := tx.(from := NO_ADDRESS, chainId := 0);
    if ChainIdOf(tx.v) == Some(tx.chainId) {
      var u := tx.(from := NO_ADDRESS);
      assert t.(chainId := tx.chainId) == u;
      assert AuthenticateFor(c, u) == Some(tx);
    } else if ChainIdOf(tx.v).Some? {
      var u := t.(chainId := ChainIdOf(tx.v).value);
      assert Authenticate(c, t) == AuthenticateFor(c, u);
    }
  }

  /** Decoding undoes encoding exactly for the transactions `RoundTrips` describes. */
  lemma RoundTrip(c: Crypto, tx: TxValidator, recoveryId: Byte)
    requires WellSigned(c, tx, recoveryId)
    ensures Parse(c, Serialize(tx, true)) == Some(tx) <==> RoundTrips(tx, recoveryId)
  {
    ParseSerialized(c, tx);
    FieldsTaken(tx);
    AuthenticateRestores(c, tx, recoveryId);
  }

  lemma SameUnsigned(t: TxValidator, tx: TxValidator)
    requires Encodable(t) && tx == t.(from := tx.from)
    ensures Encodable(tx) && Serialize(tx, false) == Serialize(t, false)
  {
  }

  /** What was decoded authenticates again, once sender and chain id are stripped off. */
  lemma ParsedAuthenticates(c: Crypto, bytes: Bytes, tx: TxValidator)
    requires Parse(c, bytes) == Some(tx)
    ensures Encodable(tx) && Authenticate(c, tx.(from := NO_ADDRESS, chainId := 0)) == Some(tx)
  {
    hide TakeList, TakeData, TakeNumbers, Serialize, Encodable, MakeSig, ToAddress, VerifySig, ChainIdOf;
    var t := TakeFields(TakeList(bytes).value).value;
    assert Authenticate(c, t) == Some(tx);
    SameUnsigned(t.(chainId := ChainIdOf(t.v).value), tx);
    assert tx.(from := NO_ADDRESS, chainId := 0) == t;
  }

  /** What the decoder lets through is signed by its sender, with the chain id and the recovery id in v. */
  lemma ParsedIsWellSigned(c: Crypto, bytes: Bytes, tx: TxValidator)
    requires Parse(c, bytes) == Some(tx)
    ensures Encodable(tx) && tx.chainId >= 1 && 0 <= tx.v - (tx.chainId * 2 + 35) <= 1
    ensures var recoveryId := tx.v - (tx.chainId * 2 + 35);
            var key := c.recover(MakeSig(tx.r, tx.s, recoveryId), c.sha3(Serialize(tx, false)));
            VerifySig(tx.r, tx.s, recoveryId) && key != NO_KEY && ToAddress(c, key) == tx.from
  {
    ParsedAuthenticates(c, bytes, tx);
    hide Parse, Serialize, Encodable, MakeSig, ToAddress, VerifySig;
    var t := tx.(from := NO_ADDRESS, chainId := 0);
    var u := t.(chainId := ChainIdOf(t.v).value);
    assert AuthenticateFor(c, u) == Some(tx);
    SameUnsigned(u, tx);
  }

  /** A decoded validator transaction survives being sent on exactly when its data is not 55 bytes and its list long. */
  lemma ParsedRoundTripsExactly(c: Crypto, bytes: Bytes, tx: TxValidator)
    requires Parse(c, bytes) == Some(tx)
    ensures Encodable(tx)
    ensures Parse(c, Serialize(tx, true)) == Some(tx) <==> |tx.data| != 55 && |Payload(tx, true)| > 55
  {
    ParsedAuthenticates(c, bytes, tx);
    hide TakeFields, Authenticate, Payload;
    ParseSerialized(c, tx);
    FieldsTaken(tx);
    if |tx.data| == 55 && TakeFields(Payload(tx, true)).Some? {
      AuthenticateKeepsData(c, TakeFields(Payload(tx, true)).value);
    }
  }

  lemma AuthenticateKeepsData(c: Crypto, t: TxValidator)
    ensures Authenticate(c, t).Some? ==> Authenticate(c, t).value.data == t.data
  {
    hide Serialize, Encodable, MakeSig, ToAddress, VerifySig, ChainIdOf;
  }

  // ---------------------------------------------------------------- signing

  function Sign(c: Crypto, tx: TxValidator, key: PrivKey): Option<(TxValidator, Byte)>
    requires Encodable(tx)
  {
    var hash := c.sha3(Serialize(tx, false));
    var sig := c.sign(hash, key);
    var signed := tx.(r := SigR(sig), s := SigS(sig), v := Wrap64(sig[64] + tx.chainId * 2 + 35));
    if ToAddress(c, c.toUPub(key)) != tx.from then None
    else if !VerifySig(signed.r, signed.s, sig[64]) then None
    else if c.toUPub(key) != c.recover(sig, hash) then None
    else Some((signed, sig[64]))
  }

  /** Signing succeeds exactly for the sender's own key, with a signature that recovers it and is in range. */
  lemma SignsExactly(c: Crypto, tx: TxValidator, key: PrivKey)
    requires Encodable(tx)
    ensures var hash := c.sha3(Serialize(tx, false));
            var sig := c.sign(hash, key);
            Sign(c, tx, key).Some? <==>
              && ToAddress(c, c.toUPub(key)) == tx.from && SignRecovers(c, hash, key)
              && 0 < SigR(sig) < EC_ORDER && 0 < SigS(sig) < EC_ORDER && sig[64] <= 1
  {
    hide Serialize, SigR, SigS, ToAddress;
  }

  lemma SignedIsWellSigned(c: Crypto, tx: TxValidator, key: PrivKey, signed: TxValidator, recoveryId: Byte)
    requires Encodable(tx) && Encodable(signed) && c.toUPub(key) != NO_KEY
    requires Sign(c, tx, key) == Some((signed, recoveryId))
    ensures WellSigned(c, signed, recoveryId)
  {
    hide Serialize, MakeSig, ToAddress, VerifySig, Wrap64, SigR, SigS, Encodable, Payload;
    var sig := c.sign(c.sha3(Serialize(tx, false)), key);
    MakeSigOfParts(sig);
    assert MakeSig(signed.r, signed.s, recoveryId) == sig;
    SignatureNotCovered(tx, signed);
  }

  /** What is signed does not depend on the signature or the sender. */
  lemma SignatureNotCovered(tx: TxValidator, signed: TxValidator)
    requires Encodable(tx) && Encodable(signed)
    requires tx.data == signed.data && tx.nHeight == signed.nHeight && tx.chainId == signed.chainId
    ensures Serialize(tx, false) == Serialize(signed, false)
  {
    hide EncodeData, EncodeUint, EncodeId, ListHeader;
  }

  /** The signature covers data, height and chain id, for every data length. */
  lemma PreimageInjective(t: TxValidator, u: TxValidator)
    requires Encodable(t) && Encodable(u)
    requires Serialize(t, false) == Serialize(u, false)
    ensures t.data == u.data && t.nHeight == u.nHeight && t.chainId == u.chainId
  {
    ListInjective(Payload(t, false), Payload(u, false));
    var t1 := EncodeUint(t.nHeight) + (EncodeId(t.chainId) + ([0x80] + [0x80]));
    var u1 := EncodeUint(u.nHeight) + (EncodeId(u.chainId) + ([0x80] + [0x80]));
    DataTakenReference(t.data, t1);
    DataTakenReference(u.data, u1);
    UintPrefixFree(t.nHeight, u.nHeight, EncodeId(t.chainId) + ([0x80] + [0x80]),
                   EncodeId(u.chainId) + ([0x80] + [0x80]));
    IdTaken(t.chainId, [0x80] + [0x80]);
    IdTaken(u.chainId, [0x80] + [0x80]);
  }

  // ---------------------------------------------------------------- the source's cursor and buffer

  function IdSize(n: U256): nat {
    if n < 0x80 then 1 else 1 + |BigEndian(n)|
  }

  /** The size the encoder announces is the size of what it then writes. */
  lemma TotalSizeCorrect(tx: TxValidator, includeSig: bool)
    requires |tx.data| < LIMIT64
    ensures |Payload(tx, includeSig)|
         == DataSize(tx.data) + UintSize(tx.nHeight) + IdSize(if includeSig then tx.v else tx.chainId)
            + (if includeSig then 1 + |BigEndian(tx.r)| else 1) + (if includeSig then 1 + |BigEndian(tx.s)| else 1)
  {
    UintSizeCorrect(tx.nHeight);
  }

  method AppendId(buffer: Bytes, n: U256) returns (ret: Bytes)
    ensures ret == buffer + EncodeId(n)
  {
    if n < 0x80 {
      ret := buffer + [n];
    } else {
      ret := AppendLong(buffer, n);
    }
  }

  method TotalSize(tx: TxValidator, includeSig: bool) returns (totalSize: nat)
    requires |tx.data| < LIMIT64
    ensures totalSize
         == DataSize(tx.data) + UintSize(tx.nHeight) + IdSize(if includeSig then tx.v else tx.chainId)
            + (if includeSig then 1 + |BigEndian(tx.r)| else 1) + (if includeSig then 1 + |BigEndian(tx.s)| else 1)
  {
    var required := BytesRequired(|tx.data|);
    totalSize := if |tx.data| == 0 then 1
                 else if |tx.data| <= 55 then 1 + |tx.data| else 1 + required + |tx.data|;
    required := UintFieldSize(tx.nHeight);
    totalSize := totalSize + required;
    required := BytesRequired(if includeSig then tx.v else tx.chainId);
    totalSize := totalSize + if (if includeSig then tx.v else tx.chainId) < 0x80 then 1 else 1 + required;
    required := BytesRequired(tx.r);
    totalSize := totalSize + if includeSig then 1 + required else 1;
    required := BytesRequired(tx.s);
    totalSize := totalSize + if includeSig then 1 + required else 1;
  }

  /** The encoder: announce the size, then append field after field. */
  method RlpSerialize(tx: TxValidator, includeSig: bool) returns (ret: Bytes)
    requires Encodable(tx)
    ensures ret == Serialize(tx, includeSig)
  {
    hide EncodeData, EncodeUint, EncodeId, EncodeLong, ListHeader, DataSize, UintSize, IdSize, BigEndian;
    var totalSize := TotalSize(tx, includeSig);
    TotalSizeCorrect(tx, includeSig);
    ghost var rs := if includeSig then EncodeRS(tx.r, tx.s) else [0x80] + [0x80];
    ghost var ids := EncodeId(if includeSig then tx.v else tx.chainId) + rs;
    ret := AppendListHeader([], totalSize);
    Assoc(ret, EncodeData(tx.data), EncodeUint(tx.nHeight) + ids);
    ret := AppendData(ret, tx.data);
    Assoc(ret, EncodeUint(tx.nHeight), ids);
    ret := AppendUint(ret, tx.nHeight);
    Assoc(ret, EncodeId(if includeSig then tx.v else tx.chainId), rs);
    if includeSig {
      ret := AppendId(ret, tx.v);
      Assoc(ret, EncodeLong(tx.r), EncodeLong(tx.s));
      ret := AppendLong(ret, tx.r);
      ret := AppendLong(ret, tx.s);
    } else {
      ret := AppendId(ret, tx.chainId);
      Assoc(ret, [0x80], [0x80]);
      ret := ret + [0x80];
      ret := ret + [0x80];
    }
  }

  method ReadNumbers(s: Bytes, start: nat) returns (r: Option<(U64, U256, U256, U256)>)
    requires start <= |s|
    ensures r == TakeNumbers(s[start..])
  {
    var height :- ReadU64(s, start, 0x7f);
    var v :- ReadU256(s, height.1);
    var rr :- ReadLong(s, v.1, 0x37);
    var ss :- ReadLong(s, rr.1, 0x37);
    r := Some((height.0, v.0, rr.0, ss.0));
  }

  method ReadFields(s: Bytes, start: nat) returns (r: Option<TxValidator>)
    requires start <= |s|
    ensures r == TakeFields(s[start..])
  {
    var data :- ReadData(s, start, 0x100);
    var n :- ReadNumbers(s, data.1);
    r := Some(TxValidator(NO_ADDRESS, data.0, 0, n.0, n.1, n.2, n.3));
  }

  /** The decoding constructor: a cursor moving over the bytes, field after field. */
  method ParseBytes(c: Crypto, bytes: Bytes) returns (r: Option<TxValidator>)
    ensures r == Parse(c, bytes)
  {
    var start :- ReadListHeader(bytes);
    var tx :- ReadFields(bytes, start);
    r := Authenticate(c, tx);
  }
}
