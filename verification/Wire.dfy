/** Protocol Buffers wire format: the library primitives the SDK calls, the hand-built CallContractRequest,
    and the reply decoder (callContract and decodeCallContractReplyData in cre/report_verification.go). */
module Wire {
  import opened Wrappers
  import opened Bytes

  // ----- Varints -----

  /** The base-128 varint of a 64-bit value, least significant group first. */
  function AppendVarint(v: nat): (s: seq<Byte>)
    ensures |s| > 0
  {
    if v < 128 then [v] else [v % 128 + 128] + AppendVarint(v / 128)
  }

  /** A serialised varint: at most ten bytes, a continuation bit on all but the last, and in the tenth byte
      only the bit that still fits 64 bits. */
  predicate IsVarint(s: seq<Byte>) {
    && 0 < |s| <= 10 && s[|s| - 1] < 128 && (|s| == 10 ==> s[9] < 2)
    && forall j | 0 <= j < |s| - 1 :: s[j] >= 128
  }

  /** The value of the groups from position j on. */
  function VarintValue(s: seq<Byte>, j: nat := 0): nat
    decreases |s| - j
  {
    if j >= |s| then 0 else s[j] % 128 + 128 * VarintValue(s, j + 1)
  }

  /** The length of the varint at the front of b, looking from byte i on; 0 when there is none. */
  function VarintLength(b: seq<Byte>, i: nat := 0): (n: nat)
    requires i < 10
    ensures n <= |b|
    decreases |b| + 10 - i
  {
    if i >= |b| then 0
    else if b[i] < 128 then (if i == 9 && b[i] >= 2 then 0 else i + 1)
    else if i == 9 then 0
    else VarintLength(b, i + 1)
  }

  /** protowire.ConsumeVarint: the value and the number of bytes. */
  function ConsumeVarint(b: seq<Byte>): (r: Option<(nat, nat)>)
    ensures r.Some? ==> 0 < r.value.1 <= |b|
  {
    var n := VarintLength(b);
    if n == 0 then None else Some((VarintValue(b[..n]), n))
  }

  lemma {:induction false} VarintLengthComplete(s: seq<Byte>, rest: seq<Byte>, i: nat)
    requires IsVarint(s) && i < |s|
    ensures VarintLength(s + rest, i) == |s|
    decreases |s| - i
  {
    if i < |s| - 1 {
      VarintLengthComplete(s, rest, i + 1);
    }
  }

  lemma ConsumeVarintComplete(s: seq<Byte>, rest: seq<Byte>)
    requires IsVarint(s)
    ensures ConsumeVarint(s + rest) == Some((VarintValue(s), |s|))
  {
    VarintLengthComplete(s, rest, 0);
    assert (s + rest)[..|s|] == s;
  }

  lemma {:induction false} ConsumeVarintSound(b: seq<Byte>, i: nat)
    requires i < 10 && VarintLength(b, i) > 0 && forall j | 0 <= j < i && j < |b| :: b[j] >= 128
    ensures IsVarint(b[..VarintLength(b, i)])
    decreases 10 - i
  {
    if b[i] >= 128 {
      ConsumeVarintSound(b, i + 1);
    }
  }

  /** What fits in the groups from position i on. */
  function VarintRoom(i: nat): nat
    requires i < 10
    decreases 10 - i
  {
    if i == 9 then 2 else 128 * VarintRoom(i + 1)
  }

  lemma VarintRoom64()
    ensures VarintRoom(0) == TWO_64
  {
  }

  lemma {:induction false} VarintValueShift(h: Byte, s: seq<Byte>, j: nat)
    ensures VarintValue([h] + s, j + 1) == VarintValue(s, j)
    decreases |s| - j
  {
    if j < |s| {
      VarintValueShift(h, s, j + 1);
    }
  }

  lemma {:induction false} AppendVarintShape(v: nat, i: nat)
    requires i < 10 && v < VarintRoom(i)
    ensures var s := AppendVarint(v);
            && |s| <= 10 - i && s[|s| - 1] < 128 && (|s| == 10 - i ==> s[|s| - 1] < 2)
            && (forall j | 0 <= j < |s| - 1 :: s[j] >= 128)
            && VarintValue(s) == v
    decreases 10 - i
  {
    if v >= 128 {
      AppendVarintShape(v / 128, i + 1);
      VarintValueShift(v % 128 + 128, AppendVarint(v / 128), 0);
      assert (v % 128 + 128) % 128 == v % 128;
    }
  }

  lemma AppendVarintIsVarint(v: nat)
    requires v < TWO_64
    ensures IsVarint(AppendVarint(v)) && VarintValue(AppendVarint(v)) == v
  {
    VarintRoom64();
    AppendVarintShape(v, 0);
  }

  /** Writing and reading a 64-bit varint, whatever follows it. */
  lemma VarintRoundTrip(v: nat, rest: seq<Byte>)
    requires v < TWO_64
    ensures ConsumeVarint(AppendVarint(v) + rest) == Some((v, |AppendVarint(v)|))
  {
    AppendVarintIsVarint(v);
    ConsumeVarintComplete(AppendVarint(v), rest);
  }

  // ----- Tags and length-delimited bytes -----

  const VARINT := 0
  const FIXED64 := 1
  const BYTES := 2
  const FIXED32 := 5

  const MAX_INT32 := 0x7FFF_FFFF

  /** protowire.ConsumeTag: field number, wire type, length; a number outside 1 to 2^31 - 1 is an error. */
  function ConsumeTag(b: seq<Byte>): (r: Option<(nat, nat, nat)>)
    ensures r.Some? ==> r.value.0 > 0 && r.value.1 < 8 && 0 < r.value.2 <= |b|
  {
    match ConsumeVarint(b)
    case None => None
    case Some((v, n)) => if 0 < v / 8 <= MAX_INT32 then Some((v / 8, v % 8, n)) else None
  }

  /** protowire.ConsumeBytes: the content and the length of prefix and content. */
  function ConsumeBytes(b: seq<Byte>): (r: Option<(seq<Byte>, nat)>)
    ensures r.Some? ==> 0 < r.value.1 <= |b| && |r.value.0| <= |b|
  {
    match ConsumeVarint(b)
    case None => None
    case Some((m, n)) => if m > |b| - n then None else Some((b[n..n + m], n + m))
  }

  function AppendTag(num: nat, typ: nat): seq<Byte> { AppendVarint(8 * num + typ) }

  function AppendBytes(s: seq<Byte>): seq<Byte> { AppendVarint(|s|) + s }

  // ----- The grammar of a message: records one after the other -----

  /** The payload of a record as it stands in the message; varints and lengths need not be minimal. */
  datatype Payload =
    | Varint(raw: seq<Byte>)
    | Fixed64(eight: seq<Byte>)
    | Fixed32(four: seq<Byte>)
    | Delimited(length: seq<Byte>, content: seq<Byte>)
  {
    predicate Valid() {
      match this
      case Varint(raw) => IsVarint(raw)
      case Fixed64(eight) => |eight| == 8
      case Fixed32(four) => |four| == 4
      case Delimited(length, content) => IsVarint(length) && VarintValue(length) == |content|
    }

    function WireType(): nat {
      match this
      case Varint(_) => VARINT
      case Fixed64(_) => FIXED64
      case Fixed32(_) => FIXED32
      case Delimited(_, _) => BYTES
    }

    function Ser(): seq<Byte> {
      match this
      case Varint(raw) => raw
      case Fixed64(eight) => eight
      case Fixed32(four) => four
      case Delimited(length, content) => length + content
    }
  }

  /** A record with its field number; `tag` is the serialised field number and wire type. */
  datatype Record = Record(number: nat, tag: seq<Byte>, payload: Payload)
  {
    predicate Valid() {
      && 0 < number <= MAX_INT32 && payload.Valid()
      && IsVarint(tag) && VarintValue(tag) == 8 * number + payload.WireType()
    }

    function Ser(): seq<Byte> { tag + payload.Ser() }

    /** The field that the reply decoder looks for. */
    predicate IsData() { number == 1 && payload.Delimited? }
  }

  function SerAll(rs: seq<Record>): seq<Byte> {
    if rs == [] then [] else rs[0].Ser() + SerAll(rs[1..])
  }

  /** A reference reader: one record off the front of a message. */
  function ReadPayload(b: seq<Byte>, wireType: nat): (r: Option<Payload>)
    ensures r.Some? ==> |r.value.Ser()| <= |b|
  {
    if wireType == VARINT then
      match ConsumeVarint(b) case None => None case Some((_, n)) => Some(Varint(b[..n]))
    else if wireType == FIXED64 then (if |b| < 8 then None else Some(Fixed64(b[..8])))
    else if wireType == FIXED32 then (if |b| < 4 then None else Some(Fixed32(b[..4])))
    else if wireType == BYTES then
      match ConsumeVarint(b)
      case None => None
      case Some((m, n)) => if m > |b| - n then None else Some(Delimited(b[..n], b[n..n + m]))
    else None
  }

  function ReadRecord(b: seq<Byte>): (r: Option<Record>)
    ensures r.Some? ==> 0 < |r.value.Ser()| <= |b|
  {
    match ConsumeTag(b)
    case None => None
    case Some((num, typ, n)) =>
      match ReadPayload(b[n..], typ)
      case None => None
      case Some(p) => Some(Record(num, b[..n], p))
  }

  function ReadMessage(b: seq<Byte>): Option<seq<Record>>
    decreases |b|
  {
    if b == [] then Some([])
    else match ReadRecord(b)
      case None => None
      case Some(rec) =>
        match ReadMessage(b[|rec.Ser()|..])
        case None => None
        case Some(rest) => Some([rec] + rest)
  }

  lemma ReadPayloadComplete(p: Payload, rest: seq<Byte>)
    requires p.Valid()
    ensures ReadPayload(p.Ser() + rest, p.WireType()) == Some(p)
  {
    var b := p.Ser() + rest;
    match p
    case Varint(raw) =>
      ConsumeVarintComplete(raw, rest);
      assert b[..|raw|] == raw;
    case Delimited(length, content) =>
      assert b == length + (content + rest);
      ConsumeVarintComplete(length, content + rest);
      assert b[..|length|] == length && b[|length|..|length| + |content|] == content;
    case Fixed64(eight) => assert b[..8] == eight;
    case Fixed32(four) => assert b[..4] == four;
  }

  lemma ConsumeTagComplete(tag: seq<Byte>, num: nat, typ: nat, rest: seq<Byte>)
    requires IsVarint(tag) && VarintValue(tag) == 8 * num + typ && typ < 8 && 0 < num <= MAX_INT32
    ensures ConsumeTag(tag + rest) == Some((num, typ, |tag|))
  {
    ConsumeVarintComplete(tag, rest);
    SplitTag(num, typ);
  }

  lemma SplitTag(num: nat, typ: nat)
    requires typ < 8
    ensures (8 * num + typ) / 8 == num && (8 * num + typ) % 8 == typ
  {
  }

  lemma ConsumeTagSound(b: seq<Byte>)
    requires ConsumeTag(b).Some?
    ensures var (num, typ, n) := ConsumeTag(b).value;
            IsVarint(b[..n]) && VarintValue(b[..n]) == 8 * num + typ && 0 < num <= MAX_INT32
  {
    ConsumeVarintSound(b, 0);
  }

  lemma ReadRecordComplete(rec: Record, rest: seq<Byte>)
    requires rec.Valid()
    ensures ReadRecord(rec.Ser() + rest) == Some(rec)
  {
    var b := rec.Ser() + rest;
    assert b == rec.tag + (rec.payload.Ser() + rest);
    ConsumeTagComplete(rec.tag, rec.number, rec.payload.WireType(), rec.payload.Ser() + rest);
    assert b[..|rec.tag|] == rec.tag && b[|rec.tag|..] == rec.payload.Ser() + rest;
    ReadPayloadComplete(rec.payload, rest);
  }

  lemma ReadDelimitedSound(b: seq<Byte>)
    requires ReadPayload(b, BYTES).Some?
    ensures var p := ReadPayload(b, BYTES).value; p.Valid() && p.Delimited? && p.Ser() == b[..|p.Ser()|]
  {
    ConsumeVarintSound(b, 0);
    var (m, n) := ConsumeVarint(b).value;
    assert b[..n] + b[n..n + m] == b[..n + m];
  }

  lemma ReadPayloadSound(b: seq<Byte>, wireType: nat)
    requires ReadPayload(b, wireType).Some?
    ensures var p := ReadPayload(b, wireType).value;
            p.Valid() && p.WireType() == wireType && p.Ser() == b[..|p.Ser()|]
  {
    if wireType == VARINT {
      ConsumeVarintSound(b, 0);
    } else if wireType == BYTES {
      ReadDelimitedSound(b);
    }
  }

  lemma SliceJoin(b: seq<Byte>, n: nat, m: nat)
    requires n + m <= |b|
    ensures b[..n] + b[n..][..m] == b[..n + m]
  {
  }

  lemma ReadRecordSound(b: seq<Byte>)
    requires ReadRecord(b).Some?
    ensures var rec := ReadRecord(b).value; rec.Valid() && rec.Ser() == b[..|rec.Ser()|]
  {
    var (_, typ, n) := ConsumeTag(b).value;
    ConsumeTagSound(b);
    ReadPayloadSound(b[n..], typ);
    var p := ReadPayload(b[n..], typ).value;
    assert ReadRecord(b).value.payload == p && ReadRecord(b).value.tag == b[..n];
    SliceJoin(b, n, |p.Ser()|);
  }

  lemma ReadMessageCons(rec: Record, rest: seq<Byte>)
    requires rec.Valid()
    ensures ReadMessage(rec.Ser() + rest) ==
            match ReadMessage(rest) case None => None case Some(rs) => Some([rec] + rs)
  {
    ReadRecordComplete(rec, rest);
    assert (rec.Ser() + rest)[|rec.Ser()|..] == rest;
    assert rec.Ser() + rest != [];
  }

  lemma {:induction false} ReadMessageComplete(rs: seq<Record>)
    requires forall i | 0 <= i < |rs| :: rs[i].Valid()
    ensures ReadMessage(SerAll(rs)) == Some(rs)
  {
    if rs != [] {
      ReadMessageComplete(rs[1..]);
      ReadMessageCons(rs[0], SerAll(rs[1..]));
      assert [rs[0]] + rs[1..] == rs;
    }
  }

  // ----- The request -----

  /** The record that AppendTag followed by AppendBytes writes. */
  function BytesRecord(num: nat, s: seq<Byte>): Record {
    Record(num, AppendVarint(8 * num + BYTES), Delimited(AppendVarint(|s|), s))
  }

  function VarintRecord(num: nat, v: nat): Record {
    Record(num, AppendVarint(8 * num + VARINT), Varint(AppendVarint(v)))
  }

  lemma BytesRecordValid(num: nat, s: seq<Byte>)
    requires 0 < num < 16 && |s| < TWO_64
    ensures BytesRecord(num, s).Valid()
    ensures BytesRecord(num, s).Ser() == AppendTag(num, BYTES) + AppendBytes(s)
  {
    AppendVarintIsVarint(8 * num + BYTES);
    AppendVarintIsVarint(|s|);
  }

  lemma VarintRecordValid(num: nat, v: nat)
    requires 0 < num < 16 && v < TWO_64
    ensures VarintRecord(num, v).Valid()
    ensures VarintValue(VarintRecord(num, v).payload.raw) == v
    ensures VarintRecord(num, v).Ser() == AppendTag(num, VARINT) + AppendVarint(v)
  {
    AppendVarintIsVarint(8 * num + VARINT);
    AppendVarintIsVarint(v);
  }

  /** int64(-1) as an unsigned 64-bit number. */
  const MINUS_ONE: nat := 0xFFFF_FFFF_FFFF_FFFF

  /** The bytes that callContract puts together. */
  function CallMsg(registryAddr: seq<Byte>, callData: seq<Byte>): seq<Byte> {
    AppendTag(2, BYTES) + AppendBytes(registryAddr) + AppendTag(3, BYTES) + AppendBytes(callData)
  }

  function BigIntBytes(abs: seq<Byte>, sign: nat): seq<Byte> {
    AppendTag(1, BYTES) + AppendBytes(abs) + AppendTag(2, VARINT) + AppendVarint(sign)
  }

  /** The finalized block, -3. */
  function BlockNumber(): seq<Byte> { BigIntBytes([3], MINUS_ONE) }

  function CallContractRequest(registryAddr: seq<Byte>, callData: seq<Byte>): seq<Byte> {
    AppendTag(2, BYTES) + AppendBytes(BlockNumber()) + AppendTag(1, BYTES) + AppendBytes(CallMsg(registryAddr, callData))
  }

  /** callContract, the part that builds the request: three buffers grown by appending. */
  method BuildRequest(registryAddr: seq<Byte>, callData: seq<Byte>) returns (reqBytes: seq<Byte>)
    ensures reqBytes == CallContractRequest(registryAddr, callData)
  {
    var callMsgBytes := AppendTag(2, BYTES);
    callMsgBytes := callMsgBytes + AppendBytes(registryAddr);
    callMsgBytes := callMsgBytes + AppendTag(3, BYTES);
    callMsgBytes := callMsgBytes + AppendBytes(callData);

    var bigIntBytes := AppendTag(1, BYTES);
    bigIntBytes := bigIntBytes + AppendBytes([3]);
    bigIntBytes := bigIntBytes + AppendTag(2, VARINT);
    bigIntBytes := bigIntBytes + AppendVarint(MINUS_ONE);

    reqBytes := AppendTag(2, BYTES);
    reqBytes := reqBytes + AppendBytes(bigIntBytes);
    reqBytes := reqBytes + AppendTag(1, BYTES);
    reqBytes := reqBytes + AppendBytes(callMsgBytes);
  }

  /** The meaning of a request: the address and data of the call, and the block number with its sign. */
  datatype Request = Request(to: seq<Byte>, data: seq<Byte>, blockNumber: int)

  /** The content of a length-delimited field; the last occurrence of a field counts. */
  function BytesField(rs: seq<Record>, num: nat): Option<seq<Byte>> {
    if rs == [] then None
    else
      var last := rs[|rs| - 1];
      if last.number == num && last.payload.Delimited? then Some(last.payload.content)
      else BytesField(rs[..|rs| - 1], num)
  }

  function VarintField(rs: seq<Record>, num: nat): Option<nat> {
    if rs == [] then None
    else
      var last := rs[|rs| - 1];
      if last.number == num && last.payload.Varint? then Some(VarintValue(last.payload.raw))
      else VarintField(rs[..|rs| - 1], num)
  }

  function Signed(magnitude: int, sign: nat): int {
    if Wrap64(sign) < 0 then -magnitude else magnitude
  }

  /** BigInt{abs_val = 1, sign = 2}: the sign is an int64, so the varint is read as two's complement. */
  function ReadBigInt(b: seq<Byte>): Option<int> {
    match ReadMessage(b)
    case None => None
    case Some(rs) => BigIntOf(rs)
  }

  function BigIntOf(rs: seq<Record>): Option<int> {
    match (BytesField(rs, 1), VarintField(rs, 2))
    case (Some(abs), Some(sign)) => Some(Signed(FromBE(abs), sign))
    case _ => None
  }

  /** CallContractRequest{call = 1: CallMsg{to = 2, data = 3}, block_number = 2: BigInt}. */
  function ReadRequest(b: seq<Byte>): Option<Request> {
    match ReadMessage(b)
    case None => None
    case Some(rs) =>
      match (BytesField(rs, 1), BytesField(rs, 2))
      case (Some(call), Some(block)) =>
        (match (ReadMessage(call), ReadBigInt(block))
         case (Some(ms), Some(n)) =>
           (match (BytesField(ms, 2), BytesField(ms, 3))
            case (Some(to), Some(data)) => Some(Request(to, data, n))
            case _ => None)
         case _ => None)
      case _ => None
  }

  lemma ReadTwoRecords(r1: Record, r2: Record)
    requires r1.Valid() && r2.Valid()
    ensures ReadMessage(r1.Ser() + r2.Ser()) == Some([r1, r2])
  {
    ReadMessageComplete([r1, r2]);
    var rs, two := [r1, r2], [r2];
    assert rs[1..] == two && two[1..] == [];
    assert SerAll(two) == r2.Ser() + [] == r2.Ser();
    assert SerAll(rs) == r1.Ser() + r2.Ser();
  }

  lemma FieldsOfTwo(r1: Record, r2: Record)
    requires r1.number != r2.number && r1.payload.Delimited?
    ensures BytesField([r1, r2], r1.number) == Some(r1.payload.content)
    ensures r2.payload.Delimited? ==> BytesField([r1, r2], r2.number) == Some(r2.payload.content)
    ensures r2.payload.Varint? ==> VarintField([r1, r2], r2.number) == Some(VarintValue(r2.payload.raw))
  {
    var rs, one := [r1, r2], [r1];
    assert rs[|rs| - 1] == r2 && rs[..|rs| - 1] == one && one[|one| - 1] == r1;
    assert BytesField(rs, r1.number) == BytesField(one, r1.number);
    assert BytesField([r1], r1.number) == Some(r1.payload.content);
  }

  lemma TwoBytesFieldsSer(n1: nat, s1: seq<Byte>, n2: nat, s2: seq<Byte>)
    requires 0 < n1 < 16 && 0 < n2 < 16 && |s1| < TWO_64 && |s2| < TWO_64
    ensures AppendTag(n1, BYTES) + AppendBytes(s1) + AppendTag(n2, BYTES) + AppendBytes(s2) ==
            BytesRecord(n1, s1).Ser() + BytesRecord(n2, s2).Ser()
  {
    BytesRecordValid(n1, s1);
    BytesRecordValid(n2, s2);
    JoinPairs(AppendTag(n1, BYTES), AppendBytes(s1), AppendTag(n2, BYTES), AppendBytes(s2));
  }

  lemma JoinPairs(a: seq<Byte>, b: seq<Byte>, c: seq<Byte>, d: seq<Byte>)
    ensures a + b + c + d == (a + b) + (c + d)
  {
  }

  lemma ReadTwoBytesFields(n1: nat, s1: seq<Byte>, n2: nat, s2: seq<Byte>)
    requires 0 < n1 < 16 && 0 < n2 < 16 && n1 != n2 && |s1| < TWO_64 && |s2| < TWO_64
    ensures var b := AppendTag(n1, BYTES) + AppendBytes(s1) + AppendTag(n2, BYTES) + AppendBytes(s2);
            && ReadMessage(b).Some?
            && BytesField(ReadMessage(b).value, n1) == Some(s1) && BytesField(ReadMessage(b).value, n2) == Some(s2)
  {
    var r1, r2 := BytesRecord(n1, s1), BytesRecord(n2, s2);
    TwoBytesFieldsSer(n1, s1, n2, s2);
    BytesRecordValid(n1, s1);
    BytesRecordValid(n2, s2);
    ReadTwoRecords(r1, r2);
    FieldsOfTwo(r1, r2);
  }

  lemma ReadBigIntMessage(abs: seq<Byte>, sign: nat)
    requires |abs| < TWO_64 && sign < TWO_64
    ensures ReadMessage(BigIntBytes(abs, sign)) == Some([BytesRecord(1, abs), VarintRecord(2, sign)])
  {
    var r1, r2 := BytesRecord(1, abs), VarintRecord(2, sign);
    BytesRecordValid(1, abs);
    VarintRecordValid(2, sign);
    ReadTwoRecords(r1, r2);
    assert BigIntBytes(abs, sign) == r1.Ser() + r2.Ser();
  }

  lemma BigIntOfTwo(abs: seq<Byte>, sign: nat)
    requires |abs| < TWO_64 && sign < TWO_64
    ensures BigIntOf([BytesRecord(1, abs), VarintRecord(2, sign)]) == Some(Signed(FromBE(abs), sign))
  {
    VarintRecordValid(2, sign);
    FieldsOfTwo(BytesRecord(1, abs), VarintRecord(2, sign));
  }

  lemma ReadBigIntBytes(abs: seq<Byte>, sign: nat)
    requires |abs| < TWO_64 && sign < TWO_64
    ensures ReadBigInt(BigIntBytes(abs, sign)) == Some(Signed(FromBE(abs), sign))
  {
    ReadBigIntMessage(abs, sign);
    BigIntOfTwo(abs, sign);
  }

  lemma MinusThree(abs: seq<Byte>)
    requires abs == [3]
    ensures Signed(FromBE(abs), MINUS_ONE) == -3
  {
    assert Leading(abs, 1) == 256 * Leading(abs, 0) + 3;
  }

  /** The hand-built bytes mean exactly the given address and call data at block -3. */
  lemma {:induction false} RequestRoundTrip(registryAddr: seq<Byte>, callData: seq<Byte>)
    requires |registryAddr| < TWO_63 - 64 && |callData| < TWO_63 - 64
    ensures ReadRequest(CallContractRequest(registryAddr, callData)) == Some(Request(registryAddr, callData, -3))
  {
    ReadBigIntBytes([3], MINUS_ONE);
    MinusThree([3]);
    AppendVarintIsVarint(|registryAddr|);
    AppendVarintIsVarint(|callData|);
    ReadTwoBytesFields(2, registryAddr, 3, callData);
    AppendVarintIsVarint(MINUS_ONE);
    ReadTwoBytesFields(2, BlockNumber(), 1, CallMsg(registryAddr, callData));
  }

  // ----- The reply -----

  datatype WireError = MalformedTag | MalformedData | UnsupportedWireType | MalformedSkip | DataNotFound

  /** The number of bytes to skip over a payload that is not looked for; a group or reserved wire type is an error. */
  function SkipLength(b: seq<Byte>, wireType: nat): (r: Result<nat, WireError>)
    ensures r.Ok? ==> 0 < r.value <= |b|
  {
    var n :=
      if wireType == VARINT then (match ConsumeVarint(b) case None => 0 case Some((_, n)) => n)
      else if wireType == FIXED32 then (if |b| < 4 then 0 else 4)
      else if wireType == FIXED64 then (if |b| < 8 then 0 else 8)
      else if wireType == BYTES then (match ConsumeBytes(b) case None => 0 case Some((_, n)) => n)
      else 0;
    if wireType !in {VARINT, FIXED32, FIXED64, BYTES} then Err(UnsupportedWireType)
    else if n == 0 then Err(MalformedSkip) else Ok(n)
  }

  function ReplyData(b: seq<Byte>): (r: Result<seq<Byte>, WireError>)
    ensures r.Ok? ==> |r.value| <= |b|
    decreases |b|
  {
    if b == [] then Err(DataNotFound)
    else match ConsumeTag(b)
      case None => Err(MalformedTag)
      case Some((num, typ, n)) =>
        var c := b[n..];
        if num == 1 && typ == BYTES then
          match ConsumeBytes(c) case None => Err(MalformedData) case Some((v, _)) => Ok(v)
        else
          match SkipLength(c, typ)
          case Err(e) => Err(e)
          case Ok(m) => ReplyData(c[m..])
  }

  /** decodeCallContractReplyData: reslices the bytes until the data field is found. */
  method DecodeCallContractReplyData(bytes: seq<Byte>) returns (r: Result<seq<Byte>, WireError>)
    ensures r == ReplyData(bytes)
  {
    var protoBytes := bytes;
    while |protoBytes| > 0
      invariant ReplyData(protoBytes) == ReplyData(bytes)
      decreases |protoBytes|
    {
      var tag := ConsumeTag(protoBytes);
      if tag.None? {
        return Err(MalformedTag);
      }
      var (fieldNum, wireType, n) := tag.value;
      protoBytes := protoBytes[n..];
      if fieldNum == 1 && wireType == BYTES {
        var v := ConsumeBytes(protoBytes);
        if v.None? {
          return Err(MalformedData);
        }
        return Ok(v.value.0);
      }
      var skipLen := SkipLength(protoBytes, wireType);
      if skipLen.Err? {
        return Err(skipLen.error);
      }
      protoBytes := protoBytes[skipLen.value..];
    }
    return Err(DataNotFound);
  }

  lemma SkipMatchesPayload(c: seq<Byte>, wireType: nat)
    ensures match ReadPayload(c, wireType)
            case None => SkipLength(c, wireType).Err? && (wireType == BYTES ==> ConsumeBytes(c).None?)
            case Some(p) =>
              && SkipLength(c, wireType) == Ok(|p.Ser()|)
              && (p.Delimited? <==> wireType == BYTES)
              && (wireType == BYTES ==> ConsumeBytes(c) == Some((p.content, |p.Ser()|)))
  {
  }

  lemma DropDrop(b: seq<Byte>, n: nat, m: nat)
    requires n + m <= |b|
    ensures b[n..][m..] == b[n + m..]
  {
  }

  /** One step of the reference reader behind a tag. */
  lemma RecordBehindTag(b: seq<Byte>, num: nat, typ: nat, n: nat)
    requires ConsumeTag(b) == Some((num, typ, n))
    ensures match ReadPayload(b[n..], typ)
            case None => ReadRecord(b).None?
            case Some(p) =>
              ReadRecord(b) == Some(Record(num, b[..n], p)) && |ReadRecord(b).value.Ser()| == n + |p.Ser()|
  {
  }

  lemma NoRecordFails(b: seq<Byte>)
    requires b != [] && ReadRecord(b).None?
    ensures ReplyData(b).Err?
  {
    if ConsumeTag(b).Some? {
      var (num, typ, n) := ConsumeTag(b).value;
      SkipMatchesPayload(b[n..], typ);
    }
  }

  lemma DataRecordFound(b: seq<Byte>)
    requires b != [] && ReadRecord(b).Some? && ReadRecord(b).value.IsData()
    ensures ReplyData(b) == Ok(ReadRecord(b).value.payload.content)
  {
    var (num, typ, n) := ConsumeTag(b).value;
    SkipMatchesPayload(b[n..], typ);
  }

  /** The decoder drops the tag and then the payload. */
  lemma SkipStep(b: seq<Byte>, num: nat, typ: nat, n: nat, m: nat)
    requires b != [] && ConsumeTag(b) == Some((num, typ, n)) && !(num == 1 && typ == BYTES)
    requires SkipLength(b[n..], typ) == Ok(m)
    ensures ReplyData(b) == ReplyData(b[n..][m..])
  {
  }

  /** What a record that is not looked for says about the bytes. */
  lemma OtherRecord(b: seq<Byte>) returns (num: nat, typ: nat, n: nat, m: nat)
    requires b != [] && ReadRecord(b).Some? && !ReadRecord(b).value.IsData()
    ensures ConsumeTag(b) == Some((num, typ, n)) && !(num == 1 && typ == BYTES)
    ensures SkipLength(b[n..], typ) == Ok(m) && |ReadRecord(b).value.Ser()| == n + m
  {
    var tag := ConsumeTag(b).value;
    num, typ, n := tag.0, tag.1, tag.2;
    RecordBehindTag(b, num, typ, n);
    SkipMatchesPayload(b[n..], typ);
    m := |ReadPayload(b[n..], typ).value.Ser()|;
  }

  lemma OtherRecordSkipped(b: seq<Byte>, k: nat)
    requires b != [] && ReadRecord(b).Some? && !ReadRecord(b).value.IsData() && k == |ReadRecord(b).value.Ser()|
    ensures k <= |b| && ReplyData(b) == ReplyData(b[k..])
  {
    var num, typ, n, m := OtherRecord(b);
    SkipStep(b, num, typ, n, m);
    DropDrop(b, n, m);
  }

  /** One step of the decoder agrees with the reference reader. */
  lemma ReplyDataStep(b: seq<Byte>)
    requires b != []
    ensures match ReadRecord(b)
            case None => ReplyData(b).Err?
            case Some(rec) =>
              if rec.IsData() then ReplyData(b) == Ok(rec.payload.content) else ReplyData(b) == ReplyData(b[|rec.Ser()|..])
  {
    if ReadRecord(b).None? {
      NoRecordFails(b);
    } else if ReadRecord(b).value.IsData() {
      DataRecordFound(b);
    } else {
      OtherRecordSkipped(b, |ReadRecord(b).value.Ser()|);
    }
  }

  /** The same, from the records' side. */
  lemma ReplyDataRecord(rec: Record, rest: seq<Byte>)
    requires rec.Valid()
    ensures ReplyData(rec.Ser() + rest) == if rec.IsData() then Ok(rec.payload.content) else ReplyData(rest)
  {
    var b := rec.Ser() + rest;
    ReadRecordComplete(rec, rest);
    ReplyDataStep(b);
    assert b[|rec.Ser()|..] == rest;
  }

  /** Records the decoder passes over. */
  predicate Skippable(rs: seq<Record>) {
    forall i | 0 <= i < |rs| :: rs[i].Valid() && !rs[i].IsData()
  }

  lemma SerAllCons(rec: Record, more: seq<Record>, tail: seq<Byte>)
    ensures rec.Ser() + (SerAll(more) + tail) == SerAll([rec] + more) + tail
  {
    assert ([rec] + more)[1..] == more;
  }

  lemma {:induction false} SkippablePassed(skipped: seq<Record>, tail: seq<Byte>)
    requires Skippable(skipped)
    ensures ReplyData(SerAll(skipped) + tail) == ReplyData(tail)
    decreases |skipped|
  {
    if skipped == [] {
      assert SerAll(skipped) + tail == tail;
    } else {
      SkippablePassed(skipped[1..], tail);
      ReplyDataRecord(skipped[0], SerAll(skipped[1..]) + tail);
      SerAllCons(skipped[0], skipped[1..], tail);
      assert [skipped[0]] + skipped[1..] == skipped;
    }
  }

  /** The decoder finds the first data field behind any records of the four wire types. */
  lemma ReplyDataComplete(skipped: seq<Record>, data: Record, rest: seq<Byte>)
    requires Skippable(skipped) && data.Valid() && data.IsData()
    ensures ReplyData(SerAll(skipped) + (data.Ser() + rest)) == Ok(data.payload.content)
  {
    SkippablePassed(skipped, data.Ser() + rest);
    ReplyDataRecord(data, rest);
  }

  lemma SplitAt(b: seq<Byte>, n: nat)
    requires n <= |b|
    ensures b == b[..n] + b[n..]
  {
  }

  /** A record off the front of bytes that the decoder accepts. */
  lemma FirstRecord(b: seq<Byte>) returns (rec: Record, rest: seq<Byte>)
    requires ReplyData(b).Ok?
    ensures rec.Valid() && b == rec.Ser() + rest && |rest| < |b|
    ensures if rec.IsData() then ReplyData(b) == Ok(rec.payload.content) else ReplyData(b) == ReplyData(rest)
  {
    ReplyDataStep(b);
    ReadRecordSound(b);
    rec := ReadRecord(b).value;
    rest := b[|rec.Ser()|..];
    SplitAt(b, |rec.Ser()|);
  }

  /** Whatever the decoder returns is the first data field behind records of the four wire types. */
  lemma {:induction false} ReplyDataSound(b: seq<Byte>) returns (skipped: seq<Record>, data: Record, rest: seq<Byte>)
    requires ReplyData(b).Ok?
    ensures Skippable(skipped) && data.Valid() && data.IsData() && data.payload.content == ReplyData(b).value
    ensures b == SerAll(skipped) + (data.Ser() + rest)
    decreases |b|
  {
    var rec, more := FirstRecord(b);
    if rec.IsData() {
      skipped, data, rest := [], rec, more;
      assert SerAll(skipped) + b == b;
    } else {
      var tail;
      tail, data, rest := ReplyDataSound(more);
      skipped := [rec] + tail;
      SerAllCons(rec, tail, data.Ser() + rest);
    }
  }
}
