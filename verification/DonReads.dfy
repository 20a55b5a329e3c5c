/** What fetching a DON gives, end to end: from the text of the registry address and the meaning of the requests
    to the f and the signers that the replies lay out (fetchDONInfo in cre/report_verification.go). */
module DonReads {
  import opened Wrappers
  import opened Bytes
  import opened Replies
  import opened Registry
  import Abi
  import Wire

  // ----- The registry address -----

  /** The text is the address in hexadecimal of either case, by itself or behind 0x, 0X or both. */
  predicate AddressText(text: string, addr: seq<Byte>) {
    || HexText(text, addr)
    || (|text| >= 2 && (text[..2] == "0x" || text[..2] == "0X") && HexText(text[2..], addr))
    || (|text| >= 4 && text[..4] == "0x0X" && HexText(text[4..], addr))
  }

  /** No hexadecimal text starts like a prefix. */
  lemma PrefixIsNotHex(text: string, addr: seq<Byte>)
    ensures |text| >= 2 && (text[1] == 'x' || text[1] == 'X') ==> !HexText(text, addr)
  {
    if HexText(text, addr) && |text| >= 2 {
      assert IsDigitOf(text[2 * 0 + 1], addr[0] % 16);
    }
  }

  lemma BothPrefixes(text: string)
    requires |text| >= 4
    ensures text[..4] == "0x0X" <==> text[..2] == "0x" && text[2..][..2] == "0X"
  {
    assert text[..4] == text[..2] + text[2..][..2];
  }

  lemma TrimmedIff(text: string, addr: seq<Byte>)
    ensures HexText(TrimPrefix(TrimPrefix(text, "0x"), "0X"), addr) <==> AddressText(text, addr)
  {
    PrefixIsNotHex(text, addr);
    if |text| >= 2 {
      PrefixIsNotHex(text[2..], addr);
    }
    if |text| >= 4 {
      BothPrefixes(text);
      assert text[2..][2..] == text[4..];
    }
  }

  /** The registry address of an environment is exactly what its text says. */
  lemma AddressIff(env: Environment, addr: seq<Byte>)
    ensures RegistryAddress(env) == Some(addr) <==> AddressText(env.registryAddress, addr)
  {
    TrimmedIff(env.registryAddress, addr);
    DecodeHexIff(TrimPrefix(TrimPrefix(env.registryAddress, "0x"), "0X"), addr);
  }

  // ----- What the chain is asked and answers -----

  /** A reply message whose first length-delimited field 1, behind any other records, is `data`. */
  ghost predicate Carries(bytes: seq<Byte>, data: seq<Byte>) {
    exists skipped, rec: Wire.Record, rest ::
      Wire.Skippable(skipped) && rec.Valid() && rec.IsData() && rec.payload.content == data
      && bytes == Wire.SerAll(skipped) + (rec.Ser() + rest)
  }

  /** The request calls the given contract with the given data, at the finalized block, through the given capability. */
  predicate Calls(q: ChainRequest, capID: string, to: seq<Byte>, data: seq<Byte>) {
    q.capID == capID && Wire.ReadRequest(q.payload) == Some(Wire.Request(to, data, -3))
  }

  /** Whatever request makes this call, the chain answers it with a message that carries `answer`. */
  ghost predicate Answers(chain: Chain, capID: string, to: seq<Byte>, data: seq<Byte>, answer: seq<Byte>) {
    forall q | Calls(q, capID, to, data) :: chain(q).Payload? && Carries(chain(q).bytes, answer)
  }

  /** Whatever request makes this call, the chain answers it in this way. */
  ghost predicate AnswersWith(chain: Chain, capID: string, to: seq<Byte>, data: seq<Byte>, reply: ChainReply) {
    forall q | Calls(q, capID, to, data) :: chain(q) == reply
  }

  function GetDonData(donID: nat): seq<Byte> {
    [0x23, 0x53, 0x74, 0x05] + Abi.Enc(Abi.Tuple([Abi.Static(ToBE(donID, 32))]))
  }

  function GetNodesData(ids: seq<Word>): seq<Byte> {
    [0x05, 0xa5, 0x19, 0x66] + Abi.Enc(Abi.Tuple([Abi.Array(Abi.Statics(ids))]))
  }

  function EvmCapability(chainSelector: nat): string {
    "evm:ChainSelector:" + Decimal(chainSelector) + "@1.0.0"
  }

  lemma CarriedIsRead(bytes: GoBytes, data: GoBytes)
    requires Carries(bytes, data)
    ensures Interpret(Payload(bytes)) == Ok(data)
  {
    var skipped, rec: Wire.Record, rest :|
      Wire.Skippable(skipped) && rec.Valid() && rec.IsData() && rec.payload.content == data
      && bytes == Wire.SerAll(skipped) + (rec.Ser() + rest);
    Wire.ReplyDataComplete(skipped, rec, rest);
  }

  /** A request put together by hand makes the call it is meant to make. */
  lemma BuiltCalls(capID: string, addr: seq<Byte>, data: seq<Byte>)
    requires |addr| < TWO_63 - 64 && |data| < TWO_63 - 64
    ensures Calls(ChainRequest(capID, Wire.CallContractRequest(addr, data)), capID, addr, data)
  {
    Wire.RequestRoundTrip(addr, data);
  }

  lemma FirstCalls(env: Environment, addr: seq<Byte>, donID: nat)
    requires donID < 0x1_0000_0000 && |addr| < TWO_63 - 64
    ensures Calls(DonRequest(env, addr, donID), EvmCapability(env.chainSelector), addr, GetDonData(donID))
  {
    GetDonCallEncodes(donID);
    BuiltCalls(CapID(env), addr, GetDonCall(donID));
  }

  lemma NodesDataFits(ids: seq<Word>)
    requires |ids| < 0x1_0000_0000_0000_0000 / 64
    ensures |GetNodesData(ids)| == 68 + 32 * |ids|
  {
    EncIds(ids);
  }

  lemma SecondCalls(env: Environment, addr: seq<Byte>, ids: seq<Word>)
    requires |addr| < TWO_63 - 64 && |ids| <= MAX_ALLOC
    ensures Calls(NodesRequest(env, addr, ids), EvmCapability(env.chainSelector), addr, GetNodesData(ids))
  {
    NodesDataFits(ids);
    BuiltCalls(CapID(env), addr, GetNodesCall(ids));
  }

  // ----- What a read gives -----

  /** The environment's registry is at `addr`, and its chain answers the getDON call with a layout of `d`. */
  ghost predicate HoldsDon(chain: Chain, env: Environment, addr: seq<Byte>, donID: nat, b: GoBytes, d: DonTuple) {
    && AddressText(env.registryAddress, addr)
    && Answers(chain, EvmCapability(env.chainSelector), addr, GetDonData(donID), b)
    && Abi.Holds(b, 0, DonReply(d)) && |b| >= 32 && Abi.NumAt(b, 0) == 32
  }

  /** And the getNodesByP2PIds call for its ids with a layout of `ns`. */
  ghost predicate HoldsNodes(chain: Chain, env: Environment, addr: seq<Byte>, ids: seq<Word>, b: GoBytes, ns: seq<NodeTuple>) {
    && Answers(chain, EvmCapability(env.chainSelector), addr, GetNodesData(ids), b)
    && Abi.Holds(b, 0, NodesReply(ns)) && |b| >= 64 && forall i | 0 <= i < |ns| :: ns[i].Valid()
  }

  lemma DonIsRead(chain: Chain, env: Environment, addr: seq<Byte>, donID: nat, b: GoBytes, d: DonTuple)
    requires donID < 0x1_0000_0000 && HoldsDon(chain, env, addr, donID, b, d)
    ensures RegistryAddress(env) == Some(addr) && |addr| <= MAX_ALLOC && |d.nodeP2PIds| <= MAX_ALLOC
    ensures ReadDon(chain, env, addr, donID) == Done(Don(WordToInt(d.f), d.nodeP2PIds))
  {
    AddressIff(env, addr);
    AddressFits(env);
    var q := DonRequest(env, addr, donID);
    FirstCalls(env, addr, donID);
    CarriedIsRead(chain(q).bytes, b);
    DecodeDonCorrect(b, d);
    FewIds(b, d);
  }

  lemma FewIds(b: GoBytes, d: DonTuple)
    requires Abi.Holds(b, 0, DonReply(d))
    ensures |d.nodeP2PIds| <= MAX_ALLOC
  {
    DonReplyParts(b, d);
    var base := Abi.NumAt(b, 0);
    IdsHold(b, base + Abi.NumAt(b, base + 160), d.nodeP2PIds);
  }

  lemma NodesAreRead(chain: Chain, env: Environment, addr: seq<Byte>, ids: seq<Word>, b: GoBytes, ns: seq<NodeTuple>)
    requires |addr| <= MAX_ALLOC && |ids| <= MAX_ALLOC && HoldsNodes(chain, env, addr, ids, b, ns)
    ensures Decoded(Interpret(chain(NodesRequest(env, addr, ids))), DecodeNodes) == Done(SignerMap(ns))
  {
    var q := NodesRequest(env, addr, ids);
    SecondCalls(env, addr, ids);
    CarriedIsRead(chain(q).bytes, b);
    DecodeNodesCorrect(b, ns);
  }

  /** A direct read by its two steps. */
  lemma ReadBySteps(chain: Chain, env: Environment, addr: seq<Byte>, donID: nat, don: Don, signers: Signers)
    requires RegistryAddress(env) == Some(addr) && ReadDon(chain, env, addr, donID) == Done(don)
    requires don.nodeP2PIds != [] ==>
               Decoded(Interpret(chain(NodesRequest(env, addr, don.nodeP2PIds))), DecodeNodes) == Done(signers)
    ensures DirectRead(chain, env, donID) == Done(DonInfo(don.f, if don.nodeP2PIds == [] then map[] else signers))
    ensures DirectRequests(chain, env, donID) ==
            [DonRequest(env, addr, donID)] + if don.nodeP2PIds == [] then [] else [NodesRequest(env, addr, don.nodeP2PIds)]
  {
  }

  /** Reading a DON gives the f of its tuple and the signers of its nodes, by exactly two calls. */
  lemma ReadsDon(chain: Chain, env: Environment, addr: seq<Byte>, donID: nat, b: GoBytes, d: DonTuple,
                 bn: GoBytes, ns: seq<NodeTuple>)
    requires donID < 0x1_0000_0000 && HoldsDon(chain, env, addr, donID, b, d)
    requires d.nodeP2PIds != [] && HoldsNodes(chain, env, addr, d.nodeP2PIds, bn, ns)
    ensures DirectRead(chain, env, donID) == Done(DonInfo(WordToInt(d.f), SignerMap(ns)))
    ensures var qs := DirectRequests(chain, env, donID);
            && |qs| == 2
            && Calls(qs[0], EvmCapability(env.chainSelector), addr, GetDonData(donID))
            && Calls(qs[1], EvmCapability(env.chainSelector), addr, GetNodesData(d.nodeP2PIds))
  {
    DonIsRead(chain, env, addr, donID, b, d);
    NodesAreRead(chain, env, addr, d.nodeP2PIds, bn, ns);
    FirstCalls(env, addr, donID);
    SecondCalls(env, addr, d.nodeP2PIds);
    ReadBySteps(chain, env, addr, donID, Don(WordToInt(d.f), d.nodeP2PIds), SignerMap(ns));
  }

  /** Without nodes there are no signers, and the second call is not made. */
  lemma ReadsEmptyDon(chain: Chain, env: Environment, addr: seq<Byte>, donID: nat, b: GoBytes, d: DonTuple)
    requires donID < 0x1_0000_0000 && HoldsDon(chain, env, addr, donID, b, d) && d.nodeP2PIds == []
    ensures DirectRead(chain, env, donID) == Done(DonInfo(WordToInt(d.f), map[]))
    ensures var qs := DirectRequests(chain, env, donID);
            |qs| == 1 && Calls(qs[0], EvmCapability(env.chainSelector), addr, GetDonData(donID))
  {
    DonIsRead(chain, env, addr, donID, b, d);
    FirstCalls(env, addr, donID);
    ReadBySteps(chain, env, addr, donID, Don(WordToInt(d.f), d.nodeP2PIds), map[]);
  }

  /** A fetch that misses the cache gives just that and stores it; one that hits gives the entry and asks nothing. */
  lemma FetchesDon(chain: Chain, entries: map<string, DonInfo>, env: Environment, addr: seq<Byte>, donID: nat,
                   b: GoBytes, d: DonTuple, bn: GoBytes, ns: seq<NodeTuple>)
    requires donID < 0x1_0000_0000 && HoldsDon(chain, env, addr, donID, b, d)
    requires d.nodeP2PIds != [] ==> HoldsNodes(chain, env, addr, d.nodeP2PIds, bn, ns)
    ensures var key := Decimal(env.chainSelector) + ":" + Decimal(donID);
            var info := if key in entries then entries[key]
                        else DonInfo(WordToInt(d.f), if d.nodeP2PIds == [] then map[] else SignerMap(ns));
            && Fetched(DirectReader(chain), entries, Fetch(env, donID)) == Done(info)
            && Stored(DirectReader(chain), entries, Fetch(env, donID)) == entries[key := info]
            && (key in entries ==> Requested(chain, entries, Fetch(env, donID)) == [])
  {
    DirectInfo(chain, env, addr, donID, b, d, bn, ns);
    FetchByRead(chain, entries, env, donID);
  }

  lemma DirectInfo(chain: Chain, env: Environment, addr: seq<Byte>, donID: nat, b: GoBytes, d: DonTuple, bn: GoBytes, ns: seq<NodeTuple>)
    requires donID < 0x1_0000_0000 && HoldsDon(chain, env, addr, donID, b, d)
    requires d.nodeP2PIds != [] ==> HoldsNodes(chain, env, addr, d.nodeP2PIds, bn, ns)
    ensures DirectRead(chain, env, donID) == Done(DonInfo(WordToInt(d.f), if d.nodeP2PIds == [] then map[] else SignerMap(ns)))
  {
    if d.nodeP2PIds == [] {
      ReadsEmptyDon(chain, env, addr, donID, b, d);
    } else {
      ReadsDon(chain, env, addr, donID, b, d, bn, ns);
    }
  }

  lemma FetchByRead(chain: Chain, entries: map<string, DonInfo>, env: Environment, donID: nat)
    requires DirectRead(chain, env, donID).Done?
    ensures var key := Decimal(env.chainSelector) + ":" + Decimal(donID);
            var info := if key in entries then entries[key] else DirectRead(chain, env, donID).value;
            && Fetched(DirectReader(chain), entries, Fetch(env, donID)) == Done(info)
            && Stored(DirectReader(chain), entries, Fetch(env, donID)) == entries[key := info]
            && (key in entries ==> Requested(chain, entries, Fetch(env, donID)) == [])
  {
  }

  // ----- What a failing read gives -----

  /** A registry address that is not hexadecimal is refused, and nothing is asked. */
  lemma NoAddressFails(chain: Chain, env: Environment, donID: nat)
    requires forall addr :: !AddressText(env.registryAddress, addr)
    ensures DirectRead(chain, env, donID) == Failed(BadRegistryAddress) && DirectRequests(chain, env, donID) == []
  {
    if RegistryAddress(env).Some? {
      AddressIff(env, RegistryAddress(env).value);
    }
  }

  /** The error for a call without a payload. */
  function CallErrorOf(reply: ChainReply): FetchError {
    match reply
    case CallError => CallFailed
    case ErrorResponse => CapabilityError
    case _ => UnexpectedResponse
  }

  lemma FirstCallFails(chain: Chain, env: Environment, addr: seq<Byte>, donID: nat, reply: ChainReply)
    requires donID < 0x1_0000_0000 && AddressText(env.registryAddress, addr) && !reply.Payload?
    requires AnswersWith(chain, EvmCapability(env.chainSelector), addr, GetDonData(donID), reply)
    ensures DirectRead(chain, env, donID) == Failed(CallErrorOf(reply))
  {
    AddressIff(env, addr);
    AddressFits(env);
    FirstCalls(env, addr, donID);
    assert chain(DonRequest(env, addr, donID)) == reply;
  }

  lemma SecondCallFails(chain: Chain, env: Environment, addr: seq<Byte>, donID: nat, b: GoBytes, d: DonTuple, reply: ChainReply)
    requires donID < 0x1_0000_0000 && HoldsDon(chain, env, addr, donID, b, d) && d.nodeP2PIds != [] && !reply.Payload?
    requires AnswersWith(chain, EvmCapability(env.chainSelector), addr, GetNodesData(d.nodeP2PIds), reply)
    ensures DirectRead(chain, env, donID) == Failed(CallErrorOf(reply))
  {
    DonIsRead(chain, env, addr, donID, b, d);
    SecondCalls(env, addr, d.nodeP2PIds);
    assert chain(NodesRequest(env, addr, d.nodeP2PIds)) == reply;
  }
}
