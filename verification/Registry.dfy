/** Reading a DON from the capabilities registry, and the process-wide cache of what was read
    (callContract and fetchDONInfo in cre/report_verification.go). */
module Registry {
  import opened Wrappers
  import opened Bytes
  import opened Replies
  import Abi
  import Wire

  datatype Environment = Environment(chainSelector: nat, registryAddress: GoString)

  datatype DonInfo = DonInfo(f: Int64, signers: Signers)

  datatype FetchError =
    | BadRegistryAddress
    | CallFailed          // the promise gave an error
    | CapabilityError     // the response carries an error
    | UnexpectedResponse
    | BadReply(wire: Wire.WireError)
    | BadAbi(abi: ReplyError)

  // ----- The chain behind the EVM capability -----

  datatype ChainRequest = ChainRequest(capID: string, payload: seq<Byte>)

  datatype ChainReply = CallError | ErrorResponse | Payload(bytes: GoBytes) | OtherResponse

  /** The chain answers a request always in the same way; nothing else is assumed about it. */
  type Chain = ChainRequest -> ChainReply

  function Interpret(reply: ChainReply): Result<GoBytes, FetchError> {
    match reply
    case CallError => Err(CallFailed)
    case ErrorResponse => Err(CapabilityError)
    case OtherResponse => Err(UnexpectedResponse)
    case Payload(bytes) =>
      match Wire.ReplyData(bytes)
      case Ok(v) => Ok(v)
      case Err(e) => Err(BadReply(e))
  }

  /** A runtime through which capability calls reach the chain. */
  class ChainRuntime {
    const chain: Chain
    var requests: seq<ChainRequest>

    constructor (chain: Chain)
      ensures this.chain == chain && requests == []
    {
      this.chain, requests := chain, [];
    }

    /** callContract. */
    method CallContract(capID: string, registryAddr: seq<Byte>, callData: seq<Byte>) returns (r: Result<GoBytes, FetchError>)
      modifies this
      ensures var q := ChainRequest(capID, Wire.CallContractRequest(registryAddr, callData));
              requests == old(requests) + [q] && r == Interpret(chain(q))
    {
      var reqBytes := Wire.BuildRequest(registryAddr, callData);
      var q := ChainRequest(capID, reqBytes);
      requests := requests + [q];
      match chain(q)
      case CallError => r := Err(CallFailed);
      case ErrorResponse => r := Err(CapabilityError);
      case OtherResponse => r := Err(UnexpectedResponse);
      case Payload(bytes) =>
        var data := Wire.DecodeCallContractReplyData(bytes);
        r := if data.Ok? then Ok(data.value) else Err(BadReply(data.error));
    }
  }

  // ----- The direct read -----

  function TrimPrefix(s: string, prefix: string): string {
    if prefix <= s then s[|prefix|..] else s
  }

  function RegistryAddress(env: Environment): Option<seq<Byte>> {
    DecodeHex(TrimPrefix(TrimPrefix(env.registryAddress, "0x"), "0X"))
  }

  function CapID(env: Environment): string {
    "evm:ChainSelector:" + Decimal(env.chainSelector) + "@1.0.0"
  }

  function DonRequest(env: Environment, addr: seq<Byte>, donID: nat): ChainRequest {
    ChainRequest(CapID(env), Wire.CallContractRequest(addr, GetDonCall(donID)))
  }

  /** The data of the second call: its selector and the ABI encoding of exactly the ids just read. */
  function GetNodesCall(ids: seq<Word>): seq<Byte> {
    [0x05, 0xa5, 0x19, 0x66] + Abi.Enc(Abi.Tuple([Abi.Array(Abi.Statics(ids))]))
  }

  function NodesRequest(env: Environment, addr: seq<Byte>, ids: seq<Word>): ChainRequest {
    ChainRequest(CapID(env), Wire.CallContractRequest(addr, GetNodesCall(ids)))
  }

  /** Decoding under a reply that may be an error. */
  function Decoded<T>(reply: Result<GoBytes, FetchError>, decode: GoBytes -> Outcome<T, ReplyError>): Outcome<T, FetchError> {
    match reply
    case Err(e) => Failed(e)
    case Ok(b) =>
      match decode(b)
      case Done(v) => Done(v)
      case Failed(e) => Failed(BadAbi(e))
      case Panicked => Panicked
  }

  function ReadDon(chain: Chain, env: Environment, addr: seq<Byte>, donID: nat): Outcome<Don, FetchError> {
    Decoded(Interpret(chain(DonRequest(env, addr, donID))), DecodeDon)
  }

  /** What the two on-chain lookups give, without any cache. */
  function DirectRead(chain: Chain, env: Environment, donID: nat): Outcome<DonInfo, FetchError> {
    match RegistryAddress(env)
    case None => Failed(BadRegistryAddress)
    case Some(addr) =>
      match ReadDon(chain, env, addr, donID)
      case Failed(e) => Failed(e)
      case Panicked => Panicked
      case Done(don) =>
        if don.nodeP2PIds == [] then Done(DonInfo(don.f, map[]))
        else
          match Decoded(Interpret(chain(NodesRequest(env, addr, don.nodeP2PIds))), DecodeNodes)
          case Failed(e) => Failed(e)
          case Panicked => Panicked
          case Done(signers) => Done(DonInfo(don.f, signers))
  }

  /** The requests of a direct reader, in order. */
  function DirectRequests(chain: Chain, env: Environment, donID: nat): (qs: seq<ChainRequest>)
    ensures |qs| <= 2
  {
    match RegistryAddress(env)
    case None => []
    case Some(addr) =>
      var first := DonRequest(env, addr, donID);
      match ReadDon(chain, env, addr, donID)
      case Done(don) => if don.nodeP2PIds == [] then [first] else [first, NodesRequest(env, addr, don.nodeP2PIds)]
      case _ => [first]
  }

  // ----- The cache -----

  function CacheKey(env: Environment, donID: nat): string {
    Decimal(env.chainSelector) + ":" + Decimal(donID)
  }

  class KeyCache {
    var entries: map<string, DonInfo>

    constructor ()
      ensures entries == map[]
    {
      entries := map[];
    }
  }

  /** One fetch: an environment and a DON. */
  datatype Fetch = Fetch(env: Environment, donID: nat)
  {
    function Key(): string { CacheKey(env, donID) }
  }

  /** A way to name and to read a DON; the cache works the same over any. */
  datatype Reader = Reader(key: Fetch -> string, read: Fetch -> Outcome<DonInfo, FetchError>)

  /** Reading under the keys of the code. */
  function Keyed(read: Fetch -> Outcome<DonInfo, FetchError>): Reader {
    Reader((f: Fetch) => f.Key(), read)
  }

  function DirectReader(chain: Chain): Reader { Keyed((f: Fetch) => DirectRead(chain, f.env, f.donID)) }

  function Fetched(reader: Reader, entries: map<string, DonInfo>, f: Fetch): Outcome<DonInfo, FetchError> {
    if reader.key(f) in entries then Done(entries[reader.key(f)]) else reader.read(f)
  }

  /** Only a successful read is stored. */
  function Stored(reader: Reader, entries: map<string, DonInfo>, f: Fetch): map<string, DonInfo> {
    var r := Fetched(reader, entries, f);
    if r.Done? then entries[reader.key(f) := r.value] else entries
  }

  function Requested(chain: Chain, entries: map<string, DonInfo>, f: Fetch): seq<ChainRequest> {
    if f.Key() in entries then [] else DirectRequests(chain, f.env, f.donID)
  }

  /** fetchDONInfo. */
  method FetchDONInfo(rt: ChainRuntime, cache: KeyCache, env: Environment, donID: nat) returns (r: Outcome<DonInfo, FetchError>)
    requires donID < 0x1_0000_0000
    modifies rt, cache
    ensures r == Fetched(DirectReader(rt.chain), old(cache.entries), Fetch(env, donID))
    ensures cache.entries == Stored(DirectReader(rt.chain), old(cache.entries), Fetch(env, donID))
    ensures rt.requests == old(rt.requests) + Requested(rt.chain, old(cache.entries), Fetch(env, donID))
  {
    var cacheKey := Decimal(env.chainSelector) + ":" + Decimal(donID);
    if cacheKey in cache.entries {
      assert cache.entries[cacheKey := cache.entries[cacheKey]] == cache.entries;
      return Done(cache.entries[cacheKey]);
    }
    r := ReadRegistry(rt, env, donID);
    if r.Done? {
      cache.entries := cache.entries[cacheKey := r.value];
    }
  }

  /** The part of fetchDONInfo behind the cache. */
  method ReadRegistry(rt: ChainRuntime, env: Environment, donID: nat) returns (r: Outcome<DonInfo, FetchError>)
    requires donID < 0x1_0000_0000
    modifies rt
    ensures r == DirectRead(rt.chain, env, donID)
    ensures rt.requests == old(rt.requests) + DirectRequests(rt.chain, env, donID)
  {
    var registryAddr := DecodeHex(TrimPrefix(TrimPrefix(env.registryAddress, "0x"), "0X"));
    if registryAddr.None? {
      return Failed(BadRegistryAddress);
    }
    var capID := "evm:ChainSelector:" + Decimal(env.chainSelector) + "@1.0.0";
    var getDONABI := rt.CallContract(capID, registryAddr.value, GetDonCall(donID));
    if getDONABI.Err? {
      return Failed(getDONABI.error);
    }
    var don := DecodeDonReply(getDONABI.value);
    if don.Panicked? {
      return Panicked;
    } else if don.Failed? {
      return Failed(BadAbi(don.error));
    }
    var ids := don.value.nodeP2PIds;
    if |ids| == 0 {
      return Done(DonInfo(don.value.f, map[]));
    }
    IdsFit(getDONABI.value);
    var getNodesCallData := EncodeNodesCall(ids);
    var getNodesABI := rt.CallContract(capID, registryAddr.value, getNodesCallData);
    if getNodesABI.Err? {
      return Failed(getNodesABI.error);
    }
    var signers, _ := DecodeNodesReply(getNodesABI.value);
    if signers.Panicked? {
      return Panicked;
    } else if signers.Failed? {
      return Failed(BadAbi(signers.error));
    }
    return Done(DonInfo(don.value.f, signers.value));
  }

  lemma IdsFit(b: GoBytes)
    requires DecodeDon(b).Done?
    ensures |DecodeDon(b).value.nodeP2PIds| < TWO_63
  {
  }

  // ----- The cache key tells DONs apart -----

  lemma {:induction false} SplitAtColon(a: string, b: string, c: string, d: string)
    requires ':' !in a && ':' !in c && a + ":" + b == c + ":" + d
    ensures a == c && b == d
    decreases |a|
  {
    var s, t := a + ":" + b, c + ":" + d;
    assert s[0] == (if a == "" then ':' else a[0]) && t[0] == (if c == "" then ':' else c[0]);
    if a != "" && c != "" {
      assert s[1..] == a[1..] + ":" + b && t[1..] == c[1..] + ":" + d;
      SplitAtColon(a[1..], b, c[1..], d);
    }
    assert s[|a| + 1..] == b && t[|c| + 1..] == d;
  }

  /** Two fetches share an entry exactly when they ask for the same chain selector and DON. */
  lemma CacheKeyInjective(e1: Environment, d1: nat, e2: Environment, d2: nat)
    ensures CacheKey(e1, d1) == CacheKey(e2, d2) <==> e1.chainSelector == e2.chainSelector && d1 == d2
  {
    if CacheKey(e1, d1) == CacheKey(e2, d2) {
      DecimalDigits(e1.chainSelector);
      DecimalDigits(e2.chainSelector);
      SplitAtColon(Decimal(e1.chainSelector), Decimal(d1), Decimal(e2.chainSelector), Decimal(d2));
      DecimalInverse(e1.chainSelector);
      DecimalInverse(e2.chainSelector);
      DecimalInverse(d1);
      DecimalInverse(d2);
    }
  }

  // ----- Whole runs of fetches -----

  /** The cache after the first n fetches, from an empty one. */
  function CacheAfter(reader: Reader, run: seq<Fetch>, n: nat): map<string, DonInfo>
    requires n <= |run|
  {
    if n == 0 then map[] else Stored(reader, CacheAfter(reader, run, n - 1), run[n - 1])
  }

  function ResultAt(reader: Reader, run: seq<Fetch>, i: nat): Outcome<DonInfo, FetchError>
    requires i < |run|
  {
    Fetched(reader, CacheAfter(reader, run, i), run[i])
  }

  /** Fetch i is answered from the cache. */
  predicate Hit(reader: Reader, run: seq<Fetch>, i: nat)
    requires i < |run|
  {
    reader.key(run[i]) in CacheAfter(reader, run, i)
  }

  function RequestsAt(chain: Chain, run: seq<Fetch>, i: nat): seq<ChainRequest>
    requires i < |run|
  {
    Requested(chain, CacheAfter(DirectReader(chain), run, i), run[i])
  }

  /** Fetch j is the first one with the given key that reads successfully. */
  predicate Fills(reader: Reader, run: seq<Fetch>, j: nat, key: string)
    requires j < |run|
  {
    reader.key(run[j]) == key && reader.read(run[j]).Done? && NotFilled(reader, run, j, key)
  }

  predicate NotFilled(reader: Reader, run: seq<Fetch>, n: nat, key: string)
    requires n <= |run|
  {
    forall i | 0 <= i < n && reader.key(run[i]) == key :: !reader.read(run[i]).Done?
  }

  /** A key is in the cache exactly when some fetch has filled it, and the entry is what that fetch read. */
  lemma {:induction false} EntryOf(reader: Reader, run: seq<Fetch>, n: nat, key: string) returns (j: nat)
    requires n <= |run|
    ensures var entries := CacheAfter(reader, run, n);
            if key in entries then j < n && Fills(reader, run, j, key) && reader.read(run[j]) == Done(entries[key])
            else NotFilled(reader, run, n, key)
  {
    j := 0;
    if n > 0 {
      j := EntryOf(reader, run, n - 1, key);
      if key !in CacheAfter(reader, run, n - 1) && reader.key(run[n - 1]) == key && reader.read(run[n - 1]).Done? {
        j := n - 1;
      }
    }
  }

  /** Any fetch of any run gives the read of the first successful fetch for its chain selector and DON,
      or its own read when there was none before. */
  lemma FetchGivesFirstRead(reader: Reader, run: seq<Fetch>, i: nat) returns (j: nat)
    requires i < |run|
    ensures if Hit(reader, run, i) then j < i && Fills(reader, run, j, reader.key(run[i])) && ResultAt(reader, run, i) == reader.read(run[j])
            else NotFilled(reader, run, i, reader.key(run[i])) && ResultAt(reader, run, i) == reader.read(run[i])
  {
    j := EntryOf(reader, run, i, reader.key(run[i]));
  }

  // ----- When the cache is invisible -----

  lemma CacheRefinesRead(reader: Reader, run: seq<Fetch>, i: nat)
    requires i < |run| && forall j | 0 <= j < i && reader.key(run[j]) == reader.key(run[i]) :: run[j] == run[i]
    ensures ResultAt(reader, run, i) == reader.read(run[i])
  {
    var j := FetchGivesFirstRead(reader, run, i);
  }

  /** Once a fetch has read successfully, later fetches under its key succeed. */
  lemma FilledSucceeds(reader: Reader, run: seq<Fetch>, i: nat, j: nat)
    requires j < i < |run| && reader.key(run[j]) == reader.key(run[i]) && reader.read(run[j]).Done?
    ensures ResultAt(reader, run, i).Done?
  {
    var k := FetchGivesFirstRead(reader, run, i);
  }

  /** Two fetches are for the same chain and DON. */
  predicate SameDon(f: Fetch, g: Fetch) {
    f.env.chainSelector == g.env.chainSelector && f.donID == g.donID
  }

  /** The earlier fetches for the chain and DON of fetch i were the same fetch. */
  predicate SameFetchBefore(run: seq<Fetch>, i: nat)
    requires i < |run|
  {
    forall j | 0 <= j < i && SameDon(run[j], run[i]) :: run[j] == run[i]
  }

  lemma KeyIsDon(f: Fetch, g: Fetch)
    ensures f.Key() == g.Key() <==> SameDon(f, g)
  {
    CacheKeyInjective(f.env, f.donID, g.env, g.donID);
  }

  /** A way to read that succeeds for one fetch only. */
  function OnlyReads(f: Fetch): Fetch -> Outcome<DonInfo, FetchError> {
    (g: Fetch) => if g == f then Done(DonInfo(0, map[])) else Failed(CallFailed)
  }

  /** Whatever reading gives, a fetch gives its own read: exactly when the earlier fetches for its chain and DON
      were the same fetch. */
  lemma OwnReadIff(run: seq<Fetch>, i: nat)
    requires i < |run|
    ensures (forall read: Fetch -> Outcome<DonInfo, FetchError> :: ResultAt(Keyed(read), run, i) == read(run[i]))
            <==> SameFetchBefore(run, i)
  {
    if SameFetchBefore(run, i) {
      forall read: Fetch -> Outcome<DonInfo, FetchError> ensures ResultAt(Keyed(read), run, i) == read(run[i]) {
        forall j | 0 <= j < i && run[j].Key() == run[i].Key() ensures run[j] == run[i] {
          KeyIsDon(run[j], run[i]);
        }
        CacheRefinesRead(Keyed(read), run, i);
      }
    } else {
      var j :| 0 <= j < i && SameDon(run[j], run[i]) && run[j] != run[i];
      KeyIsDon(run[j], run[i]);
      FilledSucceeds(Keyed(OnlyReads(run[j])), run, i, j);
      assert OnlyReads(run[j])(run[i]).Failed?;
    }
  }

  /** The earlier fetches for the chain and DON of fetch i went to the same registry address, or to one that is not
      hexadecimal. */
  predicate SameRegistryBefore(run: seq<Fetch>, i: nat)
    requires i < |run|
  {
    forall j | 0 <= j < i && SameDon(run[j], run[i]) && RegistryAddress(run[j].env).Some? ::
      RegistryAddress(run[j].env) == RegistryAddress(run[i].env)
  }

  /** A direct read depends on the chain selector, the registry address as bytes and the DON. */
  lemma SameRegistrySameRead(chain: Chain, d: Environment, e: Environment, donID: nat)
    requires d.chainSelector == e.chainSelector && RegistryAddress(d) == RegistryAddress(e)
    ensures DirectRead(chain, d, donID) == DirectRead(chain, e, donID)
  {
    assert CapID(d) == CapID(e);
    if RegistryAddress(d).Some? {
      var addr := RegistryAddress(d).value;
      assert ReadDon(chain, d, addr, donID) == ReadDon(chain, e, addr, donID);
    }
  }

  /** A fetch gives its direct read when the earlier fetches under its key went to the same registry. */
  lemma {:induction false} CacheRefinesDirectRead(chain: Chain, run: seq<Fetch>, i: nat)
    requires i < |run| && SameRegistryBefore(run, i)
    ensures ResultAt(DirectReader(chain), run, i) == DirectRead(chain, run[i].env, run[i].donID)
  {
    var j := FetchGivesFirstRead(DirectReader(chain), run, i);
    if Hit(DirectReader(chain), run, i) {
      ReadNeedsAddress(chain, run[j].env, run[j].donID);
      KeyIsDon(run[j], run[i]);
      SameRegistrySameRead(chain, run[j].env, run[i].env, run[i].donID);
    }
  }

  lemma ReadNeedsAddress(chain: Chain, env: Environment, donID: nat)
    requires DirectRead(chain, env, donID).Done?
    ensures RegistryAddress(env).Some?
  {
  }

  // ----- A chain on which two registries disagree -----

  /** The reply for a DON without nodes. */
  function EmptyDon(): seq<Byte> { seq(224, _ => 0) }

  function EmptyDonReply(): (b: GoBytes) {
    EmptyReplyFits();
    Wire.BytesRecord(1, EmptyDon()).Ser()
  }

  lemma EmptyReplyFits()
    ensures |Wire.BytesRecord(1, EmptyDon()).Ser()| <= MAX_ALLOC
  {
    Wire.AppendVarintIsVarint(8 * 1 + Wire.BYTES);
    Wire.AppendVarintIsVarint(|EmptyDon()|);
  }

  lemma EmptyReplyReads()
    ensures Interpret(Payload(EmptyDonReply())) == Ok(EmptyDon())
  {
    var rec := Wire.BytesRecord(1, EmptyDon());
    Wire.BytesRecordValid(1, EmptyDon());
    Wire.ReplyDataRecord(rec, []);
    assert rec.Ser() + [] == rec.Ser();
  }

  lemma EmptyDonDecodes()
    ensures DecodeDon(EmptyDon()).Done? && DecodeDon(EmptyDon()).value.nodeP2PIds == []
  {
    assert Abi.WordAt(EmptyDon(), 192) == ZeroWord() && Abi.WordAt(EmptyDon(), 32) == ZeroWord();
    DecodeDonZeros(EmptyDon());
  }

  /** A chain that knows one DON of one registry. */
  function OneDonChain(q: ChainRequest): Chain {
    (r: ChainRequest) => if r == q then Payload(EmptyDonReply()) else CallError
  }

  lemma KnownDonReads(env: Environment, addr: seq<Byte>, donID: nat)
    requires RegistryAddress(env) == Some(addr)
    ensures DirectRead(OneDonChain(DonRequest(env, addr, donID)), env, donID).Done?
  {
    EmptyReplyReads();
    EmptyDonDecodes();
  }

  lemma AddressFits(env: Environment)
    ensures RegistryAddress(env).Some? ==> |RegistryAddress(env).value| <= MAX_ALLOC
  {
    DecodeHexLength(TrimPrefix(TrimPrefix(env.registryAddress, "0x"), "0X"));
  }

  lemma RequestsDiffer(a: GoBytes, b: GoBytes, data: GoBytes)
    requires a != b
    ensures Wire.CallContractRequest(a, data) != Wire.CallContractRequest(b, data)
  {
    Wire.RequestRoundTrip(a, data);
    Wire.RequestRoundTrip(b, data);
  }

  lemma OtherRegistryFails(q: ChainRequest, env: Environment, donID: nat)
    requires RegistryAddress(env).Some? ==> DonRequest(env, RegistryAddress(env).value, donID) != q
    ensures DirectRead(OneDonChain(q), env, donID).Failed?
  {
  }

  /** With two registries on one chain, the second fetch of a DON succeeds with what the first registry said,
      though its own registry knows no such DON. */
  lemma {:induction false} StaleAcrossRegistries(first: Environment, second: Environment, addr: seq<Byte>, donID: nat)
    requires first.chainSelector == second.chainSelector
    requires RegistryAddress(first) == Some(addr) && RegistryAddress(second) != Some(addr)
    ensures var chain := OneDonChain(DonRequest(first, addr, donID));
            && DirectRead(chain, first, donID).Done? && DirectRead(chain, second, donID).Failed?
            && forall run: seq<Fetch>, j, i | 0 <= j < i < |run| && run[j] == Fetch(first, donID) && run[i] == Fetch(second, donID) ::
                 ResultAt(DirectReader(chain), run, i).Done?
  {
    var chain := OneDonChain(DonRequest(first, addr, donID));
    KnownDonReads(first, addr, donID);
    AddressFits(first);
    AddressFits(second);
    if RegistryAddress(second).Some? {
      RequestsDiffer(addr, RegistryAddress(second).value, GetDonCall(donID));
    }
    OtherRegistryFails(DonRequest(first, addr, donID), second, donID);
    KeyIsDon(Fetch(first, donID), Fetch(second, donID));
    forall run: seq<Fetch>, j, i | 0 <= j < i < |run| && run[j] == Fetch(first, donID) && run[i] == Fetch(second, donID)
      ensures ResultAt(DirectReader(chain), run, i).Done?
    {
      FilledSucceeds(DirectReader(chain), run, i, j);
    }
  }

  /** On whatever chain, a fetch gives its direct read: exactly when the earlier fetches under its key went to the
      same registry. */
  lemma {:induction false} OwnDirectReadIff(run: seq<Fetch>, i: nat)
    requires i < |run|
    ensures (forall chain: Chain :: ResultAt(DirectReader(chain), run, i) == DirectRead(chain, run[i].env, run[i].donID))
            <==> SameRegistryBefore(run, i)
  {
    if SameRegistryBefore(run, i) {
      forall chain: Chain ensures ResultAt(DirectReader(chain), run, i) == DirectRead(chain, run[i].env, run[i].donID) {
        CacheRefinesDirectRead(chain, run, i);
      }
    } else {
      var j :| 0 <= j < i && SameDon(run[j], run[i]) && RegistryAddress(run[j].env).Some?
               && RegistryAddress(run[j].env) != RegistryAddress(run[i].env);
      var addr, donID := RegistryAddress(run[j].env).value, run[i].donID;
      StaleAcrossRegistries(run[j].env, run[i].env, addr, donID);
      assert run[j] == Fetch(run[j].env, donID) && run[i] == Fetch(run[i].env, donID);
      assert ResultAt(DirectReader(OneDonChain(DonRequest(run[j].env, addr, donID))), run, i).Done?;
    }
  }

  lemma {:induction false} EntryStays(reader: Reader, run: seq<Fetch>, m: nat, n: nat, key: string)
    requires m <= n <= |run| && key in CacheAfter(reader, run, m)
    ensures key in CacheAfter(reader, run, n) && CacheAfter(reader, run, n)[key] == CacheAfter(reader, run, m)[key]
    decreases n
  {
    if m < n {
      EntryStays(reader, run, m, n - 1, key);
    }
  }

  /** A key once filled gives the same from then on. */
  lemma HitStays(reader: Reader, run: seq<Fetch>, i: nat, k: nat)
    requires i < k < |run| && reader.key(run[i]) == reader.key(run[k]) && ResultAt(reader, run, i).Done?
    ensures Hit(reader, run, k) && ResultAt(reader, run, k) == ResultAt(reader, run, i)
  {
    EntryStays(reader, run, i + 1, k, reader.key(run[k]));
  }

  /** A key is filled by at most two chain calls, and once filled it costs no call any more. */
  lemma AtMostTwoCallsPerKey(chain: Chain, run: seq<Fetch>, i: nat, k: nat)
    requires i < k < |run| && run[i].Key() == run[k].Key() && ResultAt(DirectReader(chain), run, i).Done?
    ensures |RequestsAt(chain, run, i)| <= 2 && RequestsAt(chain, run, k) == []
    ensures ResultAt(DirectReader(chain), run, k) == ResultAt(DirectReader(chain), run, i)
  {
    HitStays(DirectReader(chain), run, i, k);
  }
}
