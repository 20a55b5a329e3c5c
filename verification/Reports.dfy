/** Reports: the cached header, and verification against the accepted environments
    (cre/report.go, cre/report_fields.go and cre/report_verification.go). */
module Reports {
  import opened Wrappers
  import opened Bytes
  import opened ReportHeader
  import opened Quorum
  import opened Registry

  datatype Zone = Zone(env: Environment, donID: nat)

  datatype ReportParseConfig = ReportParseConfig(
    acceptedZones: seq<Zone>,
    acceptedEnvironments: seq<Environment>,
    skipSignatureVerification: bool)

  datatype VerificationError =
    | BadHeader(header: HeaderError)
    | NotAccepted
    | ReadFailures(failures: seq<FetchError>)
    | SignatureFailure(quorum: QuorumError)

  // ----- Candidates and attempts -----

  /** The environments of the zones with the given DON, in order. */
  function MatchingZones(zones: seq<Zone>, donID: nat): seq<Environment> {
    if zones == [] then []
    else
      var last := zones[|zones| - 1];
      MatchingZones(zones[..|zones| - 1], donID) + if last.donID == donID then [last.env] else []
  }

  function Candidates(config: ReportParseConfig, donID: nat): seq<Environment> {
    MatchingZones(config.acceptedZones, donID) + config.acceptedEnvironments
  }

  // ----- The places of a configuration -----

  /** A place where a DON may be accepted: a zone or an environment of the configuration. */
  datatype Place = InZone(i: nat) | InEnvironment(i: nat)

  /** A zone counts when it is for the DON; an environment counts for every DON. */
  predicate Eligible(config: ReportParseConfig, donID: nat, p: Place) {
    match p
    case InZone(i) => i < |config.acceptedZones| && config.acceptedZones[i].donID == donID
    case InEnvironment(i) => i < |config.acceptedEnvironments|
  }

  function EnvOf(config: ReportParseConfig, donID: nat, p: Place): Environment
    requires Eligible(config, donID, p)
  {
    match p
    case InZone(i) => config.acceptedZones[i].env
    case InEnvironment(i) => config.acceptedEnvironments[i]
  }

  /** Zones come before environments, each in the order of the configuration. */
  predicate Before(p: Place, q: Place) {
    match (p, q)
    case (InZone(i), InZone(j)) => i < j
    case (InZone(_), InEnvironment(_)) => true
    case (InEnvironment(_), InZone(_)) => false
    case (InEnvironment(i), InEnvironment(j)) => i < j
  }

  /** The places are listed completely and in order, and `envs` are their environments. */
  ghost predicate ListsPlaces(config: ReportParseConfig, donID: nat, places: seq<Place>, envs: seq<Environment>) {
    && |places| == |envs|
    && (forall j | 0 <= j < |places| :: Eligible(config, donID, places[j]) && envs[j] == EnvOf(config, donID, places[j]))
    && (forall i, j | 0 <= i < j < |places| :: Before(places[i], places[j]))
    && (forall p | Eligible(config, donID, p) :: p in places)
  }

  function ZonesFor(zones: seq<Zone>, donID: nat, n: nat): (ks: seq<nat>)
    requires n <= |zones|
    ensures forall j | 0 <= j < |ks| :: ks[j] < n && zones[ks[j]].donID == donID
    ensures forall i, j | 0 <= i < j < |ks| :: ks[i] < ks[j]
    ensures forall k | 0 <= k < n && zones[k].donID == donID :: k in ks
  {
    if n == 0 then [] else ZonesFor(zones, donID, n - 1) + if zones[n - 1].donID == donID then [n - 1] else []
  }

  lemma {:induction false} MatchingIsListed(zones: seq<Zone>, donID: nat, n: nat)
    requires n <= |zones|
    ensures |MatchingZones(zones[..n], donID)| == |ZonesFor(zones, donID, n)|
    ensures forall j | 0 <= j < |ZonesFor(zones, donID, n)| ::
              MatchingZones(zones[..n], donID)[j] == zones[ZonesFor(zones, donID, n)[j]].env
  {
    if n > 0 {
      MatchingIsListed(zones, donID, n - 1);
      assert zones[..n][..n - 1] == zones[..n - 1];
    }
  }

  /** All places for the DON, by the indices of its zones. */
  function PlacesOf(ks: seq<nat>, n: nat): (places: seq<Place>)
    ensures |places| == |ks| + n
    ensures forall j | 0 <= j < |ks| :: places[j] == InZone(ks[j])
    ensures forall j | |ks| <= j < |ks| + n :: places[j] == InEnvironment(j - |ks|)
  {
    seq(|ks| + n, j requires 0 <= j < |ks| + n => if j < |ks| then InZone(ks[j]) else InEnvironment(j - |ks|))
  }

  lemma AllPlacesListed(config: ReportParseConfig, donID: nat, p: Place)
    requires Eligible(config, donID, p)
    ensures p in PlacesOf(ZonesFor(config.acceptedZones, donID, |config.acceptedZones|), |config.acceptedEnvironments|)
  {
    var ks := ZonesFor(config.acceptedZones, donID, |config.acceptedZones|);
    var places := PlacesOf(ks, |config.acceptedEnvironments|);
    match p
    case InZone(i) =>
      var j :| 0 <= j < |ks| && ks[j] == i;
      assert places[j] == p;
    case InEnvironment(i) => assert places[|ks| + i] == p;
  }

  lemma CandidatesListed(config: ReportParseConfig, donID: nat)
    ensures var ks := ZonesFor(config.acceptedZones, donID, |config.acceptedZones|);
            var envs := Candidates(config, donID);
            && |envs| == |ks| + |config.acceptedEnvironments|
            && (forall j | 0 <= j < |ks| :: envs[j] == config.acceptedZones[ks[j]].env)
            && (forall j | |ks| <= j < |envs| :: envs[j] == config.acceptedEnvironments[j - |ks|])
  {
    MatchingIsListed(config.acceptedZones, donID, |config.acceptedZones|);
    assert config.acceptedZones[..|config.acceptedZones|] == config.acceptedZones;
  }

  lemma PlacesFit(config: ReportParseConfig, donID: nat, j: nat)
    requires j < |Candidates(config, donID)|
    ensures var places := PlacesOf(ZonesFor(config.acceptedZones, donID, |config.acceptedZones|), |config.acceptedEnvironments|);
            && |places| == |Candidates(config, donID)|
            && Eligible(config, donID, places[j]) && Candidates(config, donID)[j] == EnvOf(config, donID, places[j])
  {
    CandidatesListed(config, donID);
  }

  lemma PlacesSorted(ks: seq<nat>, n: nat, i: nat, j: nat)
    requires (forall a, b | 0 <= a < b < |ks| :: ks[a] < ks[b]) && i < j < |ks| + n
    ensures Before(PlacesOf(ks, n)[i], PlacesOf(ks, n)[j])
  {
  }

  /** What the code tries: the matching zones and then the accepted environments, no more and no less. */
  lemma PlacesInOrder(config: ReportParseConfig, donID: nat) returns (places: seq<Place>)
    ensures ListsPlaces(config, donID, places, Candidates(config, donID))
  {
    var ks, n := ZonesFor(config.acceptedZones, donID, |config.acceptedZones|), |config.acceptedEnvironments|;
    places := PlacesOf(ks, n);
    CandidatesListed(config, donID);
    forall j | 0 <= j < |places|
      ensures Eligible(config, donID, places[j]) && Candidates(config, donID)[j] == EnvOf(config, donID, places[j])
    {
      PlacesFit(config, donID, j);
    }
    forall i, j | 0 <= i < j < |places| ensures Before(places[i], places[j]) {
      PlacesSorted(ks, n, i, j);
    }
    forall p | Eligible(config, donID, p) ensures p in places {
      AllPlacesListed(config, donID, p);
    }
  }

  /** The cache when candidate i is tried. */
  function EntriesAt(reader: Reader, entries: map<string, DonInfo>, envs: seq<Environment>, donID: nat, i: nat): map<string, DonInfo>
    requires i <= |envs|
  {
    if i == 0 then entries
    else Stored(reader, EntriesAt(reader, entries, envs, donID, i - 1), Fetch(envs[i - 1], donID))
  }

  datatype Attempt = Unreadable(error: FetchError) | Rejected(quorum: QuorumError) | Accepted(info: DonInfo) | Crashed

  /** What trying one DON gives for signatures that recover to `rs`. */
  function Try(fetched: Outcome<DonInfo, FetchError>, rs: seq<Recovery>): Attempt {
    match fetched
    case Failed(e) => Unreadable(e)
    case Panicked => Crashed
    case Done(info) =>
      match Verdict(rs, info.signers, info.f)
      case Done(_) => Accepted(info)
      case Failed(e) => Rejected(e)
      case Panicked => Crashed
  }

  /** All attempts, were none to stop the loop. */
  function Attempts(reader: Reader, entries: map<string, DonInfo>, envs: seq<Environment>, donID: nat, rs: seq<Recovery>): (as_: seq<Attempt>)
    ensures |as_| == |envs|
  {
    seq(|envs|, i requires 0 <= i < |envs| =>
      Try(Fetched(reader, EntriesAt(reader, entries, envs, donID, i), Fetch(envs[i], donID)), rs))
  }

  /** Attempts that let the loop go on. */
  predicate Inconclusive(attempts: seq<Attempt>, n: nat)
    requires n <= |attempts|
  {
    forall i | 0 <= i < n :: attempts[i].Unreadable? || attempts[i].Rejected?
  }

  function ReadErrors(attempts: seq<Attempt>, n: nat): seq<FetchError>
    requires n <= |attempts|
  {
    if n == 0 then []
    else ReadErrors(attempts, n - 1) + if attempts[n - 1].Unreadable? then [attempts[n - 1].error] else []
  }

  function LastRejection(attempts: seq<Attempt>, n: nat): Option<QuorumError>
    requires n <= |attempts|
  {
    if n == 0 then None
    else if attempts[n - 1].Rejected? then Some(attempts[n - 1].quorum) else LastRejection(attempts, n - 1)
  }

  /** The conclusion at attempt n when all before it were inconclusive. The value is the deciding attempt. */
  function Conclude(attempts: seq<Attempt>, n: nat): Outcome<nat, VerificationError>
    requires n <= |attempts|
    decreases |attempts| - n
  {
    if n == |attempts| then
      if ReadErrors(attempts, n) != [] then Failed(ReadFailures(ReadErrors(attempts, n)))
      else match LastRejection(attempts, n)
        case Some(e) => Failed(SignatureFailure(e))
        case None => Failed(NotAccepted)
    else match attempts[n]
      case Accepted(_) => Done(n)
      case Crashed => Panicked
      case _ => Conclude(attempts, n + 1)
  }

  /** How many candidates are tried, from candidate n on: up to the first conclusive one. */
  function Tried(attempts: seq<Attempt>, n: nat): (k: nat)
    requires n <= |attempts|
    ensures n <= k <= |attempts|
    decreases |attempts| - n
  {
    if n == |attempts| then n
    else if attempts[n].Accepted? || attempts[n].Crashed? then n + 1
    else Tried(attempts, n + 1)
  }

  /** The chain requests of the first k candidates. */
  function RequestsUpTo(chain: Chain, entries: map<string, DonInfo>, envs: seq<Environment>, donID: nat, k: nat): seq<ChainRequest>
    requires k <= |envs|
  {
    if k == 0 then []
    else RequestsUpTo(chain, entries, envs, donID, k - 1) +
         Requested(chain, EntriesAt(DirectReader(chain), entries, envs, donID, k - 1), Fetch(envs[k - 1], donID))
  }

  /** The request is one that reading the DON at some place of the configuration makes. */
  ghost predicate AskedFor(chain: Chain, config: ReportParseConfig, donID: nat, q: ChainRequest) {
    exists p :: Eligible(config, donID, p) && q in DirectRequests(chain, EnvOf(config, donID, p), donID)
  }

  lemma {:induction false} RequestsOfCandidates(chain: Chain, entries: map<string, DonInfo>, envs: seq<Environment>, donID: nat, k: nat, i: nat)
    returns (j: nat)
    requires k <= |envs| && i < |RequestsUpTo(chain, entries, envs, donID, k)|
    ensures j < k && RequestsUpTo(chain, entries, envs, donID, k)[i] in DirectRequests(chain, envs[j], donID)
    decreases k
  {
    var before := RequestsUpTo(chain, entries, envs, donID, k - 1);
    var asked := Requested(chain, EntriesAt(DirectReader(chain), entries, envs, donID, k - 1), Fetch(envs[k - 1], donID));
    assert RequestsUpTo(chain, entries, envs, donID, k) == before + asked;
    if i < |before| {
      j := RequestsOfCandidates(chain, entries, envs, donID, k - 1, i);
    } else {
      j := k - 1;
      assert asked[i - |before|] in asked && asked == DirectRequests(chain, envs[k - 1], donID);
    }
  }

  lemma RequestsAreForPlaces(chain: Chain, entries: map<string, DonInfo>, config: ReportParseConfig, donID: nat, k: nat)
    requires k <= |Candidates(config, donID)|
    ensures var qs := RequestsUpTo(chain, entries, Candidates(config, donID), donID, k);
            forall i | 0 <= i < |qs| :: AskedFor(chain, config, donID, qs[i])
  {
    var envs := Candidates(config, donID);
    var qs := RequestsUpTo(chain, entries, envs, donID, k);
    var places := PlacesInOrder(config, donID);
    forall i | 0 <= i < |qs| ensures AskedFor(chain, config, donID, qs[i]) {
      var j := RequestsOfCandidates(chain, entries, envs, donID, k, i);
      assert qs[i] in DirectRequests(chain, EnvOf(config, donID, places[j]), donID);
    }
  }

  /** The environments to try: a loop over the zones, and then all accepted environments. */
  method ListCandidates(config: ReportParseConfig, donID: nat) returns (candidates: seq<Environment>)
    ensures candidates == Candidates(config, donID)
  {
    candidates := [];
    for k := 0 to |config.acceptedZones|
      invariant candidates == MatchingZones(config.acceptedZones[..k], donID)
    {
      assert config.acceptedZones[..k + 1][..k] == config.acceptedZones[..k];
      if config.acceptedZones[k].donID == donID {
        candidates := candidates + [config.acceptedZones[k].env];
      }
    }
    assert config.acceptedZones[..|config.acceptedZones|] == config.acceptedZones;
    candidates := candidates + config.acceptedEnvironments;
  }

  // ----- Reports -----

  class Report {
    const response: ReportResponse
    var cachedHeader: Option<Header>

    constructor (response: ReportResponse)
      ensures this.response == response && cachedHeader == None
    {
      this.response, cachedHeader := response, None;
    }

    /** A cached header is what parsing the raw report afresh would give. */
    ghost predicate Valid()
      reads this
    {
      cachedHeader.Some? ==> ParseRawReport(response.rawReport) == Ok(cachedHeader.value)
    }

    /** parseHeader. */
    method ParseHeader() returns (r: Result<Header, HeaderError>)
      requires Valid()
      modifies this
      ensures Valid() && r == ParseRawReport(response.rawReport)
      ensures cachedHeader == if r.Ok? then Some(r.value) else None
    {
      if cachedHeader.Some? {
        return Ok(cachedHeader.value);
      }
      r := ParseRawReport(response.rawReport);
      cachedHeader := if r.Ok? then Some(r.value) else None;
    }

    /** What the attempts for this report are. */
    ghost function AttemptsFor(c: Crypto, rt: ChainRuntime, cache: KeyCache, config: ReportParseConfig): seq<Attempt>
      requires ParseRawReport(response.rawReport).Ok?
      reads response, cache
    {
      var donID := ParseRawReport(response.rawReport).value.donID;
      Attempts(DirectReader(rt.chain), cache.entries, Candidates(config, donID), donID,
               Recoveries(c, response.Hash(c), response.sigs))
    }

    /** VerifySignaturesWithConfig: tries the candidates in order until one DON accepts. */
    method VerifySignaturesWithConfig(c: Crypto, rt: ChainRuntime, cache: KeyCache, config: ReportParseConfig)
      returns (r: Outcome<(), VerificationError>)
      requires Valid()
      modifies this, rt, cache, response`sigs, response.sigs`signerId
      ensures Valid()
      ensures ParseRawReport(response.rawReport).Ok? ==> cachedHeader.Some?
      ensures match ParseRawReport(response.rawReport)
              case Err(e) => r == Failed(BadHeader(e)) && response.sigs == old(response.sigs)
              case Ok(_) => Concluded(c, old(AttemptsFor(c, rt, cache, config)), old(response.sigs), r)
      ensures match ParseRawReport(response.rawReport)
              case Err(_) => cache.entries == old(cache.entries) && rt.requests == old(rt.requests)
              case Ok(header) =>
                Spent(rt, cache, old(rt.requests), old(cache.entries), Candidates(config, header.donID), header.donID,
                      Tried(old(AttemptsFor(c, rt, cache, config)), 0))
      ensures old(rt.requests) <= rt.requests
      ensures match ParseRawReport(response.rawReport)
              case Err(_) => true
              case Ok(header) =>
                forall i | |old(rt.requests)| <= i < |rt.requests| :: AskedFor(rt.chain, config, header.donID, rt.requests[i])
    {
      var parsed := ParseHeader();
      if parsed.Err? {
        return Failed(BadHeader(parsed.error));
      }
      var header := parsed.value;
      DonIDFits();
      ghost var k := Tried(AttemptsFor(c, rt, cache, config), 0);
      RequestsAreForPlaces(rt.chain, cache.entries, config, header.donID, k);
      var candidates := ListCandidates(config, header.donID);
      if |candidates| == 0 {
        return Failed(NotAccepted);
      }
      r := TryAll(c, rt, cache, candidates, header.donID, AttemptsFor(c, rt, cache, config));
    }

    /** The list holds exactly the quorum of the given DON, each entry with its node operator's id. */
    ghost predicate TrimmedTo(c: Crypto, info: DonInfo, sigs: seq<AttributedSignature>)
      reads response, sigs
    {
      var rs := Recoveries(c, response.Hash(c), sigs);
      var ks := Chosen(rs, info.signers, info.f);
      && response.sigs == Pick(sigs, ks)
      && forall j | 0 <= j < |ks| :: response.sigs[j].signerId == info.signers[rs[ks[j]].value]
    }

    /** The attempts conclude with `r`, and the list `sigs` has become what the deciding attempt leaves of it. */
    ghost predicate Concluded(c: Crypto, attempts: seq<Attempt>, sigs: seq<AttributedSignature>,
                              r: Outcome<(), VerificationError>)
      reads response, sigs
    {
      match Conclude(attempts, 0)
      case Done(i) => i < |attempts| && attempts[i].Accepted? && r == Done(()) && TrimmedTo(c, attempts[i].info, sigs)
      case Failed(e) => r == Failed(e) && response.sigs == sigs
      case Panicked => r == Panicked && response.sigs == sigs
    }

    /** The cache and the log of chain requests after k candidates, from what they were before. */
    ghost predicate Spent(rt: ChainRuntime, cache: KeyCache, requests: seq<ChainRequest>, entries: map<string, DonInfo>,
                          envs: seq<Environment>, donID: nat, k: nat)
      reads rt, cache
    {
      && k <= |envs|
      && cache.entries == EntriesAt(DirectReader(rt.chain), entries, envs, donID, k)
      && rt.requests == requests + RequestsUpTo(rt.chain, entries, envs, donID, k)
    }

    lemma DonIDFits()
      ensures ParseRawReport(response.rawReport).Ok? ==> ParseRawReport(response.rawReport).value.donID < 0x1_0000_0000
    {
      if ParseRawReport(response.rawReport).Ok? {
        LeadingBound(response.rawReport.value[37..41], 4);
        assert Pow256(4) == 0x1_0000_0000;
      }
    }

    /** One round of the loop: fetch the DON, then check the quorum. */
    method TryOne(c: Crypto, rt: ChainRuntime, cache: KeyCache, candidates: seq<Environment>, donID: nat, i: nat,
                  ghost requests: seq<ChainRequest>, ghost before: map<string, DonInfo>)
      returns (attempt: Attempt)
      requires donID < 0x1_0000_0000 && i < |candidates|
      requires Spent(rt, cache, requests, before, candidates, donID, i)
      modifies rt, cache, response`sigs, response.sigs`signerId
      ensures attempt == Attempts(DirectReader(rt.chain), before, candidates, donID,
                                  Recoveries(c, response.Hash(c), old(response.sigs)))[i]
      ensures Spent(rt, cache, requests, before, candidates, donID, i + 1)
      ensures if attempt.Accepted? then TrimmedTo(c, attempt.info, old(response.sigs)) else response.sigs == old(response.sigs)
    {
      var fetched := FetchNth(rt, cache, candidates, donID, i, requests, before);
      match fetched {
        case Failed(e) => attempt := Unreadable(e);
        case Panicked => attempt := Crashed;
        case Done(info) =>
          var verdict := VerifySigs(c, response, info.f, info.signers);
          match verdict {
            case Done(_) => attempt := Accepted(info);
            case Failed(e) => attempt := Rejected(e);
            case Panicked => attempt := Crashed;
          }
      }
    }

    /** The loop over the candidates. */
    method TryAll(c: Crypto, rt: ChainRuntime, cache: KeyCache, candidates: seq<Environment>, donID: nat,
                  ghost attempts: seq<Attempt>)
      returns (r: Outcome<(), VerificationError>)
      requires donID < 0x1_0000_0000
      requires attempts == Attempts(DirectReader(rt.chain), cache.entries, candidates, donID,
                                    Recoveries(c, response.Hash(c), response.sigs))
      modifies rt, cache, response`sigs, response.sigs`signerId
      ensures Concluded(c, attempts, old(response.sigs), r)
      ensures Spent(rt, cache, old(rt.requests), old(cache.entries), candidates, donID, Tried(attempts, 0))
    {
      var sigErr: Option<QuorumError> := None;
      var fetchFailures: seq<FetchError> := [];
      for i := 0 to |candidates|
        invariant response.sigs == old(response.sigs)
        invariant Spent(rt, cache, old(rt.requests), old(cache.entries), candidates, donID, i)
        invariant Underway(attempts, i, fetchFailures, sigErr)
      {
        var attempt := TryOne(c, rt, cache, candidates, donID, i, old(rt.requests), old(cache.entries));
        OneRound(attempts, i, fetchFailures, sigErr);
        match attempt {
          case Unreadable(e) => fetchFailures := fetchFailures + [e];
          case Accepted(_) => return Done(());
          case Rejected(e) => sigErr := Some(e);
          case Crashed => return Panicked;
        }
      }
      AllRounds(attempts, fetchFailures, sigErr);
      if |fetchFailures| > 0 {
        return Failed(ReadFailures(fetchFailures));
      }
      return Failed(match sigErr case Some(e) => SignatureFailure(e) case None => NotAccepted);
    }

    /** The attempts before the i-th were inconclusive and left these failures and this rejection. */
    ghost predicate Underway(attempts: seq<Attempt>, i: nat, failures: seq<FetchError>, rejection: Option<QuorumError>) {
      && i <= |attempts|
      && Conclude(attempts, 0) == Conclude(attempts, i) && Tried(attempts, 0) == Tried(attempts, i)
      && failures == ReadErrors(attempts, i) && rejection == LastRejection(attempts, i)
    }

    lemma OneRound(attempts: seq<Attempt>, i: nat, failures: seq<FetchError>, rejection: Option<QuorumError>)
      requires i < |attempts| && Underway(attempts, i, failures, rejection)
      ensures match attempts[i]
              case Accepted(_) => Conclude(attempts, 0) == Done(i) && Tried(attempts, 0) == i + 1
              case Crashed => Conclude(attempts, 0) == Panicked && Tried(attempts, 0) == i + 1
              case Unreadable(e) => Underway(attempts, i + 1, failures + [e], rejection)
              case Rejected(e) => Underway(attempts, i + 1, failures, Some(e))
    {
    }

    lemma AllRounds(attempts: seq<Attempt>, failures: seq<FetchError>, rejection: Option<QuorumError>)
      requires Underway(attempts, |attempts|, failures, rejection)
      ensures Tried(attempts, 0) == |attempts|
      ensures Conclude(attempts, 0) ==
              Failed(if failures != [] then ReadFailures(failures)
                     else match rejection case Some(e) => SignatureFailure(e) case None => NotAccepted)
    {
    }

    /** The fetch of one round. */
    method FetchNth(rt: ChainRuntime, cache: KeyCache, candidates: seq<Environment>, donID: nat, i: nat,
                    ghost requests: seq<ChainRequest>, ghost before: map<string, DonInfo>)
      returns (fetched: Outcome<DonInfo, FetchError>)
      requires donID < 0x1_0000_0000 && i < |candidates|
      requires Spent(rt, cache, requests, before, candidates, donID, i)
      modifies rt, cache
      ensures fetched == Fetched(DirectReader(rt.chain), EntriesAt(DirectReader(rt.chain), before, candidates, donID, i),
                                 Fetch(candidates[i], donID))
      ensures Spent(rt, cache, requests, before, candidates, donID, i + 1)
    {
      fetched := FetchDONInfo(rt, cache, candidates[i], donID);
      ghost var asked := Requested(rt.chain, EntriesAt(DirectReader(rt.chain), before, candidates, donID, i), Fetch(candidates[i], donID));
      AppendTwice(requests, RequestsUpTo(rt.chain, before, candidates, donID, i), asked);
    }

    lemma AppendTwice(a: seq<ChainRequest>, b: seq<ChainRequest>, c: seq<ChainRequest>)
      ensures a + b + c == a + (b + c)
    {
    }
  }

  // ----- When verification succeeds -----

  /** An environment is good for a DON when the DON can be read there and its quorum is met. */
  lemma AcceptedIff(fetched: Outcome<DonInfo, FetchError>, rs: seq<Recovery>)
    ensures Try(fetched, rs).Accepted? <==>
            fetched.Done? && 0 <= Required(fetched.value.f) <= |AuthorisedSigners(rs, fetched.value.signers)|
    ensures Try(fetched, rs).Crashed? <==> fetched.Panicked? || (fetched.Done? && Required(fetched.value.f) < 0)
  {
    if fetched.Done? {
      QuorumIff(rs, fetched.value.signers, fetched.value.f);
    }
  }

  /** Verification returns nil exactly when some candidate accepts and none before it crashes; the deciding
      candidate is the first that accepts. It reports read failures, if any, before signature failures. */
  lemma {:induction false} ConcludeIff(attempts: seq<Attempt>, n: nat)
    requires n <= |attempts| && Inconclusive(attempts, n)
    ensures Conclude(attempts, n).Done? <==>
            exists i :: 0 <= i < |attempts| && attempts[i].Accepted? && forall j | 0 <= j < i :: !attempts[j].Crashed?
    ensures Conclude(attempts, n).Done? ==>
            var i := Conclude(attempts, n).value;
            i < |attempts| && attempts[i].Accepted? && Inconclusive(attempts, i)
    ensures Conclude(attempts, n).Failed? <==> Inconclusive(attempts, |attempts|)
    ensures Conclude(attempts, n).Failed? ==>
            (Conclude(attempts, n).error.ReadFailures? <==> exists i :: 0 <= i < |attempts| && attempts[i].Unreadable?)
    decreases |attempts| - n
  {
    if n == |attempts| {
      ReadErrorsIff(attempts, n);
    } else if !attempts[n].Accepted? && !attempts[n].Crashed? {
      ConcludeIff(attempts, n + 1);
    }
  }

  lemma {:induction false} ReadErrorsIff(attempts: seq<Attempt>, n: nat)
    requires n <= |attempts|
    ensures ReadErrors(attempts, n) != [] <==> exists i :: 0 <= i < n && attempts[i].Unreadable?
  {
    if n > 0 {
      ReadErrorsIff(attempts, n - 1);
    }
  }

  // ----- Verification by direct reads -----

  /** The run `all` is the fetches `past`, and then one fetch for each of the first k candidates. */
  predicate Continues(all: seq<Fetch>, past: seq<Fetch>, envs: seq<Environment>, donID: nat, k: nat) {
    && k <= |envs| && |all| == |past| + k
    && (forall i | 0 <= i < |past| :: all[i] == past[i])
    && (forall i | 0 <= i < k :: all[|past| + i] == Fetch(envs[i], donID))
  }

  lemma {:induction false} CacheOfPast(reader: Reader, past: seq<Fetch>, all: seq<Fetch>, n: nat)
    requires n <= |past| <= |all| && forall k | 0 <= k < |past| :: all[k] == past[k]
    ensures CacheAfter(reader, all, n) == CacheAfter(reader, past, n)
    decreases n
  {
    if n > 0 {
      CacheOfPast(reader, past, all, n - 1);
    }
  }

  lemma {:induction false} EntriesOfRun(reader: Reader, all: seq<Fetch>, past: seq<Fetch>, envs: seq<Environment>, donID: nat,
                                        k: nat, entries: map<string, DonInfo>, i: nat, n: nat)
    requires i <= k && Continues(all, past, envs, donID, k) && n == |past| + i
    requires entries == CacheAfter(reader, past, |past|)
    ensures EntriesAt(reader, entries, envs, donID, i) == CacheAfter(reader, all, n)
    decreases i
  {
    if i == 0 {
      CacheOfPast(reader, past, all, |past|);
    } else {
      EntriesOfRun(reader, all, past, envs, donID, k, entries, i - 1, n - 1);
      assert all[n - 1] == Fetch(envs[i - 1], donID);
    }
  }

  /** Fetch k of the run gives what it would read itself. */
  predicate FreshAt(reader: Reader, run: seq<Fetch>, k: nat)
    requires k < |run|
  {
    ResultAt(reader, run, k) == reader.read(run[k])
  }

  /** Every candidate's fetch gives what it would read itself. */
  predicate FreshFrom(reader: Reader, run: seq<Fetch>, n: nat) {
    forall k | n <= k < |run| :: FreshAt(reader, run, k)
  }

  /** Every candidate's registry is the one of the earlier fetches under its key. */
  predicate SameRegistriesFrom(run: seq<Fetch>, n: nat) {
    forall k | n <= k < |run| :: SameRegistryBefore(run, k)
  }

  lemma SameRegistriesFresh(chain: Chain, run: seq<Fetch>, n: nat)
    requires SameRegistriesFrom(run, n)
    ensures FreshFrom(DirectReader(chain), run, n)
  {
    forall k | n <= k < |run| ensures FreshAt(DirectReader(chain), run, k) {
      CacheRefinesDirectRead(chain, run, k);
    }
  }

  lemma CandidateIsFresh(reader: Reader, all: seq<Fetch>, past: seq<Fetch>, envs: seq<Environment>, donID: nat, i: nat)
    requires i < |envs| && Continues(all, past, envs, donID, |envs|) && FreshAt(reader, all, |past| + i)
    ensures Fetched(reader, EntriesAt(reader, CacheAfter(reader, past, |past|), envs, donID, i), Fetch(envs[i], donID)) ==
            reader.read(Fetch(envs[i], donID))
  {
    EntriesOfRun(reader, all, past, envs, donID, |envs|, CacheAfter(reader, past, |past|), i, |past| + i);
    assert all[|past| + i] == Fetch(envs[i], donID);
  }

  lemma AttemptAt(reader: Reader, entries: map<string, DonInfo>, envs: seq<Environment>, donID: nat, rs: seq<Recovery>, i: nat)
    requires i < |envs|
    ensures Attempts(reader, entries, envs, donID, rs)[i] ==
            Try(Fetched(reader, EntriesAt(reader, entries, envs, donID, i), Fetch(envs[i], donID)), rs)
  {
  }

  /** Whatever was fetched before, each attempt is what reading the candidate afresh gives. */
  lemma AttemptIsFresh(reader: Reader, all: seq<Fetch>, past: seq<Fetch>, envs: seq<Environment>, donID: nat,
                       rs: seq<Recovery>, i: nat)
    requires i < |envs| && Continues(all, past, envs, donID, |envs|) && FreshFrom(reader, all, |past|)
    ensures Attempts(reader, CacheAfter(reader, past, |past|), envs, donID, rs)[i] == Try(reader.read(Fetch(envs[i], donID)), rs)
  {
    CandidateIsFresh(reader, all, past, envs, donID, i);
    AttemptAt(reader, CacheAfter(reader, past, |past|), envs, donID, rs, i);
  }

  /** The DON can be read and the signatures reach its quorum. */
  predicate Good(read: Outcome<DonInfo, FetchError>, rs: seq<Recovery>) {
    read.Done? && 0 <= Required(read.value.f) <= |AuthorisedSigners(rs, read.value.signers)|
  }

  /** Trying the DON panics: while decoding a reply, or on a negative quorum. */
  predicate Panics(read: Outcome<DonInfo, FetchError>) {
    read.Panicked? || (read.Done? && Required(read.value.f) < 0)
  }

  function Reads(reader: Reader, envs: seq<Environment>, donID: nat): (os: seq<Outcome<DonInfo, FetchError>>)
    ensures |os| == |envs|
  {
    seq(|envs|, i requires 0 <= i < |envs| => reader.read(Fetch(envs[i], donID)))
  }

  /** The attempts accept and crash where the results are good and panic. */
  predicate Mirrors(attempts: seq<Attempt>, results: seq<Outcome<DonInfo, FetchError>>, rs: seq<Recovery>) {
    && |attempts| == |results|
    && forall i | 0 <= i < |attempts| ::
         (attempts[i].Accepted? <==> Good(results[i], rs)) && (attempts[i].Crashed? <==> Panics(results[i]))
  }

  lemma AttemptsAreFresh(reader: Reader, all: seq<Fetch>, past: seq<Fetch>, envs: seq<Environment>, donID: nat,
                         rs: seq<Recovery>)
    requires Continues(all, past, envs, donID, |envs|) && FreshFrom(reader, all, |past|)
    ensures Mirrors(Attempts(reader, CacheAfter(reader, past, |past|), envs, donID, rs), Reads(reader, envs, donID), rs)
  {
    var attempts := Attempts(reader, CacheAfter(reader, past, |past|), envs, donID, rs);
    var results := Reads(reader, envs, donID);
    forall i | 0 <= i < |attempts|
      ensures (attempts[i].Accepted? <==> Good(results[i], rs)) && (attempts[i].Crashed? <==> Panics(results[i]))
    {
      AttemptIsFresh(reader, all, past, envs, donID, rs, i);
      AcceptedIff(reader.read(Fetch(envs[i], donID)), rs);
    }
  }

  /** Success exactly when some result is good and none before it panics, and the first good one decides. */
  predicate VerifiedBy(verdict: Outcome<nat, VerificationError>, results: seq<Outcome<DonInfo, FetchError>>, rs: seq<Recovery>) {
    && (verdict.Done? <==>
          exists i :: 0 <= i < |results| && Good(results[i], rs) && forall j | 0 <= j < i :: !Panics(results[j]))
    && (verdict.Done? ==>
          verdict.value < |results| && Good(results[verdict.value], rs)
          && forall j | 0 <= j < verdict.value :: !Good(results[j], rs))
  }

  lemma MirrorsDecide(attempts: seq<Attempt>, results: seq<Outcome<DonInfo, FetchError>>, rs: seq<Recovery>)
    requires Mirrors(attempts, results, rs)
    ensures VerifiedBy(Conclude(attempts, 0), results, rs)
  {
    ConcludeIff(attempts, 0);
  }

  lemma FreshVerified(reader: Reader, all: seq<Fetch>, past: seq<Fetch>, envs: seq<Environment>, donID: nat, rs: seq<Recovery>)
    requires Continues(all, past, envs, donID, |envs|) && FreshFrom(reader, all, |past|)
    ensures VerifiedBy(Conclude(Attempts(reader, CacheAfter(reader, past, |past|), envs, donID, rs), 0), Reads(reader, envs, donID), rs)
  {
    AttemptsAreFresh(reader, all, past, envs, donID, rs);
    MirrorsDecide(Attempts(reader, CacheAfter(reader, past, |past|), envs, donID, rs), Reads(reader, envs, donID), rs);
  }

  /** After any fetches, verification returns nil exactly when some candidate, read directly, is good and none
      before it panics, provided that no candidate's key was filled from another registry. */
  lemma {:induction false} VerifiedIff(chain: Chain, all: seq<Fetch>, past: seq<Fetch>, envs: seq<Environment>, donID: nat, rs: seq<Recovery>)
    requires Continues(all, past, envs, donID, |envs|) && SameRegistriesFrom(all, |past|)
    ensures VerifiedBy(Conclude(Attempts(DirectReader(chain), CacheAfter(DirectReader(chain), past, |past|), envs, donID, rs), 0),
                       Reads(DirectReader(chain), envs, donID), rs)
  {
    SameRegistriesFresh(chain, all, |past|);
    FreshVerified(DirectReader(chain), all, past, envs, donID, rs);
  }

  // ----- The verdict by the configuration -----

  /** The DON can be read, and at least f + 1 of its signers have signed the digest. */
  ghost predicate Reached(c: Crypto, digest: seq<Byte>, sigs: seq<AttributedSignature>, read: Outcome<DonInfo, FetchError>) {
    read.Done? && 0 <= Required(read.value.f) <= |SigningSigners(c, digest, sigs, read.value.signers)|
  }

  lemma ReachedIsGood(c: Crypto, digest: seq<Byte>, sigs: seq<AttributedSignature>, read: Outcome<DonInfo, FetchError>)
    ensures Reached(c, digest, sigs, read) <==> Good(read, Recoveries(c, digest, sigs))
  {
    if read.Done? {
      SigningIsAuthorised(c, digest, sigs, read.value.signers);
    }
  }

  /** Two environments of one chain name the same registry, or the first names none. */
  predicate SameRegistry(d: Environment, e: Environment) {
    d.chainSelector == e.chainSelector && RegistryAddress(d).Some? ==> RegistryAddress(d) == RegistryAddress(e)
  }

  /** No place finds its DON in the cache from another registry: neither from the past nor from a place before. */
  ghost predicate Undisturbed(past: seq<Fetch>, config: ReportParseConfig, donID: nat) {
    && (forall p, j | Eligible(config, donID, p) && 0 <= j < |past| && past[j].donID == donID ::
          SameRegistry(past[j].env, EnvOf(config, donID, p)))
    && (forall p, q | Eligible(config, donID, p) && Eligible(config, donID, q) && Before(q, p) ::
          SameRegistry(EnvOf(config, donID, q), EnvOf(config, donID, p)))
  }

  lemma UndisturbedRun(config: ReportParseConfig, donID: nat, past: seq<Fetch>, all: seq<Fetch>, envs: seq<Environment>,
                       places: seq<Place>)
    requires ListsPlaces(config, donID, places, envs) && Undisturbed(past, config, donID)
    requires Continues(all, past, envs, donID, |envs|)
    ensures SameRegistriesFrom(all, |past|)
  {
    forall k | |past| <= k < |all| ensures SameRegistryBefore(all, k) {
      var i := k - |past|;
      assert all[|past| + i] == Fetch(envs[i], donID);
      forall j | 0 <= j < k && SameDon(all[j], all[k]) && RegistryAddress(all[j].env).Some?
        ensures RegistryAddress(all[j].env) == RegistryAddress(all[k].env)
      {
        if j < |past| {
          assert all[j] == past[j] && SameRegistry(past[j].env, EnvOf(config, donID, places[i]));
        } else {
          var m := j - |past|;
          assert all[|past| + m] == Fetch(envs[m], donID);
          assert SameRegistry(EnvOf(config, donID, places[m]), EnvOf(config, donID, places[i]));
        }
      }
    }
  }

  /** The DON as some place of the configuration has it reaches its quorum, and reading no place before panics. */
  ghost predicate SomePlaceAccepts(c: Crypto, digest: seq<Byte>, sigs: seq<AttributedSignature>, chain: Chain,
                                   config: ReportParseConfig, donID: nat)
  {
    exists p ::
      && Eligible(config, donID, p)
      && Reached(c, digest, sigs, DirectRead(chain, EnvOf(config, donID, p), donID))
      && forall q | Eligible(config, donID, q) && Before(q, p) :: !Panics(DirectRead(chain, EnvOf(config, donID, q), donID))
  }

  lemma PlaceToIndex(c: Crypto, digest: seq<Byte>, sigs: seq<AttributedSignature>, chain: Chain,
                     config: ReportParseConfig, donID: nat, places: seq<Place>, envs: seq<Environment>)
    returns (i: nat)
    requires ListsPlaces(config, donID, places, envs) && SomePlaceAccepts(c, digest, sigs, chain, config, donID)
    ensures var results := Reads(DirectReader(chain), envs, donID);
            i < |results| && Good(results[i], Recoveries(c, digest, sigs)) && forall j | 0 <= j < i :: !Panics(results[j])
  {
    var results := Reads(DirectReader(chain), envs, donID);
    var p :| && Eligible(config, donID, p)
             && Reached(c, digest, sigs, DirectRead(chain, EnvOf(config, donID, p), donID))
             && forall q | Eligible(config, donID, q) && Before(q, p) :: !Panics(DirectRead(chain, EnvOf(config, donID, q), donID));
    i :| 0 <= i < |places| && places[i] == p;
    ReachedIsGood(c, digest, sigs, results[i]);
    forall j | 0 <= j < i ensures !Panics(results[j]) {
      assert Before(places[j], p);
    }
  }

  lemma IndexToPlace(c: Crypto, digest: seq<Byte>, sigs: seq<AttributedSignature>, chain: Chain,
                     config: ReportParseConfig, donID: nat, places: seq<Place>, envs: seq<Environment>, i: nat)
    requires ListsPlaces(config, donID, places, envs) && i < |envs|
    requires var results := Reads(DirectReader(chain), envs, donID);
             Good(results[i], Recoveries(c, digest, sigs)) && forall j | 0 <= j < i :: !Panics(results[j])
    ensures SomePlaceAccepts(c, digest, sigs, chain, config, donID)
  {
    var results := Reads(DirectReader(chain), envs, donID);
    ReachedIsGood(c, digest, sigs, results[i]);
    forall q | Eligible(config, donID, q) && Before(q, places[i])
      ensures !Panics(DirectRead(chain, EnvOf(config, donID, q), donID))
    {
      var j := EarlierIndex(config, donID, places, envs, i, q);
      assert !Panics(results[j]);
    }
  }

  lemma EarlierIndex(config: ReportParseConfig, donID: nat, places: seq<Place>, envs: seq<Environment>, i: nat, q: Place)
    returns (j: nat)
    requires ListsPlaces(config, donID, places, envs) && i < |places| && Eligible(config, donID, q) && Before(q, places[i])
    ensures j < i && places[j] == q && envs[j] == EnvOf(config, donID, q)
  {
    j :| 0 <= j < |places| && places[j] == q;
  }

  lemma AcceptsByIndex(c: Crypto, digest: seq<Byte>, sigs: seq<AttributedSignature>, chain: Chain,
                       config: ReportParseConfig, donID: nat, places: seq<Place>, envs: seq<Environment>)
    requires ListsPlaces(config, donID, places, envs)
    ensures var results := Reads(DirectReader(chain), envs, donID);
            SomePlaceAccepts(c, digest, sigs, chain, config, donID) <==>
            exists i :: 0 <= i < |results| && Good(results[i], Recoveries(c, digest, sigs)) && forall j | 0 <= j < i :: !Panics(results[j])
  {
    var results := Reads(DirectReader(chain), envs, donID);
    if SomePlaceAccepts(c, digest, sigs, chain, config, donID) {
      var i := PlaceToIndex(c, digest, sigs, chain, config, donID, places, envs);
    }
    if i: nat :| i < |results| && Good(results[i], Recoveries(c, digest, sigs)) && forall j | 0 <= j < i :: !Panics(results[j]) {
      IndexToPlace(c, digest, sigs, chain, config, donID, places, envs, i);
    }
  }

  /** After any fetches, verifying a report returns nil exactly when some zone of its DON, or some accepted
      environment, reaches its quorum and no such place before it panics; and it is refused for not being accepted
      exactly when there is no such place. */
  lemma VerifiedByConfigIff(c: Crypto, report: Report, rt: ChainRuntime, cache: KeyCache, config: ReportParseConfig, past: seq<Fetch>)
    requires ParseRawReport(report.response.rawReport).Ok?
    requires cache.entries == CacheAfter(DirectReader(rt.chain), past, |past|)
    requires Undisturbed(past, config, ParseRawReport(report.response.rawReport).value.donID)
    ensures var donID := ParseRawReport(report.response.rawReport).value.donID;
            var digest := DigestOf(c, report.response.rawReport, report.response.reportContext);
            var verdict := Conclude(report.AttemptsFor(c, rt, cache, config), 0);
            && (verdict.Done? <==> SomePlaceAccepts(c, digest, report.response.sigs, rt.chain, config, donID))
            && (verdict == Failed(NotAccepted) <==> forall p :: !Eligible(config, donID, p))
  {
    var donID := ParseRawReport(report.response.rawReport).value.donID;
    var digest := DigestOf(c, report.response.rawReport, report.response.reportContext);
    var envs := Candidates(config, donID);
    HashIsDigest(c, report.response);
    VerifiedByPlaces(c, digest, report.response.sigs, rt.chain, config, donID, past);
  }

  lemma VerifiedByPlaces(c: Crypto, digest: seq<Byte>, sigs: seq<AttributedSignature>, chain: Chain,
                         config: ReportParseConfig, donID: nat, past: seq<Fetch>)
    requires Undisturbed(past, config, donID)
    ensures var reader := DirectReader(chain);
            var verdict := Conclude(Attempts(reader, CacheAfter(reader, past, |past|), Candidates(config, donID), donID,
                                             Recoveries(c, digest, sigs)), 0);
            && (verdict.Done? <==> SomePlaceAccepts(c, digest, sigs, chain, config, donID))
            && (verdict == Failed(NotAccepted) <==> forall p :: !Eligible(config, donID, p))
  {
    var envs := Candidates(config, donID);
    var places := PlacesInOrder(config, donID);
    var all := past + FirstFetches(envs, donID, |envs|);
    AppendContinues(past, envs, donID, |envs|);
    UndisturbedRun(config, donID, past, all, envs, places);
    VerifiedIff(chain, all, past, envs, donID, Recoveries(c, digest, sigs));
    AcceptsByIndex(c, digest, sigs, chain, config, donID, places, envs);
    NotAcceptedIff(Attempts(DirectReader(chain), CacheAfter(DirectReader(chain), past, |past|), envs, donID, Recoveries(c, digest, sigs)));
    NoPlaces(config, donID, places, envs);
  }

  lemma NoPlaces(config: ReportParseConfig, donID: nat, places: seq<Place>, envs: seq<Environment>)
    requires ListsPlaces(config, donID, places, envs)
    ensures envs == [] <==> forall p :: !Eligible(config, donID, p)
  {
    if envs != [] {
      assert Eligible(config, donID, places[0]);
    }
  }

  /** The read failures are those of the unreadable attempts, in order. */
  lemma {:induction false} ReadErrorsInOrder(attempts: seq<Attempt>, n: nat) returns (ks: seq<nat>)
    requires n <= |attempts|
    ensures |ks| == |ReadErrors(attempts, n)|
    ensures forall j | 0 <= j < |ks| ::
              ks[j] < n && attempts[ks[j]].Unreadable? && attempts[ks[j]].error == ReadErrors(attempts, n)[j]
    ensures forall i, j | 0 <= i < j < |ks| :: ks[i] < ks[j]
    ensures forall k | 0 <= k < n && attempts[k].Unreadable? :: k in ks
  {
    ks := [];
    if n > 0 {
      ks := ReadErrorsInOrder(attempts, n - 1);
      if attempts[n - 1].Unreadable? {
        ks := ks + [n - 1];
      }
    }
  }

  /** What a failed verification reports: the read failures if there are any, else the signature failure of the last
      candidate, else that nothing is accepted. */
  lemma {:induction false} ConcludeErrors(attempts: seq<Attempt>, n: nat)
    requires n <= |attempts| && Inconclusive(attempts, n) && Conclude(attempts, n).Failed?
    ensures match Conclude(attempts, n).error
            case ReadFailures(failures) => failures == ReadErrors(attempts, |attempts|) && failures != []
            case SignatureFailure(e) =>
              && (forall i | 0 <= i < |attempts| :: attempts[i].Rejected?)
              && attempts != [] && e == attempts[|attempts| - 1].quorum
            case NotAccepted => attempts == []
            case BadHeader(_) => false
    decreases |attempts| - n
  {
    if n == |attempts| {
      ReadErrorsIff(attempts, n);
    } else {
      ConcludeErrors(attempts, n + 1);
    }
  }

  lemma NotAcceptedIff(attempts: seq<Attempt>)
    ensures Conclude(attempts, 0) == Failed(NotAccepted) <==> attempts == []
  {
    if Conclude(attempts, 0).Failed? {
      ConcludeErrors(attempts, 0);
    }
  }

  // ----- Verifications one after the other -----

  /** One verification: the candidates, the DON, and what the signatures recover to. */
  datatype Job = Job(envs: seq<Environment>, donID: nat, rs: seq<Recovery>)
  {
    function TriedFrom(reader: Reader, entries: map<string, DonInfo>): (k: nat)
      ensures k <= |envs|
    {
      Tried(Attempts(reader, entries, envs, donID, rs), 0)
    }
  }

  /** The cache before verification n, by what each one leaves. */
  function EntriesBefore(reader: Reader, jobs: seq<Job>, n: nat): map<string, DonInfo>
    requires n <= |jobs|
  {
    if n == 0 then map[]
    else
      var entries, job := EntriesBefore(reader, jobs, n - 1), jobs[n - 1];
      EntriesAt(reader, entries, job.envs, job.donID, job.TriedFrom(reader, entries))
  }

  function FirstFetches(envs: seq<Environment>, donID: nat, k: nat): (fs: seq<Fetch>)
    requires k <= |envs|
    ensures |fs| == k
  {
    seq(k, i requires 0 <= i < k => Fetch(envs[i], donID))
  }

  /** All fetches before verification n: of each verification the candidates that it tried. */
  function FetchesBefore(reader: Reader, jobs: seq<Job>, n: nat): seq<Fetch>
    requires n <= |jobs|
  {
    if n == 0 then []
    else
      var job := jobs[n - 1];
      FetchesBefore(reader, jobs, n - 1) +
      FirstFetches(job.envs, job.donID, job.TriedFrom(reader, EntriesBefore(reader, jobs, n - 1)))
  }

  lemma AppendContinues(past: seq<Fetch>, envs: seq<Environment>, donID: nat, k: nat)
    requires k <= |envs|
    ensures Continues(past + FirstFetches(envs, donID, k), past, envs, donID, k)
  {
  }

  lemma FetchesStep(reader: Reader, jobs: seq<Job>, n: nat)
    requires 0 < n <= |jobs|
    ensures Continues(FetchesBefore(reader, jobs, n), FetchesBefore(reader, jobs, n - 1), jobs[n - 1].envs, jobs[n - 1].donID,
                      jobs[n - 1].TriedFrom(reader, EntriesBefore(reader, jobs, n - 1)))
  {
    AppendContinues(FetchesBefore(reader, jobs, n - 1), jobs[n - 1].envs, jobs[n - 1].donID,
                    jobs[n - 1].TriedFrom(reader, EntriesBefore(reader, jobs, n - 1)));
  }

  predicate EntriesFetched(reader: Reader, jobs: seq<Job>, n: nat)
    requires n <= |jobs|
  {
    EntriesBefore(reader, jobs, n) == CacheAfter(reader, FetchesBefore(reader, jobs, n), |FetchesBefore(reader, jobs, n)|)
  }

  lemma NextFetched(reader: Reader, jobs: seq<Job>, n: nat)
    requires 0 < n <= |jobs| && EntriesFetched(reader, jobs, n - 1)
    ensures EntriesFetched(reader, jobs, n)
  {
    var entries, job := EntriesBefore(reader, jobs, n - 1), jobs[n - 1];
    var now, past, k := FetchesBefore(reader, jobs, n), FetchesBefore(reader, jobs, n - 1), job.TriedFrom(reader, entries);
    FetchesStep(reader, jobs, n);
    EntriesOfRun(reader, now, past, job.envs, job.donID, k, entries, k, |now|);
  }

  lemma NothingFetched(reader: Reader, jobs: seq<Job>)
    ensures EntriesFetched(reader, jobs, 0)
  {
  }

  /** The cache is what the fetches before have left. */
  lemma EntriesAreFetched(reader: Reader, jobs: seq<Job>, n: nat)
    requires n <= |jobs|
    ensures EntriesFetched(reader, jobs, n)
  {
    NothingFetched(reader, jobs);
    for m := 0 to n
      invariant EntriesFetched(reader, jobs, m)
    {
      NextFetched(reader, jobs, m + 1);
    }
  }

  /** Over any sequence of verifications from an empty cache, each returns nil exactly when some candidate of its
      own, read directly, is good and none before it panics, provided that no key was filled from another
      registry. */
  lemma {:induction false} EachVerifiedIff(chain: Chain, jobs: seq<Job>, n: nat, all: seq<Fetch>)
    requires n < |jobs|
    requires Continues(all, FetchesBefore(DirectReader(chain), jobs, n), jobs[n].envs, jobs[n].donID, |jobs[n].envs|)
    requires SameRegistriesFrom(all, |FetchesBefore(DirectReader(chain), jobs, n)|)
    ensures var reader, job := DirectReader(chain), jobs[n];
            VerifiedBy(Conclude(Attempts(reader, EntriesBefore(reader, jobs, n), job.envs, job.donID, job.rs), 0),
                       Reads(reader, job.envs, job.donID), job.rs)
  {
    EntriesAreFetched(DirectReader(chain), jobs, n);
    VerifiedIff(chain, all, FetchesBefore(DirectReader(chain), jobs, n), jobs[n].envs, jobs[n].donID, jobs[n].rs);
  }

  // ----- Parsing a report -----

  /** The config digest and the sequence number at the head of a report context. */
  predicate ContextRead(response: ReportResponse) {
    if |response.reportContext| >= 40
    then response.configDigest == response.reportContext[..32] && response.seqNr == FromBE(response.reportContext[32..40])
    else response.configDigest == [] && response.seqNr == 0
  }

  /** The digest and the sequence number, written out, are the head of the context. */
  lemma ContextPrinted(response: ReportResponse)
    requires ContextRead(response)
    ensures |response.reportContext| >= 40 ==> response.configDigest + ToBE(response.seqNr, 8) == response.reportContext[..40]
  {
    if |response.reportContext| >= 40 {
      ToFromBE(response.reportContext[32..40]);
      assert response.reportContext[..32] + response.reportContext[32..40] == response.reportContext[..40];
    }
  }

  method NewReport(rawReport: Option<seq<Byte>>, signatures: seq<seq<Byte>>, reportContext: seq<Byte>)
    returns (report: Report, sigs: seq<AttributedSignature>)
    ensures |sigs| == |signatures|
    ensures forall i | 0 <= i < |sigs| :: fresh(sigs[i]) && sigs[i].signature == signatures[i] && sigs[i].signerId == 0
    ensures fresh(report) && fresh(report.response) && report.cachedHeader == None
    ensures report.response.rawReport == rawReport && report.response.reportContext == reportContext
    ensures report.response.sigs == sigs && ContextRead(report.response)
  {
    sigs := [];
    for i := 0 to |signatures|
      invariant |sigs| == i
      invariant forall k | 0 <= k < i :: fresh(sigs[k]) && sigs[k].signature == signatures[k] && sigs[k].signerId == 0
    {
      var s := new AttributedSignature(signatures[i]);
      sigs := sigs + [s];
    }
    var configDigest: seq<Byte>, seqNr := [], 0;
    if |reportContext| >= 40 {
      configDigest := reportContext[..32];
      seqNr := FromBE(reportContext[32..40]);
    }
    var response := new ReportResponse(rawReport, reportContext, configDigest, seqNr, sigs);
    report := new Report(response);
  }

  /** ParseReportWithConfig: the report as built, with its list as it was before verification. On an error the
      report is not handed out. */
  method ParseReportWithConfig(c: Crypto, rt: ChainRuntime, cache: KeyCache, rawReport: Option<seq<Byte>>,
                               signatures: seq<seq<Byte>>, reportContext: seq<Byte>, config: ReportParseConfig)
    returns (r: Outcome<Report, VerificationError>, ghost report: Report, ghost sigs: seq<AttributedSignature>)
    modifies rt, cache
    ensures r.Done? ==> r.value == report
    ensures fresh(report) && report.Valid() && (r.Done? ==> report.cachedHeader.Some?)
    ensures report.response.rawReport == rawReport && report.response.reportContext == reportContext
    ensures ContextRead(report.response)
    ensures |sigs| == |signatures| && forall i | 0 <= i < |sigs| :: sigs[i].signature == signatures[i]
    ensures match ParseRawReport(rawReport)
            case Err(e) => r == Failed(BadHeader(e)) && cache.entries == old(cache.entries) && rt.requests == old(rt.requests)
            case Ok(header) =>
              if config.skipSignatureVerification then
                r == Done(report) && report.response.sigs == sigs
                && cache.entries == old(cache.entries) && rt.requests == old(rt.requests)
              else
                var attempts := Attempts(DirectReader(rt.chain), old(cache.entries), Candidates(config, header.donID),
                                         header.donID, Recoveries(c, report.response.Hash(c), sigs));
                && report.Concluded(c, attempts, sigs, Settled(r))
                && report.Spent(rt, cache, old(rt.requests), old(cache.entries), Candidates(config, header.donID), header.donID,
                                Tried(attempts, 0))
  {
    var built, list := NewReport(rawReport, signatures, reportContext);
    report, sigs := built, list;
    if config.skipSignatureVerification {
      var parsed := built.ParseHeader();
      r := if parsed.Err? then Failed(BadHeader(parsed.error)) else Done(built);
    } else {
      var verdict := built.VerifySignaturesWithConfig(c, rt, cache, config);
      r := match verdict
           case Done(_) => Done(built)
           case Failed(e) => Failed(e)
           case Panicked => Panicked;
    }
  }

  function Settled(r: Outcome<Report, VerificationError>): Outcome<(), VerificationError> {
    match r
    case Done(_) => Done(())
    case Failed(e) => Failed(e)
    case Panicked => Panicked
  }
}
