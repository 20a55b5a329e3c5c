/** The runtime objects themselves, each method proved against the state machine (internal/sdkimpl/runtime.go,
    cre/testutils/runtime.go and GetSource of cre/wasm/runtime.go). */
module Runtimes {
  import opened Wrappers
  import opened Modes

  // ----- The host -----

  /** A random source of the host. */
  class Source {
    const w: World
    const mode: Mode
    var history: seq<Draw>

    constructor (w: World, mode: Mode)
      ensures this.w == w && this.mode == mode && history == []
    {
      this.w, this.mode, history := w, mode, [];
    }

    method Next63() returns (v: Word63)
      modifies this
      ensures history == old(history) + [Int63Draw] && v == w.int63(mode, history)
    {
      history := history + [Int63Draw];
      v := w.int63(mode, history);
    }

    method Next64() returns (v: Word64)
      modifies this
      ensures history == old(history) + [Uint64Draw] && v == w.uint64(mode, history)
    {
      history := history + [Uint64Draw];
      v := w.uint64(mode, history);
    }

    method Reseeded(seed: int)
      modifies this
      ensures history == old(history) + [Reseed(seed)]
    {
      history := history + [Reseed(seed)];
    }
  }

  /** runtimeHelpers. */
  class RuntimeHelpers {
    const w: World
    var mode: Mode
    var calls: map<Int32, Slot>
    var secretsCalls: map<Int32, seq<SecretReply>>
    var sent: seq<Sent>
    var awaited: seq<Int32>
    var donSrc: Source?
    var nodeSrc: Source?

    constructor (w: World)
      ensures this.w == w && Valid() && Abs() == Fresh().host && donSrc == null && nodeSrc == null
    {
      this.w, mode, calls, secretsCalls, sent, awaited := w, DonMode, map[], map[], [], [];
      donSrc, nodeSrc := null, null;
    }

    ghost predicate Valid()
      reads this
    {
      && (donSrc != null ==> donSrc.w == w && donSrc.mode == DonMode)
      && (nodeSrc != null ==> nodeSrc.w == w && nodeSrc.mode == NodeMode)
    }

    function SourceOf(m: Mode): Source?
      reads this
    {
      if m == DonMode then donSrc else nodeSrc
    }

    ghost function Abs(): Host
      reads this, donSrc, nodeSrc
    {
      Host(mode, calls, secretsCalls, sent, awaited,
           if donSrc == null then None else Some(donSrc.history),
           if nodeSrc == null then None else Some(nodeSrc.history))
    }

    /** GetSource. */
    method GetSource(m: Mode) returns (src: Source)
      requires Valid()
      modifies this`donSrc, this`nodeSrc
      ensures Valid() && src == SourceOf(m) && Abs() == old(Abs()).Sourced(m)
      ensures src == old(SourceOf(m)) || (fresh(src) && old(SourceOf(m)) == null)
      ensures SourceOf(if m == DonMode then NodeMode else DonMode) == old(SourceOf(if m == DonMode then NodeMode else DonMode))
    {
      if m == DonMode {
        if donSrc == null {
          donSrc := new Source(w, DonMode);
        }
        return donSrc;
      }
      if nodeSrc == null {
        nodeSrc := new Source(w, NodeMode);
      }
      return nodeSrc;
    }

    /** Call. */
    method Call(id: Int32, sender: Mode, content: string) returns (accepted: bool)
      modifies this`calls, this`sent
      ensures (Abs(), accepted) == HostCall(w, old(Abs()), id, sender, content)
    {
      var n := |sent|;
      sent := sent + [Sent(id, sender, mode, Capability(content))];
      accepted := w.accepts(n, content);
      if accepted {
        calls := calls + map[id := Waiting(w.respond(n, content))];
      }
    }

    /** Await, for one id; None when it blocks. */
    method Await(id: Int32) returns (r: Option<Res>)
      modifies this`calls, this`awaited
      ensures (Abs(), r) == HostAwait(w, old(Abs()), id)
    {
      awaited := awaited + [id];
      if id !in calls {
        return Some(Err(NoCall));
      }
      match calls[id]
      case Drained => r := None;
      case Waiting(response) =>
        calls := calls + map[id := Drained];
        r := Some(if w.tooLarge(response) then Err(ResponseTooLarge) else Ok(Response(response)));
    }

    /** GetSecrets: looks every request up. */
    method GetSecrets(id: Int32, sender: Mode, reqs: seq<SecretRequest>)
      modifies this`secretsCalls, this`sent
      ensures Abs() == HostGetSecrets(w, old(Abs()), id, sender, reqs)
    {
      var resp: seq<SecretReply> := [];
      for i := 0 to |reqs|
        invariant |resp| == i && forall k | 0 <= k < i :: resp[k] == Lookup(w, reqs[k])
      {
        var key := (reqs[i].namespace, reqs[i].id);
        if key in w.secrets {
          resp := resp + [Secret(reqs[i].id, reqs[i].namespace, w.secrets[key])];
        } else {
          resp := resp + [Missing(reqs[i].id, reqs[i].namespace)];
        }
      }
      assert resp == LookupAll(w, reqs);
      sent := sent + [Sent(id, sender, mode, SecretList(reqs))];
      secretsCalls := secretsCalls + map[id := resp];
    }

    /** AwaitSecrets, for one id. */
    method AwaitSecrets(id: Int32) returns (r: Result<seq<SecretReply>, Error>)
      modifies this`awaited
      ensures (Abs(), r) == HostAwaitSecrets(old(Abs()), id)
    {
      awaited := awaited + [id];
      r := if id in secretsCalls then Ok(secretsCalls[id]) else Err(NoCall);
    }
  }

  // ----- Promises of the runtime -----

  /** What CallCapability and GetSecrets return: a fixed result, or an await that runs once. */
  class RuntimePromise {
    const host: RuntimeHelpers
    const fixed: Option<Res>
    const id: Int32
    const expected: Option<nat>
    ghost const origin: nat
    var cell: Option<Res>

    /** PromiseFromResult. */
    constructor FromResult(host: RuntimeHelpers, r: Res)
      ensures this.host == host && Abs() == Fixed(r)
    {
      this.host, fixed, id, expected, origin, cell := host, Some(r), 0, None, 0, None;
    }

    /** NewBasicPromise over the await of one id. */
    constructor Awaiting(host: RuntimeHelpers, id: Int32, ghost origin: nat, expected: Option<nat>)
      ensures this.host == host && Abs() == Lazy(id, origin, expected, None)
    {
      this.host, fixed, this.id, this.expected, this.origin, cell := host, None, id, expected, origin, None;
    }

    ghost function Abs(): Promise
      reads this
    {
      if fixed.Some? then Fixed(fixed.value) else Lazy(id, origin, expected, cell)
    }

    /** Await; None when it blocks. */
    method Await() returns (r: Option<Res>)
      modifies this`cell, host`calls, host`awaited
      ensures (host.Abs(), Abs(), r) == AwaitPromise(host.w, old(host.Abs()), old(Abs()))
    {
      if fixed.Some? {
        return fixed;
      }
      if cell.Some? {
        return cell;
      }
      if expected.None? {
        r := host.Await(id);
      } else {
        var reply := host.AwaitSecrets(id);
        if reply.Err? {
          r := Some(Err(reply.error));
        } else {
          var secrets := CollectSecrets(reply.value, expected.value);
          r := Some(secrets);
        }
      }
      cell := r;
    }
  }

  /** The part of the secrets await that turns the replies into secrets or into an error. */
  method CollectSecrets(rs: seq<SecretReply>, expected: nat) returns (r: Res)
    ensures r == SecretsResult(rs, expected)
  {
    if |rs| != expected {
      return Err(SecretCount);
    }
    var secrets: seq<SecretReply>, errs: seq<SecretReply> := [], [];
    for i := 0 to |rs|
      invariant secrets == PresentOf(rs[..i]) && errs == MissingOf(rs[..i])
    {
      assert rs[..i + 1][..i] == rs[..i];
      if rs[i].Missing? {
        errs := errs + [rs[i]];
      } else {
        secrets := secrets + [rs[i]];
      }
    }
    assert rs[..|rs|] == rs;
    r := if |errs| > 0 then Err(SecretErrors(errs)) else Ok(Secrets(secrets));
  }

  // ----- The runtimes -----

  class CapabilityRequest {
    const content: string
    var callbackId: Int32

    constructor (content: string)
      ensures this.content == content && callbackId == 0
    {
      this.content, callbackId := content, 0;
    }
  }

  /** RuntimeBase; a node runtime is nothing else. */
  class RuntimeBase {
    const host: RuntimeHelpers
    const mode: Mode
    var modeErr: Option<ModeError>
    var nextCallId: Int32
    var source: Source?
    var source64: Source?

    constructor (host: RuntimeHelpers, mode: Mode, modeErr: Option<ModeError>, nextCallId: Int32)
      ensures this.host == host && Abs() == Base(mode, modeErr, nextCallId, false)
      ensures source == null && source64 == null
    {
      this.host, this.mode, this.modeErr, this.nextCallId := host, mode, modeErr, nextCallId;
      source, source64 := null, null;
    }

    ghost predicate Valid()
      reads this, host
    {
      && host.Valid()
      && (source != null ==> source == host.SourceOf(mode))
      && source64 == if host.w.is64(mode) then source else null
    }

    ghost function Abs(): Base
      reads this
    {
      Base(mode, modeErr, nextCallId, source != null)
    }

    /** CallCapability. */
    method CallCapability(request: CapabilityRequest?) returns (p: RuntimePromise)
      requires Valid()
      modifies this`nextCallId, host`calls, host`sent, request
      ensures Valid() && fresh(p) && p.host == host
      ensures (Abs(), host.Abs(), p.Abs()) ==
              Call(host.w, old(Abs()), old(host.Abs()), if request == null then None else Some(request.content))
      ensures request != null ==> request.callbackId == nextCallId
    {
      if request == null {
        p := new RuntimePromise.FromResult(host, Err(NilRequest));
        return;
      }
      if mode == DonMode {
        nextCallId := Wrap32(nextCallId + 1);
      } else {
        nextCallId := Wrap32(nextCallId - 1);
      }
      assert Abs() == Bump(old(Abs()));
      var myId := nextCallId;
      request.callbackId := myId;
      if modeErr.Some? {
        p := new RuntimePromise.FromResult(host, Err(OutsideMode(modeErr.value)));
      } else {
        p := Submit(myId, request.content);
      }
    }

    /** The call to the host, and the promise of its reply. */
    method Submit(myId: Int32, content: string) returns (p: RuntimePromise)
      modifies host`calls, host`sent
      ensures fresh(p) && p.host == host
      ensures var (h, accepted) := HostCall(host.w, old(host.Abs()), myId, mode, content);
              && host.Abs() == h
              && p.Abs() == if accepted then Lazy(myId, |old(host.sent)|, None, None) else Fixed(Err(Refused))
    {
      ghost var n := |host.sent|;
      var accepted := host.Call(myId, mode, content);
      if accepted {
        p := new RuntimePromise.Awaiting(host, myId, n, None);
      } else {
        p := new RuntimePromise.FromResult(host, Err(Refused));
      }
    }

    /** Rand; None when it succeeds. */
    method Random() returns (e: Option<ModeError>)
      requires Valid()
      modifies this`source, this`source64, host`donSrc, host`nodeSrc
      ensures Valid() && (Abs(), host.Abs(), e) == Rand(old(Abs()), old(host.Abs()))
      ensures forall m :: host.SourceOf(m) == old(host.SourceOf(m)) || (fresh(host.SourceOf(m)) && old(host.SourceOf(m)) == null)
    {
      if modeErr.Some? {
        return modeErr;
      }
      if source == null {
        source := host.GetSource(mode);
        if host.w.is64(mode) {
          source64 := source;
        }
      }
      return None;
    }

    /** Int63, Uint64 and Seed; None when they panic. */
    method DrawNumber(kind: DrawKind) returns (v: Option<Word64>)
      requires Valid()
      modifies source
      ensures Valid() && Abs() == old(Abs())
      ensures (host.Abs(), v) == DrawFrom(host.w, old(Abs()), old(host.Abs()), kind)
    {
      if modeErr.Some? {
        return None;
      }
      if source == null {
        return None;
      }
      match kind
      case Int63 =>
        var x := source.Next63();
        return Some(x);
      case Uint64 =>
        if source64 != null {
          var x := source64.Next64();
          return Some(x);
        }
        var a := source.Next63();
        var b := source.Next63();
        assert source.history == old(source.history) + [Int63Draw, Int63Draw];
        return Some(Join(a, b));
      case Seed(seed) =>
        source.Reseeded(seed);
        return Some(0);
    }
  }

  /** The DON runtime. */
  class Runtime {
    const base: RuntimeBase
    var nextNodeCallId: Int32

    constructor (host: RuntimeHelpers)
      ensures fresh(base) && base.host == host && base.Abs() == Fresh().don && nextNodeCallId == 0
      ensures base.source == null && base.source64 == null
    {
      base := new RuntimeBase(host, DonMode, None, 0);
      nextNodeCallId := 0;
    }

    /** GetSecrets. */
    method GetSecrets(reqs: seq<SecretRequest>) returns (p: RuntimePromise)
      requires base.Valid()
      modifies base`nextCallId, base.host`secretsCalls, base.host`sent
      ensures base.Valid() && fresh(p) && p.host == base.host
      ensures (base.Abs(), base.host.Abs(), p.Abs()) == Modes.GetSecrets(base.host.w, old(base.Abs()), old(base.host.Abs()), reqs)
    {
      if base.modeErr.Some? {
        p := new RuntimePromise.FromResult(base.host, Err(OutsideMode(base.modeErr.value)));
        return;
      }
      if |reqs| == 0 {
        p := new RuntimePromise.FromResult(base.host, Ok(Secrets([])));
        return;
      }
      var normalised := NormaliseAll(reqs);
      base.nextCallId := Wrap32(base.nextCallId + 1);
      var myId := base.nextCallId;
      ghost var n := |base.host.sent|;
      base.host.GetSecrets(myId, base.mode, normalised);
      p := new RuntimePromise.Awaiting(base.host, myId, n, Some(|normalised|));
    }

    /** RunInNodeMode up to the call of the callback. */
    method EnterNodeMode() returns (nrt: RuntimeBase)
      requires base.Valid()
      modifies base`modeErr, base.host`mode
      ensures base.Valid() && fresh(nrt) && nrt.host == base.host && nrt.Valid()
      ensures nrt.Abs() == old(base.Abs()).(mode := NodeMode, nextCallId := nextNodeCallId, attached := false)
      ensures base.Abs() == old(base.Abs()).(modeErr := Some(DonCallInNodeMode))
      ensures base.host.Abs() == old(base.host.Abs()).(mode := NodeMode)
    {
      nrt := new RuntimeBase(base.host, NodeMode, base.modeErr, nextNodeCallId);
      base.modeErr := Some(DonCallInNodeMode);
      base.host.mode := NodeMode;
    }

    /** RunInNodeMode from the return of the callback up to the consensus call. */
    method LeaveNodeMode(nrt: RuntimeBase)
      requires base.Valid() && nrt != base && nrt.host == base.host && nrt.Valid()
      modifies this, base`modeErr, nrt`modeErr, base.host`mode
      ensures base.Valid() && nrt.Valid() && nextNodeCallId == nrt.nextCallId
      ensures nrt.Abs() == old(nrt.Abs()).(modeErr := Some(NodeCallInDonMode))
      ensures base.Abs() == old(base.Abs()).(modeErr := None)
      ensures base.host.Abs() == old(base.host.Abs()).(mode := DonMode)
    {
      base.host.mode := DonMode;
      nrt.modeErr := Some(NodeCallInDonMode);
      base.modeErr := None;
      nextNodeCallId := nrt.nextCallId;
    }

    /** The consensus call: one capability call, when the observation can be marshalled. */
    method Simple(observation: Option<string>) returns (p: RuntimePromise)
      requires base.Valid()
      modifies base`nextCallId, base.host`calls, base.host`sent
      ensures base.Valid() && fresh(p) && p.host == base.host
      ensures if observation.None? then
                base.Abs() == old(base.Abs()) && base.host.Abs() == old(base.host.Abs()) && p.Abs() == Fixed(Err(Unmarshallable))
              else
                (base.Abs(), base.host.Abs(), p.Abs()) == Call(base.host.w, old(base.Abs()), old(base.host.Abs()), observation)
    {
      if observation.None? {
        p := new RuntimePromise.FromResult(base.host, Err(Unmarshallable));
        return;
      }
      var request := new CapabilityRequest(observation.value);
      p := base.CallCapability(request);
    }
  }

  /** normalizeSecretRequests. */
  method NormaliseAll(reqs: seq<SecretRequest>) returns (normalised: seq<SecretRequest>)
    ensures normalised == Normalised(reqs)
  {
    normalised := [];
    for i := 0 to |reqs|
      invariant |normalised| == i && forall k | 0 <= k < i :: normalised[k] == Normalised(reqs)[k]
    {
      if reqs[i].namespace == "" {
        normalised := normalised + [SecretRequest(reqs[i].id, "main")];
      } else {
        normalised := normalised + [reqs[i]];
      }
    }
  }

  /** TeeRuntime: another name for the DON runtime's own state. */
  class TeeRuntime {
    const don: Runtime

    constructor (don: Runtime)
      ensures this.don == don
    {
      this.don := don;
    }

    method CallCapability(request: CapabilityRequest?) returns (p: RuntimePromise)
      requires don.base.Valid()
      modifies don.base`nextCallId, don.base.host`calls, don.base.host`sent, request
      ensures don.base.Valid() && fresh(p) && p.host == don.base.host
      ensures (don.base.Abs(), don.base.host.Abs(), p.Abs()) ==
              Call(don.base.host.w, old(don.base.Abs()), old(don.base.host.Abs()),
                   if request == null then None else Some(request.content))
      ensures request != null ==> request.callbackId == don.base.nextCallId
    {
      p := don.base.CallCapability(request);
    }

    method Random() returns (e: Option<ModeError>)
      requires don.base.Valid()
      modifies don.base`source, don.base`source64, don.base.host`donSrc, don.base.host`nodeSrc
      ensures don.base.Valid()
      ensures (don.base.Abs(), don.base.host.Abs(), e) == Rand(old(don.base.Abs()), old(don.base.host.Abs()))
    {
      e := don.base.Random();
    }

    method GetSecrets(reqs: seq<SecretRequest>) returns (p: RuntimePromise)
      requires don.base.Valid()
      modifies don.base`nextCallId, don.base.host`secretsCalls, don.base.host`sent
      ensures don.base.Valid() && fresh(p) && p.host == don.base.host
      ensures (don.base.Abs(), don.base.host.Abs(), p.Abs()) ==
              Modes.GetSecrets(don.base.host.w, old(don.base.Abs()), old(don.base.host.Abs()), reqs)
    {
      p := don.GetSecrets(reqs);
    }
  }
}
