/** The two-mode runtime as a state machine: the runtimes, their host and their promises as values, and one
    step for each thing a workflow can do (internal/sdkimpl/runtime.go over cre/testutils/runtime.go).

    A workflow is a list of operations. The callback given to RunInNodeMode is the part of the list between an
    `Enter` and its `Leave`; the node runtime it gets may be used anywhere afterwards. */
module Modes {
  import opened Wrappers

  datatype Mode = DonMode | NodeMode

  datatype ModeError = DonCallInNodeMode | NodeCallInDonMode

  type Int32 = x: int | -0x8000_0000 <= x < 0x8000_0000

  function Wrap32(x: int): Int32 {
    (x + 0x8000_0000) % 0x1_0000_0000 - 0x8000_0000
  }

  // ----- Requests and results -----

  datatype SecretRequest = SecretRequest(id: string, namespace: string)

  datatype SecretReply =
    | Secret(id: string, namespace: string, value: string)
    | Missing(id: string, namespace: string)

  datatype Body = Capability(content: string) | SecretList(requests: seq<SecretRequest>)

  datatype Error =
    | NilRequest
    | OutsideMode(mode: ModeError)
    | Refused             // the host does not know the capability
    | Unmarshallable      // the observation cannot be marshalled
    | NoCall              // the host has no call with this id
    | ResponseTooLarge
    | SecretCount
    | SecretErrors(missing: seq<SecretReply>)

  datatype Answer = Response(content: string) | Secrets(secrets: seq<SecretReply>)

  type Res = Result<Answer, Error>

  // ----- The host -----

  datatype Draw = Int63Draw | Uint64Draw | Reseed(seed: int)

  type Word63 = x: int | 0 <= x < 0x8000_0000_0000_0000

  type Word64 = x: int | 0 <= x < 0x1_0000_0000_0000_0000

  /** What the host and its capabilities do. Replies may differ from call to call, so they depend on the
      position of the request; a random source gives numbers that depend on all that was done with it. */
  datatype World = World(
    accepts: (nat, string) -> bool,
    respond: (nat, string) -> string,
    tooLarge: string -> bool,
    secrets: map<(string, string), string>,
    int63: (Mode, seq<Draw>) -> Word63,
    uint64: (Mode, seq<Draw>) -> Word64,
    is64: Mode -> bool)

  /** A request that reached the host: its id, who sent it, the host's mode, and what it asks. */
  datatype Sent = Sent(id: Int32, sender: Mode, hostMode: Mode, body: Body)

  datatype Slot = Waiting(response: string) | Drained

  datatype Host = Host(
    mode: Mode,
    calls: map<Int32, Slot>,
    secretsCalls: map<Int32, seq<SecretReply>>,
    sent: seq<Sent>,
    awaited: seq<Int32>,
    donSource: Option<seq<Draw>>,
    nodeSource: Option<seq<Draw>>)
  {
    function Source(mode: Mode): Option<seq<Draw>> { if mode == DonMode then donSource else nodeSource }

    function WithSource(mode: Mode, source: Option<seq<Draw>>): Host {
      if mode == DonMode then this.(donSource := source) else this.(nodeSource := source)
    }

    /** GetSource creates the source of a mode once. */
    function Sourced(mode: Mode): Host {
      WithSource(mode, Some(if Source(mode).Some? then Source(mode).value else []))
    }
  }

  function HostCall(w: World, h: Host, id: Int32, sender: Mode, content: string): (Host, bool) {
    var n := |h.sent|;
    var h1 := h.(sent := h.sent + [Sent(id, sender, h.mode, Capability(content))]);
    if w.accepts(n, content) then (h1.(calls := h.calls + map[id := Waiting(w.respond(n, content))]), true)
    else (h1, false)
  }

  function Lookup(w: World, req: SecretRequest): SecretReply {
    var key := (req.namespace, req.id);
    if key in w.secrets then Secret(req.id, req.namespace, w.secrets[key]) else Missing(req.id, req.namespace)
  }

  function LookupAll(w: World, reqs: seq<SecretRequest>): (rs: seq<SecretReply>)
    ensures |rs| == |reqs| && forall i | 0 <= i < |rs| :: rs[i] == Lookup(w, reqs[i])
  {
    seq(|reqs|, i requires 0 <= i < |reqs| => Lookup(w, reqs[i]))
  }

  function HostGetSecrets(w: World, h: Host, id: Int32, sender: Mode, reqs: seq<SecretRequest>): Host {
    h.(sent := h.sent + [Sent(id, sender, h.mode, SecretList(reqs))],
       secretsCalls := h.secretsCalls + map[id := LookupAll(w, reqs)])
  }

  /** None: the channel is empty for good, and the await blocks. */
  function HostAwait(w: World, h: Host, id: Int32): (Host, Option<Res>) {
    var h1 := h.(awaited := h.awaited + [id]);
    if id !in h.calls then (h1, Some(Err(NoCall)))
    else match h.calls[id]
      case Drained => (h1, None)
      case Waiting(response) =>
        (h1.(calls := h.calls + map[id := Drained]),
         Some(if w.tooLarge(response) then Err(ResponseTooLarge) else Ok(Response(response))))
  }

  function HostAwaitSecrets(h: Host, id: Int32): (Host, Result<seq<SecretReply>, Error>) {
    (h.(awaited := h.awaited + [id]),
     if id in h.secretsCalls then Ok(h.secretsCalls[id]) else Err(NoCall))
  }

  // ----- Promises -----

  /** A lazy promise remembers what it awaits: the id, where its request is in the host's log, and for secrets
      how many it expects; once awaited, the result. */
  datatype Promise =
    | Fixed(result: Res)
    | Lazy(id: Int32, origin: nat, expected: Option<nat>, cell: Option<Res>)

  /** The missing secrets of a reply, in order. */
  function MissingOf(rs: seq<SecretReply>): seq<SecretReply> {
    if rs == [] then []
    else
      var last := rs[|rs| - 1];
      MissingOf(rs[..|rs| - 1]) + if last.Missing? then [last] else []
  }

  /** The secrets present in a reply, in order. */
  function PresentOf(rs: seq<SecretReply>): seq<SecretReply> {
    if rs == [] then []
    else
      var last := rs[|rs| - 1];
      PresentOf(rs[..|rs| - 1]) + if last.Secret? then [last] else []
  }

  function SecretsResult(rs: seq<SecretReply>, expected: nat): Res {
    if |rs| != expected then Err(SecretCount)
    else if MissingOf(rs) != [] then Err(SecretErrors(MissingOf(rs)))
    else Ok(Secrets(PresentOf(rs)))
  }

  function AwaitPromise(w: World, h: Host, p: Promise): (Host, Promise, Option<Res>) {
    match p
    case Fixed(r) => (h, p, Some(r))
    case Lazy(id, _, expected, cell) =>
      if cell.Some? then (h, p, cell)
      else if expected.None? then
        var (h1, r) := HostAwait(w, h, id);
        (h1, p.(cell := r), r)
      else
        var (h1, reply) := HostAwaitSecrets(h, id);
        var r: Res := match reply
                      case Err(e) => Err(e)
                      case Ok(rs) => SecretsResult(rs, expected.value);
        (h1, p.(cell := Some(r)), Some(r))
  }

  // ----- One runtime -----

  /** `attached` says that the runtime has taken its random source from the host. */
  datatype Base = Base(mode: Mode, modeErr: Option<ModeError>, nextCallId: Int32, attached: bool)

  function Bump(b: Base): Base {
    b.(nextCallId := Wrap32(b.nextCallId + if b.mode == DonMode then 1 else -1))
  }

  /** CallCapability. */
  function Call(w: World, b: Base, h: Host, request: Option<string>): (Base, Host, Promise) {
    match request
    case None => (b, h, Fixed(Err(NilRequest)))
    case Some(content) =>
      var b1 := Bump(b);
      match b.modeErr
      case Some(e) => (b1, h, Fixed(Err(OutsideMode(e))))
      case None =>
        var (h1, accepted) := HostCall(w, h, b1.nextCallId, b.mode, content);
        (b1, h1, if accepted then Lazy(b1.nextCallId, |h.sent|, None, None) else Fixed(Err(Refused)))
  }

  /** A request without a namespace asks for the default one. */
  function Normalised(reqs: seq<SecretRequest>): (ns: seq<SecretRequest>)
    ensures |ns| == |reqs|
  {
    seq(|reqs|, i requires 0 <= i < |reqs| => if reqs[i].namespace == "" then reqs[i].(namespace := "main") else reqs[i])
  }

  /** GetSecrets. */
  function GetSecrets(w: World, b: Base, h: Host, reqs: seq<SecretRequest>): (Base, Host, Promise) {
    if b.modeErr.Some? then (b, h, Fixed(Err(OutsideMode(b.modeErr.value))))
    else if reqs == [] then (b, h, Fixed(Ok(Secrets([]))))
    else
      var b1 := b.(nextCallId := Wrap32(b.nextCallId + 1));
      (b1, HostGetSecrets(w, h, b1.nextCallId, b.mode, Normalised(reqs)),
       Lazy(b1.nextCallId, |h.sent|, Some(|reqs|), None))
  }

  datatype DrawKind = Int63 | Uint64 | Seed(value: int)

  /** What a random draw does to the history of the source. */
  function Drawing(w: World, mode: Mode, history: seq<Draw>, kind: DrawKind): seq<Draw> {
    match kind
    case Int63 => history + [Int63Draw]
    case Uint64 => if w.is64(mode) then history + [Uint64Draw] else history + [Int63Draw, Int63Draw]
    case Seed(v) => history + [Reseed(v)]
  }

  /** The number drawn. Without a 64-bit source, 32 bits of one draw and 32 bits of the next make a number. */
  function Drawn(w: World, mode: Mode, history: seq<Draw>, kind: DrawKind): Word64 {
    match kind
    case Int63 => w.int63(mode, history + [Int63Draw])
    case Uint64 =>
      if w.is64(mode) then w.uint64(mode, history + [Uint64Draw])
      else Join(w.int63(mode, history + [Int63Draw]), w.int63(mode, history + [Int63Draw, Int63Draw]))
    case Seed(_) => 0
  }

  /** a >> 31 | b << 32 in 64 bits; the two parts share no bit. */
  function Join(a: Word63, b: Word63): Word64 {
    a / 0x8000_0000 + b * 0x1_0000_0000 % 0x1_0000_0000_0000_0000
  }

  /** Rand attaches the source of the runtime's mode, unless it is attached already. */
  function Rand(b: Base, h: Host): (Base, Host, Option<ModeError>) {
    if b.modeErr.Some? then (b, h, b.modeErr)
    else if b.attached then (b, h, None)
    else (b.(attached := true), h.Sourced(b.mode), None)
  }

  /** Drawing outside the runtime's mode panics, and so does drawing without a source. */
  function DrawFrom(w: World, b: Base, h: Host, kind: DrawKind): (Host, Option<Word64>) {
    if b.modeErr.Some? || !b.attached || h.Source(b.mode).None? then (h, None)
    else
      var history := h.Source(b.mode).value;
      (h.WithSource(b.mode, Some(Drawing(w, b.mode, history, kind))), Some(Drawn(w, b.mode, history, kind)))
  }

  /** The upper half of the joined number is the lower half of the second draw, the lower half the top of the first. */
  lemma JoinHalves(a: Word63, b: Word63)
    ensures Join(a, b) / 0x1_0000_0000 == b % 0x1_0000_0000 && Join(a, b) % 0x1_0000_0000 == a / 0x8000_0000
  {
    var high := b * 0x1_0000_0000 % 0x1_0000_0000_0000_0000;
    assert high == (b % 0x1_0000_0000) * 0x1_0000_0000;
  }

  // ----- The whole machine -----

  /** `stack` holds the node runtimes whose callbacks are running, outermost first. */
  datatype State = State(don: Base, nextNodeCallId: Int32, nodes: seq<Base>, stack: seq<nat>, host: Host, promises: seq<Promise>)

  datatype Handle = Don | Node(k: nat)

  datatype Op =
    | CallOp(on: Handle, request: Option<string>)
    | SecretsOp(requests: seq<SecretRequest>)
    | RandOp(on: Handle)
    | DrawOp(on: Handle, kind: DrawKind)
    | AwaitOp(promise: nat)
    | Enter
    | Leave(observation: Option<string>) // None: cannot be marshalled

  datatype Out =
    | Promised(promise: nat)
    | RandReady
    | RandRefused(e: ModeError)
    | Number(value: Word64)
    | Panic
    | Awaited(result: Res)
    | Blocked
    | Entered(node: nat)
    | Impossible // the operation names nothing that exists

  function Fresh(): State {
    State(Base(DonMode, None, 0, false), 0, [], [], Host(DonMode, map[], map[], [], [], None, None), [])
  }

  predicate Exists(s: State, on: Handle) {
    on.Node? ==> on.k < |s.nodes|
  }

  function At(s: State, on: Handle): Base
    requires Exists(s, on)
  {
    if on.Don? then s.don else s.nodes[on.k]
  }

  function Put(s: State, on: Handle, b: Base): State
    requires Exists(s, on)
  {
    if on.Don? then s.(don := b) else s.(nodes := s.nodes[on.k := b])
  }

  function Promising(s: State, on: Handle, r: (Base, Host, Promise)): (State, Out)
    requires Exists(s, on)
  {
    (Put(s, on, r.0).(host := r.1, promises := s.promises + [r.2]), Promised(|s.promises|))
  }

  function StepRand(s: State, on: Handle): (State, Out)
    requires Exists(s, on)
  {
    var (b, h, e) := Rand(At(s, on), s.host);
    (Put(s, on, b).(host := h), if e.Some? then RandRefused(e.value) else RandReady)
  }

  function StepDraw(w: World, s: State, on: Handle, kind: DrawKind): (State, Out)
    requires Exists(s, on)
  {
    var (h, v) := DrawFrom(w, At(s, on), s.host, kind);
    (s.(host := h), if v.Some? then Number(v.value) else Panic)
  }

  function StepAwait(w: World, s: State, i: nat): (State, Out)
    requires i < |s.promises|
  {
    var (h, p, r) := AwaitPromise(w, s.host, s.promises[i]);
    (s.(host := h, promises := s.promises[i := p]), if r.Some? then Awaited(r.value) else Blocked)
  }

  /** The first half of RunInNodeMode: the node runtime is a copy of the DON's, its mode error included. */
  function StepEnter(s: State): (State, Out) {
    var nrt := s.don.(mode := NodeMode, nextCallId := s.nextNodeCallId, attached := false);
    (s.(don := s.don.(modeErr := Some(DonCallInNodeMode)),
        nodes := s.nodes + [nrt],
        stack := s.stack + [|s.nodes|],
        host := s.host.(mode := NodeMode)),
     Entered(|s.nodes|))
  }

  /** The second half, for the innermost callback. */
  function Retire(s: State): State
    requires s.stack != [] && s.stack[|s.stack| - 1] < |s.nodes|
  {
    var k := s.stack[|s.stack| - 1];
    s.(don := s.don.(modeErr := None),
       nextNodeCallId := s.nodes[k].nextCallId,
       nodes := s.nodes[k := s.nodes[k].(modeErr := Some(NodeCallInDonMode))],
       stack := s.stack[..|s.stack| - 1],
       host := s.host.(mode := DonMode))
  }

  /** After the callback the observation goes to consensus: one DON call when it can be marshalled. */
  function StepLeave(w: World, s: State, observation: Option<string>): (State, Out)
    requires s.stack != [] && s.stack[|s.stack| - 1] < |s.nodes|
  {
    var t := Retire(s);
    match observation
    case None => (t.(promises := t.promises + [Fixed(Err(Unmarshallable))]), Promised(|t.promises|))
    case Some(_) => Promising(t, Don, Call(w, t.don, t.host, observation))
  }

  function Step(w: World, s: State, op: Op): (State, Out) {
    match op
    case CallOp(on, request) =>
      if Exists(s, on) then Promising(s, on, Call(w, At(s, on), s.host, request)) else (s, Impossible)
    case SecretsOp(reqs) => Promising(s, Don, GetSecrets(w, s.don, s.host, reqs))
    case RandOp(on) => if Exists(s, on) then StepRand(s, on) else (s, Impossible)
    case DrawOp(on, kind) => if Exists(s, on) then StepDraw(w, s, on, kind) else (s, Impossible)
    case AwaitOp(i) => if i < |s.promises| then StepAwait(w, s, i) else (s, Impossible)
    case Enter => StepEnter(s)
    case Leave(observation) =>
      if s.stack != [] && s.stack[|s.stack| - 1] < |s.nodes| then StepLeave(w, s, observation) else (s, Impossible)
  }

  /** The state before operation n. */
  function After(w: World, ops: seq<Op>, n: nat): State
    requires n <= |ops|
  {
    if n == 0 then Fresh() else Step(w, After(w, ops, n - 1), ops[n - 1]).0
  }

  /** What the first n operations gave. */
  function Outs(w: World, ops: seq<Op>, n: nat): seq<Out>
    requires n <= |ops|
  {
    if n == 0 then [] else Outs(w, ops, n - 1) + [Step(w, After(w, ops, n - 1), ops[n - 1]).1]
  }
}
