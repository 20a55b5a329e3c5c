/** Response routing: every promise yields the reply to its own request, whenever and however often it is
    awaited. */
module Routing {
  import opened Wrappers
  import opened Modes
  import opened Steps
  import opened Exclusion
  import opened CallbackIds
  import opened Nesting

  // ----- What is due -----

  /** The reply to the n-th request of the host. */
  function ReplyTo(w: World, n: nat, content: string): Res {
    if w.tooLarge(w.respond(n, content)) then Err(ResponseTooLarge) else Ok(Response(w.respond(n, content)))
  }

  function SecretsFor(w: World, reqs: seq<SecretRequest>): Res {
    SecretsResult(LookupAll(w, reqs), |reqs|)
  }

  function CallDue(w: World, b: Base, n: nat, request: Option<string>): Res {
    match request
    case None => Err(NilRequest)
    case Some(content) =>
      if b.modeErr.Some? then Err(OutsideMode(b.modeErr.value))
      else if !w.accepts(n, content) then Err(Refused)
      else ReplyTo(w, n, content)
  }

  /** The operation makes a promise. */
  predicate Promises(s: State, op: Op) {
    (op.CallOp? && Exists(s, op.on)) || op.SecretsOp? || Leaves(s, op)
  }

  /** What the promise of an operation is due to yield. */
  function Due(w: World, s: State, op: Op): Res
    requires Promises(s, op)
  {
    match op
    case CallOp(on, request) => CallDue(w, At(s, on), |s.host.sent|, request)
    case Leave(None) => Err(Unmarshallable)
    case Leave(Some(content)) =>
      if w.accepts(|s.host.sent|, content) then ReplyTo(w, |s.host.sent|, content) else Err(Refused)
    case SecretsOp(reqs) =>
      if s.don.modeErr.Some? then Err(OutsideMode(s.don.modeErr.value)) else SecretsFor(w, Normalised(reqs))
    case _ => Err(NoCall)
  }

  /** The reply to the request that a promise came from. */
  function OwnReply(w: World, sent: seq<Sent>, p: Promise): Res {
    match p
    case Fixed(r) => r
    case Lazy(_, origin, _, _) =>
      if origin >= |sent| then Err(NoCall)
      else match sent[origin].body
        case Capability(content) => ReplyTo(w, origin, content)
        case SecretList(reqs) => SecretsFor(w, reqs)
  }

  // ----- What the host keeps for the promises -----

  predicate Known(sent: seq<Sent>, id: Int32) {
    exists o :: 0 <= o < |sent| && sent[o].id == id
  }

  /** An unawaited promise finds the reply to its own request. */
  predicate Waits(w: World, h: Host, p: Promise)
    requires p.Lazy? && p.origin < |h.sent|
  {
    && p.id !in h.awaited
    && match h.sent[p.origin].body
       case Capability(content) =>
         p.expected == None && p.id in h.calls && h.calls[p.id] == Waiting(w.respond(p.origin, content))
       case SecretList(reqs) =>
         p.expected == Some(|reqs|) && p.id in h.secretsCalls && h.secretsCalls[p.id] == LookupAll(w, reqs)
  }

  predicate PromiseRouted(w: World, h: Host, p: Promise) {
    p.Lazy? ==>
      && p.origin < |h.sent| && h.sent[p.origin].id == p.id
      && (if p.cell.None? then Waits(w, h, p) else p.cell.value == OwnReply(w, h.sent, p))
  }

  predicate Routed(w: World, h: Host, ps: seq<Promise>) {
    && (forall i | 0 <= i < |ps| :: PromiseRouted(w, h, ps[i]))
    && (forall i, j | 0 <= i < j < |ps| && ps[i].Lazy? && ps[j].Lazy? :: ps[i].origin != ps[j].origin)
    && (forall a, b | 0 <= a < b < |h.awaited| :: h.awaited[a] != h.awaited[b])
    && (forall a | 0 <= a < |h.awaited| :: Known(h.sent, h.awaited[a]))
  }

  /** A new request leaves what the host keeps for the other promises alone. */
  predicate Adds(h: Host, h1: Host, x: Sent) {
    && h1.sent == h.sent + [x] && h1.awaited == h.awaited
    && (forall id | id in h.calls && id != x.id :: id in h1.calls && h1.calls[id] == h.calls[id])
    && (forall id | id in h.secretsCalls && id != x.id :: id in h1.secretsCalls && h1.secretsCalls[id] == h.secretsCalls[id])
  }

  lemma NewIdUnknown(h: Host, x: Sent)
    requires UniqueIds(h.sent + [x])
    ensures !Known(h.sent, x.id)
  {
    var sent := h.sent + [x];
    assert forall o | 0 <= o < |h.sent| :: sent[o] == h.sent[o];
    assert sent[|h.sent|] == x;
  }

  lemma KnownGrows(sent: seq<Sent>, x: Sent, id: Int32)
    requires Known(sent, id)
    ensures Known(sent + [x], id)
  {
    var o :| 0 <= o < |sent| && sent[o].id == id;
    assert (sent + [x])[o].id == id;
  }

  lemma AddsPromise(w: World, h: Host, h1: Host, x: Sent, p: Promise)
    requires PromiseRouted(w, h, p) && Adds(h, h1, x) && UniqueIds(h1.sent)
    ensures PromiseRouted(w, h1, p)
  {
    if p.Lazy? {
      NewIdUnknown(h, x);
      assert h1.sent[p.origin] == h.sent[p.origin];
    }
  }

  lemma AddsRouted(w: World, h: Host, h1: Host, ps: seq<Promise>, x: Sent, p: Promise)
    requires Routed(w, h, ps) && Adds(h, h1, x) && UniqueIds(h1.sent)
    requires p.Lazy? ==> p.origin == |h.sent| && p.id == x.id && p.cell == None
    requires p.Lazy? && p.id !in h1.awaited ==> Waits(w, h1, p)
    ensures Routed(w, h1, ps + [p])
  {
    NewIdUnknown(h, x);
    assert x.id !in h1.awaited;
    forall i | 0 <= i < |ps| ensures PromiseRouted(w, h1, ps[i]) {
      AddsPromise(w, h, h1, x, ps[i]);
    }
    forall a | 0 <= a < |h1.awaited| ensures Known(h1.sent, h1.awaited[a]) {
      KnownGrows(h.sent, x, h.awaited[a]);
    }
    assert forall i | 0 <= i < |ps| && ps[i].Lazy? :: ps[i].origin < |h.sent|;
  }

  lemma FixedRouted(w: World, h: Host, ps: seq<Promise>, r: Res)
    requires Routed(w, h, ps)
    ensures Routed(w, h, ps + [Fixed(r)])
  {
  }

  lemma CallRouted(w: World, b: Base, h: Host, ps: seq<Promise>, request: Option<string>)
    requires Routed(w, h, ps) && UniqueIds(Call(w, b, h, request).1.sent)
    ensures Routed(w, Call(w, b, h, request).1, ps + [Call(w, b, h, request).2])
    ensures OwnReply(w, Call(w, b, h, request).1.sent, Call(w, b, h, request).2) == CallDue(w, b, |h.sent|, request)
  {
    var (b1, h1, p) := Call(w, b, h, request);
    if request.None? || b.modeErr.Some? {
      FixedRouted(w, h, ps, p.result);
    } else {
      AddsRouted(w, h, h1, ps, Sent(b1.nextCallId, b.mode, h.mode, Capability(request.value)), p);
    }
  }

  lemma SecretsRouted(w: World, b: Base, h: Host, ps: seq<Promise>, reqs: seq<SecretRequest>)
    requires Routed(w, h, ps) && UniqueIds(GetSecrets(w, b, h, reqs).1.sent)
    ensures Routed(w, GetSecrets(w, b, h, reqs).1, ps + [GetSecrets(w, b, h, reqs).2])
    ensures OwnReply(w, GetSecrets(w, b, h, reqs).1.sent, GetSecrets(w, b, h, reqs).2) ==
            if b.modeErr.Some? then Err(OutsideMode(b.modeErr.value)) else SecretsFor(w, Normalised(reqs))
  {
    var (b1, h1, p) := GetSecrets(w, b, h, reqs);
    if b.modeErr.Some? || reqs == [] {
      FixedRouted(w, h, ps, p.result);
    } else {
      AddsRouted(w, h, h1, ps, Sent(b1.nextCallId, b.mode, h.mode, SecretList(Normalised(reqs))), p);
    }
  }

  /** Awaiting a promise takes nothing from another one. */
  lemma AwaitLeavesOthers(w: World, h: Host, p: Promise, q: Promise)
    requires PromiseRouted(w, h, p) && PromiseRouted(w, h, q) && UniqueIds(h.sent)
    requires p.Lazy? && q.Lazy? ==> p.origin != q.origin
    ensures PromiseRouted(w, AwaitPromise(w, h, p).0, q)
  {
    if p.Lazy? && q.Lazy? {
      assert p.id != q.id;
    }
  }

  lemma AwaitOwn(w: World, h: Host, p: Promise)
    requires PromiseRouted(w, h, p)
    ensures var (h1, q, r) := AwaitPromise(w, h, p);
            && r == Some(OwnReply(w, h.sent, p)) && PromiseRouted(w, h1, q) && h1.sent == h.sent
            && OwnReply(w, h1.sent, q) == OwnReply(w, h.sent, p)
            && (h1.awaited == h.awaited || (p.Lazy? && p.id !in h.awaited && h1.awaited == h.awaited + [p.id]))
            && q.Lazy? == p.Lazy? && (p.Lazy? ==> q.origin == p.origin)
  {
  }

  lemma AwaitRouted(w: World, h: Host, ps: seq<Promise>, i: nat)
    requires Routed(w, h, ps) && i < |ps| && UniqueIds(h.sent)
    ensures var (h1, p, r) := AwaitPromise(w, h, ps[i]);
            Routed(w, h1, ps[i := p]) && r == Some(OwnReply(w, h.sent, ps[i]))
  {
    var (h1, p, r) := AwaitPromise(w, h, ps[i]);
    AwaitOwn(w, h, ps[i]);
    forall j | 0 <= j < |ps| && j != i ensures PromiseRouted(w, h1, ps[j]) {
      AwaitLeavesOthers(w, h, ps[i], ps[j]);
    }
    forall a | 0 <= a < |h1.awaited| ensures Known(h1.sent, h1.awaited[a]) {
      if a == |h.awaited| {
        assert h.sent[ps[i].origin].id == h1.awaited[a];
      }
    }
  }

  // ----- Whole runs -----

  /** The run neither reenters nor uses up a counter before operation n. */
  predicate Modest(ops: seq<Op>, n: nat) {
    && n <= |ops| && NoReentryTo(ops, n)
    && DonAsks(ops, n) < MAX_ASKS && NodeAsks(ops, n) < MAX_ASKS
  }

  lemma ModestPrefix(ops: seq<Op>, m: nat, n: nat)
    requires m <= n && Modest(ops, n)
    ensures Modest(ops, m)
    decreases n
  {
    if m < n {
      ModestPrefix(ops, m, n - 1);
    }
  }

  lemma ModestUnique(w: World, ops: seq<Op>, n: nat)
    requires Modest(ops, n)
    ensures UniqueIds(After(w, ops, n).host.sent) && Stacked(After(w, ops, n))
  {
    RunDon(w, ops, n);
    RunNode(w, ops, n);
    DirectedUnique(After(w, ops, n).host.sent);
  }

  lemma RandRouted(w: World, s: State, on: Handle)
    requires Exists(s, on) && Routed(w, s.host, s.promises)
    ensures Routed(w, StepRand(s, on).0.host, StepRand(s, on).0.promises)
  {
  }

  lemma DrawRouted(w: World, s: State, on: Handle, kind: DrawKind)
    requires Exists(s, on) && Routed(w, s.host, s.promises)
    ensures Routed(w, StepDraw(w, s, on, kind).0.host, StepDraw(w, s, on, kind).0.promises)
  {
  }

  lemma LeaveRouted(w: World, s: State, observation: Option<string>)
    requires Stacked(s) && s.stack != [] && Routed(w, s.host, s.promises)
    requires UniqueIds(StepLeave(w, s, observation).0.host.sent)
    ensures var t := StepLeave(w, s, observation).0;
            && Routed(w, t.host, t.promises) && |t.promises| == |s.promises| + 1
            && OwnReply(w, t.host.sent, t.promises[|s.promises|]) == Due(w, s, Leave(observation))
  {
    var u := Retire(s);
    assert Routed(w, u.host, u.promises);
    if observation.None? {
      FixedRouted(w, u.host, u.promises, Err(Unmarshallable));
    } else {
      CallRouted(w, u.don, u.host, u.promises, observation);
    }
  }

  lemma StepRouted(w: World, s: State, op: Op, t: State)
    requires Stacked(s) && Routed(w, s.host, s.promises)
    requires t == Step(w, s, op).0 && UniqueIds(s.host.sent) && UniqueIds(t.host.sent)
    ensures Routed(w, t.host, t.promises)
  {
    match op
    case CallOp(on, request) => if Exists(s, on) { CallRouted(w, At(s, on), s.host, s.promises, request); }
    case SecretsOp(reqs) => SecretsRouted(w, s.don, s.host, s.promises, reqs);
    case RandOp(on) => if Exists(s, on) { RandRouted(w, s, on); }
    case DrawOp(on, kind) => if Exists(s, on) { DrawRouted(w, s, on, kind); }
    case AwaitOp(i) => if i < |s.promises| { AwaitRouted(w, s.host, s.promises, i); }
    case Enter =>
    case Leave(observation) => if s.stack != [] { LeaveRouted(w, s, observation); }
  }

  lemma NextRouted(w: World, ops: seq<Op>, n: nat)
    requires 0 < n && Modest(ops, n) && Routed(w, After(w, ops, n - 1).host, After(w, ops, n - 1).promises)
    ensures Routed(w, After(w, ops, n).host, After(w, ops, n).promises)
  {
    ModestPrefix(ops, n - 1, n);
    ModestUnique(w, ops, n - 1);
    ModestUnique(w, ops, n);
    StepRouted(w, After(w, ops, n - 1), ops[n - 1], After(w, ops, n));
  }

  lemma {:induction false} RunRouted(w: World, ops: seq<Op>, n: nat)
    requires Modest(ops, n)
    ensures Routed(w, After(w, ops, n).host, After(w, ops, n).promises)
    decreases n
  {
    if n > 0 {
      ModestPrefix(ops, n - 1, n);
      RunRouted(w, ops, n - 1);
      NextRouted(w, ops, n);
    }
  }

  /** The promise that an operation makes is due to yield what the operation asked for. */
  lemma Made(w: World, s: State, op: Op, t: State)
    requires Stacked(s) && Routed(w, s.host, s.promises) && Promises(s, op)
    requires t == Step(w, s, op).0 && UniqueIds(t.host.sent)
    ensures |s.promises| < |t.promises| && OwnReply(w, t.host.sent, t.promises[|s.promises|]) == Due(w, s, op)
    ensures Step(w, s, op).1 == Promised(|s.promises|)
  {
    match op
    case CallOp(on, request) => CallRouted(w, At(s, on), s.host, s.promises, request);
    case SecretsOp(reqs) => SecretsRouted(w, s.don, s.host, s.promises, reqs);
    case Leave(observation) => LeaveRouted(w, s, observation);
    case _ =>
  }

  /** What a promise is due to yield does not change. */
  predicate KeepsDue(w: World, s: State, t: State) {
    && |s.promises| <= |t.promises|
    && forall i | 0 <= i < |s.promises| ::
         OwnReply(w, t.host.sent, t.promises[i]) == OwnReply(w, s.host.sent, s.promises[i])
  }

  lemma StepKeepsDue(w: World, s: State, op: Op, t: State)
    requires Stacked(s) && Routed(w, s.host, s.promises) && t == Step(w, s, op).0
    ensures KeepsDue(w, s, t)
  {
    forall i | 0 <= i < |s.promises| ensures s.promises[i].Lazy? ==> s.promises[i].origin < |s.host.sent| {
      assert PromiseRouted(w, s.host, s.promises[i]);
    }
    match op
    case AwaitOp(i) => if i < |s.promises| { AwaitOwn(w, s.host, s.promises[i]); }
    case _ => SentKeepsDue(w, s, op);
  }

  predicate Extends(s: State, t: State) {
    && |s.promises| <= |t.promises| && |s.host.sent| <= |t.host.sent|
    && (forall i | 0 <= i < |s.promises| :: t.promises[i] == s.promises[i])
    && (forall i | 0 <= i < |s.host.sent| :: t.host.sent[i] == s.host.sent[i])
  }

  lemma StepExtends(w: World, s: State, op: Op)
    requires Stacked(s) && !op.AwaitOp?
    ensures Extends(s, Step(w, s, op).0)
  {
    match op
    case CallOp(on, request) =>
    case SecretsOp(reqs) =>
    case RandOp(on) =>
    case DrawOp(on, kind) =>
    case Enter =>
    case Leave(observation) =>
      if s.stack != [] {
        assert Extends(Retire(s), StepLeave(w, s, observation).0);
      }
  }

  lemma SentKeepsDue(w: World, s: State, op: Op)
    requires Stacked(s) && !op.AwaitOp?
    requires forall i | 0 <= i < |s.promises| && s.promises[i].Lazy? :: s.promises[i].origin < |s.host.sent|
    ensures KeepsDue(w, s, Step(w, s, op).0)
  {
    StepExtends(w, s, op);
  }

  lemma {:induction false} RunKeepsDue(w: World, ops: seq<Op>, m: nat, n: nat)
    requires m <= n && Modest(ops, n)
    ensures KeepsDue(w, After(w, ops, m), After(w, ops, n))
    decreases n
  {
    if m < n {
      ModestPrefix(ops, n - 1, n);
      RunKeepsDue(w, ops, m, n - 1);
      RunRouted(w, ops, n - 1);
      ModestUnique(w, ops, n - 1);
      StepKeepsDue(w, After(w, ops, n - 1), ops[n - 1], After(w, ops, n));
    }
  }

  lemma MadeInRun(w: World, ops: seq<Op>, m: nat)
    requires m < |ops| && Modest(ops, m + 1) && Promises(After(w, ops, m), ops[m])
    ensures var s, t := After(w, ops, m), After(w, ops, m + 1);
            |s.promises| < |t.promises| && OwnReply(w, t.host.sent, t.promises[|s.promises|]) == Due(w, s, ops[m])
  {
    ModestPrefix(ops, m, m + 1);
    RunRouted(w, ops, m);
    ModestUnique(w, ops, m);
    ModestUnique(w, ops, m + 1);
    Made(w, After(w, ops, m), ops[m], After(w, ops, m + 1));
  }

  lemma AwaitGivesOwn(w: World, s: State, i: nat)
    requires Routed(w, s.host, s.promises) && i < |s.promises|
    ensures Step(w, s, AwaitOp(i)).1 == Awaited(OwnReply(w, s.host.sent, s.promises[i]))
  {
    AwaitOwn(w, s.host, s.promises[i]);
  }

  /** For every interleaving of issuing and awaiting, in any order and with repetitions: an await gives what the
      operation that made the promise is due, and never blocks. */
  lemma EachYieldsOwnReply(w: World, ops: seq<Op>, m: nat, n: nat)
    requires m < n < |ops| && Modest(ops, n)
    requires Promises(After(w, ops, m), ops[m]) && ops[n] == AwaitOp(|After(w, ops, m).promises|)
    ensures Step(w, After(w, ops, n), ops[n]).1 == Awaited(Due(w, After(w, ops, m), ops[m]))
  {
    ModestPrefix(ops, m + 1, n);
    MadeInRun(w, ops, m);
    RunKeepsDue(w, ops, m + 1, n);
    RunRouted(w, ops, n);
    AwaitGivesOwn(w, After(w, ops, n), |After(w, ops, m).promises|);
  }

  /** The host is asked to await each id at most once. */
  lemma AwaitedOnce(w: World, ops: seq<Op>, n: nat)
    requires Modest(ops, n)
    ensures var awaited := After(w, ops, n).host.awaited;
            forall a, b | 0 <= a < b < |awaited| :: awaited[a] != awaited[b]
  {
    RunRouted(w, ops, n);
  }

  // ----- Every skeleton with a reentry can be filled so that a promise misses its reply -----

  /** Operation n awaits the promise that operation m made. */
  predicate AwaitsFrom(w: World, ops: seq<Op>, m: nat, n: nat)
    requires m < n < |ops|
  {
    Promises(After(w, ops, m), ops[m]) && ops[n] == AwaitOp(|After(w, ops, m).promises|)
  }

  predicate RoutedAt(w: World, ops: seq<Op>, m: nat, n: nat)
    requires m < n < |ops|
  {
    AwaitsFrom(w, ops, m, n) ==> Step(w, After(w, ops, n), ops[n]).1 == Awaited(Due(w, After(w, ops, m), ops[m]))
  }

  predicate AllRouted(w: World, ops: seq<Op>) {
    forall m, n | 0 <= m < n < |ops| :: RoutedAt(w, ops, m, n)
  }

  ghost predicate AcceptsAll(w: World, content: string) {
    forall n: nat :: w.accepts(n, content)
  }

  lemma TwinCallState(w: World, s: State, a: nat, b: nat, s1: State, s2: State)
    requires Twins(s, a, b) && AcceptsAll(w, "x") && AcceptsAll(w, "y")
    requires s1 == Step(w, s, CallOp(Node(a), Some("x"))).0 && s2 == Step(w, s1, CallOp(Node(b), Some("y"))).0
    ensures s1.promises == s.promises + [Lazy(-1, |s.host.sent|, None, None)]
    ensures s2.promises == s1.promises + [Lazy(-1, |s.host.sent| + 1, None, None)]
    ensures -1 in s2.host.calls && s2.host.calls[-1].Waiting?
  {
    CallSends(w, s, a, "x", s1);
    CallSends(w, s1, b, "y", s2);
  }

  /** Of two promises on one id the second blocks once the first has been awaited. */
  lemma SecondBlocks(w: World, s: State, p: nat, s1: State)
    requires p + 1 < |s.promises| && s1 == Step(w, s, AwaitOp(p)).0
    requires s.promises[p].Lazy? && s.promises[p].id == -1 && s.promises[p].expected.None? && s.promises[p].cell.None?
    requires s.promises[p + 1].Lazy? && s.promises[p + 1].id == -1 && s.promises[p + 1].expected.None? && s.promises[p + 1].cell.None?
    requires -1 in s.host.calls && s.host.calls[-1].Waiting?
    ensures Step(w, s1, AwaitOp(p + 1)).1 == Blocked
  {
  }

  function TwinAwaits(a: nat, b: nat, p: nat): seq<Op> {
    TwinCalls(a, b) + [AwaitOp(p), AwaitOp(p + 1)]
  }

  predicate AwaitsTwins(ops: seq<Op>, n: nat, a: nat, b: nat, p: nat) {
    && n + 4 <= |ops| && ops[n] == CallOp(Node(a), Some("x")) && ops[n + 1] == CallOp(Node(b), Some("y"))
    && ops[n + 2] == AwaitOp(p) && ops[n + 3] == AwaitOp(p + 1)
  }

  lemma TwinsMisrouted(w: World, ops: seq<Op>, n: nat, a: nat, b: nat)
    requires n + 4 <= |ops| && Twins(After(w, ops, n), a, b) && AwaitsTwins(ops, n, a, b, |After(w, ops, n).promises|)
    requires AcceptsAll(w, "x") && AcceptsAll(w, "y")
    ensures !RoutedAt(w, ops, n + 1, n + 3)
  {
    var s, s1, s2 := After(w, ops, n), After(w, ops, n + 1), After(w, ops, n + 2);
    TwinCallState(w, s, a, b, s1, s2);
    CallSends(w, s, a, "x", s1);
    SecondBlocks(w, s2, |s.promises|, After(w, ops, n + 3));
  }

  lemma TwinAwaitsFill(a: nat, b: nat, p: nat)
    ensures NoDonAsks(TwinAwaits(a, b, p)) && |TwinAwaits(a, b, p)| == 4
  {
  }

  lemma FilledMisrouted(w: World, sk: seq<Op>, n: nat, a: nat, b: nat, p: nat)
    requires n <= |sk| && Twins(After(w, sk, n), a, b) && p == |After(w, sk, n).promises|
    requires AcceptsAll(w, "x") && AcceptsAll(w, "y")
    ensures !AllRouted(w, Filled(sk, n, TwinAwaits(a, b, p)))
  {
    var fill := TwinAwaits(a, b, p);
    FilledAt(sk, n, fill);
    assert fill[0] == TwinCalls(a, b)[0] && fill[1] == TwinCalls(a, b)[1] && fill[2] == AwaitOp(p) && fill[3] == AwaitOp(p + 1);
    AfterPrefix(w, Filled(sk, n, fill), sk, n);
    TwinsMisrouted(w, Filled(sk, n, fill), n, a, b);
  }

  lemma MisroutedFrom(w: World, sk: seq<Op>, n: nat, a: nat, b: nat) returns (ops: seq<Op>)
    requires Skeleton(sk) && n <= |sk| && Twins(After(w, sk, n), a, b) && AcceptsAll(w, "x") && AcceptsAll(w, "y")
    ensures MarksOf(ops, |ops|) == sk && !AllRouted(w, ops)
    ensures DonAsks(ops, |ops|) == DonAsks(sk, |sk|) && NodeAsks(ops, |ops|) <= 4
  {
    var p := |After(w, sk, n).promises|;
    ops := Filled(sk, n, TwinAwaits(a, b, p));
    TwinAwaitsFill(a, b, p);
    FilledSkeleton(sk, n, TwinAwaits(a, b, p));
    FilledMisrouted(w, sk, n, a, b, p);
  }

  /** A skeleton with a reentry, filled with two calls and their awaits, leaves a promise without its reply. */
  lemma {:induction false} ReentryMisroutes(w: World, sk: seq<Op>) returns (ops: seq<Op>)
    requires Skeleton(sk) && !NoReentry(sk) && AcceptsAll(w, "x") && AcceptsAll(w, "y")
    ensures MarksOf(ops, |ops|) == sk && !AllRouted(w, ops)
    ensures DonAsks(ops, |ops|) == DonAsks(sk, |sk|) && NodeAsks(ops, |ops|) <= 4
  {
    var n := FirstReentry(sk, |sk|);
    var a, b := ReentryTwins(w, sk, n);
    ops := MisroutedFrom(w, sk, n + 1, a, b);
  }

  lemma NoReentryRouted(w: World, ops: seq<Op>)
    requires NoReentry(ops) && FewAsks(ops)
    ensures AllRouted(w, ops)
  {
    forall m, n | 0 <= m < n < |ops| ensures RoutedAt(w, ops, m, n) {
      if AwaitsFrom(w, ops, m, n) {
        ModestPrefix(ops, n, |ops|);
        EachYieldsOwnReply(w, ops, m, n);
      }
    }
  }

  /** In every run over a skeleton each await yields its own reply exactly when the skeleton has no reentry. */
  lemma {:induction false} RoutedIff(w: World, sk: seq<Op>)
    requires Skeleton(sk) && FewAsks(sk) && AcceptsAll(w, "x") && AcceptsAll(w, "y")
    ensures NoReentry(sk) <==> forall ops | MarksOf(ops, |ops|) == sk && FewAsks(ops) :: AllRouted(w, ops)
  {
    if NoReentry(sk) {
      forall ops | MarksOf(ops, |ops|) == sk && FewAsks(ops) ensures AllRouted(w, ops) {
        MarksDecide(ops, |ops|);
        NoReentryRouted(w, ops);
      }
    } else {
      var ops := ReentryMisroutes(w, sk);
      assert MarksOf(ops, |ops|) == sk && FewAsks(ops);
    }
  }

  // ----- Secrets -----

  predicate Found(w: World, req: SecretRequest) { (req.namespace, req.id) in w.secrets }

  /** With every secret present the reply has them all, one for each request and in order; otherwise it is an
      error that lists the missing ones. */
  lemma AllSecretsOrError(w: World, reqs: seq<SecretRequest>)
    ensures SecretsFor(w, reqs).Ok? <==> forall i | 0 <= i < |reqs| :: Found(w, reqs[i])
    ensures SecretsFor(w, reqs).Ok? ==> SecretsFor(w, reqs) == Ok(Secrets(LookupAll(w, reqs)))
    ensures SecretsFor(w, reqs).Err? ==>
            && SecretsFor(w, reqs).error.SecretErrors?
            && forall x :: x in SecretsFor(w, reqs).error.missing <==> x in LookupAll(w, reqs) && x.Missing?
  {
    var rs := LookupAll(w, reqs);
    MissingIff(rs);
    if forall i | 0 <= i < |reqs| :: Found(w, reqs[i]) {
      AllPresent(rs);
    } else {
      var i :| 0 <= i < |reqs| && !Found(w, reqs[i]);
      assert rs[i] in MissingOf(rs);
    }
  }

  lemma {:induction false} MissingIff(rs: seq<SecretReply>)
    ensures forall x :: x in MissingOf(rs) <==> x in rs && x.Missing?
  {
    if rs != [] {
      MissingIff(rs[..|rs| - 1]);
      assert rs == rs[..|rs| - 1] + [rs[|rs| - 1]];
    }
  }

  lemma {:induction false} AllPresent(rs: seq<SecretReply>)
    requires forall i | 0 <= i < |rs| :: rs[i].Secret?
    ensures PresentOf(rs) == rs && MissingOf(rs) == []
  {
    if rs != [] {
      AllPresent(rs[..|rs| - 1]);
    }
  }

  /** The namespace in which a request looks: its own, or the default one when it names none. */
  function AskedNamespace(req: SecretRequest): string {
    if req.namespace == "" then "main" else req.namespace
  }

  predicate Stored(w: World, req: SecretRequest) { (AskedNamespace(req), req.id) in w.secrets }

  /** The stored secrets for the requests, one for each and in order. */
  function StoredSecrets(w: World, reqs: seq<SecretRequest>): (rs: seq<SecretReply>)
    requires forall i | 0 <= i < |reqs| :: Stored(w, reqs[i])
  {
    seq(|reqs|, i requires 0 <= i < |reqs| && Stored(w, reqs[i]) =>
      Secret(reqs[i].id, AskedNamespace(reqs[i]), w.secrets[(AskedNamespace(reqs[i]), reqs[i].id)]))
  }

  lemma LookupOfAsked(w: World, reqs: seq<SecretRequest>, i: nat)
    requires i < |reqs|
    ensures LookupAll(w, Normalised(reqs))[i] ==
            if Stored(w, reqs[i]) then Secret(reqs[i].id, AskedNamespace(reqs[i]), w.secrets[(AskedNamespace(reqs[i]), reqs[i].id)])
            else Missing(reqs[i].id, AskedNamespace(reqs[i]))
    ensures Found(w, Normalised(reqs)[i]) <==> Stored(w, reqs[i])
  {
  }

  /** Some request misses its secret, and `x` says which. */
  predicate Misses(w: World, reqs: seq<SecretRequest>, x: SecretReply) {
    exists i :: 0 <= i < |reqs| && !Stored(w, reqs[i]) && x == Missing(reqs[i].id, AskedNamespace(reqs[i]))
  }

  /** What asking for secrets comes to. */
  lemma SecretsForAsked(w: World, reqs: seq<SecretRequest>)
    ensures var r := SecretsFor(w, Normalised(reqs));
            if forall i | 0 <= i < |reqs| :: Stored(w, reqs[i]) then r == Ok(Secrets(StoredSecrets(w, reqs)))
            else r.Err? && r.error.SecretErrors? && forall x :: x in r.error.missing <==> Misses(w, reqs, x)
  {
    var rs := LookupAll(w, Normalised(reqs));
    AllSecretsOrError(w, Normalised(reqs));
    forall i | 0 <= i < |reqs|
      ensures rs[i] == (if Stored(w, reqs[i]) then Secret(reqs[i].id, AskedNamespace(reqs[i]), w.secrets[(AskedNamespace(reqs[i]), reqs[i].id)])
                        else Missing(reqs[i].id, AskedNamespace(reqs[i])))
      ensures Found(w, Normalised(reqs)[i]) <==> Stored(w, reqs[i])
    {
      LookupOfAsked(w, reqs, i);
    }
    if forall i | 0 <= i < |reqs| :: Stored(w, reqs[i]) {
      assert rs == StoredSecrets(w, reqs);
    } else {
      forall x ensures x in rs && x.Missing? <==> Misses(w, reqs, x) {
        if Misses(w, reqs, x) {
          var i :| 0 <= i < |reqs| && !Stored(w, reqs[i]) && x == Missing(reqs[i].id, AskedNamespace(reqs[i]));
          assert rs[i] == x;
        }
      }
    }
  }

  /** Secrets over a run: awaiting the promise of a request for secrets yields the stored secret of every request, in
      order, exactly when all are stored; otherwise an error that names exactly the missing ones; and the mode error
      when the runtime was disabled. */
  lemma SecretsYield(w: World, ops: seq<Op>, m: nat, n: nat)
    requires m < n < |ops| && Modest(ops, n) && ops[m].SecretsOp? && ops[n] == AwaitOp(|After(w, ops, m).promises|)
    ensures var out, reqs, modeErr := Step(w, After(w, ops, n), ops[n]).1, ops[m].requests, After(w, ops, m).don.modeErr;
            && out.Awaited?
            && (if modeErr.Some? then out.result == Err(OutsideMode(modeErr.value))
                else if forall i | 0 <= i < |reqs| :: Stored(w, reqs[i]) then out.result == Ok(Secrets(StoredSecrets(w, reqs)))
                else out.result.Err? && out.result.error.SecretErrors?
                     && forall x :: x in out.result.error.missing <==> Misses(w, reqs, x))
  {
    EachYieldsOwnReply(w, ops, m, n);
    SecretsForAsked(w, ops[m].requests);
  }

  // ----- A nested call at work -----

  /** When a nested run gave one id to two requests, the first promise yields the reply to the second request,
      and awaiting the second promise afterwards blocks. */
  lemma NestedRepliesMixUp(w: World)
    requires w.accepts(0, "x") && w.accepts(1, "y") && !w.tooLarge(w.respond(1, "y"))
    ensures var t := After(w, CollidingRun(), 6);
            && Step(w, t, AwaitOp(1)).1 == Awaited(Ok(Response(w.respond(1, "y"))))
            && Step(w, Step(w, t, AwaitOp(1)).0, AwaitOp(2)).1 == Blocked
  {
    NestedIdsCollide(w);
  }
}
