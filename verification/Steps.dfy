/** What one step of the machine can change, in the few shapes the proofs about runs need. */
module Steps {
  import opened Wrappers
  import opened Modes

  predicate Enabled(b: Base) { b.modeErr.None? }

  /** The stack lists existing node runtimes in order of creation, and no runtime ever changes its mode. */
  predicate Stacked(s: State) {
    && (forall i | 0 <= i < |s.stack| :: s.stack[i] < |s.nodes|)
    && (forall i, j | 0 <= i < j < |s.stack| :: s.stack[i] < s.stack[j])
    && s.don.mode == DonMode && (forall k | 0 <= k < |s.nodes| :: s.nodes[k].mode == NodeMode)
  }

  /** A runtime asks the host for something: perhaps a new callback id, and perhaps a request with that id. */
  predicate Asks(b: Base, h: Host, b1: Base, h1: Host) {
    && (b1 == b || b1 == Bump(b))
    && h1.mode == h.mode && h1.awaited == h.awaited && h1.donSource == h.donSource && h1.nodeSource == h.nodeSource
    && (h1 == h || (Enabled(b) && b1 == Bump(b) && Appends(h, h1, b1.nextCallId, b.mode)))
  }

  predicate Appends(h: Host, h1: Host, id: Int32, sender: Mode) {
    && |h1.sent| == |h.sent| + 1 && h1.sent[..|h.sent|] == h.sent
    && h1.sent[|h.sent|].id == id && h1.sent[|h.sent|].sender == sender && h1.sent[|h.sent|].hostMode == h.mode
  }

  lemma CallAsks(w: World, b: Base, h: Host, request: Option<string>)
    ensures Asks(b, h, Call(w, b, h, request).0, Call(w, b, h, request).1)
    ensures request.Some? ==> Call(w, b, h, request).0 == Bump(b)
  {
  }

  lemma GetSecretsAsks(w: World, b: Base, h: Host, reqs: seq<SecretRequest>)
    requires b.mode == DonMode
    ensures Asks(b, h, GetSecrets(w, b, h, reqs).0, GetSecrets(w, b, h, reqs).1)
  {
  }

  /** Exactly the runtime `on` asks. */
  predicate Acts(s: State, t: State, on: Handle) {
    && Exists(s, on) && Exists(t, on)
    && t == Put(s, on, At(t, on)).(host := t.host, promises := t.promises)
    && Asks(At(s, on), s.host, At(t, on), t.host)
  }

  /** No runtime asks; only sources, promises and the slots of the host change. */
  predicate Idles(s: State, t: State) {
    && t.stack == s.stack && t.nextNodeCallId == s.nextNodeCallId
    && t.host.mode == s.host.mode && t.host.sent == s.host.sent
    && t.don == s.don.(attached := t.don.attached)
    && |t.nodes| == |s.nodes| && forall k | 0 <= k < |s.nodes| :: t.nodes[k] == s.nodes[k].(attached := t.nodes[k].attached)
  }

  predicate Leaves(s: State, op: Op) { op.Leave? && s.stack != [] }

  lemma RandIdles(s: State, on: Handle)
    requires Exists(s, on)
    ensures Idles(s, StepRand(s, on).0)
  {
  }

  lemma DrawIdles(w: World, s: State, on: Handle, kind: DrawKind)
    requires Exists(s, on)
    ensures Idles(s, StepDraw(w, s, on, kind).0)
  {
  }

  lemma AwaitIdles(w: World, s: State, i: nat)
    requires i < |s.promises|
    ensures Idles(s, StepAwait(w, s, i).0)
  {
  }

  lemma CallActs(w: World, s: State, on: Handle, request: Option<string>)
    requires Exists(s, on)
    ensures Acts(s, Promising(s, on, Call(w, At(s, on), s.host, request)).0, on)
  {
    CallAsks(w, At(s, on), s.host, request);
  }

  lemma SecretsActs(w: World, s: State, reqs: seq<SecretRequest>)
    requires s.don.mode == DonMode
    ensures Acts(s, Promising(s, Don, GetSecrets(w, s.don, s.host, reqs)).0, Don)
  {
    GetSecretsAsks(w, s.don, s.host, reqs);
  }

  lemma LeaveActs(w: World, s: State, observation: Option<string>)
    requires s.stack != [] && s.stack[|s.stack| - 1] < |s.nodes|
    ensures Acts(Retire(s), StepLeave(w, s, observation).0, Don)
  {
    CallAsks(w, Retire(s).don, Retire(s).host, observation);
  }

  /** Every step enters, retires and then acts as the DON, acts as one runtime, or idles. */
  lemma StepShapes(w: World, s: State, op: Op)
    requires Stacked(s)
    ensures var t := Step(w, s, op).0;
            match op
            case Enter => t == StepEnter(s).0
            case Leave(_) => if s.stack != [] then Acts(Retire(s), t, Don) else t == s
            case CallOp(on, _) => if Exists(s, on) then Acts(s, t, on) else t == s
            case SecretsOp(_) => Acts(s, t, Don)
            case _ => Idles(s, t)
  {
    match op
    case CallOp(on, request) => if Exists(s, on) { CallActs(w, s, on, request); }
    case SecretsOp(reqs) => SecretsActs(w, s, reqs);
    case RandOp(on) => if Exists(s, on) { RandIdles(s, on); }
    case DrawOp(on, kind) => if Exists(s, on) { DrawIdles(w, s, on, kind); }
    case AwaitOp(i) => if i < |s.promises| { AwaitIdles(w, s, i); }
    case Enter =>
    case Leave(observation) => if s.stack != [] { LeaveActs(w, s, observation); }
  }

  /** Runtimes and host keep their modes and mode errors, and the stack stays. */
  predicate Quiet(s: State, t: State) {
    && t.stack == s.stack && t.host.mode == s.host.mode
    && t.don.mode == s.don.mode && t.don.modeErr == s.don.modeErr
    && |t.nodes| == |s.nodes|
    && forall k | 0 <= k < |s.nodes| :: t.nodes[k].mode == s.nodes[k].mode && t.nodes[k].modeErr == s.nodes[k].modeErr
  }

  lemma ActsQuiet(s: State, t: State, on: Handle)
    requires Acts(s, t, on)
    ensures Quiet(s, t)
  {
  }

  lemma IdlesQuiet(s: State, t: State)
    requires Idles(s, t)
    ensures Quiet(s, t)
  {
  }

  /** Up to `Quiet`, only Enter and Leave do something. */
  lemma StepQuiet(w: World, s: State, op: Op)
    requires Stacked(s)
    ensures Quiet(if op.Enter? then StepEnter(s).0 else if Leaves(s, op) then Retire(s) else s, Step(w, s, op).0)
  {
    var t := Step(w, s, op).0;
    StepShapes(w, s, op);
    match op
    case CallOp(on, _) => if Exists(s, on) { ActsQuiet(s, t, on); }
    case SecretsOp(_) => ActsQuiet(s, t, Don);
    case Leave(_) => if s.stack != [] { ActsQuiet(Retire(s), t, Don); }
    case Enter =>
    case _ => IdlesQuiet(s, t);
  }

  lemma EnterStacked(s: State)
    requires Stacked(s)
    ensures Stacked(StepEnter(s).0)
  {
  }

  lemma StepStacked(w: World, s: State, op: Op)
    requires Stacked(s)
    ensures Stacked(Step(w, s, op).0)
    ensures |Step(w, s, op).0.stack| ==
            if op.Enter? then |s.stack| + 1 else if Leaves(s, op) then |s.stack| - 1 else |s.stack|
  {
    StepQuiet(w, s, op);
    if op.Enter? {
      EnterStacked(s);
    }
  }

  lemma {:induction false} RunStacked(w: World, ops: seq<Op>, n: nat)
    requires n <= |ops|
    ensures Stacked(After(w, ops, n))
    decreases n
  {
    if n > 0 {
      RunStacked(w, ops, n - 1);
      StepStacked(w, After(w, ops, n - 1), ops[n - 1]);
    }
  }
}
