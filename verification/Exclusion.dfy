/** Mode exclusion: which runtimes can be used at which point of a run. */
module Exclusion {
  import opened Wrappers
  import opened Modes
  import opened Steps

  /** At most one of the DON runtime and all node runtimes ever created is enabled, it has the mode of the host,
      and no node runtime is enabled once its callback has returned. */
  predicate Exclusive(s: State) {
    && (Enabled(s.don) ==> s.don.mode == s.host.mode)
    && (forall k | 0 <= k < |s.nodes| && Enabled(s.nodes[k]) ::
          !Enabled(s.don) && s.nodes[k].mode == s.host.mode && k in s.stack)
    && (forall j, k | 0 <= j < k < |s.nodes| :: !Enabled(s.nodes[j]) || !Enabled(s.nodes[k]))
  }

  /** The nesting depth before operation n. */
  function Depth(ops: seq<Op>, n: nat): nat
    requires n <= |ops|
  {
    if n == 0 then 0
    else
      var d := Depth(ops, n - 1);
      if ops[n - 1].Enter? then d + 1 else if ops[n - 1].Leave? && d > 0 then d - 1 else d
  }

  /** No callback of RunInNodeMode returns while another is running. */
  predicate NoInnerLeave(ops: seq<Op>) {
    NoInnerLeaveTo(ops, |ops|)
  }

  predicate NoInnerLeaveTo(ops: seq<Op>, n: nat)
    requires n <= |ops|
  {
    forall m | 0 <= m < n && ops[m].Leave? :: Depth(ops, m) <= 1
  }

  lemma {:induction false} DepthIsStack(w: World, ops: seq<Op>, n: nat)
    requires n <= |ops|
    ensures |After(w, ops, n).stack| == Depth(ops, n)
    decreases n
  {
    if n > 0 {
      DepthIsStack(w, ops, n - 1);
      RunStacked(w, ops, n - 1);
      StepStacked(w, After(w, ops, n - 1), ops[n - 1]);
    }
  }

  // ----- What a run without inner returns keeps -----

  /** The outermost running callback's node runtime is the one that is enabled; without one, it is the DON. */
  predicate Ordered(s: State) {
    && Stacked(s)
    && s.host.mode == (if s.stack == [] then DonMode else NodeMode)
    && (Enabled(s.don) <==> s.stack == [])
    && (forall k | 0 <= k < |s.nodes| :: Enabled(s.nodes[k]) <==> s.stack != [] && k == s.stack[0])
  }

  lemma OrderedExclusive(s: State)
    requires Ordered(s)
    ensures Exclusive(s)
  {
  }

  lemma QuietOrdered(s: State, t: State)
    requires Ordered(s) && Quiet(s, t)
    ensures Ordered(t)
  {
  }

  lemma EnterOrdered(s: State)
    requires Ordered(s)
    ensures Ordered(StepEnter(s).0)
  {
  }

  lemma RetireOrdered(s: State)
    requires Ordered(s) && |s.stack| == 1
    ensures Ordered(Retire(s))
  {
  }

  lemma StepOrdered(w: World, s: State, op: Op)
    requires Ordered(s) && (op.Leave? ==> |s.stack| <= 1)
    ensures Ordered(Step(w, s, op).0)
  {
    StepQuiet(w, s, op);
    if op.Enter? {
      EnterOrdered(s);
    } else if Leaves(s, op) {
      RetireOrdered(s);
      QuietOrdered(Retire(s), Step(w, s, op).0);
    } else {
      QuietOrdered(s, Step(w, s, op).0);
    }
  }

  lemma {:induction false} RunOrdered(w: World, ops: seq<Op>, n: nat)
    requires n <= |ops| && NoInnerLeaveTo(ops, n)
    ensures Ordered(After(w, ops, n))
    decreases n
  {
    if n > 0 {
      RunOrdered(w, ops, n - 1);
      DepthIsStack(w, ops, n - 1);
      StepOrdered(w, After(w, ops, n - 1), ops[n - 1]);
    }
  }

  /** Returning from an inner callback enables the DON while the outer node runtime is still enabled. */
  lemma InnerLeaveBreaks(w: World, s: State, op: Op)
    requires Ordered(s) && op.Leave? && |s.stack| >= 2
    ensures !Exclusive(Step(w, s, op).0)
  {
    StepQuiet(w, s, op);
    assert Enabled(Retire(s).nodes[s.stack[0]]);
    assert Enabled(Step(w, s, op).0.nodes[s.stack[0]]);
  }

  predicate ExclusiveAt(w: World, ops: seq<Op>, n: nat)
    requires n <= |ops|
  {
    Exclusive(After(w, ops, n))
  }

  /** Mode exclusion holds all along a run exactly when no inner callback returns in it. */
  lemma ExclusionIff(w: World, ops: seq<Op>)
    ensures (forall n | 0 <= n <= |ops| :: ExclusiveAt(w, ops, n)) <==> NoInnerLeave(ops)
  {
    if NoInnerLeave(ops) {
      forall n | 0 <= n <= |ops| ensures ExclusiveAt(w, ops, n) {
        RunOrdered(w, ops, n);
        OrderedExclusive(After(w, ops, n));
      }
    } else {
      var n := FirstInnerLeave(ops, |ops|);
      NotExclusiveAfter(w, ops, n);
      assert !ExclusiveAt(w, ops, n + 1);
    }
  }

  lemma NotExclusiveAfter(w: World, ops: seq<Op>, n: nat)
    requires n < |ops| && ops[n].Leave? && Depth(ops, n) >= 2 && NoInnerLeaveTo(ops, n)
    ensures !ExclusiveAt(w, ops, n + 1)
  {
    RunOrdered(w, ops, n);
    DepthIsStack(w, ops, n);
    InnerLeaveBreaks(w, After(w, ops, n), ops[n]);
  }

  lemma {:induction false} FirstInnerLeave(ops: seq<Op>, end: nat) returns (n: nat)
    requires end <= |ops| && !NoInnerLeaveTo(ops, end)
    ensures n < end && ops[n].Leave? && Depth(ops, n) >= 2 && NoInnerLeaveTo(ops, n)
  {
    n := end - 1;
    if !NoInnerLeaveTo(ops, n) {
      n := FirstInnerLeave(ops, n);
    } else {
      var m :| 0 <= m < end && ops[m].Leave? && Depth(ops, m) > 1;
      assert m == n;
    }
  }

  // ----- Operations that get through -----

  /** The operation is a call, a secrets request or a random draw, and it gets through. */
  predicate GetsThrough(w: World, s: State, op: Op) {
    match op
    case CallOp(on, request) => Exists(s, on) && Call(w, At(s, on), s.host, request).2.Lazy?
    case SecretsOp(reqs) =>
      var p := GetSecrets(w, s.don, s.host, reqs).2;
      p.Lazy? || p.result.Ok?
    case RandOp(_) => Step(w, s, op).1.RandReady?
    case DrawOp(_, _) => Step(w, s, op).1.Number?
    case _ => false
  }

  function Runner(op: Op): Handle {
    match op
    case CallOp(on, _) => on
    case RandOp(on) => on
    case DrawOp(on, _) => on
    case _ => Don
  }

  lemma ThroughEnabled(w: World, s: State, op: Op)
    requires GetsThrough(w, s, op)
    ensures Exists(s, Runner(op)) && Enabled(At(s, Runner(op)))
  {
  }

  /** What gets through uses a runtime whose mode is the host's, anywhere in a run without inner returns. */
  lemma ThroughInHostMode(w: World, ops: seq<Op>, n: nat)
    requires n < |ops| && NoInnerLeaveTo(ops, n) && GetsThrough(w, After(w, ops, n), ops[n])
    ensures var s, on := After(w, ops, n), Runner(ops[n]);
            Exists(s, on) && Enabled(At(s, on)) && At(s, on).mode == s.host.mode
  {
    ThroughEnabled(w, After(w, ops, n), ops[n]);
    RunOrdered(w, ops, n);
  }

  /** Every request to the host came from a runtime of the mode that the host then had. */
  predicate SentInMode(s: State) {
    forall i | 0 <= i < |s.host.sent| :: s.host.sent[i].sender == s.host.sent[i].hostMode
  }

  lemma ActsInMode(s: State, t: State, on: Handle)
    requires Ordered(s) && SentInMode(s) && Acts(s, t, on)
    ensures SentInMode(t)
  {
    forall i | 0 <= i < |t.host.sent| ensures t.host.sent[i].sender == t.host.sent[i].hostMode {
      if i < |s.host.sent| {
        assert t.host.sent[i] == t.host.sent[..|s.host.sent|][i] == s.host.sent[i];
      }
    }
  }

  lemma StepInMode(w: World, s: State, op: Op, t: State)
    requires Ordered(s) && SentInMode(s) && (op.Leave? ==> |s.stack| <= 1) && t == Step(w, s, op).0
    ensures SentInMode(t)
  {
    StepShapes(w, s, op);
    match op
    case CallOp(on, _) => if Exists(s, on) { ActsInMode(s, t, on); }
    case SecretsOp(_) => ActsInMode(s, t, Don);
    case Leave(_) =>
      if s.stack != [] {
        RetireOrdered(s);
        ActsInMode(Retire(s), t, Don);
      }
    case _ =>
  }

  lemma NextInMode(w: World, ops: seq<Op>, n: nat)
    requires 0 < n <= |ops| && NoInnerLeaveTo(ops, n) && SentInMode(After(w, ops, n - 1))
    ensures SentInMode(After(w, ops, n))
  {
    RunOrdered(w, ops, n - 1);
    DepthIsStack(w, ops, n - 1);
    StepInMode(w, After(w, ops, n - 1), ops[n - 1], After(w, ops, n));
  }

  lemma {:induction false} SentAlwaysInMode(w: World, ops: seq<Op>, n: nat)
    requires n <= |ops| && NoInnerLeaveTo(ops, n)
    ensures SentInMode(After(w, ops, n))
    decreases n
  {
    if n > 0 {
      SentAlwaysInMode(w, ops, n - 1);
      NextInMode(w, ops, n);
    }
  }

  // ----- Node runtimes that escape their callback -----

  /** The operation is the return of the callback that node runtime k was made for. */
  predicate Retires(s: State, op: Op, k: nat) {
    Leaves(s, op) && s.stack[|s.stack| - 1] == k
  }

  predicate DisabledAt(s: State, k: nat) {
    k < |s.nodes| && !Enabled(s.nodes[k])
  }

  lemma StepDisabled(w: World, s: State, op: Op, k: nat, t: State)
    requires Stacked(s) && (DisabledAt(s, k) || Retires(s, op, k)) && t == Step(w, s, op).0
    ensures DisabledAt(t, k)
  {
    StepQuiet(w, s, op);
  }

  lemma NextDisabled(w: World, ops: seq<Op>, n: nat, k: nat)
    requires 0 < n <= |ops| && (DisabledAt(After(w, ops, n - 1), k) || Retires(After(w, ops, n - 1), ops[n - 1], k))
    ensures DisabledAt(After(w, ops, n), k)
  {
    RunStacked(w, ops, n - 1);
    StepDisabled(w, After(w, ops, n - 1), ops[n - 1], k, After(w, ops, n));
  }

  /** In any run, nested or not, a node runtime is disabled by the return of its callback and stays so. */
  lemma {:induction false} RetiredForever(w: World, ops: seq<Op>, n: nat, m: nat, k: nat)
    requires n < m <= |ops| && Retires(After(w, ops, n), ops[n], k)
    ensures DisabledAt(After(w, ops, m), k)
    decreases m
  {
    if m - 1 > n {
      RetiredForever(w, ops, n, m - 1, k);
    }
    NextDisabled(w, ops, m, k);
  }

  // ----- How a disabled runtime refuses -----

  /** The DON refuses as called in node mode, a node runtime whose callback has returned as called in DON mode. */
  predicate NamedErrors(s: State) {
    && Stacked(s)
    && (Enabled(s.don) || s.don.modeErr == Some(DonCallInNodeMode))
    && (forall k | 0 <= k < |s.nodes| && k in s.stack :: Enabled(s.nodes[k]) || s.nodes[k].modeErr == Some(DonCallInNodeMode))
    && (forall k | 0 <= k < |s.nodes| && k !in s.stack :: s.nodes[k].modeErr == Some(NodeCallInDonMode))
  }

  lemma QuietNamed(s: State, t: State)
    requires NamedErrors(s) && Quiet(s, t)
    ensures NamedErrors(t)
  {
  }

  lemma EnterNamed(s: State)
    requires NamedErrors(s)
    ensures NamedErrors(StepEnter(s).0)
  {
    var t := StepEnter(s).0;
    EnterStacked(s);
    forall k | 0 <= k < |t.nodes| ensures k in t.stack <==> k == |s.nodes| || k in s.stack {
      assert t.stack[|s.stack|] == |s.nodes|;
    }
  }

  lemma RetireNamed(s: State)
    requires NamedErrors(s) && s.stack != []
    ensures NamedErrors(Retire(s))
  {
    var t, last := Retire(s), |s.stack| - 1;
    assert s.stack == t.stack + [s.stack[last]];
    assert s.stack[last] !in t.stack;
  }

  lemma StepNamed(w: World, s: State, op: Op, t: State)
    requires NamedErrors(s) && t == Step(w, s, op).0
    ensures NamedErrors(t)
  {
    StepQuiet(w, s, op);
    if op.Enter? {
      EnterNamed(s);
    } else if Leaves(s, op) {
      RetireNamed(s);
      QuietNamed(Retire(s), t);
    } else {
      QuietNamed(s, t);
    }
  }

  lemma {:induction false} RunNamed(w: World, ops: seq<Op>, n: nat)
    requires n <= |ops|
    ensures NamedErrors(After(w, ops, n))
    decreases n
  {
    if n > 0 {
      RunNamed(w, ops, n - 1);
      StepNamed(w, After(w, ops, n - 1), ops[n - 1], After(w, ops, n));
    }
  }

  /** In any run, a call that a disabled DON or a retired node runtime refuses says which of the two it is. */
  lemma RefusalSaysWhy(w: World, ops: seq<Op>, n: nat, on: Handle, content: string)
    requires n <= |ops| && Exists(After(w, ops, n), on) && !Enabled(At(After(w, ops, n), on))
    requires on.Node? ==> on.k !in After(w, ops, n).stack
    ensures var s := After(w, ops, n);
            Call(w, At(s, on), s.host, Some(content)).2 ==
            Fixed(Err(OutsideMode(if on.Don? then DonCallInNodeMode else NodeCallInDonMode)))
  {
    RunNamed(w, ops, n);
  }

  // ----- A nested call at work -----

  function NestedRun(): seq<Op> { [Enter, Enter, Leave(None), CallOp(Node(0), Some("x"))] }

  /** After the inner callback returned, the outer node runtime gets a call through though the host is in DON mode. */
  lemma NestedCallInDonMode(w: World)
    requires w.accepts(0, "x")
    ensures var s := After(w, NestedRun(), 3);
            && GetsThrough(w, s, NestedRun()[3])
            && s.nodes != [] && s.nodes[0].mode == NodeMode && s.host.mode == DonMode
  {
    var ops := NestedRun();
    assert After(w, ops, 1) == StepEnter(After(w, ops, 0)).0;
    assert After(w, ops, 2) == StepEnter(After(w, ops, 1)).0;
    assert After(w, ops, 3) == StepLeave(w, After(w, ops, 2), None).0;
  }
}
