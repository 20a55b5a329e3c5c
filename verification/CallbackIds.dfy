/** Callback ids: what the two counters of a run give to the host. */
module CallbackIds {
  import opened Wrappers
  import opened Modes
  import opened Steps
  import opened Exclusion
  import opened Nesting

  predicate AsksAsDon(op: Op) {
    match op
    case CallOp(on, request) => on.Don? && request.Some?
    case SecretsOp(reqs) => reqs != []
    case Leave(observation) => observation.Some?
    case _ => false
  }

  predicate AsksAsNode(op: Op) { op.CallOp? && op.on.Node? && op.request.Some? }

  /** How many of the first n operations can use the DON's counter. */
  function DonAsks(ops: seq<Op>, n: nat): nat
    requires n <= |ops|
  {
    if n == 0 then 0 else DonAsks(ops, n - 1) + if AsksAsDon(ops[n - 1]) then 1 else 0
  }

  /** How many of the first n operations can use a node runtime's counter. */
  function NodeAsks(ops: seq<Op>, n: nat): nat
    requires n <= |ops|
  {
    if n == 0 then 0 else NodeAsks(ops, n - 1) + if AsksAsNode(ops[n - 1]) then 1 else 0
  }

  const MAX_ASKS: nat := 0x8000_0000

  // ----- The DON's ids, in any run -----

  /** DON ids are positive and increase; node ids are negative. */
  predicate DonDirected(sent: seq<Sent>) {
    && (forall i | 0 <= i < |sent| :: if sent[i].sender == DonMode then sent[i].id > 0 else sent[i].id < 0)
    && (forall i, j | 0 <= i < j < |sent| && sent[i].sender == sent[j].sender == DonMode :: sent[i].id < sent[j].id)
  }

  predicate DonPassed(sent: seq<Sent>, don: int) {
    forall i | 0 <= i < |sent| && sent[i].sender == DonMode :: sent[i].id <= don
  }

  /** No counter has left the range that the operations so far can have used. */
  predicate InRange(s: State, dons: nat, nodes: nat) {
    && 0 <= s.don.nextCallId <= dons && 0 - nodes <= s.nextNodeCallId <= 0
    && forall k | 0 <= k < |s.nodes| :: 0 - nodes <= s.nodes[k].nextCallId <= 0
  }

  predicate DonCounting(s: State, dons: nat, nodes: nat) {
    Stacked(s) && InRange(s, dons, nodes) && DonDirected(s.host.sent) && DonPassed(s.host.sent, s.don.nextCallId)
  }

  lemma IdlesDon(s: State, t: State, dons: nat, nodes: nat)
    requires DonCounting(s, dons, nodes) && Idles(s, t)
    ensures DonCounting(t, dons, nodes)
  {
  }

  lemma EnterDon(s: State, dons: nat, nodes: nat)
    requires DonCounting(s, dons, nodes)
    ensures DonCounting(StepEnter(s).0, dons, nodes)
  {
  }

  lemma RetireDon(s: State, dons: nat, nodes: nat)
    requires DonCounting(s, dons, nodes) && s.stack != []
    ensures DonCounting(Retire(s), dons, nodes)
  {
  }

  lemma AppendDon(h: Host, h1: Host, id: Int32, sender: Mode, don: int)
    requires DonDirected(h.sent) && DonPassed(h.sent, don) && Appends(h, h1, id, sender)
    requires if sender == DonMode then id == don + 1 > 0 else id < 0
    ensures DonDirected(h1.sent) && DonPassed(h1.sent, if sender == DonMode then don + 1 else don)
  {
    AppendsPrefix(h, h1, id, sender);
  }

  lemma DonActs(s: State, t: State, dons: nat, nodes: nat)
    requires DonCounting(s, dons, nodes) && Acts(s, t, Don) && dons + 1 < MAX_ASKS
    ensures DonCounting(t, dons + 1, nodes)
  {
    if t.host != s.host {
      AppendDon(s.host, t.host, t.don.nextCallId, DonMode, s.don.nextCallId);
    }
  }

  lemma NodeActs(s: State, t: State, k: nat, dons: nat, nodes: nat)
    requires DonCounting(s, dons, nodes) && Acts(s, t, Node(k)) && nodes + 1 < MAX_ASKS
    ensures DonCounting(t, dons, nodes + 1)
  {
    if t.host != s.host {
      AppendDon(s.host, t.host, t.nodes[k].nextCallId, NodeMode, s.don.nextCallId);
    }
  }

  /** Without a request or a list of secrets nothing is asked. */
  lemma UnaskedIdles(w: World, s: State, op: Op)
    requires Stacked(s) && !AsksAsDon(op) && !AsksAsNode(op) && !op.Enter?
    ensures Idles(if Leaves(s, op) then Retire(s) else s, Step(w, s, op).0)
  {
    StepShapes(w, s, op);
  }

  function Asked(op: Op): (nat, nat) {
    (if AsksAsDon(op) then 1 else 0, if AsksAsNode(op) then 1 else 0)
  }

  lemma DonCountingMore(s: State, dons: nat, nodes: nat, op: Op)
    requires DonCounting(s, dons, nodes)
    ensures DonCounting(s, dons + Asked(op).0, nodes + Asked(op).1)
  {
  }

  lemma StepDon(w: World, s: State, op: Op, t: State, dons: nat, nodes: nat)
    requires DonCounting(s, dons, nodes) && t == Step(w, s, op).0
    requires dons + Asked(op).0 < MAX_ASKS && nodes + Asked(op).1 < MAX_ASKS
    ensures DonCounting(t, dons + Asked(op).0, nodes + Asked(op).1)
  {
    var s1 := if Leaves(s, op) then Retire(s) else s;
    StepShapes(w, s, op);
    if Leaves(s, op) {
      RetireDon(s, dons, nodes);
    }
    if op.Enter? {
      EnterDon(s, dons, nodes);
    } else if AsksAsDon(op) {
      if !op.Leave? || s.stack != [] {
        DonActs(s1, t, dons, nodes);
      }
    } else if AsksAsNode(op) {
      if Exists(s, op.on) {
        NodeActs(s, t, op.on.k, dons, nodes);
      }
    } else {
      UnaskedIdles(w, s, op);
      IdlesDon(s1, t, dons, nodes);
    }
    if t == s {
      DonCountingMore(s, dons, nodes, op);
    }
  }

  lemma {:induction false} RunDon(w: World, ops: seq<Op>, n: nat)
    requires n <= |ops| && DonAsks(ops, n) < MAX_ASKS && NodeAsks(ops, n) < MAX_ASKS
    ensures DonCounting(After(w, ops, n), DonAsks(ops, n), NodeAsks(ops, n))
    decreases n
  {
    if n > 0 {
      RunDon(w, ops, n - 1);
      StepDon(w, After(w, ops, n - 1), ops[n - 1], After(w, ops, n), DonAsks(ops, n - 1), NodeAsks(ops, n - 1));
    }
  }

  /** Over any run at all with fewer than 2^31 uses of each counter, the ids that the DON sends are positive and
      increase, and those of node runtimes are negative, so that the two never meet. */
  lemma DonIdsIncrease(w: World, ops: seq<Op>)
    requires DonAsks(ops, |ops|) < MAX_ASKS && NodeAsks(ops, |ops|) < MAX_ASKS
    ensures DonDirected(After(w, ops, |ops|).host.sent)
  {
    RunDon(w, ops, |ops|);
  }

  // ----- The node runtimes' ids, in a run without reentry -----

  /** The counter that the next node runtime in use continues from. */
  function NodeCounter(s: State): Int32
    requires Stacked(s)
  {
    if s.stack == [] then s.nextNodeCallId else s.nodes[s.stack[0]].nextCallId
  }

  predicate NodeDirected(sent: seq<Sent>) {
    forall i, j | 0 <= i < j < |sent| && sent[i].sender == sent[j].sender == NodeMode :: sent[i].id > sent[j].id
  }

  predicate NodePassed(sent: seq<Sent>, node: int) {
    forall i | 0 <= i < |sent| && sent[i].sender == NodeMode :: node <= sent[i].id
  }

  predicate NodeCounting(s: State) {
    Bottom(s) && NodeDirected(s.host.sent) && NodePassed(s.host.sent, NodeCounter(s))
  }

  lemma IdlesNode(s: State, t: State)
    requires NodeCounting(s) && Idles(s, t)
    ensures NodeCounting(t)
  {
    IdlesQuiet(s, t);
    QuietBottom(s, t);
  }

  lemma EnterNode(s: State)
    requires NodeCounting(s) && (s.stack == [] || !Enabled(s.don))
    ensures NodeCounting(StepEnter(s).0)
  {
    EnterBottom(s);
  }

  lemma RetireNode(s: State)
    requires NodeCounting(s) && s.stack != []
    ensures NodeCounting(Retire(s))
  {
    RetireBottom(s);
  }

  lemma AppendNode(h: Host, h1: Host, id: Int32, sender: Mode, node: int)
    requires NodeDirected(h.sent) && NodePassed(h.sent, node) && Appends(h, h1, id, sender)
    requires sender == NodeMode ==> id == node - 1
    ensures NodeDirected(h1.sent) && NodePassed(h1.sent, if sender == NodeMode then node - 1 else node)
  {
    AppendsPrefix(h, h1, id, sender);
  }

  lemma ActsNode(s: State, t: State, on: Handle, nodes: nat)
    requires NodeCounting(s) && Acts(s, t, on) && 0 - nodes <= NodeCounter(s) <= 0 && nodes < MAX_ASKS
    ensures NodeCounting(t)
  {
    ActsQuiet(s, t, on);
    QuietBottom(s, t);
    if t.host != s.host {
      assert on.Node? ==> on.k == s.stack[0];
      AppendNode(s.host, t.host, At(t, on).nextCallId, At(s, on).mode, NodeCounter(s));
    }
  }

  lemma StepNode(w: World, s: State, op: Op, t: State, dons: nat, nodes: nat)
    requires NodeCounting(s) && DonCounting(s, dons, nodes) && t == Step(w, s, op).0
    requires (op.Enter? ==> s.stack == [] || !Enabled(s.don)) && nodes < MAX_ASKS
    ensures NodeCounting(t)
  {
    StepShapes(w, s, op);
    match op
    case CallOp(on, _) => if Exists(s, on) { ActsNode(s, t, on, nodes); }
    case SecretsOp(_) => ActsNode(s, t, Don, nodes);
    case Enter => EnterNode(s);
    case Leave(_) =>
      if s.stack != [] {
        RetireNode(s);
        ActsNode(Retire(s), t, Don, nodes);
      }
    case _ => IdlesNode(s, t);
  }

  lemma NextNode(w: World, ops: seq<Op>, n: nat)
    requires 0 < n <= |ops| && !Reenters(ops, n - 1) && NodeCounting(After(w, ops, n - 1))
    requires DonAsks(ops, n - 1) < MAX_ASKS && NodeAsks(ops, n - 1) < MAX_ASKS
    ensures NodeCounting(After(w, ops, n))
  {
    RunDon(w, ops, n - 1);
    EntersFromDon(w, ops, n - 1);
    StepNode(w, After(w, ops, n - 1), ops[n - 1], After(w, ops, n), DonAsks(ops, n - 1), NodeAsks(ops, n - 1));
  }

  lemma {:induction false} RunNode(w: World, ops: seq<Op>, n: nat)
    requires n <= |ops| && NoReentryTo(ops, n) && DonAsks(ops, n) < MAX_ASKS && NodeAsks(ops, n) < MAX_ASKS
    ensures NodeCounting(After(w, ops, n))
    decreases n
  {
    if n > 0 {
      RunNode(w, ops, n - 1);
      NextNode(w, ops, n);
    }
  }

  predicate UniqueIds(sent: seq<Sent>) {
    forall i, j | 0 <= i < j < |sent| :: sent[i].id != sent[j].id
  }

  /** Over a run without reentry and with fewer than 2^31 uses of each counter, every id sent to the host is new;
      those of the DON are positive and increase, those of all successive node runtimes are negative and
      decrease. */
  lemma IdsDistinct(w: World, ops: seq<Op>)
    requires NoReentry(ops) && DonAsks(ops, |ops|) < MAX_ASKS && NodeAsks(ops, |ops|) < MAX_ASKS
    ensures var sent := After(w, ops, |ops|).host.sent;
            DonDirected(sent) && NodeDirected(sent) && UniqueIds(sent)
  {
    RunDon(w, ops, |ops|);
    RunNode(w, ops, |ops|);
    DirectedUnique(After(w, ops, |ops|).host.sent);
  }

  lemma DirectedUnique(sent: seq<Sent>)
    requires DonDirected(sent) && NodeDirected(sent)
    ensures UniqueIds(sent)
  {
  }

  // ----- Every skeleton with a reentry can be filled so that two requests share an id -----

  predicate NodesAtZero(s: State) {
    Stacked(s) && s.nextNodeCallId == 0 && forall k | 0 <= k < |s.nodes| :: s.nodes[k].nextCallId == 0
  }

  lemma RetireAtZero(s: State)
    requires NodesAtZero(s) && s.stack != []
    ensures NodesAtZero(Retire(s))
  {
  }

  lemma StepAtZero(w: World, s: State, op: Op, t: State)
    requires NodesAtZero(s) && Marks(op) && t == Step(w, s, op).0
    ensures NodesAtZero(t)
  {
    StepShapes(w, s, op);
    StepStacked(w, s, op);
    if Leaves(s, op) {
      RetireAtZero(s);
    }
  }

  lemma {:induction false} RunAtZero(w: World, sk: seq<Op>, n: nat)
    requires n <= |sk| && Skeleton(sk)
    ensures NodesAtZero(After(w, sk, n))
    decreases n
  {
    if n > 0 {
      RunAtZero(w, sk, n - 1);
      StepAtZero(w, After(w, sk, n - 1), sk[n - 1], After(w, sk, n));
    }
  }

  /** Two enabled node runtimes that stand at the same counter. */
  predicate Twins(s: State, a: nat, b: nat) {
    && a < b < |s.nodes| && Enabled(s.nodes[a]) && Enabled(s.nodes[b])
    && s.nodes[a].mode == s.nodes[b].mode == NodeMode && s.nodes[a].nextCallId == s.nodes[b].nextCallId == 0
  }

  lemma EnterTwins(s: State)
    requires Bottom(s) && NodesAtZero(s) && s.stack != [] && Enabled(s.don)
    ensures Twins(StepEnter(s).0, s.stack[0], |s.nodes|)
  {
  }

  lemma ReentryTwins(w: World, sk: seq<Op>, n: nat) returns (a: nat, b: nat)
    requires Skeleton(sk) && n < |sk| && Reenters(sk, n) && NoReentryTo(sk, n)
    ensures Twins(After(w, sk, n + 1), a, b)
  {
    var s := After(w, sk, n);
    RunBottom(w, sk, n);
    RunAtZero(w, sk, n);
    DonEnabledIff(w, sk, n);
    DepthIsStack(w, sk, n);
    EnterTwins(s);
    a, b := s.stack[0], |s.nodes|;
  }

  /** One call on each of the twins. */
  function TwinCalls(a: nat, b: nat): seq<Op> { [CallOp(Node(a), Some("x")), CallOp(Node(b), Some("y"))] }

  lemma CallSends(w: World, s: State, k: nat, content: string, t: State)
    requires k < |s.nodes| && Enabled(s.nodes[k]) && s.nodes[k].mode == NodeMode && s.nodes[k].nextCallId == 0
    requires t == Step(w, s, CallOp(Node(k), Some(content))).0
    ensures t.host.sent == s.host.sent + [Sent(-1, NodeMode, s.host.mode, Capability(content))]
    ensures |t.nodes| == |s.nodes| && forall j | 0 <= j < |s.nodes| && j != k :: t.nodes[j] == s.nodes[j]
    ensures w.accepts(|s.host.sent|, content) ==>
            && t.promises == s.promises + [Lazy(-1, |s.host.sent|, None, None)]
            && t.host.calls == s.host.calls + map[-1 := Waiting(w.respond(|s.host.sent|, content))]
  {
  }

  predicate CallsTwins(ops: seq<Op>, n: nat, a: nat, b: nat) {
    n + 2 <= |ops| && ops[n] == CallOp(Node(a), Some("x")) && ops[n + 1] == CallOp(Node(b), Some("y"))
  }

  lemma TwinsCollide(w: World, ops: seq<Op>, n: nat, a: nat, b: nat)
    requires CallsTwins(ops, n, a, b) && Twins(After(w, ops, n), a, b)
    ensures !UniqueIds(After(w, ops, n + 2).host.sent)
  {
    CallSends(w, After(w, ops, n), a, "x", After(w, ops, n + 1));
    CallSends(w, After(w, ops, n + 1), b, "y", After(w, ops, n + 2));
    SameIdTwice(After(w, ops, n).host.sent, After(w, ops, n + 2).host.sent);
  }

  lemma SameIdTwice(before: seq<Sent>, sent: seq<Sent>)
    requires |sent| == |before| + 2 && sent[|before|].id == sent[|before| + 1].id
    ensures !UniqueIds(sent)
  {
  }

  lemma CollidesToTheEnd(w: World, ops: seq<Op>, n: nat, a: nat, b: nat)
    requires CallsTwins(ops, n, a, b) && Twins(After(w, ops, n), a, b)
    ensures !UniqueIds(After(w, ops, |ops|).host.sent)
  {
    TwinsCollide(w, ops, n, a, b);
    StillCollides(w, ops, n + 2, |ops|);
  }

  predicate NoDonAsks(fill: seq<Op>) {
    NoMarks(fill) && forall i | 0 <= i < |fill| :: !AsksAsDon(fill[i])
  }

  /** The fill uses the counters no more than its length. */
  lemma {:induction false} AsksOfFilled(sk: seq<Op>, n: nat, fill: seq<Op>, m: nat)
    requires n <= |sk| && Skeleton(sk) && NoDonAsks(fill) && m <= |sk| + |fill|
    ensures DonAsks(Filled(sk, n, fill), m) == DonAsks(sk, if m <= n then m else if m <= n + |fill| then n else m - |fill|)
    ensures NodeAsks(Filled(sk, n, fill), m) <= if m <= n then 0 else if m <= n + |fill| then m - n else |fill|
    decreases m
  {
    if m > 0 {
      AsksOfFilled(sk, n, fill, m - 1);
      FilledOp(sk, n, fill, m - 1);
    }
  }

  /** Filling keeps the skeleton and adds at most the length of the fill to the uses of the counters. */
  lemma FilledSkeleton(sk: seq<Op>, n: nat, fill: seq<Op>)
    requires n <= |sk| && Skeleton(sk) && NoDonAsks(fill)
    ensures MarksOf(Filled(sk, n, fill), |Filled(sk, n, fill)|) == sk
    ensures DonAsks(Filled(sk, n, fill), |Filled(sk, n, fill)|) == DonAsks(sk, |sk|)
    ensures NodeAsks(Filled(sk, n, fill), |Filled(sk, n, fill)|) <= |fill|
  {
    FilledMarks(sk, n, fill);
    FilledAsks(sk, n, fill);
  }

  lemma FilledAsks(sk: seq<Op>, n: nat, fill: seq<Op>)
    requires n <= |sk| && Skeleton(sk) && NoDonAsks(fill)
    ensures DonAsks(Filled(sk, n, fill), |sk| + |fill|) == DonAsks(sk, |sk|)
    ensures NodeAsks(Filled(sk, n, fill), |sk| + |fill|) <= |fill|
  {
    AsksOfFilled(sk, n, fill, |sk| + |fill|);
  }

  lemma FilledCollides(w: World, sk: seq<Op>, n: nat, a: nat, b: nat)
    requires n <= |sk| && Twins(After(w, sk, n), a, b)
    ensures var ops := Filled(sk, n, TwinCalls(a, b)); !UniqueIds(After(w, ops, |ops|).host.sent)
  {
    var fill := TwinCalls(a, b);
    FilledAt(sk, n, fill);
    assert fill[0] == CallOp(Node(a), Some("x")) && fill[1] == CallOp(Node(b), Some("y"));
    AfterPrefix(w, Filled(sk, n, fill), sk, n);
    CollidesToTheEnd(w, Filled(sk, n, fill), n, a, b);
  }

  lemma CollidedFrom(w: World, sk: seq<Op>, n: nat, a: nat, b: nat) returns (ops: seq<Op>)
    requires Skeleton(sk) && n <= |sk| && Twins(After(w, sk, n), a, b)
    ensures MarksOf(ops, |ops|) == sk && !UniqueIds(After(w, ops, |ops|).host.sent)
    ensures DonAsks(ops, |ops|) == DonAsks(sk, |sk|) && NodeAsks(ops, |ops|) <= 2
  {
    ops := Filled(sk, n, TwinCalls(a, b));
    TwinCallsFill(a, b);
    FilledSkeleton(sk, n, TwinCalls(a, b));
    FilledCollides(w, sk, n, a, b);
  }

  lemma TwinCallsFill(a: nat, b: nat)
    ensures NoDonAsks(TwinCalls(a, b)) && |TwinCalls(a, b)| == 2
  {
  }

  /** A skeleton with a reentry, filled with two node calls, sends one id twice, whatever the host does. */
  lemma {:induction false} ReentryCollides(w: World, sk: seq<Op>) returns (ops: seq<Op>)
    requires Skeleton(sk) && !NoReentry(sk)
    ensures MarksOf(ops, |ops|) == sk && !UniqueIds(After(w, ops, |ops|).host.sent)
    ensures DonAsks(ops, |ops|) == DonAsks(sk, |sk|) && NodeAsks(ops, |ops|) <= 2
  {
    var n := FirstReentry(sk, |sk|);
    var a, b := ReentryTwins(w, sk, n);
    ops := CollidedFrom(w, sk, n + 1, a, b);
  }

  lemma CollisionStays(h: Host, h1: Host)
    requires !UniqueIds(h.sent) && SentPrefix(h, h1)
    ensures !UniqueIds(h1.sent)
  {
    var i, j :| 0 <= i < j < |h.sent| && h.sent[i].id == h.sent[j].id;
    assert h1.sent[i].id == h1.sent[j].id;
  }

  lemma NextCollides(w: World, ops: seq<Op>, n: nat)
    requires 0 < n <= |ops| && !UniqueIds(After(w, ops, n - 1).host.sent)
    ensures !UniqueIds(After(w, ops, n).host.sent)
  {
    RunPrefix(w, ops, n);
    CollisionStays(After(w, ops, n - 1).host, After(w, ops, n).host);
  }

  lemma {:induction false} StillCollides(w: World, ops: seq<Op>, m: nat, n: nat)
    requires m <= n <= |ops| && !UniqueIds(After(w, ops, m).host.sent)
    ensures !UniqueIds(After(w, ops, n).host.sent)
    decreases n
  {
    if m < n {
      StillCollides(w, ops, m, n - 1);
      NextCollides(w, ops, n);
    }
  }

  predicate FewAsks(ops: seq<Op>) {
    DonAsks(ops, |ops|) < MAX_ASKS && NodeAsks(ops, |ops|) < MAX_ASKS
  }

  /** Every run over a skeleton sends distinct ids exactly when the skeleton has no reentry. */
  lemma IdsDistinctIff(w: World, sk: seq<Op>)
    requires Skeleton(sk) && FewAsks(sk)
    ensures NoReentry(sk) <==>
            forall ops | MarksOf(ops, |ops|) == sk && FewAsks(ops) :: UniqueIds(After(w, ops, |ops|).host.sent)
  {
    if NoReentry(sk) {
      forall ops | MarksOf(ops, |ops|) == sk && FewAsks(ops) ensures UniqueIds(After(w, ops, |ops|).host.sent) {
        MarksDecide(ops, |ops|);
        IdsDistinct(w, ops);
      }
    } else {
      var ops := ReentryCollides(w, sk);
      assert MarksOf(ops, |ops|) == sk && FewAsks(ops);
    }
  }

  // ----- A nested call at work -----

  function CollidingRun(): seq<Op> {
    [Enter, Enter, Leave(None), Enter, CallOp(Node(0), Some("x")), CallOp(Node(2), Some("y"))]
  }

  lemma NestedSetup(w: World)
    ensures var s := After(w, CollidingRun(), 4);
            && |s.nodes| == 3 && s.nodes[0] == Base(NodeMode, None, 0, false) == s.nodes[2]
            && s.host == Fresh().host.(mode := NodeMode) && s.promises == [Fixed(Err(Unmarshallable))]
  {
    var ops := CollidingRun();
    assert After(w, ops, 1) == StepEnter(After(w, ops, 0)).0;
    assert After(w, ops, 2) == StepEnter(After(w, ops, 1)).0;
    assert After(w, ops, 3) == StepLeave(w, After(w, ops, 2), None).0;
    assert After(w, ops, 4) == StepEnter(After(w, ops, 3)).0;
  }

  /** After an inner callback returned, a second inner one gets a node runtime that is enabled together with the
      outer one, and both give the same id to the host. */
  lemma NestedIdsCollide(w: World)
    requires w.accepts(0, "x") && w.accepts(1, "y")
    ensures var t := After(w, CollidingRun(), 6);
            && |t.host.sent| == 2 && t.host.sent[0].id == t.host.sent[1].id == -1
            && t.promises == [Fixed(Err(Unmarshallable)), Lazy(-1, 0, None, None), Lazy(-1, 1, None, None)]
            && t.host.calls == map[-1 := Waiting(w.respond(1, "y"))]
  {
    var ops := CollidingRun();
    var s := After(w, ops, 4);
    NestedSetup(w);
    var s1 := After(w, ops, 5);
    assert s1 == Promising(s, Node(0), Call(w, s.nodes[0], s.host, Some("x"))).0;
    assert After(w, ops, 6) == Promising(s1, Node(2), Call(w, s1.nodes[2], s1.host, Some("y"))).0;
  }
}
