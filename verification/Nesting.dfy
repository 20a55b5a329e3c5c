/** How the callbacks of a run nest: which node runtimes are enabled, and what other operations can be put
    between the entries and the returns. */
module Nesting {
  import opened Wrappers
  import opened Modes
  import opened Steps
  import opened Exclusion

  /** The last Enter or Leave among the first n operations is a Leave. */
  predicate AfterLeave(ops: seq<Op>, n: nat)
    requires n <= |ops|
  {
    n > 0 && (ops[n - 1].Leave? || (!ops[n - 1].Enter? && AfterLeave(ops, n - 1)))
  }

  /** No callback starts inside a running one from which an inner callback has already returned. */
  predicate NoReentry(ops: seq<Op>) {
    NoReentryTo(ops, |ops|)
  }

  predicate NoReentryTo(ops: seq<Op>, n: nat)
    requires n <= |ops|
  {
    forall m | 0 <= m < n :: !Reenters(ops, m)
  }

  predicate Reenters(ops: seq<Op>, m: nat)
    requires m < |ops|
  {
    ops[m].Enter? && Depth(ops, m) > 0 && AfterLeave(ops, m)
  }

  /** A run without inner returns has no such reentry either; the converse fails for a nested call that returns. */
  lemma NoInnerLeaveNoReentry(ops: seq<Op>)
    requires NoInnerLeave(ops)
    ensures NoReentry(ops)
  {
    forall m | 0 <= m < |ops| ensures !Reenters(ops, m) {
      LeftOutermost(ops, m);
    }
  }

  lemma {:induction false} LeftOutermost(ops: seq<Op>, n: nat)
    requires n <= |ops| && NoInnerLeave(ops)
    ensures AfterLeave(ops, n) ==> Depth(ops, n) == 0
  {
    if n > 0 {
      LeftOutermost(ops, n - 1);
    }
  }

  // ----- Which runtimes are enabled -----

  /** Among the node runtimes only that of the outermost running callback is enabled. */
  predicate Bottom(s: State) {
    && Stacked(s) && (s.stack == [] ==> Enabled(s.don))
    && forall k | 0 <= k < |s.nodes| :: Enabled(s.nodes[k]) <==> s.stack != [] && k == s.stack[0]
  }

  lemma QuietBottom(s: State, t: State)
    requires Bottom(s) && Quiet(s, t)
    ensures Bottom(t)
  {
  }

  lemma EnterBottom(s: State)
    requires Bottom(s) && (s.stack == [] || !Enabled(s.don))
    ensures Bottom(StepEnter(s).0)
  {
  }

  lemma RetireBottom(s: State)
    requires Bottom(s) && s.stack != []
    ensures Bottom(Retire(s))
  {
  }

  lemma StepBottom(w: World, s: State, op: Op, t: State)
    requires Bottom(s) && (op.Enter? ==> s.stack == [] || !Enabled(s.don)) && t == Step(w, s, op).0
    ensures Bottom(t)
  {
    StepQuiet(w, s, op);
    if op.Enter? {
      EnterBottom(s);
    } else if Leaves(s, op) {
      RetireBottom(s);
      QuietBottom(Retire(s), t);
    } else {
      QuietBottom(s, t);
    }
  }

  lemma StepDonEnabled(w: World, s: State, op: Op, t: State)
    requires Stacked(s) && t == Step(w, s, op).0
    ensures Enabled(t.don) <==> if op.Enter? then false else Leaves(s, op) || Enabled(s.don)
  {
    StepQuiet(w, s, op);
  }

  /** In any run the DON is enabled outside all callbacks, and inside one just when an inner one has returned last. */
  lemma {:induction false} DonEnabledIff(w: World, ops: seq<Op>, n: nat)
    requires n <= |ops|
    ensures Enabled(After(w, ops, n).don) <==> Depth(ops, n) == 0 || AfterLeave(ops, n)
    decreases n
  {
    if n > 0 {
      DonEnabledIff(w, ops, n - 1);
      RunStacked(w, ops, n - 1);
      DepthIsStack(w, ops, n - 1);
      StepDonEnabled(w, After(w, ops, n - 1), ops[n - 1], After(w, ops, n));
    }
  }

  /** Without reentry an entry happens outside all callbacks or with the DON disabled. */
  lemma EntersFromDon(w: World, ops: seq<Op>, n: nat)
    requires n < |ops| && !Reenters(ops, n)
    ensures ops[n].Enter? ==> After(w, ops, n).stack == [] || !Enabled(After(w, ops, n).don)
  {
    DonEnabledIff(w, ops, n);
    DepthIsStack(w, ops, n);
  }

  lemma NextBottom(w: World, ops: seq<Op>, n: nat)
    requires 0 < n <= |ops| && !Reenters(ops, n - 1) && Bottom(After(w, ops, n - 1))
    ensures Bottom(After(w, ops, n))
  {
    EntersFromDon(w, ops, n - 1);
    StepBottom(w, After(w, ops, n - 1), ops[n - 1], After(w, ops, n));
  }

  lemma {:induction false} RunBottom(w: World, ops: seq<Op>, n: nat)
    requires n <= |ops| && NoReentryTo(ops, n)
    ensures Bottom(After(w, ops, n))
    decreases n
  {
    if n > 0 {
      RunBottom(w, ops, n - 1);
      NextBottom(w, ops, n);
    }
  }

  // ----- Skeletons: the entries and returns of a run -----

  predicate Marks(op: Op) { op.Enter? || op.Leave? }

  predicate Skeleton(ops: seq<Op>) {
    forall i | 0 <= i < |ops| :: Marks(ops[i])
  }

  /** The entries and returns among the first n operations. */
  function MarksOf(ops: seq<Op>, n: nat): (sk: seq<Op>)
    requires n <= |ops|
    ensures Skeleton(sk)
  {
    if n == 0 then [] else MarksOf(ops, n - 1) + if Marks(ops[n - 1]) then [ops[n - 1]] else []
  }

  lemma {:induction false} PrefixMarks(a: seq<Op>, b: seq<Op>, n: nat)
    requires n <= |a| && n <= |b| && SamePrefix(a, b, n)
    ensures Depth(a, n) == Depth(b, n) && AfterLeave(a, n) == AfterLeave(b, n) && MarksOf(a, n) == MarksOf(b, n)
    ensures NoReentryTo(a, n) == NoReentryTo(b, n)
  {
    if n > 0 {
      PrefixMarks(a, b, n - 1);
      NoReentryStep(a, n);
      NoReentryStep(b, n);
    }
  }

  predicate SamePrefix(a: seq<Op>, b: seq<Op>, n: nat)
    requires n <= |a| && n <= |b|
  {
    forall i | 0 <= i < n :: a[i] == b[i]
  }

  lemma NoReentryStep(ops: seq<Op>, n: nat)
    requires 0 < n <= |ops|
    ensures NoReentryTo(ops, n) <==> NoReentryTo(ops, n - 1) && !Reenters(ops, n - 1)
  {
  }

  /** Nesting is a matter of the entries and returns alone. */
  lemma {:induction false} MarksDecide(ops: seq<Op>, n: nat)
    requires n <= |ops|
    ensures var sk := MarksOf(ops, n);
            && Depth(sk, |sk|) == Depth(ops, n) && AfterLeave(sk, |sk|) == AfterLeave(ops, n)
            && NoReentry(sk) == NoReentryTo(ops, n)
  {
    if n > 0 {
      MarksDecide(ops, n - 1);
      NoReentryStep(ops, n);
      var before, sk := MarksOf(ops, n - 1), MarksOf(ops, n);
      if Marks(ops[n - 1]) {
        assert sk == before + [ops[n - 1]] && |sk| - 1 == |before|;
        PrefixMarks(sk, before, |before|);
        NoReentryStep(sk, |sk|);
      } else {
        assert sk == before;
      }
    }
  }

  lemma {:induction false} FirstReentry(ops: seq<Op>, end: nat) returns (n: nat)
    requires end <= |ops| && !NoReentryTo(ops, end)
    ensures n < end && Reenters(ops, n) && NoReentryTo(ops, n)
  {
    if end > 0 {
      NoReentryStep(ops, end);
      if NoReentryTo(ops, end - 1) {
        n := end - 1;
      } else {
        n := FirstReentry(ops, end - 1);
      }
    }
  }

  // ----- Putting operations between the marks -----

  /** The skeleton with `fill` put in before its operation n. */
  function Filled(sk: seq<Op>, n: nat, fill: seq<Op>): (ops: seq<Op>)
    requires n <= |sk|
    ensures |ops| == |sk| + |fill|
  {
    seq(|sk| + |fill|, i requires 0 <= i < |sk| + |fill| =>
      if i < n then sk[i] else if i < n + |fill| then fill[i - n] else sk[i - |fill|])
  }

  lemma FilledAt(sk: seq<Op>, n: nat, fill: seq<Op>)
    requires n <= |sk|
    ensures SamePrefix(Filled(sk, n, fill), sk, n)
    ensures forall i | 0 <= i < |fill| :: Filled(sk, n, fill)[n + i] == fill[i]
  {
  }

  predicate NoMarks(fill: seq<Op>) {
    forall i | 0 <= i < |fill| :: !Marks(fill[i])
  }

  lemma {:induction false} MarksOfSkeleton(sk: seq<Op>, n: nat)
    requires n <= |sk| && Skeleton(sk)
    ensures MarksOf(sk, n) == sk[..n]
  {
    if n > 0 {
      MarksOfSkeleton(sk, n - 1);
      assert sk[..n] == sk[..n - 1] + [sk[n - 1]];
    }
  }

  lemma FilledOp(sk: seq<Op>, n: nat, fill: seq<Op>, i: nat)
    requires n <= |sk| && i < |sk| + |fill|
    ensures |Filled(sk, n, fill)| == |sk| + |fill|
    ensures Filled(sk, n, fill)[i] == if i < n then sk[i] else if i < n + |fill| then fill[i - n] else sk[i - |fill|]
  {
  }

  lemma TakeOneMore(sk: seq<Op>, k: nat)
    requires 0 < k <= |sk|
    ensures sk[..k] == sk[..k - 1] + [sk[k - 1]]
  {
  }

  /** How much of the skeleton stands before position m of the filled run. */
  function Kept(n: nat, fill: nat, m: nat): nat {
    if m <= n then m else if m <= n + fill then n else m - fill
  }

  /** Filling does not change the skeleton. */
  lemma {:induction false} MarksOfFilled(sk: seq<Op>, n: nat, fill: seq<Op>, m: nat)
    requires n <= |sk| && Skeleton(sk) && NoMarks(fill) && m <= |sk| + |fill|
    ensures MarksOf(Filled(sk, n, fill), m) == sk[..Kept(n, |fill|, m)]
    decreases m
  {
    if m > 0 {
      MarksOfFilled(sk, n, fill, m - 1);
      FilledOp(sk, n, fill, m - 1);
      if m <= n || m > n + |fill| {
        TakeOneMore(sk, Kept(n, |fill|, m));
      }
    }
  }

  lemma FilledMarks(sk: seq<Op>, n: nat, fill: seq<Op>)
    requires n <= |sk| && Skeleton(sk) && NoMarks(fill)
    ensures MarksOf(Filled(sk, n, fill), |sk| + |fill|) == sk
  {
    MarksOfFilled(sk, n, fill, |sk| + |fill|);
    assert sk[..|sk|] == sk;
  }

  lemma {:induction false} AfterPrefix(w: World, a: seq<Op>, b: seq<Op>, n: nat)
    requires n <= |a| && n <= |b| && SamePrefix(a, b, n)
    ensures After(w, a, n) == After(w, b, n)
    decreases n
  {
    if n > 0 {
      AfterPrefix(w, a, b, n - 1);
    }
  }

  lemma AppendsPrefix(h: Host, h1: Host, id: Int32, sender: Mode)
    requires Appends(h, h1, id, sender)
    ensures SentPrefix(h, h1)
  {
    forall i | 0 <= i < |h.sent| ensures h1.sent[i] == h.sent[i] {
      assert h1.sent[i] == h1.sent[..|h.sent|][i];
    }
  }

  predicate SentPrefix(h: Host, h1: Host) {
    |h.sent| <= |h1.sent| && forall i | 0 <= i < |h.sent| :: h1.sent[i] == h.sent[i]
  }

  lemma AsksPrefix(b: Base, h: Host, b1: Base, h1: Host)
    requires Asks(b, h, b1, h1)
    ensures SentPrefix(h, h1)
  {
    if h1 != h {
      AppendsPrefix(h, h1, b1.nextCallId, b.mode);
    }
  }

  lemma StepPrefix(w: World, s: State, op: Op, t: State)
    requires Stacked(s) && t == Step(w, s, op).0
    ensures SentPrefix(s.host, t.host)
  {
    StepShapes(w, s, op);
    match op
    case CallOp(on, _) => if Exists(s, on) { AsksPrefix(At(s, on), s.host, At(t, on), t.host); }
    case SecretsOp(_) => AsksPrefix(s.don, s.host, t.don, t.host);
    case Leave(_) => if s.stack != [] { AsksPrefix(Retire(s).don, Retire(s).host, t.don, t.host); }
    case _ =>
  }

  /** The requests that reached the host stay in its log. */
  lemma RunPrefix(w: World, ops: seq<Op>, n: nat)
    requires 0 < n <= |ops|
    ensures SentPrefix(After(w, ops, n - 1).host, After(w, ops, n).host)
  {
    RunStacked(w, ops, n - 1);
    StepPrefix(w, After(w, ops, n - 1), ops[n - 1], After(w, ops, n));
  }
}
