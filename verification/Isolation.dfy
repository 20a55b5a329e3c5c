/** What happens inside node callbacks does not reach the DON level: neither its callback ids nor its random
    numbers depend on it. */
module Isolation {
  import opened Wrappers
  import opened Modes
  import opened Steps

  /** Operations on node runtimes, and awaits. */
  predicate Hidden(op: Op) {
    op.AwaitOp? || ((op.CallOp? || op.RandOp? || op.DrawOp?) && op.on.Node?)
  }

  /** The DON-level operations among the first n. */
  function Visible(ops: seq<Op>, n: nat): seq<Op>
    requires n <= |ops|
  {
    if n == 0 then [] else Visible(ops, n - 1) + if Hidden(ops[n - 1]) then [] else [ops[n - 1]]
  }

  /** The same operation, up to what is asked for and up to the observation. */
  predicate Alike(a: Op, b: Op) {
    match (a, b)
    case (CallOp(x, r), CallOp(y, q)) => x == y && r.Some? == q.Some?
    case (SecretsOp(r), SecretsOp(q)) => (r == []) == (q == [])
    case (Leave(o), Leave(p)) => o.Some? == p.Some?
    case _ => a == b
  }

  predicate AllAlike(xs: seq<Op>, ys: seq<Op>) {
    |xs| == |ys| && forall i | 0 <= i < |xs| :: Alike(xs[i], ys[i])
  }

  /** Two worlds with the same DON random source; everything else may differ. */
  ghost predicate SameDonSource(w: World, v: World) {
    && (forall h :: w.int63(DonMode, h) == v.int63(DonMode, h))
    && (forall h :: w.uint64(DonMode, h) == v.uint64(DonMode, h))
    && w.is64(DonMode) == v.is64(DonMode)
  }

  /** The ids that the DON runtime gave to the host with its first n requests, in order. */
  function DonIds(sent: seq<Sent>, n: nat): seq<Int32>
    requires n <= |sent|
  {
    if n == 0 then [] else DonIds(sent, n - 1) + if sent[n - 1].sender == DonMode then [sent[n - 1].id] else []
  }

  function IdsOf(h: Host): seq<Int32> { DonIds(h.sent, |h.sent|) }

  /** What an operation shows at the DON's random level. */
  function Shown(op: Op, out: Out): seq<Out> {
    if !Hidden(op) && (op.RandOp? || op.DrawOp?) then [out] else []
  }

  /** What the DON's random operations among the first n gave, in order. */
  function DonRandom(w: World, ops: seq<Op>, n: nat): seq<Out>
    requires n <= |ops|
  {
    if n == 0 then []
    else DonRandom(w, ops, n - 1) + Shown(ops[n - 1], Step(w, After(w, ops, n - 1), ops[n - 1]).1)
  }

  /** Two states that the DON level cannot tell apart. */
  predicate SameDon(s: State, t: State) {
    && s.don == t.don && s.host.donSource == t.host.donSource && |s.stack| == |t.stack|
    && IdsOf(s.host) == IdsOf(t.host)
  }

  lemma {:induction false} DonIdsPrefix(a: seq<Sent>, b: seq<Sent>, n: nat)
    requires n <= |a| && n <= |b| && a[..n] == b[..n]
    ensures DonIds(a, n) == DonIds(b, n)
  {
    if n > 0 {
      assert a[n - 1] == a[..n][n - 1] == b[..n][n - 1] == b[n - 1];
      assert a[..n - 1] == a[..n][..n - 1] == b[..n][..n - 1] == b[..n - 1];
      DonIdsPrefix(a, b, n - 1);
    }
  }

  lemma AppendIds(h: Host, h1: Host, id: Int32, sender: Mode)
    requires Appends(h, h1, id, sender)
    ensures IdsOf(h1) == IdsOf(h) + if sender == DonMode then [id] else []
  {
    DonIdsPrefix(h1.sent, h.sent, |h.sent|);
  }

  lemma AskIds(b: Base, h: Host, b1: Base, h1: Host)
    requires Asks(b, h, b1, h1)
    ensures IdsOf(h1) == IdsOf(h) + if h1 != h && b.mode == DonMode then [b1.nextCallId] else []
  {
    if h1 != h {
      AppendIds(h, h1, b1.nextCallId, b.mode);
    }
  }

  // ----- Hidden operations -----

  lemma NodeActsHidden(s: State, t: State, k: nat)
    requires Stacked(s) && Acts(s, t, Node(k))
    ensures SameDon(s, t)
  {
    AskIds(s.nodes[k], s.host, t.nodes[k], t.host);
  }

  lemma StepHidden(w: World, s: State, op: Op)
    requires Stacked(s) && Hidden(op)
    ensures SameDon(s, Step(w, s, op).0)
  {
    match op
    case CallOp(on, request) =>
      if Exists(s, on) {
        CallActs(w, s, on, request);
        NodeActsHidden(s, Step(w, s, op).0, on.k);
      }
    case _ =>
  }

  // ----- DON-level operations -----

  lemma CallAlike(w: World, v: World, b: Base, g: Host, h: Host, r: Option<string>, q: Option<string>)
    requires r.Some? == q.Some? && IdsOf(g) == IdsOf(h) && b.mode == DonMode
    ensures Call(w, b, g, r).0 == Call(v, b, h, q).0
    ensures IdsOf(Call(w, b, g, r).1) == IdsOf(Call(v, b, h, q).1)
    ensures Call(w, b, g, r).1.donSource == g.donSource && Call(v, b, h, q).1.donSource == h.donSource
  {
    CallAsks(w, b, g, r);
    CallAsks(v, b, h, q);
    AskIds(b, g, Call(w, b, g, r).0, Call(w, b, g, r).1);
    AskIds(b, h, Call(v, b, h, q).0, Call(v, b, h, q).1);
  }

  lemma SecretsAlike(w: World, v: World, b: Base, g: Host, h: Host, r: seq<SecretRequest>, q: seq<SecretRequest>)
    requires (r == []) == (q == []) && IdsOf(g) == IdsOf(h) && b.mode == DonMode
    ensures GetSecrets(w, b, g, r).0 == GetSecrets(v, b, h, q).0
    ensures IdsOf(GetSecrets(w, b, g, r).1) == IdsOf(GetSecrets(v, b, h, q).1)
    ensures GetSecrets(w, b, g, r).1.donSource == g.donSource && GetSecrets(v, b, h, q).1.donSource == h.donSource
  {
    GetSecretsAsks(w, b, g, r);
    GetSecretsAsks(v, b, h, q);
    AskIds(b, g, GetSecrets(w, b, g, r).0, GetSecrets(w, b, g, r).1);
    AskIds(b, h, GetSecrets(v, b, h, q).0, GetSecrets(v, b, h, q).1);
  }

  lemma DrawAlike(w: World, v: World, s: State, t: State, kind: DrawKind)
    requires SameDonSource(w, v) && SameDon(s, t) && s.don.mode == DonMode
    ensures SameDon(StepDraw(w, s, Don, kind).0, StepDraw(v, t, Don, kind).0)
    ensures StepDraw(w, s, Don, kind).1 == StepDraw(v, t, Don, kind).1
  {
  }

  lemma RandAlike(s: State, t: State)
    requires SameDon(s, t) && s.don.mode == DonMode
    ensures SameDon(StepRand(s, Don).0, StepRand(t, Don).0)
    ensures StepRand(s, Don).1 == StepRand(t, Don).1
  {
  }

  lemma LeaveAlike(w: World, v: World, s: State, t: State, r: Option<string>, q: Option<string>)
    requires Stacked(s) && Stacked(t) && SameDon(s, t) && s.stack != [] && r.Some? == q.Some?
    ensures SameDon(StepLeave(w, s, r).0, StepLeave(v, t, q).0)
  {
    CallAlike(w, v, Retire(s).don, Retire(s).host, Retire(t).host, r, q);
  }

  lemma StepAlike(w: World, v: World, s: State, t: State, a: Op, b: Op)
    requires SameDonSource(w, v) && Stacked(s) && Stacked(t) && SameDon(s, t)
    requires !Hidden(a) && !Hidden(b) && Alike(a, b)
    ensures SameDon(Step(w, s, a).0, Step(v, t, b).0)
    ensures a.RandOp? || a.DrawOp? ==> Step(w, s, a).1 == Step(v, t, b).1
  {
    match a
    case CallOp(_, r) => CallAlike(w, v, s.don, s.host, t.host, r, b.request);
    case SecretsOp(r) => SecretsAlike(w, v, s.don, s.host, t.host, r, b.requests);
    case RandOp(_) => RandAlike(s, t);
    case DrawOp(_, kind) => DrawAlike(w, v, s, t, kind);
    case Leave(r) => if s.stack != [] { LeaveAlike(w, v, s, t, r, b.observation); }
    case _ =>
  }

  // ----- Whole runs -----

  /** A hidden operation leaves no trace at the DON level. */
  lemma RunHidden(w: World, xs: seq<Op>, m: nat)
    requires 0 < m <= |xs| && Hidden(xs[m - 1])
    ensures SameDon(After(w, xs, m - 1), After(w, xs, m))
    ensures DonRandom(w, xs, m) == DonRandom(w, xs, m - 1) && Visible(xs, m) == Visible(xs, m - 1)
  {
    RunStacked(w, xs, m - 1);
    StepHidden(w, After(w, xs, m - 1), xs[m - 1]);
  }

  /** Two operations that are alike keep two states together and show the same. */
  lemma StepsAlike(w: World, v: World, s: State, t: State, a: Op, b: Op, s1: State, t1: State)
    requires SameDonSource(w, v) && Stacked(s) && Stacked(t) && SameDon(s, t)
    requires !Hidden(a) && !Hidden(b) && Alike(a, b)
    requires s1 == Step(w, s, a).0 && t1 == Step(v, t, b).0
    ensures SameDon(s1, t1) && Shown(a, Step(w, s, a).1) == Shown(b, Step(v, t, b).1)
  {
    StepAlike(w, v, s, t, a, b);
  }

  lemma RunAlike(w: World, v: World, xs: seq<Op>, m: nat, ys: seq<Op>, n: nat)
    requires SameDonSource(w, v) && 0 < m <= |xs| && 0 < n <= |ys|
    requires !Hidden(xs[m - 1]) && !Hidden(ys[n - 1]) && Alike(xs[m - 1], ys[n - 1])
    requires SameDon(After(w, xs, m - 1), After(v, ys, n - 1))
    ensures SameDon(After(w, xs, m), After(v, ys, n))
    ensures Shown(xs[m - 1], Step(w, After(w, xs, m - 1), xs[m - 1]).1) ==
            Shown(ys[n - 1], Step(v, After(v, ys, n - 1), ys[n - 1]).1)
  {
    RunStacked(w, xs, m - 1);
    RunStacked(v, ys, n - 1);
    StepsAlike(w, v, After(w, xs, m - 1), After(v, ys, n - 1), xs[m - 1], ys[n - 1], After(w, xs, m), After(v, ys, n));
  }

  lemma {:induction false} Isolated(w: World, v: World, xs: seq<Op>, m: nat, ys: seq<Op>, n: nat)
    requires SameDonSource(w, v) && m <= |xs| && n <= |ys| && AllAlike(Visible(xs, m), Visible(ys, n))
    ensures SameDon(After(w, xs, m), After(v, ys, n))
    ensures DonRandom(w, xs, m) == DonRandom(v, ys, n)
    decreases m + n
  {
    if m > 0 && Hidden(xs[m - 1]) {
      RunHidden(w, xs, m);
      Isolated(w, v, xs, m - 1, ys, n);
    } else if n > 0 && Hidden(ys[n - 1]) {
      RunHidden(v, ys, n);
      Isolated(w, v, xs, m, ys, n - 1);
    } else if m > 0 && n > 0 {
      LastAlike(xs, m, ys, n);
      Isolated(w, v, xs, m - 1, ys, n - 1);
      RunAlike(w, v, xs, m, ys, n);
    }
  }

  lemma LastAlike(xs: seq<Op>, m: nat, ys: seq<Op>, n: nat)
    requires 0 < m <= |xs| && 0 < n <= |ys| && AllAlike(Visible(xs, m), Visible(ys, n))
    requires !Hidden(xs[m - 1]) && !Hidden(ys[n - 1])
    ensures Alike(xs[m - 1], ys[n - 1]) && AllAlike(Visible(xs, m - 1), Visible(ys, n - 1))
  {
    var a, b := Visible(xs, m - 1), Visible(ys, n - 1);
    assert Visible(xs, m) == a + [xs[m - 1]] && Visible(ys, n) == b + [ys[n - 1]];
    assert Alike(Visible(xs, m)[|a|], Visible(ys, n)[|b|]);
    forall i | 0 <= i < |a| ensures Alike(a[i], b[i]) {
      assert Alike(Visible(xs, m)[i], Visible(ys, n)[i]);
    }
  }

  /** DON non-interference, for all runs, nested ones included: with the same DON-level operations, the ids that
      the DON sends and the random results it gets are the same, whatever node callbacks do, whatever is
      awaited, and whatever the host and its capabilities reply. */
  lemma {:induction false} DonNonInterference(w: World, v: World, xs: seq<Op>, ys: seq<Op>)
    requires SameDonSource(w, v) && AllAlike(Visible(xs, |xs|), Visible(ys, |ys|))
    ensures IdsOf(After(w, xs, |xs|).host) == IdsOf(After(v, ys, |ys|).host)
    ensures DonRandom(w, xs, |xs|) == DonRandom(v, ys, |ys|)
  {
    Isolated(w, v, xs, |xs|, ys, |ys|);
  }

  // ----- The sources of the host -----

  /** A source goes on from where it was. */
  predicate GoesOn(a: Option<seq<Draw>>, b: Option<seq<Draw>>) {
    a.Some? ==> b.Some? && a.value <= b.value
  }

  predicate SourcesGoOn(g: Host, h: Host) {
    GoesOn(g.donSource, h.donSource) && GoesOn(g.nodeSource, h.nodeSource)
  }

  lemma AsksSources(b: Base, h: Host, b1: Base, h1: Host)
    requires Asks(b, h, b1, h1)
    ensures SourcesGoOn(h, h1)
  {
  }

  lemma RandSources(b: Base, h: Host)
    ensures SourcesGoOn(h, Rand(b, h).1)
  {
  }

  lemma DrawSources(w: World, b: Base, h: Host, kind: DrawKind)
    ensures SourcesGoOn(h, DrawFrom(w, b, h, kind).0)
    ensures DrawFrom(w, b, h, kind).0.Source(if b.mode == DonMode then NodeMode else DonMode) ==
            h.Source(if b.mode == DonMode then NodeMode else DonMode)
  {
  }

  lemma StepSources(w: World, s: State, op: Op)
    requires Stacked(s)
    ensures SourcesGoOn(s.host, Step(w, s, op).0.host)
  {
    var t := Step(w, s, op).0;
    StepShapes(w, s, op);
    match op
    case CallOp(on, _) => if Exists(s, on) { AsksSources(At(s, on), s.host, At(t, on), t.host); }
    case SecretsOp(_) => AsksSources(s.don, s.host, t.don, t.host);
    case RandOp(on) => if Exists(s, on) { RandSources(At(s, on), s.host); }
    case DrawOp(on, kind) => if Exists(s, on) { DrawSources(w, At(s, on), s.host, kind); }
    case Leave(_) => if s.stack != [] { AsksSources(Retire(s).don, Retire(s).host, t.don, t.host); }
    case _ =>
  }

  lemma RunSources(w: World, ops: seq<Op>, n: nat)
    requires 0 < n <= |ops|
    ensures SourcesGoOn(After(w, ops, n - 1).host, After(w, ops, n).host)
  {
    RunStacked(w, ops, n - 1);
    StepSources(w, After(w, ops, n - 1), ops[n - 1]);
  }

  /** Over any run the host keeps one source for each mode: it is never restarted, and every node runtime draws
      on from where the one before left it. */
  lemma {:induction false} OneSourcePerMode(w: World, ops: seq<Op>, m: nat, n: nat)
    requires m <= n <= |ops|
    ensures SourcesGoOn(After(w, ops, m).host, After(w, ops, n).host)
    decreases n
  {
    if m < n {
      OneSourcePerMode(w, ops, m, n - 1);
      RunSources(w, ops, n);
    }
  }

  // ----- What draws do to the source -----

  /** The runtime is enabled and draws from the source with this history. */
  predicate DrawsFrom(s: State, on: Handle, history: seq<Draw>) {
    Exists(s, on) && Enabled(At(s, on)) && At(s, on).attached && s.host.Source(At(s, on).mode) == Some(history)
  }

  /** Asking for randomness attaches the source of the runtime's own mode, wherever it stands. */
  lemma RandAttaches(w: World, s: State, on: Handle)
    requires Exists(s, on) && Enabled(At(s, on)) && !At(s, on).attached
    ensures var (t, out) := Step(w, s, RandOp(on));
            out == RandReady
            && DrawsFrom(t, on, if s.host.Source(At(s, on).mode).Some? then s.host.Source(At(s, on).mode).value else [])
  {
  }

  /** A disabled runtime refuses to be asked, and panics when drawn from. */
  lemma DisabledDoesNotDraw(w: World, s: State, on: Handle, kind: DrawKind)
    requires Exists(s, on) && !Enabled(At(s, on))
    ensures Step(w, s, RandOp(on)) == (s, RandRefused(At(s, on).modeErr.value))
    ensures Step(w, s, DrawOp(on, kind)) == (s, Panic)
  {
    assert on.Node? ==> s.nodes[on.k := s.nodes[on.k]] == s.nodes;
  }

  /** A draw moves the source on, and the runtime goes on drawing from it. */
  lemma DrawMoves(w: World, s: State, on: Handle, history: seq<Draw>, kind: DrawKind, done: seq<Draw>)
    requires DrawsFrom(s, on, history)
    requires match kind
             case Int63 => done == [Int63Draw]
             case Uint64 => done == if w.is64(At(s, on).mode) then [Uint64Draw] else [Int63Draw, Int63Draw]
             case Seed(v) => done == [Reseed(v)]
    ensures var t := Step(w, s, DrawOp(on, kind)).0;
            DrawsFrom(t, on, history + done) && At(t, on).mode == At(s, on).mode
  {
  }

  /** A reseed reaches the source with its seed: the next number is the one after reseeding. */
  lemma ReseedThenDraw(w: World, s: State, on: Handle, history: seq<Draw>, seed: int)
    requires DrawsFrom(s, on, history)
    ensures var t := Step(w, s, DrawOp(on, Seed(seed))).0;
            Step(w, t, DrawOp(on, Int63)).1 == Number(w.int63(At(s, on).mode, history + [Reseed(seed), Int63Draw]))
  {
    DrawMoves(w, s, on, history, Seed(seed), [Reseed(seed)]);
    assert history + [Reseed(seed)] + [Int63Draw] == history + [Reseed(seed), Int63Draw];
  }

  /** A 64-bit number comes from the source itself when it can give one, and else from its next two draws: the top
      32 bits of the first make the lower half, the low 32 bits of the second the upper half. */
  lemma Uint64Drawn(w: World, s: State, on: Handle, history: seq<Draw>)
    requires DrawsFrom(s, on, history)
    ensures var out, mode := Step(w, s, DrawOp(on, Uint64)).1, At(s, on).mode;
            && out.Number?
            && (if w.is64(mode) then out.value == w.uint64(mode, history + [Uint64Draw])
                else
                  && out.value % 0x1_0000_0000 == w.int63(mode, history + [Int63Draw]) / 0x8000_0000
                  && out.value / 0x1_0000_0000 == w.int63(mode, history + [Int63Draw, Int63Draw]) % 0x1_0000_0000)
  {
    var mode := At(s, on).mode;
    JoinHalves(w.int63(mode, history + [Int63Draw]), w.int63(mode, history + [Int63Draw, Int63Draw]));
  }
}
