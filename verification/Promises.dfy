/** Lazy once-only promises and their combinators (cre/promise.go).

    The promises of a program form a graph, listed so that a promise comes after the promises it awaits. A
    promise that a callback creates is listed too; it takes part once the callback returns it. */
module Promises {
  import opened Wrappers

  type Res<V> = Result<V, string>

  datatype Node<!V> =
    | FromResult(r: Res<V>)             // PromiseFromResult
    | Basic(outcome: Res<V>)            // NewBasicPromise over a computation with a fixed outcome
    | Then(p: nat, fn: V -> Res<V>)
    | ThenPromise(p: nat, next: V -> nat)

  ghost predicate WellFormed<V(!new)>(g: seq<Node<V>>) {
    forall i | 0 <= i < |g| :: WellFormedAt(g, i)
  }

  /** A promise awaits only promises listed before it. */
  ghost predicate WellFormedAt<V(!new)>(g: seq<Node<V>>, i: nat)
    requires i < |g|
  {
    match g[i]
    case Then(p, _) => p < i
    case ThenPromise(p, next) => p < i && forall v :: next(v) < i
    case _ => true
  }

  /** Direct evaluation, without any memory. */
  ghost function Eval<V(!new)>(g: seq<Node<V>>, i: nat): Res<V>
    requires WellFormed(g) && i < |g|
    decreases i
  {
    assert WellFormedAt(g, i);
    match g[i]
    case FromResult(r) => r
    case Basic(r) => r
    case Then(p, fn) =>
      (match Eval(g, p)
       case Ok(v) => fn(v)
       case Err(e) => Err(e))
    case ThenPromise(p, next) =>
      (match Eval(g, p)
       case Ok(v) => Eval(g, next(v))
       case Err(e) => Err(e))
  }

  /** What the once-cells remember, which computations have run, and which callbacks were called. */
  datatype Memory<V> = Memory(memo: map<nat, Res<V>>, ran: seq<nat>, called: seq<nat>)

  /** Awaiting through the once-cells. */
  ghost function Force<V(!new)>(g: seq<Node<V>>, m: Memory<V>, i: nat): (Res<V>, Memory<V>)
    requires WellFormed(g) && i < |g|
    decreases i
  {
    assert WellFormedAt(g, i);
    if g[i].FromResult? then (g[i].r, m)
    else if i in m.memo then (m.memo[i], m)
    else match g[i]
      case Basic(r) => (r, Remember(m.(called := m.called + [i]), i, r))
      case Then(p, fn) =>
        var (u, m1) := Force(g, m, p);
        (match u
         case Err(e) => (Err(e), Remember(m1, i, Err(e)))
         case Ok(v) => (fn(v), Remember(m1.(called := m1.called + [i]), i, fn(v))))
      case ThenPromise(p, next) =>
        var (u, m1) := Force(g, m, p);
        (match u
         case Err(e) => (Err(e), Remember(m1, i, Err(e)))
         case Ok(v) =>
           var (w, m2) := Force(g, m1.(called := m1.called + [i]), next(v));
           (w, Remember(m2, i, w)))
  }

  ghost function Remember<V>(m: Memory<V>, i: nat, r: Res<V>): Memory<V> {
    Memory(m.memo[i := r], m.ran + [i], m.called)
  }

  /** The promises of a program, with their once-cells. */
  class Graph<V(!new)> {
    const nodes: seq<Node<V>>
    var cells: map<nat, Res<V>>
    ghost var ran: seq<nat>
    ghost var called: seq<nat>

    ghost function Abs(): Memory<V>
      reads this
    {
      Memory(cells, ran, called)
    }

    constructor (nodes: seq<Node<V>>)
      ensures this.nodes == nodes && Abs() == Memory(map[], [], [])
    {
      this.nodes := nodes;
      cells, ran, called := map[], [], [];
    }

    method Await(i: nat) returns (r: Res<V>)
      requires WellFormed(nodes) && i < |nodes|
      modifies this
      ensures (r, Abs()) == Force(nodes, old(Abs()), i)
      decreases i
    {
      assert WellFormedAt(nodes, i);
      if nodes[i].FromResult? {
        return nodes[i].r;
      }
      if i in cells {
        return cells[i];
      }
      match nodes[i] {
        case Basic(outcome) =>
          called := called + [i];
          r := outcome;
        case Then(p, fn) =>
          var u := Await(p);
          if u.Err? {
            r := Err(u.error);
          } else {
            called := called + [i];
            r := fn(u.value);
          }
        case ThenPromise(p, next) =>
          var u := Await(p);
          if u.Err? {
            r := Err(u.error);
          } else {
            called := called + [i];
            r := Await(next(u.value));
          }
      }
      cells := cells[i := r];
      ran := ran + [i];
    }
  }

  // ----- Memoised awaiting refines direct evaluation -----

  ghost predicate Distinct(s: seq<nat>) {
    forall a, b | 0 <= a < b < |s| :: s[a] != s[b]
  }

  /** The computation behind promise i hands control to user code: always for a basic promise, and only
      after a success of the awaited promise for the combinators. */
  ghost predicate Reaches<V(!new)>(g: seq<Node<V>>, i: nat)
    requires WellFormed(g) && i < |g|
  {
    assert WellFormedAt(g, i);
    g[i].Basic? || ((g[i].Then? || g[i].ThenPromise?) && Eval(g, g[i].p).Ok?)
  }

  /** Every remembered result is the direct one; each computation ran once and exactly the remembered ones
      ran; each callback was called at most once, and never after an error. Callbacks of promises in
      `open` have been called while the promise itself is still being computed. */
  ghost predicate Sound<V(!new)>(g: seq<Node<V>>, m: Memory<V>, open: set<nat>)
    requires WellFormed(g)
  {
    && (forall i | i in m.memo :: i < |g| && !g[i].FromResult? && m.memo[i] == Eval(g, i))
    && Distinct(m.ran) && (forall i :: i in m.ran <==> i in m.memo)
    && Distinct(m.called)
    && (forall i :: i in m.called <==> i in open || (i in m.memo && Reaches(g, i)))
    && (forall i | i in open :: i !in m.memo)
  }

  lemma OpenSound<V(!new)>(g: seq<Node<V>>, m: Memory<V>, i: nat, open: set<nat>)
    requires WellFormed(g) && Sound(g, m, open) && i !in m.memo && i !in open
    ensures Sound(g, m.(called := m.called + [i]), open + {i})
  {
  }

  lemma CloseSound<V(!new)>(g: seq<Node<V>>, m: Memory<V>, i: nat, open: set<nat>)
    requires WellFormed(g) && i < |g| && !g[i].FromResult? && i !in open && i !in m.memo
    requires Sound(g, m, if Reaches(g, i) then open + {i} else open)
    ensures Sound(g, Remember(m, i, Eval(g, i)), open)
  {
  }

  lemma {:induction false} ForceRefines<V(!new)>(g: seq<Node<V>>, m: Memory<V>, i: nat, open: set<nat>)
    requires WellFormed(g) && i < |g| && Sound(g, m, open) && forall j | j in open :: i < j
    ensures Force(g, m, i).0 == Eval(g, i)
    ensures Sound(g, Force(g, m, i).1, open)
    ensures forall j | j in Force(g, m, i).1.memo :: j in m.memo || j <= i
    decreases i
  {
    assert WellFormedAt(g, i);
    if !g[i].FromResult? && i !in m.memo {
      var m1 := m;
      if !g[i].Basic? {
        ForceRefines(g, m, g[i].p, open);
        m1 := Force(g, m, g[i].p).1;
      }
      if Reaches(g, i) {
        OpenSound(g, m1, i, open);
        m1 := m1.(called := m1.called + [i]);
        if g[i].ThenPromise? {
          var q := g[i].next(Eval(g, g[i].p).value);
          ForceRefines(g, m1, q, open + {i});
          m1 := Force(g, m1, q).1;
        }
      }
      CloseSound(g, m1, i, open);
    }
  }

  ghost predicate InGraph<V>(g: seq<Node<V>>, script: seq<nat>) {
    forall k | 0 <= k < |script| :: script[k] < |g|
  }

  /** Awaiting a list of promises one after the other, with repetitions in any order. */
  ghost function AwaitAll<V(!new)>(g: seq<Node<V>>, m: Memory<V>, script: seq<nat>): (seq<Res<V>>, Memory<V>)
    requires WellFormed(g) && InGraph(g, script)
    decreases |script|
  {
    if script == [] then ([], m)
    else
      var (r, m1) := Force(g, m, script[0]);
      var (rs, m2) := AwaitAll(g, m1, script[1..]);
      ([r] + rs, m2)
  }

  lemma {:induction false} AwaitAllRefinesFrom<V(!new)>(g: seq<Node<V>>, m: Memory<V>, script: seq<nat>)
    requires WellFormed(g) && InGraph(g, script) && Sound(g, m, {})
    ensures |AwaitAll(g, m, script).0| == |script|
    ensures forall k | 0 <= k < |script| :: AwaitAll(g, m, script).0[k] == Eval(g, script[k])
    ensures Sound(g, AwaitAll(g, m, script).1, {})
    decreases |script|
  {
    if script != [] {
      ForceRefines(g, m, script[0], {});
      AwaitAllRefinesFrom(g, Force(g, m, script[0]).1, script[1..]);
    }
  }

  /** Over any program of awaits: every await gives the direct result, each computation runs at most once,
      each callback is called at most once, and no callback is called after an error upstream. */
  lemma AwaitAllRefines<V(!new)>(g: seq<Node<V>>, script: seq<nat>)
    requires WellFormed(g) && InGraph(g, script)
    ensures var (rs, m) := AwaitAll(g, Memory(map[], [], []), script);
            && rs == seq(|script|, k requires 0 <= k < |script| => Eval(g, script[k]))
            && Distinct(m.ran) && Distinct(m.called)
            && (forall i | i in m.called :: i < |g| && Reaches(g, i))
  {
    AwaitAllRefinesFrom(g, Memory(map[], [], []), script);
  }
}
