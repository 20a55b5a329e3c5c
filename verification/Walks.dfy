/** Depth-bounded recursion over a graph, characterised by the walks of the graph.

    Both recursions over Go types (the identical-type check and the tag parser) visit the successors of a
    node with a depth that grows by one, and give up at a fixed depth. */
module Walks {

  type Node = nat

  /** The bounded recursion: `fuel` is how many levels are still allowed. */
  ghost predicate Accepts(next: Node -> set<Node>, ok: Node -> bool, t: Node, fuel: nat)
    decreases fuel
  {
    && fuel > 0
    && ok(t)
    && forall c | c in next(t) :: Accepts(next, ok, c, fuel - 1)
  }

  ghost predicate Walk(next: Node -> set<Node>, w: seq<Node>)
  {
    && |w| > 0
    && forall i | 0 < i < |w| :: w[i] in next(w[i - 1])
  }

  /** Every walk from `t` is short and ends in a good node. */
  ghost predicate AllWalksGood(next: Node -> set<Node>, ok: Node -> bool, t: Node, fuel: nat)
  {
    forall w: seq<Node> | Walk(next, w) && w[0] == t :: |w| <= fuel && ok(w[|w| - 1])
  }

  /** Acceptance travels along a walk and pays one unit of fuel a step. */
  lemma {:induction false} AcceptsAlong(next: Node -> set<Node>, ok: Node -> bool, w: seq<Node>, fuel: nat)
    requires Walk(next, w) && Accepts(next, ok, w[0], fuel)
    ensures |w| <= fuel && Accepts(next, ok, w[|w| - 1], fuel - (|w| - 1))
    decreases |w|
  {
    if |w| > 1 {
      assert w[1] in next(w[0]);
      AcceptsAlong(next, ok, w[1..], fuel - 1);
    }
  }

  lemma {:induction false} AcceptsIffWalks(next: Node -> set<Node>, ok: Node -> bool, t: Node, fuel: nat)
    ensures Accepts(next, ok, t, fuel) <==> AllWalksGood(next, ok, t, fuel)
    decreases fuel
  {
    if Accepts(next, ok, t, fuel) {
      forall w: seq<Node> | Walk(next, w) && w[0] == t ensures |w| <= fuel && ok(w[|w| - 1]) {
        AcceptsAlong(next, ok, w, fuel);
      }
    }
    if AllWalksGood(next, ok, t, fuel) {
      assert Walk(next, [t]);
      forall c | c in next(t) ensures Accepts(next, ok, c, fuel - 1) {
        forall w: seq<Node> | Walk(next, w) && w[0] == c ensures |w| <= fuel - 1 && ok(w[|w| - 1]) {
          assert Walk(next, [t] + w);
        }
        AcceptsIffWalks(next, ok, c, fuel - 1);
      }
    }
  }

  /** A node on a cycle is never accepted, whatever the fuel. */
  lemma {:induction false} CycleRejected(next: Node -> set<Node>, ok: Node -> bool, cycle: seq<Node>, fuel: nat)
    requires Walk(next, cycle) && |cycle| > 1 && cycle[0] == cycle[|cycle| - 1]
    ensures !Accepts(next, ok, cycle[0], fuel)
    decreases fuel
  {
    if Accepts(next, ok, cycle[0], fuel) {
      AcceptsAlong(next, ok, cycle, fuel);
      CycleRejected(next, ok, cycle, fuel - (|cycle| - 1));
    }
  }

  /** A node from which a walk runs into a cycle is never accepted. */
  lemma LassoRejected(next: Node -> set<Node>, ok: Node -> bool, w: seq<Node>, i: nat, fuel: nat)
    requires Walk(next, w) && i < |w| - 1 && w[i] == w[|w| - 1]
    ensures !Accepts(next, ok, w[0], fuel)
  {
    if Accepts(next, ok, w[0], fuel) {
      var prefix, cycle := w[..i + 1], w[i..];
      assert Walk(next, prefix) && Walk(next, cycle);
      AcceptsAlong(next, ok, prefix, fuel);
      CycleRejected(next, ok, cycle, fuel - i);
    }
  }
}
