/** A workflow at work on the runtime objects: whatever list of operations it performs, the objects go through
    exactly the states of the machine. */
module Workflows {
  import opened Wrappers
  import opened Modes
  import opened Runtimes

  function ContentOf(request: CapabilityRequest?): Option<string> {
    if request == null then None else Some(request.content)
  }

  /** A request object, or null for no request. */
  method NewRequest(content: Option<string>) returns (request: CapabilityRequest?)
    ensures ContentOf(request) == content && (request != null ==> fresh(request))
  {
    request := null;
    if content.Some? {
      request := new CapabilityRequest(content.value);
    }
  }

  class Workflow {
    const host: RuntimeHelpers
    const don: Runtime
    var nodes: seq<RuntimeBase>
    var stack: seq<nat>
    var promises: seq<RuntimePromise>

    constructor (w: World)
      ensures Valid() && host.w == w && Abs() == Fresh()
      ensures fresh(host) && fresh(don) && fresh(don.base)
      ensures nodes == [] && promises == [] && host.donSrc == null && host.nodeSrc == null
    {
      var rh := new RuntimeHelpers(w);
      host := rh;
      don := new Runtime(rh);
      nodes, stack, promises := [], [], [];
    }

    ghost predicate Valid()
      reads this, host, don, don.base, nodes, promises
    {
      && don.base.host == host && don.base.mode == DonMode && don.base.Valid()
      && (forall i | 0 <= i < |nodes| :: nodes[i].host == host && nodes[i].Valid() && nodes[i] != don.base)
      && (forall i, j | 0 <= i < j < |nodes| :: nodes[i] != nodes[j])
      && (forall i | 0 <= i < |promises| :: promises[i].host == host)
      && (forall i, j | 0 <= i < j < |promises| :: promises[i] != promises[j])
    }

    ghost function Bases(): (bs: seq<Base>)
      reads this, nodes
      ensures |bs| == |nodes|
    {
      seq(|nodes|, i requires 0 <= i < |nodes| reads this, nodes => nodes[i].Abs())
    }

    ghost function Values(): (ps: seq<Promise>)
      reads this, promises
      ensures |ps| == |promises|
    {
      seq(|promises|, i requires 0 <= i < |promises| reads this, promises => promises[i].Abs())
    }

    ghost function Abs(): State
      reads this, host, host.donSrc, host.nodeSrc, don, don.base, nodes, promises
    {
      State(don.base.Abs(), don.nextNodeCallId, Bases(), stack, host.Abs(), Values())
    }

    /** The runtime that a handle names. */
    function On(on: Handle): RuntimeBase
      requires on.Node? ==> on.k < |nodes|
      reads this
    {
      if on.Don? then don.base else nodes[on.k]
    }

    function PromiseAt(i: nat): RuntimePromise
      requires i < |promises|
      reads this
    {
      promises[i]
    }

    /** Issues a call on a runtime, without listing the promise yet. */
    method CallOn(on: Handle, request: CapabilityRequest?) returns (p: RuntimePromise)
      requires Valid() && Exists(Abs(), on)
      modifies On(on)`nextCallId, host`calls, host`sent, request
      ensures Valid() && fresh(p) && p.host == host
      ensures var r := Call(host.w, At(old(Abs()), on), old(host.Abs()), ContentOf(request));
              Abs() == Put(old(Abs()), on, r.0).(host := r.1) && p.Abs() == r.2
    {
      ghost var runtime := On(on);
      p := On(on).CallCapability(request);
      assert forall i | 0 <= i < |nodes| && nodes[i] != runtime :: nodes[i].Abs() == old(nodes[i].Abs());
      assert Bases() == if on.Don? then old(Bases()) else old(Bases())[on.k := runtime.Abs()];
      assert Values() == old(Values());
    }

    /** Lists a promise. */
    method Keep(p: RuntimePromise) returns (out: Out)
      requires Valid() && p.host == host && p !in promises
      modifies this`promises
      ensures Valid() && promises == old(promises) + [p]
      ensures Abs() == old(Abs()).(promises := old(Values()) + [p.Abs()]) && out == Promised(|old(promises)|)
    {
      out := Promised(|promises|);
      promises := promises + [p];
      assert Bases() == old(Bases());
      assert Values() == old(Values()) + [p.Abs()];
    }

    method DoCall(on: Handle, request: CapabilityRequest?) returns (out: Out)
      requires Valid() && Exists(Abs(), on)
      modifies this`promises, On(on)`nextCallId, host`calls, host`sent, request
      ensures Valid()
      ensures (Abs(), out) == Promising(old(Abs()), on, Call(host.w, At(old(Abs()), on), old(host.Abs()), ContentOf(request)))
      ensures Grown(old(nodes), old(promises), old(host.donSrc), old(host.nodeSrc))
    {
      var p := CallOn(on, request);
      out := Keep(p);
    }

    /** One new promise was listed. */
    twostate predicate Listed(before: seq<RuntimePromise>)
      reads this
    {
      |promises| == |before| + 1 && fresh(promises[|before|]) && promises[..|before|] == before
    }

    method DoSecrets(reqs: seq<SecretRequest>) returns (out: Out)
      requires Valid()
      modifies this`promises, don.base`nextCallId, host`secretsCalls, host`sent
      ensures Valid()
      ensures (Abs(), out) == Promising(old(Abs()), Don, GetSecrets(host.w, old(don.base.Abs()), old(host.Abs()), reqs))
      ensures Grown(old(nodes), old(promises), old(host.donSrc), old(host.nodeSrc))
    {
      var p := don.GetSecrets(reqs);
      assert Bases() == old(Bases());
      assert Values() == old(Values());
      out := Keep(p);
    }

    method DoRand(on: Handle) returns (out: Out)
      requires Valid() && Exists(Abs(), on)
      modifies On(on)`source, On(on)`source64, host`donSrc, host`nodeSrc
      ensures Valid() && (Abs(), out) == StepRand(old(Abs()), on)
      ensures Grown(old(nodes), old(promises), old(host.donSrc), old(host.nodeSrc))
    {
      var e := On(on).Random();
      assert host.SourceOf(DonMode) == host.donSrc && host.SourceOf(NodeMode) == host.nodeSrc;
      out := if e.Some? then RandRefused(e.value) else RandReady;
      assert Bases() == if on.Don? then old(Bases()) else old(Bases())[on.k := nodes[on.k].Abs()];
      assert Values() == old(Values());
    }

    method DoDraw(on: Handle, kind: DrawKind) returns (out: Out)
      requires Valid() && Exists(Abs(), on)
      modifies On(on).source
      ensures Valid() && (Abs(), out) == StepDraw(host.w, old(Abs()), on, kind)
      ensures Grown(old(nodes), old(promises), old(host.donSrc), old(host.nodeSrc))
    {
      var v := On(on).DrawNumber(kind);
      out := if v.Some? then Number(v.value) else Panic;
      assert Bases() == old(Bases());
      assert Values() == old(Values());
    }

    method DoAwait(i: nat) returns (out: Out)
      requires Valid() && i < |promises|
      modifies PromiseAt(i)`cell, host`calls, host`awaited
      ensures Valid() && (Abs(), out) == StepAwait(host.w, old(Abs()), i)
      ensures Grown(old(nodes), old(promises), old(host.donSrc), old(host.nodeSrc))
    {
      var r := promises[i].Await();
      out := if r.Some? then Awaited(r.value) else Blocked;
      assert Bases() == old(Bases());
      assert Values() == old(Values())[i := promises[i].Abs()];
    }

    method DoEnter() returns (out: Out)
      requires Valid()
      modifies this`nodes, this`stack, don.base`modeErr, host`mode
      ensures Valid() && (Abs(), out) == StepEnter(old(Abs()))
      ensures Grown(old(nodes), old(promises), old(host.donSrc), old(host.nodeSrc))
    {
      var nrt := don.EnterNodeMode();
      out := Entered(|nodes|);
      stack := stack + [|nodes|];
      nodes := nodes + [nrt];
      assert Bases() == old(Bases()) + [nrt.Abs()];
      assert Values() == old(Values());
    }

    /** The innermost callback returns. */
    method Return()
      requires Valid() && stack != [] && stack[|stack| - 1] < |nodes|
      modifies this`stack, don, don.base`modeErr, On(Node(stack[|stack| - 1]))`modeErr, host`mode
      ensures Valid() && Abs() == Retire(old(Abs()))
    {
      var k := stack[|stack| - 1];
      don.LeaveNodeMode(nodes[k]);
      stack := stack[..|stack| - 1];
      assert Bases() == old(Bases())[k := nodes[k].Abs()];
      assert Values() == old(Values());
    }

    /** The observation goes to consensus. */
    method Observe(observation: Option<string>) returns (out: Out)
      requires Valid()
      modifies this`promises, don.base`nextCallId, host`calls, host`sent
      ensures Valid() && Listed(old(promises))
      ensures (Abs(), out) ==
              match observation
              case None => (old(Abs()).(promises := old(Values()) + [Fixed(Err(Unmarshallable))]), Promised(|old(promises)|))
              case Some(_) => Promising(old(Abs()), Don, Call(host.w, old(don.base.Abs()), old(host.Abs()), observation))
    {
      var p := don.Simple(observation);
      assert Bases() == old(Bases());
      assert Values() == old(Values());
      out := Keep(p);
    }

    method DoLeave(observation: Option<string>) returns (out: Out)
      requires Valid() && stack != [] && stack[|stack| - 1] < |nodes|
      modifies this`stack, this`promises, don, don.base`modeErr, don.base`nextCallId, On(Node(stack[|stack| - 1]))`modeErr, host
      ensures Valid()
      ensures (Abs(), out) == StepLeave(host.w, old(Abs()), observation)
      ensures Grown(old(nodes), old(promises), old(host.donSrc), old(host.nodeSrc))
    {
      Return();
      out := Observe(observation);
    }

    /** Objects are only ever added. */
    twostate predicate Grown(ns: seq<RuntimeBase>, ps: seq<RuntimePromise>, ds: Source?, ss: Source?)
      reads this, host
    {
      && (forall i | 0 <= i < |nodes| :: nodes[i] in ns || fresh(nodes[i]))
      && (forall i | 0 <= i < |promises| :: promises[i] in ps || fresh(promises[i]))
      && (host.donSrc == ds || fresh(host.donSrc)) && (host.nodeSrc == ss || fresh(host.nodeSrc))
    }

    /** A call with a request object made for it. */
    method DoNewCall(on: Handle, content: Option<string>) returns (out: Out)
      requires Valid() && Exists(Abs(), on)
      modifies this`promises, On(on)`nextCallId, host`calls, host`sent
      ensures Valid()
      ensures (Abs(), out) == Promising(old(Abs()), on, Call(host.w, At(old(Abs()), on), old(host.Abs()), content))
      ensures Grown(old(nodes), old(promises), old(host.donSrc), old(host.nodeSrc))
    {
      var request := NewRequest(content);
      out := DoCall(on, request);
    }

    /** One operation on a runtime that a handle names. */
    method DoOn(op: Op) returns (out: Out)
      requires Valid() && (op.CallOp? || op.RandOp? || op.DrawOp?)
      modifies this`promises, host, don.base, nodes, host.donSrc, host.nodeSrc
      ensures Valid() && Grown(old(nodes), old(promises), old(host.donSrc), old(host.nodeSrc))
      ensures (Abs(), out) == Step(host.w, old(Abs()), op)
    {
      if op.on.Node? && op.on.k >= |nodes| {
        return Impossible;
      }
      match op
      case CallOp(on, content) => out := DoNewCall(on, content);
      case RandOp(on) => out := DoRand(on);
      case DrawOp(on, kind) => out := DoDraw(on, kind);
    }

    /** One operation. */
    method Do(op: Op) returns (out: Out)
      requires Valid()
      modifies this, host, don, don.base, nodes, promises, host.donSrc, host.nodeSrc
      ensures Valid() && Grown(old(nodes), old(promises), old(host.donSrc), old(host.nodeSrc))
      ensures (Abs(), out) == Step(host.w, old(Abs()), op)
    {
      out := Impossible;
      match op
      case SecretsOp(reqs) => out := DoSecrets(reqs);
      case AwaitOp(i) =>
        if i < |promises| {
          out := DoAwait(i);
        }
      case Enter => out := DoEnter();
      case Leave(observation) =>
        if |stack| > 0 && stack[|stack| - 1] < |nodes| {
          out := DoLeave(observation);
        }
      case _ => out := DoOn(op);
    }

    /** A whole run from a fresh start goes through the states of the machine. */
    method Execute(ops: seq<Op>) returns (outs: seq<Out>)
      requires Valid() && Abs() == Fresh()
      modifies this, host, don, don.base, nodes, promises, host.donSrc, host.nodeSrc
      ensures Valid() && Abs() == After(host.w, ops, |ops|)
      ensures outs == Outs(host.w, ops, |ops|)
    {
      outs := [];
      for n := 0 to |ops|
        invariant Valid() && Abs() == After(host.w, ops, n) && outs == Outs(host.w, ops, n)
        invariant Grown(old(nodes), old(promises), old(host.donSrc), old(host.nodeSrc))
      {
        var out := Do(ops[n]);
        outs := outs + [out];
      }
    }
  }
}
