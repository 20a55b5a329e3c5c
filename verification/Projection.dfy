/** Projecting a value onto a consensus descriptor before it is sent to consensus (cre/runtime.go). */
module Projection {
  import opened Wrappers
  import opened Tags

  // ----- Values as mutable map objects -----

  /** A wrapped value. `Nil` is a nil value or a nil map pointer; `Opaque` is any value that is not a map. */
  datatype Value = Nil | Opaque(id: int) | MapRef(m: VMap)

  /** values.Map: its entries are deleted in place. */
  class VMap {
    var underlying: map<string, Value>
    ghost var repr: set<VMap>

    /** The map objects reachable from this one form a tree. */
    ghost predicate Valid()
      reads this, repr
      decreases repr
    {
      && this in repr
      && (forall k | k in underlying && underlying[k].MapRef? ::
            && underlying[k].m in repr && underlying[k].m.repr <= repr && this !in underlying[k].m.repr
            && underlying[k].m.Valid())
      && (forall k, k' | k in underlying && k' in underlying && k != k' && underlying[k].MapRef? && underlying[k'].MapRef? ::
            underlying[k].m.repr !! underlying[k'].m.repr)
    }

    ghost function Abs(): Tree
      requires Valid()
      reads this, repr
      decreases repr
    {
      TMap(map k | k in underlying ::
             match underlying[k]
             case Nil => TNil
             case Opaque(id) => TOpaque(id)
             case MapRef(m) => m.Abs())
    }
  }

  ghost function Footprint(v: Value): set<VMap>
    reads if v.MapRef? then {v.m} else {}
  {
    if v.MapRef? then v.m.repr else {}
  }

  ghost predicate ValidValue(v: Value)
    reads if v.MapRef? then {v.m} + v.m.repr else {}
  {
    v.MapRef? ==> v.m.Valid()
  }

  ghost function TreeOf(v: Value): Tree
    requires ValidValue(v)
    reads if v.MapRef? then {v.m} + v.m.repr else {}
  {
    match v
    case Nil => TNil
    case Opaque(id) => TOpaque(id)
    case MapRef(m) => m.Abs()
  }

  // ----- Values as trees, and the projection as a function on them -----

  datatype Tree = TNil | TOpaque(id: int) | TMap(entries: map<string, Tree>)

  function Clear(t: Tree, d: Descriptor): Tree
    decreases d
  {
    match d
    case Aggregation(_) => t
    case FieldsMap(fields) =>
      if !t.TMap? then t
      else TMap(map k | k in t.entries && k in fields ::
                  if fields[k].FieldsMap? then Clear(t.entries[k], fields[k]) else t.entries[k])
  }

  /** What stays of a described entry. */
  function Kept(t: Tree, d: Descriptor): Tree {
    if d.FieldsMap? then Clear(t, d) else t
  }

  /** A nil descriptor clears nothing. */
  function ClearBy(t: Tree, d: Option<Descriptor>): Tree {
    if d.Some? then Clear(t, d.value) else t
  }

  /** The entries when the keys in `todo` are still to be visited. */
  function Partial(entries: map<string, Tree>, fields: map<string, Descriptor>, todo: set<string>): map<string, Tree> {
    map k | k in entries && (k in todo || k in fields) :: if k in todo then entries[k] else Kept(entries[k], fields[k])
  }

  lemma PartialStep(entries: map<string, Tree>, fields: map<string, Descriptor>, todo: set<string>, k: string)
    requires k in todo && k in entries
    ensures Partial(entries, fields, todo - {k}) ==
            if k in fields then Partial(entries, fields, todo)[k := Kept(entries[k], fields[k])]
            else Partial(entries, fields, todo) - {k}
  {
  }

  /** clearIgnoredFields: walks the map objects and deletes the entries that have no descriptor. */
  method ClearIgnoredFields(value: Value, descriptor: Option<Descriptor>)
    requires ValidValue(value)
    modifies Footprint(value)
    ensures ValidValue(value) && Footprint(value) == old(Footprint(value))
    ensures TreeOf(value) == ClearBy(old(TreeOf(value)), descriptor)
    decreases descriptor.Some?, if descriptor.Some? then descriptor.value else Aggregation(Median), 1
  {
    if descriptor.None? || value.Nil? || descriptor.value.Aggregation? || value.Opaque? {
      return;
    }
    var fields := descriptor.value.fields;
    var vm := value.m;
    var todo := vm.underlying.Keys;
    ghost var trees := vm.Abs().entries;
    while todo != {}
      invariant vm.Valid() && vm.repr == old(vm.repr)
      invariant todo <= vm.Abs().entries.Keys
      invariant vm.Abs().entries == Partial(trees, fields, todo)
      decreases todo
    {
      var k :| k in todo;
      PartialStep(trees, fields, todo, k);
      todo := todo - {k};
      ClearEntry(vm, k, fields);
    }
    assert vm.Abs().entries == Clear(TMap(trees), descriptor.value).entries;
  }

  /** One round of the loop over the entries. */
  method ClearEntry(vm: VMap, k: string, fields: map<string, Descriptor>)
    requires vm.Valid() && k in vm.Abs().entries
    modifies vm.repr
    ensures vm.Valid() && vm.repr == old(vm.repr)
    ensures vm.Abs().entries == if k in fields then old(vm.Abs().entries)[k := Kept(old(vm.Abs().entries[k]), fields[k])]
                                else old(vm.Abs().entries) - {k}
    decreases true, FieldsMap(fields), 0
  {
    if k !in fields {
      vm.underlying := vm.underlying - {k};
    } else if fields[k].FieldsMap? {
      ClearIgnoredFields(vm.underlying[k], Some(fields[k]));
    }
  }

  // ----- What the projection means -----

  /** What a descriptor lets an observer see of a value at a path of keys. */
  datatype Seen = Absent | AMap | Whole(t: Tree)

  function View(t: Tree, d: Descriptor, path: seq<string>): Seen
    decreases |path|
  {
    if d.FieldsMap? && t.TMap? then
      if path == [] then AMap
      else if path[0] in d.fields && path[0] in t.entries then View(t.entries[path[0]], d.fields[path[0]], path[1..])
      else Absent
    else if path == [] then Whole(t) else Absent
  }

  ghost predicate Agree(t: Tree, u: Tree, d: Descriptor) {
    forall path :: View(t, d, path) == View(u, d, path)
  }

  lemma {:induction false} ClearKeepsViews(t: Tree, d: Descriptor, path: seq<string>)
    ensures View(Clear(t, d), d, path) == View(t, d, path)
    decreases |path|
  {
    if d.FieldsMap? && t.TMap? && path != [] && path[0] in d.fields && path[0] in t.entries {
      ClearKeepsViews(t.entries[path[0]], d.fields[path[0]], path[1..]);
    }
  }

  lemma ViewAtKey(t: Tree, d: Descriptor, k: string)
    requires d.FieldsMap? && t.TMap? && k in d.fields
    ensures View(t, d, [k]) == if k in t.entries then View(t.entries[k], d.fields[k], []) else Absent
    ensures k in t.entries ==> View(t, d, [k]) != Absent
  {
    assert [k][1..] == [];
  }

  lemma ViewBelowKey(t: Tree, d: Descriptor, k: string, path: seq<string>)
    requires d.FieldsMap? && t.TMap? && k in d.fields && k in t.entries
    ensures View(t, d, [k] + path) == View(t.entries[k], d.fields[k], path)
  {
    assert ([k] + path)[1..] == path;
  }

  lemma AgreeAtKey(t: Tree, u: Tree, d: Descriptor, k: string)
    requires d.FieldsMap? && t.TMap? && u.TMap? && k in d.fields && Agree(t, u, d)
    ensures k in t.entries <==> k in u.entries
    ensures k in t.entries ==> Agree(t.entries[k], u.entries[k], d.fields[k])
  {
    ViewAtKey(t, d, k);
    ViewAtKey(u, d, k);
    assert View(t, d, [k]) == View(u, d, [k]);
    if k in t.entries {
      forall path ensures View(t.entries[k], d.fields[k], path) == View(u.entries[k], d.fields[k], path) {
        ViewBelowKey(t, d, k, path);
        ViewBelowKey(u, d, k, path);
        assert View(t, d, [k] + path) == View(u, d, [k] + path);
      }
    }
  }

  /** Nothing is left to see but whether a value is a map, and any other value as a whole. */
  lemma AgreeAtRoot(t: Tree, u: Tree, d: Descriptor)
    requires Agree(t, u, d)
    ensures d.FieldsMap? && (t.TMap? || u.TMap?) ==> t.TMap? && u.TMap?
    ensures !(d.FieldsMap? && t.TMap?) ==> t == u
  {
    assert View(t, d, []) == View(u, d, []);
  }

  lemma {:induction false} AgreementIsEqualProjection(t: Tree, u: Tree, d: Descriptor)
    requires Agree(t, u, d)
    ensures Clear(t, d) == Clear(u, d)
    decreases d
  {
    AgreeAtRoot(t, u, d);
    if d.FieldsMap? && t.TMap? {
      forall k | k in d.fields
        ensures k in t.entries <==> k in u.entries
        ensures k in t.entries ==> Clear(t.entries[k], d.fields[k]) == Clear(u.entries[k], d.fields[k])
      {
        AgreeAtKey(t, u, d, k);
        if k in t.entries {
          AgreementIsEqualProjection(t.entries[k], u.entries[k], d.fields[k]);
        }
      }
      EqualEntries(t, u, d);
    }
  }

  lemma ClearAtKey(t: Tree, d: Descriptor, k: string)
    requires d.FieldsMap? && t.TMap?
    ensures Clear(t, d).TMap? && (k in Clear(t, d).entries <==> k in t.entries && k in d.fields)
    ensures k in t.entries && k in d.fields ==> Clear(t, d).entries[k] == Clear(t.entries[k], d.fields[k])
  {
    if k in t.entries && k in d.fields {
      ClearOfLeaf(t.entries[k], d.fields[k]);
    }
  }

  lemma SameMaps(a: map<string, Tree>, b: map<string, Tree>)
    requires forall k :: k in a <==> k in b
    requires forall k | k in a :: a[k] == b[k]
    ensures a == b
  {
  }

  lemma EqualEntries(t: Tree, u: Tree, d: Descriptor)
    requires d.FieldsMap? && t.TMap? && u.TMap?
    requires forall k | k in d.fields :: k in t.entries <==> k in u.entries
    requires forall k | k in d.fields && k in t.entries :: Clear(t.entries[k], d.fields[k]) == Clear(u.entries[k], d.fields[k])
    ensures Clear(t, d) == Clear(u, d)
  {
    var a, b := Clear(t, d).entries, Clear(u, d).entries;
    forall k ensures k in a <==> k in b {
      ClearAtKey(t, d, k);
      ClearAtKey(u, d, k);
    }
    forall k | k in a ensures a[k] == b[k] {
      ClearAtKey(t, d, k);
      ClearAtKey(u, d, k);
    }
    SameMaps(a, b);
  }

  lemma ClearOfLeaf(t: Tree, d: Descriptor)
    ensures d.Aggregation? ==> Clear(t, d) == t
  {
  }

  /** Two values project to the same value exactly when they agree on every path the descriptor describes. */
  lemma ProjectionIsCanonical(t: Tree, u: Tree, d: Descriptor)
    ensures Clear(t, d) == Clear(u, d) <==> Agree(t, u, d)
  {
    if Clear(t, d) == Clear(u, d) {
      forall path ensures View(t, d, path) == View(u, d, path) {
        ClearKeepsViews(t, d, path);
        ClearKeepsViews(u, d, path);
      }
    }
    if Agree(t, u, d) {
      AgreementIsEqualProjection(t, u, d);
    }
  }

  lemma {:induction false} ClearIdempotent(t: Tree, d: Descriptor)
    ensures Clear(Clear(t, d), d) == Clear(t, d)
  {
    forall path ensures View(Clear(t, d), d, path) == View(t, d, path) {
      ClearKeepsViews(t, d, path);
    }
    AgreementIsEqualProjection(Clear(t, d), t, d);
  }

  /** The subtree at a path, without any descriptor. */
  function Get(t: Tree, path: seq<string>): Option<Tree>
    decreases |path|
  {
    if path == [] then Some(t)
    else if t.TMap? && path[0] in t.entries then Get(t.entries[path[0]], path[1..]) else None
  }

  /** The descriptor at a path. */
  function Describe(d: Descriptor, path: seq<string>): Option<Descriptor>
    decreases |path|
  {
    if path == [] then Some(d)
    else if d.FieldsMap? && path[0] in d.fields then Describe(d.fields[path[0]], path[1..]) else None
  }

  /** Clearing adds no path, and leaves untouched what an aggregation leaf describes. */
  lemma {:induction false} ClearOnlyDeletes(t: Tree, d: Descriptor, path: seq<string>)
    ensures Get(Clear(t, d), path).Some? ==> Get(t, path).Some?
    ensures Describe(d, path).Some? && Describe(d, path).value.Aggregation? ==> Get(Clear(t, d), path) == Get(t, path)
    decreases |path|
  {
    if d.FieldsMap? && t.TMap? && path != [] && path[0] in d.fields && path[0] in t.entries {
      ClearOnlyDeletes(t.entries[path[0]], d.fields[path[0]], path[1..]);
    }
  }

  // ----- The observation that a node sends to consensus -----

  /** A ConsensusAggregation: an error, or a descriptor with an optional default value. */
  datatype ConsensusAggregation =
    | Invalid(error: string)
    | Plain(descriptor: Option<Descriptor>)
    | WithDefault(descriptor: Option<Descriptor>, default: Result<Value, string>)

  datatype Observation = ObservedValue(v: Value) | ObservedError(error: string)

  datatype SimpleConsensusInputs = Inputs(descriptor: Option<Descriptor>, default: Option<Value>, observation: Observation)

  datatype TreeInputs = TreeInputs(descriptor: Option<Descriptor>, default: Option<Tree>, value: Result<Tree, string>)

  /** The inputs by the trees they hold. */
  ghost function InputTrees(i: SimpleConsensusInputs): TreeInputs
    requires i.default.Some? ==> ValidValue(i.default.value)
    requires i.observation.ObservedValue? ==> ValidValue(i.observation.v)
    reads if i.default.Some? && i.default.value.MapRef? then {i.default.value.m} + i.default.value.m.repr else {}
    reads if i.observation.ObservedValue? && i.observation.v.MapRef? then {i.observation.v.m} + i.observation.v.m.repr else {}
  {
    TreeInputs(i.descriptor,
               if i.default.Some? then Some(TreeOf(i.default.value)) else None,
               match i.observation case ObservedValue(v) => Ok(TreeOf(v)) case ObservedError(e) => Err(e))
  }

  /** The same in terms of trees: `default` and `result` are what wrapping the default value and the
      callback's result gave. */
  function ExpectedInputs(ca: ConsensusAggregation, default: Option<Tree>, result: Result<Tree, string>): TreeInputs {
    match ca
    case Invalid(e) => TreeInputs(None, None, Err(e))
    case _ =>
      if ca.WithDefault? && ca.default.Err? then TreeInputs(None, None, Err(ca.default.error))
      else TreeInputs(ca.descriptor,
                      if default.Some? then Some(ClearBy(default.value, ca.descriptor)) else None,
                      if result.Ok? then Ok(ClearBy(result.value, ca.descriptor)) else result)
  }

  ghost function DefaultFootprint(ca: ConsensusAggregation): set<VMap>
    reads if ca.WithDefault? && ca.default.Ok? && ca.default.value.MapRef? then {ca.default.value.m} else {}
  {
    if ca.WithDefault? && ca.default.Ok? then Footprint(ca.default.value) else {}
  }

  ghost function ResultFootprint(result: Result<Value, string>): set<VMap>
    reads if result.Ok? && result.value.MapRef? then {result.value.m} else {}
  {
    if result.Ok? then Footprint(result.value) else {}
  }

  /** The observation function that RunInNodeMode hands to the runtime, with the callback's wrapped result. */
  method Observe(ca: ConsensusAggregation, result: Result<Value, string>) returns (inputs: SimpleConsensusInputs)
    requires ca.WithDefault? && ca.default.Ok? ==> ValidValue(ca.default.value)
    requires result.Ok? ==> ValidValue(result.value)
    requires DefaultFootprint(ca) !! ResultFootprint(result)
    modifies DefaultFootprint(ca), ResultFootprint(result)
    ensures inputs.default.Some? ==> ValidValue(inputs.default.value)
    ensures inputs.observation.ObservedValue? ==> ValidValue(inputs.observation.v)
    ensures InputTrees(inputs) ==
            ExpectedInputs(ca,
                           old(if ca.WithDefault? && ca.default.Ok? then Some(TreeOf(ca.default.value)) else None),
                           old(if result.Ok? then Ok(TreeOf(result.value)) else Err(result.error)))
  {
    if ca.Invalid? {
      return Inputs(None, None, ObservedError(ca.error));
    }
    var default: Option<Value> := None;
    if ca.WithDefault? {
      if ca.default.Err? {
        return Inputs(None, None, ObservedError(ca.default.error));
      }
      default := Some(ca.default.value);
      ClearIgnoredFields(ca.default.value, ca.descriptor);
    }
    if result.Err? {
      return Inputs(ca.descriptor, default, ObservedError(result.error));
    }
    ClearIgnoredFields(result.value, ca.descriptor);
    return Inputs(ca.descriptor, default, ObservedValue(result.value));
  }

  /** Two nodes send the same inputs exactly when their results agree on every described path. */
  lemma SameInputsIffAgree(ca: ConsensusAggregation, default: Option<Tree>, t: Tree, u: Tree)
    requires !ca.Invalid? && (ca.WithDefault? ==> ca.default.Ok?) && ca.descriptor.Some?
    ensures ExpectedInputs(ca, default, Ok(t)) == ExpectedInputs(ca, default, Ok(u)) <==> Agree(t, u, ca.descriptor.value)
  {
    ProjectionIsCanonical(t, u, ca.descriptor.value);
  }

  /** The default that is sent is the given one as the descriptor lets it be seen, with nothing added and its
      described leaves as they were; the same holds of the observation. */
  lemma SentIsProjected(ca: ConsensusAggregation, default: Tree, t: Tree, path: seq<string>)
    requires !ca.Invalid? && (ca.WithDefault? ==> ca.default.Ok?) && ca.descriptor.Some?
    ensures var d, sent := ca.descriptor.value, ExpectedInputs(ca, Some(default), Ok(t));
            && sent.descriptor == Some(d) && sent.default.Some? && sent.value.Ok?
            && View(sent.default.value, d, path) == View(default, d, path) && View(sent.value.value, d, path) == View(t, d, path)
            && (Get(sent.default.value, path).Some? ==> Get(default, path).Some? && (Describe(d, path).Some? || HasLeafAbove(d, path)))
            && (Get(sent.value.value, path).Some? ==> Get(t, path).Some? && (Describe(d, path).Some? || HasLeafAbove(d, path)))
            && (Describe(d, path).Some? && Describe(d, path).value.Aggregation? ==>
                  Get(sent.default.value, path) == Get(default, path) && Get(sent.value.value, path) == Get(t, path))
  {
    var d := ca.descriptor.value;
    ClearKeepsViews(default, d, path);
    ClearKeepsViews(t, d, path);
    ClearOnlyDeletes(default, d, path);
    ClearOnlyDeletes(t, d, path);
    ClearKeepsDescribed(default, d, path);
    ClearKeepsDescribed(t, d, path);
  }

  /** A proper part of the path leads to an aggregation, which describes all that is below. */
  predicate HasLeafAbove(d: Descriptor, path: seq<string>)
    decreases |path|
  {
    path != [] && (d.Aggregation? || (path[0] in d.fields && HasLeafAbove(d.fields[path[0]], path[1..])))
  }

  /** What stays after clearing is described. */
  lemma {:induction false} ClearKeepsDescribed(t: Tree, d: Descriptor, path: seq<string>)
    ensures Get(Clear(t, d), path).Some? ==> Describe(d, path).Some? || HasLeafAbove(d, path)
    decreases |path|
  {
    if d.FieldsMap? && t.TMap? && path != [] && path[0] in d.fields && path[0] in t.entries {
      ClearKeepsDescribed(t.entries[path[0]], d.fields[path[0]], path[1..]);
    }
  }

  /** An invalid aggregation, an unusable default and a failed callback each give their error as the observation. */
  lemma ErrorsAreSent(ca: ConsensusAggregation, default: Option<Tree>, result: Result<Tree, string>)
    ensures ca.Invalid? ==> ExpectedInputs(ca, default, result) == TreeInputs(None, None, Err(ca.error))
    ensures ca.WithDefault? && ca.default.Err? ==> ExpectedInputs(ca, default, result) == TreeInputs(None, None, Err(ca.default.error))
    ensures !ca.Invalid? && (ca.WithDefault? ==> ca.default.Ok?) && result.Err? ==>
              ExpectedInputs(ca, default, result).value == Err(result.error)
              && ExpectedInputs(ca, default, result).descriptor == ca.descriptor
              && ExpectedInputs(ca, default, result).default.Some? == default.Some?
  {
  }
}
