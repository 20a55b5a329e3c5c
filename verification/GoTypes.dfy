/** Go types as indices into a finite table, so that self-referential types can be written down, and the
    check that a type can be compared for identity by consensus (cre/consensus_aggregators.go). */
module GoTypes {
  import opened Wrappers
  import Walks

  type TypeId = nat

  datatype Field = Field(
    name: string,
    exported: bool,
    tag: string,          // the consensus_aggregation tag
    mapstructure: string, // the mapstructure tag
    ftype: TypeId)

  /** A type by its kind. `Numeric` stands for the ten integer and two floating-point kinds;
      `Unsupported` for every other kind (complex, chan, func, interface, uintptr, unsafe pointer). */
  datatype TypeDef =
    | Text
    | Boolean
    | Numeric
    | MapOf(key: TypeId, elem: TypeId)
    | Struct(fields: seq<Field>)
    | Slice(elem: TypeId)
    | Array(elem: TypeId)
    | Pointer(elem: TypeId)
    | Unsupported

  /** The type table, with the indices of *big.Int, time.Time and decimal.Decimal. */
  datatype Table = Table(types: seq<TypeDef>, bigInt: TypeId, time: TypeId, decimal: TypeId)
  {
    function Def(t: TypeId): TypeDef {
      if t < |types| then types[t] else Unsupported
    }
  }

  const MAX_CONSENSUS_DEPTH := 100

  predicate IsNumeric(tb: Table, t: TypeId) {
    tb.Def(t).Numeric? || t == tb.bigInt || t == tb.decimal || t == tb.time
  }

  /** The bounded recursion, branch by branch in the order the code tries them. */
  predicate IsIdenticalTypeDepth(tb: Table, t: TypeId, depth: nat)
    decreases if depth < MAX_CONSENSUS_DEPTH then MAX_CONSENSUS_DEPTH - depth else 0
  {
    if depth >= MAX_CONSENSUS_DEPTH then false
    else match tb.Def(t)
      case Text => true
      case Boolean => true
      case Numeric => true
      case MapOf(key, elem) => tb.Def(key).Text? && IsIdenticalTypeDepth(tb, elem, depth + 1)
      case Struct(fields) =>
        forall i | 0 <= i < |fields| && fields[i].exported :: IsIdenticalTypeDepth(tb, fields[i].ftype, depth + 1)
      case Slice(elem) => IsIdenticalTypeDepth(tb, elem, depth + 1)
      case Array(elem) => IsIdenticalTypeDepth(tb, elem, depth + 1)
      case Pointer(elem) =>
        t == tb.bigInt || (!tb.Def(elem).Pointer? && IsIdenticalTypeDepth(tb, elem, depth + 1))
      case Unsupported => false
  }

  /** `None` is a nil reflect.Type, which an interface type parameter produces. */
  predicate IsIdenticalType(tb: Table, t: Option<TypeId>) {
    t.Some? && IsIdenticalTypeDepth(tb, t.value, 0)
  }

  predicate IsIdenticalSliceOrArray(tb: Table, t: TypeId) {
    (tb.Def(t).Slice? || tb.Def(t).Array?) && IsIdenticalTypeDepth(tb, tb.Def(t).elem, 0)
  }

  // ----- The declarative side: which types a value of type t is made of, and which shapes are allowed -----

  /** The types one level below: map values, elements, exported fields, pointees; *big.Int is a leaf. */
  function Parts(tb: Table, t: TypeId): set<TypeId> {
    match tb.Def(t)
    case MapOf(_, elem) => {elem}
    case Struct(fields) => set f | f in fields && f.exported :: f.ftype
    case Slice(elem) => {elem}
    case Array(elem) => {elem}
    case Pointer(elem) => if t == tb.bigInt then {} else {elem}
    case _ => {}
  }

  /** A shape that identical consensus allows, looking at one node only. */
  predicate Permitted(tb: Table, t: TypeId) {
    match tb.Def(t)
    case MapOf(key, _) => tb.Def(key).Text?
    case Pointer(elem) => t == tb.bigInt || !tb.Def(elem).Pointer?
    case Unsupported => false
    case _ => true
  }

  ghost function PartsOf(tb: Table): TypeId -> set<TypeId> { (t: TypeId) => Parts(tb, t) }

  ghost function PermittedIn(tb: Table): TypeId -> bool { (t: TypeId) => Permitted(tb, t) }

  /** One level of the recursion. */
  lemma IdenticalOneLevel(tb: Table, t: TypeId, depth: nat)
    requires depth < MAX_CONSENSUS_DEPTH
    ensures IsIdenticalTypeDepth(tb, t, depth) <==>
            Permitted(tb, t) && forall c | c in Parts(tb, t) :: IsIdenticalTypeDepth(tb, c, depth + 1)
  {
    if tb.Def(t).Struct? {
      var fields := tb.Def(t).fields;
      assert forall i | 0 <= i < |fields| && fields[i].exported :: fields[i].ftype in Parts(tb, t);
    } else if Permitted(tb, t) && Parts(tb, t) != {} {
      assert Parts(tb, t) == {tb.Def(t).elem};
    }
  }

  lemma {:induction false} IdenticalIsAccepts(tb: Table, t: TypeId, depth: nat)
    requires depth <= MAX_CONSENSUS_DEPTH
    ensures IsIdenticalTypeDepth(tb, t, depth)
       <==> Walks.Accepts(PartsOf(tb), PermittedIn(tb), t, MAX_CONSENSUS_DEPTH - depth)
    decreases MAX_CONSENSUS_DEPTH - depth
  {
    if depth < MAX_CONSENSUS_DEPTH {
      IdenticalOneLevel(tb, t, depth);
      assert PartsOf(tb)(t) == Parts(tb, t) && PermittedIn(tb)(t) == Permitted(tb, t);
      forall c | c in Parts(tb, t)
        ensures IsIdenticalTypeDepth(tb, c, depth + 1)
           <==> Walks.Accepts(PartsOf(tb), PermittedIn(tb), c, MAX_CONSENSUS_DEPTH - depth - 1)
      {
        IdenticalIsAccepts(tb, c, depth + 1);
      }
    }
  }

  /** A type passes at a depth exactly when every walk through its parts stays below the depth limit and
      meets only permitted shapes. */
  lemma IdenticalIffWalks(tb: Table, t: TypeId, depth: nat)
    requires depth <= MAX_CONSENSUS_DEPTH
    ensures IsIdenticalTypeDepth(tb, t, depth) <==>
            forall w: seq<TypeId> | Walks.Walk(PartsOf(tb), w) && w[0] == t ::
              depth + |w| <= MAX_CONSENSUS_DEPTH && Permitted(tb, w[|w| - 1])
  {
    var fuel: nat := MAX_CONSENSUS_DEPTH - depth;
    IdenticalIsAccepts(tb, t, depth);
    Walks.AcceptsIffWalks(PartsOf(tb), PermittedIn(tb), t, fuel);
    if Walks.AllWalksGood(PartsOf(tb), PermittedIn(tb), t, fuel) {
      forall w: seq<TypeId> | Walks.Walk(PartsOf(tb), w) && w[0] == t
        ensures depth + |w| <= MAX_CONSENSUS_DEPTH && Permitted(tb, w[|w| - 1])
      {
        assert |w| <= fuel && PermittedIn(tb)(w[|w| - 1]);
      }
    }
  }

  /** A type whose parts run into a cycle is rejected. */
  lemma RecursiveTypeRejected(tb: Table, w: seq<TypeId>, i: nat, depth: nat)
    requires Walks.Walk(PartsOf(tb), w) && i < |w| - 1 && w[i] == w[|w| - 1]
    ensures !IsIdenticalTypeDepth(tb, w[0], depth)
  {
    if depth <= MAX_CONSENSUS_DEPTH {
      IdenticalIsAccepts(tb, w[0], depth);
      Walks.LassoRejected(PartsOf(tb), PermittedIn(tb), w, i, MAX_CONSENSUS_DEPTH - depth);
    }
  }

  /** Acceptance at a depth gives acceptance at any smaller depth. */
  lemma ShallowerAccepted(tb: Table, t: TypeId, depth: nat, smaller: nat)
    requires smaller <= depth && IsIdenticalTypeDepth(tb, t, depth)
    ensures IsIdenticalTypeDepth(tb, t, smaller)
  {
    IdenticalIffWalks(tb, t, depth);
    IdenticalIffWalks(tb, t, smaller);
  }
}
