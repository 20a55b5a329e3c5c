/** Building a consensus descriptor from struct tags (cre/consensus_aggregators.go). */
module Tags {
  import opened Wrappers
  import opened GoTypes
  import Walks

  datatype AggregationKind = Median | Identical | CommonPrefix | CommonSuffix

  datatype Descriptor = Aggregation(kind: AggregationKind) | FieldsMap(fields: map<string, Descriptor>)

  datatype TagError = NilType | NotAStruct | TooDeep | MissingTag | TagOnUnexported | WrongType | UnknownTag

  // ----- Fields -----

  /** strings.Split(s, ","): never empty. */
  function SplitComma(s: string): (parts: seq<string>)
    ensures |parts| > 0
  {
    if s == "" then [""]
    else
      var rest := SplitComma(s[1..]);
      if s[0] == ',' then [""] + rest else [[s[0]] + rest[0]] + rest[1..]
  }

  function SerializedName(f: Field): string {
    var parts := SplitComma(f.mapstructure);
    if parts[0] != "" then parts[0] else f.name
  }

  predicate Squashed(f: Field) {
    var parts := SplitComma(f.mapstructure);
    |parts| > 1 && parts[1] == "squash"
  }

  /** The field takes part in consensus. */
  predicate Tagged(f: Field) {
    f.tag != "" && f.tag != "ignore"
  }

  function Deref(tb: Table, t: TypeId): TypeId {
    if tb.Def(t).Pointer? then tb.Def(t).elem else t
  }

  /** The fields the parser looks at: those of the struct itself, or of the struct pointed to. */
  function FieldsOf(tb: Table, t: TypeId): Option<seq<Field>> {
    var def := tb.Def(Deref(tb, t));
    if def.Struct? then Some(def.fields) else None
  }

  function LeafKind(tag: string): Option<AggregationKind> {
    if tag == "median" then Some(Median)
    else if tag == "identical" then Some(Identical)
    else if tag == "common_prefix" then Some(CommonPrefix)
    else if tag == "common_suffix" then Some(CommonSuffix)
    else None
  }

  /** The type a leaf tag is checked against. Only common_suffix looks at the pointer itself. */
  function TaggedType(tb: Table, f: Field): TypeId {
    if tb.Def(f.ftype).Pointer? && f.ftype != tb.bigInt then tb.Def(f.ftype).elem else f.ftype
  }

  predicate Admissible(tb: Table, f: Field, kind: AggregationKind) {
    match kind
    case Median => IsNumeric(tb, TaggedType(tb, f))
    case Identical => IsIdenticalType(tb, Some(TaggedType(tb, f)))
    case CommonPrefix => IsIdenticalSliceOrArray(tb, TaggedType(tb, f))
    case CommonSuffix => IsIdenticalSliceOrArray(tb, f.ftype)
  }

  /** A field that points to a slice: common_prefix accepts it just as it accepts the slice, common_suffix never. */
  lemma PointerToSlice(tb: Table, f: Field)
    requires tb.Def(f.ftype).Pointer? && f.ftype != tb.bigInt && tb.Def(tb.Def(f.ftype).elem).Slice?
    ensures Admissible(tb, f, CommonPrefix) <==> Admissible(tb, f.(ftype := tb.Def(f.ftype).elem), CommonPrefix)
    ensures Admissible(tb, f.(ftype := tb.Def(f.ftype).elem), CommonSuffix) <==> Admissible(tb, f, CommonPrefix)
    ensures !Admissible(tb, f, CommonSuffix)
  {
  }

  // ----- The tags by their text -----

  /** The part is the text up to its first comma. */
  predicate UpToComma(text: string, part: string) {
    ',' !in part && (text == part || (|part| < |text| && text[..|part|] == part && text[|part|] == ','))
  }

  /** The name is what the mapstructure tag has before its first comma, or the field's own name when that is empty. */
  ghost predicate Named(f: Field, name: string) {
    exists part :: UpToComma(f.mapstructure, part) && name == if part == "" then f.name else part
  }

  /** The mapstructure tag has squash between its first comma and the next. */
  ghost predicate Squashes(f: Field) {
    exists part :: UpToComma(f.mapstructure, part) && |part| < |f.mapstructure|
                   && UpToComma(f.mapstructure[|part| + 1..], "squash")
  }

  lemma CommaFirst(text: string, part: string)
    requires text != "" && text[0] == ','
    ensures UpToComma(text, part) <==> part == ""
  {
    if part != "" && |part| <= |text| {
      assert text[..|part|][0] == text[0] && (text == part ==> part[0] == ',');
      assert text[..|part|] == part ==> part[0] == ',';
    }
  }

  lemma UpToCommaTail(text: string, part: string)
    requires text != "" && text[0] != ',' && part != ""
    ensures UpToComma(text, part) <==> text[0] == part[0] && UpToComma(text[1..], part[1..])
  {
    assert part == [part[0]] + part[1..] && text == [text[0]] + text[1..];
    if |part| <= |text| {
      assert text[..|part|] == [text[0]] + text[1..][..|part[1..]|];
    }
  }

  lemma SplitTail(text: string, part: string)
    requires text != "" && text[0] != ',' && part != ""
    ensures SplitComma(text)[0] == part <==> text[0] == part[0] && SplitComma(text[1..])[0] == part[1..]
    ensures |SplitComma(text)| == |SplitComma(text[1..])| && SplitComma(text)[1..] == SplitComma(text[1..])[1..]
  {
    var rest := SplitComma(text[1..]);
    assert SplitComma(text) == [[text[0]] + rest[0]] + rest[1..];
    assert part == [part[0]] + part[1..];
    assert ([text[0]] + rest[0])[1..] == rest[0];
  }

  lemma DropTail(text: string, part: string)
    requires part != "" && |part| < |text|
    ensures text[1..][|part[1..]| + 1..] == text[|part| + 1..]
  {
  }

  /** The first part of the split text is the text up to its first comma, and the others split what follows the comma. */
  lemma {:induction false} SplitIff(text: string, part: string)
    ensures UpToComma(text, part) <==> SplitComma(text)[0] == part
    ensures UpToComma(text, part) ==> (|SplitComma(text)| > 1 <==> |part| < |text|)
    ensures UpToComma(text, part) && |part| < |text| ==> SplitComma(text)[1..] == SplitComma(text[|part| + 1..])
    decreases |text|
  {
    if text == "" {
    } else if text[0] == ',' {
      CommaFirst(text, part);
      assert SplitComma(text)[1..] == SplitComma(text[1..]);
    } else if part != "" {
      SplitIff(text[1..], part[1..]);
      UpToCommaTail(text, part);
      SplitTail(text, part);
      if |part| < |text| {
        DropTail(text, part);
      }
    }
  }

  lemma NameRule(f: Field, name: string)
    ensures Named(f, name) <==> name == SerializedName(f)
  {
    var first := SplitComma(f.mapstructure)[0];
    SplitIff(f.mapstructure, first);
    if Named(f, name) {
      var part :| UpToComma(f.mapstructure, part) && name == if part == "" then f.name else part;
      SplitIff(f.mapstructure, part);
    }
  }

  lemma SquashRule(f: Field)
    ensures Squashes(f) <==> Squashed(f)
  {
    var text, first := f.mapstructure, SplitComma(f.mapstructure)[0];
    SplitIff(text, first);
    if |first| < |text| {
      SplitIff(text[|first| + 1..], "squash");
      assert SplitComma(text)[1..][0] == SplitComma(text)[1];
    }
    if Squashes(f) {
      var part :| UpToComma(text, part) && |part| < |text| && UpToComma(text[|part| + 1..], "squash");
      SplitIff(text, part);
    }
  }

  /** The type that a tag is about: the pointee of a pointer, but *big.Int itself. */
  function Subject(tb: Table, f: Field): TypeId {
    match tb.Def(f.ftype)
    case Pointer(elem) => if f.ftype == tb.bigInt then f.ftype else elem
    case _ => f.ftype
  }

  /** An integer, a float, *big.Int, time.Time or decimal.Decimal. */
  predicate NumberLike(tb: Table, t: TypeId) {
    tb.Def(t) == Numeric || t == tb.bigInt || t == tb.time || t == tb.decimal
  }

  /** A slice or an array whose elements can be compared for identity. */
  predicate ListOfIdentical(tb: Table, t: TypeId) {
    match tb.Def(t)
    case Slice(elem) => IsIdenticalTypeDepth(tb, elem, 0)
    case Array(elem) => IsIdenticalTypeDepth(tb, elem, 0)
    case _ => false
  }

  /** A field is aggregated in this way exactly with this tag and on these types. */
  predicate LeafRule(tb: Table, f: Field, kind: AggregationKind) {
    match kind
    case Median => f.tag == "median" && NumberLike(tb, Subject(tb, f))
    case Identical => f.tag == "identical" && IsIdenticalTypeDepth(tb, Subject(tb, f), 0)
    case CommonPrefix => f.tag == "common_prefix" && ListOfIdentical(tb, Subject(tb, f))
    case CommonSuffix => f.tag == "common_suffix" && ListOfIdentical(tb, f.ftype)
  }

  /** The tag of a leaf is at fault, and `e` says how. */
  predicate BlamesLeaf(tb: Table, f: Field, e: TagError) {
    if f.tag == "median" then !NumberLike(tb, Subject(tb, f)) && e == WrongType
    else if f.tag == "identical" then !IsIdenticalTypeDepth(tb, Subject(tb, f), 0) && e == WrongType
    else if f.tag == "common_prefix" then !ListOfIdentical(tb, Subject(tb, f)) && e == WrongType
    else if f.tag == "common_suffix" then !ListOfIdentical(tb, f.ftype) && e == WrongType
    else e == UnknownTag
  }

  lemma LeafResultIff(tb: Table, f: Field)
    ensures forall kind :: LeafResult(tb, f) == Ok(kind) <==> LeafRule(tb, f, kind)
    ensures forall e :: LeafResult(tb, f) == Err(e) <==> BlamesLeaf(tb, f, e)
  {
    forall kind ensures LeafResult(tb, f) == Ok(kind) <==> LeafRule(tb, f, kind) {
      LeafRuleIff(tb, f, kind);
    }
  }

  lemma LeafRuleIff(tb: Table, f: Field, kind: AggregationKind)
    ensures LeafRule(tb, f, kind) <==> LeafKind(f.tag) == Some(kind) && Admissible(tb, f, kind)
  {
  }

  /** The field takes in the fields of its own type, under its name or squashed. */
  ghost predicate NestsIn(f: Field) {
    f.tag != "" && f.tag != "ignore" && f.exported && (Squashes(f) || f.tag == "nested")
  }

  // ----- The parser as a function -----

  function Left(depth: nat): nat {
    if depth < MAX_CONSENSUS_DEPTH then MAX_CONSENSUS_DEPTH - depth else 0
  }

  function Parse(tb: Table, t: TypeId, depth: nat): (r: Result<Descriptor, TagError>)
    ensures r.Ok? ==> r.value.FieldsMap?
    decreases Left(depth), 2, 0
  {
    match FieldsOf(tb, t)
    case None => Err(NotAStruct)
    case Some(fields) =>
      if depth >= MAX_CONSENSUS_DEPTH then Err(TooDeep)
      else match Gather(tb, fields, |fields|, depth)
        case Ok(m) => Ok(FieldsMap(m))
        case Err(e) => Err(e)
  }

  /** The descriptors of the first `n` fields; a later field overrides an earlier one under the same name. */
  function Gather(tb: Table, fields: seq<Field>, n: nat, depth: nat): Result<map<string, Descriptor>, TagError>
    requires n <= |fields| && depth < MAX_CONSENSUS_DEPTH
    decreases Left(depth), 1, n
  {
    if n == 0 then Ok(map[])
    else match Gather(tb, fields, n - 1, depth)
      case Err(e) => Err(e)
      case Ok(acc) =>
        match Contribution(tb, fields[n - 1], depth)
        case Err(e) => Err(e)
        case Ok(m) => Ok(acc + m)
  }

  /** What one field adds. */
  function Contribution(tb: Table, f: Field, depth: nat): Result<map<string, Descriptor>, TagError>
    requires depth < MAX_CONSENSUS_DEPTH
    decreases Left(depth), 0, 0
  {
    if f.tag == "" then (if f.exported then Err(MissingTag) else Ok(map[]))
    else if f.tag == "ignore" then Ok(map[])
    else if !f.exported then Err(TagOnUnexported)
    else if Squashed(f) then
      match Parse(tb, f.ftype, depth + 1)
      case Ok(inner) => Ok(inner.fields)
      case Err(e) => Err(e)
    else if f.tag == "nested" then
      match Parse(tb, f.ftype, depth + 1)
      case Ok(inner) => Ok(map[SerializedName(f) := inner])
      case Err(e) => Err(e)
    else
      match LeafResult(tb, f)
      case Err(e) => Err(e)
      case Ok(kind) => Ok(map[SerializedName(f) := Aggregation(kind)])
  }

  /** What the tag of a field that is neither squashed nor nested comes to. */
  function LeafResult(tb: Table, f: Field): Result<AggregationKind, TagError> {
    match LeafKind(f.tag)
    case None => Err(UnknownTag)
    case Some(kind) => if Admissible(tb, f, kind) then Ok(kind) else Err(WrongType)
  }

  // ----- The parser as the code runs it -----

  lemma {:induction false} GatherErrorStays(tb: Table, fields: seq<Field>, i: nat, n: nat, depth: nat)
    requires i <= n <= |fields| && depth < MAX_CONSENSUS_DEPTH
    requires Gather(tb, fields, i, depth).Err?
    ensures Gather(tb, fields, n, depth) == Gather(tb, fields, i, depth)
  {
    if i < n {
      GatherErrorStays(tb, fields, i, n - 1, depth);
    }
  }

  /** parseConsensusTagDepth: fills the descriptor map in one loop over the fields. */
  method ParseConsensusTagDepth(tb: Table, t: TypeId, depth: nat) returns (r: Result<Descriptor, TagError>)
    ensures r == Parse(tb, t, depth)
    decreases Left(depth)
  {
    var u := if tb.Def(t).Pointer? then tb.Def(t).elem else t;
    if !tb.Def(u).Struct? {
      return Err(NotAStruct);
    }
    if depth >= MAX_CONSENSUS_DEPTH {
      return Err(TooDeep);
    }
    var fields := tb.Def(u).fields;
    var descriptors: map<string, Descriptor> := map[];
    for i := 0 to |fields|
      invariant Gather(tb, fields, i, depth) == Ok(descriptors)
    {
      var f := fields[i];
      assert descriptors + map[] == descriptors;
      var failure: Option<TagError> := None;
      if f.tag == "" {
        if f.exported {
          failure := Some(MissingTag);
        }
      } else if f.tag == "ignore" {
      } else if !f.exported {
        failure := Some(TagOnUnexported);
      } else if Squashed(f) {
        var inner := ParseConsensusTagDepth(tb, f.ftype, depth + 1);
        match inner {
          case Err(e) => failure := Some(e);
          case Ok(d) => descriptors := descriptors + d.fields;
        }
      } else if f.tag == "nested" {
        var inner := ParseConsensusTagDepth(tb, f.ftype, depth + 1);
        match inner {
          case Err(e) => failure := Some(e);
          case Ok(d) => descriptors := descriptors + map[SerializedName(f) := d];
        }
      } else {
        match LeafKind(f.tag) {
          case None => failure := Some(UnknownTag);
          case Some(kind) =>
            if Admissible(tb, f, kind) {
              descriptors := descriptors + map[SerializedName(f) := Aggregation(kind)];
            } else {
              failure := Some(WrongType);
            }
        }
      }
      if failure.Some? {
        assert Gather(tb, fields, i + 1, depth) == Err(failure.value);
        GatherErrorStays(tb, fields, i + 1, |fields|, depth);
        return Err(failure.value);
      }
    }
    return Ok(FieldsMap(descriptors));
  }

  /** ConsensusAggregationFromTags: `None` is the nil type of an interface type parameter. */
  method ConsensusAggregationFromTags(tb: Table, t: Option<TypeId>) returns (r: Result<Descriptor, TagError>)
    ensures r == if t.None? then Err(NilType) else Parse(tb, t.value, 0)
  {
    match t
    case None => r := Err(NilType);
    case Some(u) => r := ParseConsensusTagDepth(tb, u, 0);
  }

  // ----- When the parser succeeds -----

  /** One field is acceptable on its own, apart from what lies inside a nested or squashed field. */
  ghost predicate FieldOk(tb: Table, f: Field) {
    if f.tag == "" then !f.exported
    else if f.tag == "ignore" then true
    else f.exported && (NestsIn(f) || exists kind :: LeafRule(tb, f, kind))
  }

  ghost predicate StructOk(tb: Table, t: TypeId) {
    FieldsOf(tb, t).Some? && forall f | f in FieldsOf(tb, t).value :: FieldOk(tb, f)
  }

  /** The types of the nested and squashed fields. */
  ghost function Nested(tb: Table, t: TypeId): set<TypeId> {
    match FieldsOf(tb, t)
    case None => {}
    case Some(fields) => set f | f in fields && NestsIn(f) :: f.ftype
  }

  ghost function NestedIn(tb: Table): TypeId -> set<TypeId> { (t: TypeId) => Nested(tb, t) }

  ghost function StructOkIn(tb: Table): TypeId -> bool { (t: TypeId) => StructOk(tb, t) }

  lemma {:induction false} GatherOk(tb: Table, fields: seq<Field>, n: nat, depth: nat)
    requires n <= |fields| && depth < MAX_CONSENSUS_DEPTH
    ensures Gather(tb, fields, n, depth).Ok? <==> forall i | 0 <= i < n :: Contribution(tb, fields[i], depth).Ok?
    decreases n
  {
    if n > 0 {
      GatherOk(tb, fields, n - 1, depth);
    }
  }

  /** A field contributes exactly when it is acceptable and what it nests parses. */
  lemma ContributionOk(tb: Table, f: Field, depth: nat)
    requires depth < MAX_CONSENSUS_DEPTH
    ensures Contribution(tb, f, depth).Ok? <==> FieldOk(tb, f) && (NestsIn(f) ==> Parse(tb, f.ftype, depth + 1).Ok?)
  {
    SquashRule(f);
    LeafResultIff(tb, f);
    if LeafResult(tb, f).Ok? {
      assert LeafRule(tb, f, LeafResult(tb, f).value);
    }
  }

  lemma NestedMembers(tb: Table, t: TypeId, f: Field)
    requires FieldsOf(tb, t).Some? && f in FieldsOf(tb, t).value && NestsIn(f)
    ensures f.ftype in Nested(tb, t)
  {
  }

  /** One level of the recursion: the struct is acceptable and what is nested in it parses. */
  lemma ParseOneLevel(tb: Table, t: TypeId, depth: nat)
    requires depth < MAX_CONSENSUS_DEPTH
    ensures Parse(tb, t, depth).Ok? <==>
            StructOk(tb, t) && forall c | c in Nested(tb, t) :: Parse(tb, c, depth + 1).Ok?
  {
    if FieldsOf(tb, t).Some? {
      var fields := FieldsOf(tb, t).value;
      GatherOk(tb, fields, |fields|, depth);
      if Parse(tb, t, depth).Ok? {
        forall f | f in fields ensures FieldOk(tb, f) && (NestsIn(f) ==> Parse(tb, f.ftype, depth + 1).Ok?) {
          var i :| 0 <= i < |fields| && fields[i] == f;
          assert Contribution(tb, fields[i], depth).Ok?;
          ContributionOk(tb, f, depth);
        }
      }
      if StructOk(tb, t) && forall c | c in Nested(tb, t) :: Parse(tb, c, depth + 1).Ok? {
        forall i | 0 <= i < |fields| ensures Contribution(tb, fields[i], depth).Ok? {
          assert FieldOk(tb, fields[i]);
          if NestsIn(fields[i]) {
            NestedMembers(tb, t, fields[i]);
          }
          ContributionOk(tb, fields[i], depth);
        }
      }
    }
  }

  /** The recursion of the parser and the bounded recursion over the graph take the same step. */
  lemma SameStep(tb: Table, t: TypeId, depth: nat)
    requires depth < MAX_CONSENSUS_DEPTH
    requires forall c | c in Nested(tb, t) ::
               Parse(tb, c, depth + 1).Ok? <==> Walks.Accepts(NestedIn(tb), StructOkIn(tb), c, MAX_CONSENSUS_DEPTH - depth - 1)
    ensures Parse(tb, t, depth).Ok? <==> Walks.Accepts(NestedIn(tb), StructOkIn(tb), t, MAX_CONSENSUS_DEPTH - depth)
  {
    ParseOneLevel(tb, t, depth);
    assert NestedIn(tb)(t) == Nested(tb, t) && StructOkIn(tb)(t) == StructOk(tb, t);
  }

  lemma {:induction false} ParseIsAccepts(tb: Table, t: TypeId, depth: nat)
    requires depth <= MAX_CONSENSUS_DEPTH
    ensures Parse(tb, t, depth).Ok?
       <==> Walks.Accepts(NestedIn(tb), StructOkIn(tb), t, MAX_CONSENSUS_DEPTH - depth)
    decreases MAX_CONSENSUS_DEPTH - depth
  {
    if depth < MAX_CONSENSUS_DEPTH {
      forall c | c in Nested(tb, t)
        ensures Parse(tb, c, depth + 1).Ok?
           <==> Walks.Accepts(NestedIn(tb), StructOkIn(tb), c, MAX_CONSENSUS_DEPTH - depth - 1)
      {
        ParseIsAccepts(tb, c, depth + 1);
      }
      SameStep(tb, t, depth);
    }
  }

  /** The parser succeeds exactly when every walk through nested and squashed fields stays below the depth
      limit and meets only structs whose fields are all acceptable. */
  lemma ParseIffWalks(tb: Table, t: TypeId, depth: nat)
    requires depth <= MAX_CONSENSUS_DEPTH
    ensures Parse(tb, t, depth).Ok? <==>
            forall w: seq<TypeId> | Walks.Walk(NestedIn(tb), w) && w[0] == t ::
              depth + |w| <= MAX_CONSENSUS_DEPTH && StructOk(tb, w[|w| - 1])
  {
    var fuel: nat := MAX_CONSENSUS_DEPTH - depth;
    ParseIsAccepts(tb, t, depth);
    Walks.AcceptsIffWalks(NestedIn(tb), StructOkIn(tb), t, fuel);
    if Walks.AllWalksGood(NestedIn(tb), StructOkIn(tb), t, fuel) {
      forall w: seq<TypeId> | Walks.Walk(NestedIn(tb), w) && w[0] == t
        ensures depth + |w| <= MAX_CONSENSUS_DEPTH && StructOk(tb, w[|w| - 1])
      {
        assert |w| <= fuel && StructOkIn(tb)(w[|w| - 1]);
      }
    }
  }

  /** A struct from which nested or squashed fields run into a cycle is rejected. */
  lemma RecursiveStructRejected(tb: Table, w: seq<TypeId>, i: nat)
    requires Walks.Walk(NestedIn(tb), w) && i < |w| - 1 && w[i] == w[|w| - 1]
    ensures Parse(tb, w[0], 0).Err?
  {
    ParseIsAccepts(tb, w[0], 0);
    Walks.LassoRejected(NestedIn(tb), StructOkIn(tb), w, i, MAX_CONSENSUS_DEPTH);
  }

  // ----- What a successful parse contains -----

  /** The value under a key is the one contributed by the last field that contributes the key. */
  lemma {:induction false} LastProvider(tb: Table, fields: seq<Field>, n: nat, depth: nat, k: string) returns (i: nat)
    requires n <= |fields| && depth < MAX_CONSENSUS_DEPTH
    requires Gather(tb, fields, n, depth).Ok? && k in Gather(tb, fields, n, depth).value
    ensures i < n && Contribution(tb, fields[i], depth).Ok? && k in Contribution(tb, fields[i], depth).value
    ensures Gather(tb, fields, n, depth).value[k] == Contribution(tb, fields[i], depth).value[k]
    ensures forall j | i < j < n :: Contribution(tb, fields[j], depth).Ok? && k !in Contribution(tb, fields[j], depth).value
    decreases n
  {
    if k in Contribution(tb, fields[n - 1], depth).value {
      i := n - 1;
    } else {
      i := LastProvider(tb, fields, n - 1, depth, k);
    }
  }

  lemma {:induction false} EveryContributionKept(tb: Table, fields: seq<Field>, n: nat, depth: nat, i: nat)
    requires i < n <= |fields| && depth < MAX_CONSENSUS_DEPTH && Gather(tb, fields, n, depth).Ok?
    ensures Contribution(tb, fields[i], depth).Ok?
    ensures Contribution(tb, fields[i], depth).value.Keys <= Gather(tb, fields, n, depth).value.Keys
    decreases n
  {
    if i < n - 1 {
      EveryContributionKept(tb, fields, n - 1, depth, i);
    }
  }

  /** Every exported, non-ignored field has its name as a key; a squashed field has its inner names. */
  lemma KeysComplete(tb: Table, t: TypeId, depth: nat, i: nat)
    requires Parse(tb, t, depth).Ok? && i < |FieldsOf(tb, t).value|
    requires FieldsOf(tb, t).value[i].exported && FieldsOf(tb, t).value[i].tag != "ignore"
    ensures var f := FieldsOf(tb, t).value[i];
            var keys := Parse(tb, t, depth).value.fields.Keys;
            if Squashes(f)
            then Parse(tb, f.ftype, depth + 1).Ok? && Parse(tb, f.ftype, depth + 1).value.fields.Keys <= keys
            else forall name | Named(f, name) :: name in keys
  {
    var fields := FieldsOf(tb, t).value;
    EveryContributionKept(tb, fields, |fields|, depth, i);
    ContributionKeys(tb, fields[i], depth);
  }

  lemma ContributionKeys(tb: Table, f: Field, depth: nat)
    requires depth < MAX_CONSENSUS_DEPTH && Contribution(tb, f, depth).Ok? && f.exported && f.tag != "ignore"
    ensures if Squashes(f)
            then Parse(tb, f.ftype, depth + 1).Ok? && Parse(tb, f.ftype, depth + 1).value.fields == Contribution(tb, f, depth).value
            else forall name | Named(f, name) :: name in Contribution(tb, f, depth).value
  {
    SquashRule(f);
    if !Squashed(f) {
      forall name | Named(f, name) ensures name in Contribution(tb, f, depth).value {
        ContributionGives(tb, f, depth, name);
      }
    }
  }

  /** The field puts something under the key. */
  ghost predicate Gives(tb: Table, f: Field, depth: nat, k: string) {
    && f.tag != "" && f.tag != "ignore"
    && if Squashes(f) then Parse(tb, f.ftype, depth + 1).Ok? && k in Parse(tb, f.ftype, depth + 1).value.fields else Named(f, k)
  }

  /** What the field puts there: the inner value of a squashed field, the descriptor of a nested one, or the
      aggregation of its tag. */
  ghost predicate Puts(tb: Table, f: Field, depth: nat, k: string, d: Descriptor) {
    if Squashes(f) then
      Parse(tb, f.ftype, depth + 1).Ok? && k in Parse(tb, f.ftype, depth + 1).value.fields
      && d == Parse(tb, f.ftype, depth + 1).value.fields[k]
    else if f.tag == "nested" then Parse(tb, f.ftype, depth + 1) == Ok(d)
    else d.Aggregation? && LeafRule(tb, f, d.kind)
  }

  lemma ContributionGives(tb: Table, f: Field, depth: nat, k: string)
    requires depth < MAX_CONSENSUS_DEPTH && Contribution(tb, f, depth).Ok?
    ensures k in Contribution(tb, f, depth).value <==> Gives(tb, f, depth, k)
    ensures Gives(tb, f, depth, k) ==> f.exported && Puts(tb, f, depth, k, Contribution(tb, f, depth).value[k])
  {
    SquashRule(f);
    NameRule(f, k);
    LeafResultIff(tb, f);
  }

  /** Field i is the last one that gives the key. */
  ghost predicate LastGives(tb: Table, fields: seq<Field>, depth: nat, k: string, i: nat) {
    && i < |fields| && Gives(tb, fields[i], depth, k)
    && forall j | i < j < |fields| :: !Gives(tb, fields[j], depth, k)
  }

  /** On success a key is in the descriptor exactly when some field gives it, and it holds what the last such field
      puts there. */
  lemma KeyMeans(tb: Table, t: TypeId, depth: nat, k: string, i: nat)
    requires Parse(tb, t, depth).Ok? && LastGives(tb, FieldsOf(tb, t).value, depth, k, i)
    ensures var f, m := FieldsOf(tb, t).value[i], Parse(tb, t, depth).value.fields;
            f.exported && k in m && Puts(tb, f, depth, k, m[k])
  {
    var fields := FieldsOf(tb, t).value;
    EveryContributionKept(tb, fields, |fields|, depth, i);
    ContributionGives(tb, fields[i], depth, k);
    var j := LastProvider(tb, fields, |fields|, depth, k);
    ContributionGives(tb, fields[j], depth, k);
    assert j == i;
  }

  lemma KeyGiven(tb: Table, t: TypeId, depth: nat, k: string) returns (i: nat)
    requires Parse(tb, t, depth).Ok? && k in Parse(tb, t, depth).value.fields
    ensures LastGives(tb, FieldsOf(tb, t).value, depth, k, i)
  {
    var fields := FieldsOf(tb, t).value;
    i := LastProvider(tb, fields, |fields|, depth, k);
    ContributionGives(tb, fields[i], depth, k);
    forall j | i < j < |fields| ensures !Gives(tb, fields[j], depth, k) {
      ContributionGives(tb, fields[j], depth, k);
    }
  }

  /** A chain of fields, by their positions, from struct `t` down to a leaf of the given kind: each is the last that
      gives its key in its struct, the names of those that are not squashed spell `path`, and the last field has the
      leaf's tag on a type that it is for. */
  ghost predicate Chain(tb: Table, t: TypeId, depth: nat, chain: seq<nat>, path: seq<string>, kind: AggregationKind)
    decreases |chain|
  {
    && |chain| > 0 && |path| > 0
    && FieldsOf(tb, t).Some? && LastGives(tb, FieldsOf(tb, t).value, depth, path[0], chain[0])
    && var f := FieldsOf(tb, t).value[chain[0]];
       && f.exported
       && (if Squashes(f) then Chain(tb, f.ftype, depth + 1, chain[1..], path, kind)
           else if f.tag == "nested" then Chain(tb, f.ftype, depth + 1, chain[1..], path[1..], kind)
           else |chain| == 1 && |path| == 1 && LeafRule(tb, f, kind))
  }

  /** The aggregation a descriptor holds at a path of keys. */
  function LeafAt(d: Descriptor, path: seq<string>): Option<AggregationKind>
    decreases |path|
  {
    match d
    case Aggregation(kind) => if path == [] then Some(kind) else None
    case FieldsMap(m) => if path != [] && path[0] in m then LeafAt(m[path[0]], path[1..]) else None
  }

  /** Where the leaf is looked for behind a field that gives the first key. */
  function Below(squashed: bool, path: seq<string>): seq<string>
    requires path != []
  {
    if squashed then path else path[1..]
  }

  /** The field descends into its own type. */
  ghost predicate Descends(f: Field) { Squashes(f) || f.tag == "nested" }

  /** The leaf is found in what the field descends into, or it is the field itself. */
  ghost predicate LeafBehind(tb: Table, f: Field, depth: nat, path: seq<string>, kind: AggregationKind)
    requires path != []
  {
    && f.exported
    && if Descends(f) then
         Parse(tb, f.ftype, depth + 1).Ok? && LeafAt(Parse(tb, f.ftype, depth + 1).value, Below(Squashes(f), path)) == Some(kind)
       else |path| == 1 && LeafRule(tb, f, kind)
  }

  lemma LeafBelow(tb: Table, t: TypeId, depth: nat, path: seq<string>, kind: AggregationKind, i: nat)
    requires Parse(tb, t, depth).Ok? && LeafAt(Parse(tb, t, depth).value, path) == Some(kind)
    requires path != [] && LastGives(tb, FieldsOf(tb, t).value, depth, path[0], i)
    ensures LeafBehind(tb, FieldsOf(tb, t).value[i], depth, path, kind)
  {
    KeyMeans(tb, t, depth, path[0], i);
    assert LeafAt(Parse(tb, t, depth).value, path) == LeafAt(Parse(tb, t, depth).value.fields[path[0]], path[1..]);
  }

  lemma ChainLonger(tb: Table, t: TypeId, depth: nat, i: nat, f: Field, rest: seq<nat>, path: seq<string>, kind: AggregationKind)
    returns (chain: seq<nat>)
    requires path != [] && FieldsOf(tb, t).Some? && LastGives(tb, FieldsOf(tb, t).value, depth, path[0], i)
    requires f == FieldsOf(tb, t).value[i] && f.exported && Descends(f)
    requires Chain(tb, f.ftype, depth + 1, rest, Below(Squashes(f), path), kind)
    ensures Chain(tb, t, depth, chain, path, kind)
  {
    chain := [i] + rest;
    assert chain[1..] == rest;
  }

  lemma ChainEnds(tb: Table, t: TypeId, depth: nat, i: nat, path: seq<string>, kind: AggregationKind)
    returns (chain: seq<nat>)
    requires path != [] && FieldsOf(tb, t).Some? && LastGives(tb, FieldsOf(tb, t).value, depth, path[0], i)
    requires LeafBehind(tb, FieldsOf(tb, t).value[i], depth, path, kind) && !Descends(FieldsOf(tb, t).value[i])
    ensures Chain(tb, t, depth, chain, path, kind)
  {
    chain := [i];
  }

  /** The field where a chain to the leaf starts. */
  lemma ChainStart(tb: Table, t: TypeId, depth: nat, path: seq<string>, kind: AggregationKind) returns (i: nat, f: Field)
    requires Parse(tb, t, depth).Ok? && LeafAt(Parse(tb, t, depth).value, path) == Some(kind)
    ensures path != [] && FieldsOf(tb, t).Some? && depth < MAX_CONSENSUS_DEPTH
    ensures LastGives(tb, FieldsOf(tb, t).value, depth, path[0], i)
    ensures f == FieldsOf(tb, t).value[i] && LeafBehind(tb, f, depth, path, kind)
  {
    i := KeyGiven(tb, t, depth, path[0]);
    f := FieldsOf(tb, t).value[i];
    LeafBelow(tb, t, depth, path, kind, i);
  }

  ghost predicate HasChain(tb: Table, t: TypeId, depth: nat, path: seq<string>, kind: AggregationKind) {
    exists chain :: Chain(tb, t, depth, chain, path, kind)
  }

  lemma ChainBehind(tb: Table, t: TypeId, depth: nat, i: nat, f: Field, path: seq<string>, kind: AggregationKind)
    requires path != [] && FieldsOf(tb, t).Some? && LastGives(tb, FieldsOf(tb, t).value, depth, path[0], i)
    requires f == FieldsOf(tb, t).value[i] && LeafBehind(tb, f, depth, path, kind)
    requires Descends(f) ==> HasChain(tb, f.ftype, depth + 1, Below(Squashes(f), path), kind)
    ensures HasChain(tb, t, depth, path, kind)
  {
    if Descends(f) {
      var rest :| Chain(tb, f.ftype, depth + 1, rest, Below(Squashes(f), path), kind);
      var chain := ChainLonger(tb, t, depth, i, f, rest, path, kind);
    } else {
      var chain := ChainEnds(tb, t, depth, i, path, kind);
    }
  }

  /** The parse has a leaf at the path. */
  predicate HasLeaf(tb: Table, t: TypeId, depth: nat, path: seq<string>, kind: AggregationKind) {
    Parse(tb, t, depth).Ok? && LeafAt(Parse(tb, t, depth).value, path) == Some(kind)
  }

  lemma LeafHasChain(tb: Table, t: TypeId, depth: nat, next: nat, path: seq<string>, kind: AggregationKind)
    requires HasLeaf(tb, t, depth, path, kind) && next == depth + 1
    requires forall u, rest | HasLeaf(tb, u, next, rest, kind) :: HasChain(tb, u, next, rest, kind)
    ensures HasChain(tb, t, depth, path, kind)
  {
    var i, f := ChainStart(tb, t, depth, path, kind);
    if Descends(f) {
      assert HasLeaf(tb, f.ftype, next, Below(Squashes(f), path), kind);
    }
    ChainBehind(tb, t, depth, i, f, path, kind);
  }

  /** Every aggregation leaf comes from such a chain. */
  lemma {:induction false} LeavesSound(tb: Table, t: TypeId, depth: nat, path: seq<string>, kind: AggregationKind)
    requires HasLeaf(tb, t, depth, path, kind)
    ensures HasChain(tb, t, depth, path, kind)
    decreases Left(depth)
  {
    var next := depth + 1;
    forall u, rest | HasLeaf(tb, u, next, rest, kind) ensures HasChain(tb, u, next, rest, kind) {
      LeavesSound(tb, u, next, rest, kind);
    }
    LeafHasChain(tb, t, depth, next, path, kind);
  }

  /** And every such chain has its leaf at its path. */
  lemma {:induction false} LeavesComplete(tb: Table, t: TypeId, depth: nat, chain: seq<nat>, path: seq<string>, kind: AggregationKind)
    requires Parse(tb, t, depth).Ok? && Chain(tb, t, depth, chain, path, kind)
    ensures LeafAt(Parse(tb, t, depth).value, path) == Some(kind)
    decreases |chain|
  {
    KeyMeans(tb, t, depth, path[0], chain[0]);
    var f := FieldsOf(tb, t).value[chain[0]];
    if Squashes(f) {
      LeavesComplete(tb, f.ftype, depth + 1, chain[1..], path, kind);
    } else if f.tag == "nested" {
      LeavesComplete(tb, f.ftype, depth + 1, chain[1..], path[1..], kind);
    } else {
      OneKind(tb, f, kind, Parse(tb, t, depth).value.fields[path[0]].kind);
    }
  }

  /** So a descriptor has a leaf at a path exactly when there is such a chain to it. */
  lemma LeavesIff(tb: Table, t: TypeId, depth: nat, path: seq<string>, kind: AggregationKind)
    requires Parse(tb, t, depth).Ok?
    ensures LeafAt(Parse(tb, t, depth).value, path) == Some(kind) <==> HasChain(tb, t, depth, path, kind)
  {
    if LeafAt(Parse(tb, t, depth).value, path) == Some(kind) {
      LeavesSound(tb, t, depth, path, kind);
    }
    if HasChain(tb, t, depth, path, kind) {
      var chain :| Chain(tb, t, depth, chain, path, kind);
      LeavesComplete(tb, t, depth, chain, path, kind);
    }
  }

  lemma OneKind(tb: Table, f: Field, kind: AggregationKind, other: AggregationKind)
    requires LeafRule(tb, f, kind) && LeafRule(tb, f, other)
    ensures kind == other
  {
  }

  // ----- What a failed parse reports -----

  /** The field is at fault, and `e` says how. */
  ghost predicate Blames(tb: Table, f: Field, depth: nat, e: TagError) {
    if f.tag == "" then f.exported && e == MissingTag
    else if f.tag == "ignore" then false
    else if !f.exported then e == TagOnUnexported
    else if Squashes(f) || f.tag == "nested" then Parse(tb, f.ftype, depth + 1) == Err(e)
    else BlamesLeaf(tb, f, e)
  }

  lemma ContributionBlames(tb: Table, f: Field, depth: nat)
    requires depth < MAX_CONSENSUS_DEPTH
    ensures Contribution(tb, f, depth).Err? ==> Blames(tb, f, depth, Contribution(tb, f, depth).error)
    ensures Contribution(tb, f, depth).Ok? ==> forall e :: !Blames(tb, f, depth, e)
  {
    SquashRule(f);
    LeafResultIff(tb, f);
  }

  lemma {:induction false} GatherBlames(tb: Table, fields: seq<Field>, n: nat, depth: nat) returns (i: nat)
    requires n <= |fields| && depth < MAX_CONSENSUS_DEPTH && Gather(tb, fields, n, depth).Err?
    ensures i < n && Blames(tb, fields[i], depth, Gather(tb, fields, n, depth).error)
    ensures forall j, e | 0 <= j < i :: !Blames(tb, fields[j], depth, e)
    decreases n
  {
    if Gather(tb, fields, n - 1, depth).Err? {
      i := GatherBlames(tb, fields, n - 1, depth);
    } else {
      i := n - 1;
      GatherOk(tb, fields, n - 1, depth);
      ContributionBlames(tb, fields[i], depth);
      forall j, e | 0 <= j < i ensures !Blames(tb, fields[j], depth, e) {
        ContributionBlames(tb, fields[j], depth);
      }
    }
  }

  /** A parse fails for a type that is no struct, for too deep a nesting, or for the first field at fault. */
  lemma FailureBlames(tb: Table, t: TypeId, depth: nat) returns (i: nat)
    requires Parse(tb, t, depth).Err?
    ensures if FieldsOf(tb, t).None? then Parse(tb, t, depth) == Err(NotAStruct)
            else if depth >= MAX_CONSENSUS_DEPTH then Parse(tb, t, depth) == Err(TooDeep)
            else
              var fields := FieldsOf(tb, t).value;
              && i < |fields| && Blames(tb, fields[i], depth, Parse(tb, t, depth).error)
              && forall j, e | 0 <= j < i :: !Blames(tb, fields[j], depth, e)
  {
    i := 0;
    if FieldsOf(tb, t).Some? && depth < MAX_CONSENSUS_DEPTH {
      i := GatherBlames(tb, FieldsOf(tb, t).value, |FieldsOf(tb, t).value|, depth);
    }
  }
}
