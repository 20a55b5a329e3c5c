/** The Solidity contract ABI encoding, section "Formal Specification of the Encoding" of the Contract ABI
    Specification: the canonical encoder, and the layouts a decoder may be given. */
module Abi {
  import opened Bytes

  /** A value by its shape: a word (numbers, booleans, bytes32), a byte string, an array T[] and a tuple. */
  datatype Value =
    | Static(w: Word)
    | Blob(data: seq<Byte>)
    | Array(elems: seq<Value>)
    | Tuple(fields: seq<Value>)

  predicate IsDynamic(v: Value) {
    match v
    case Static(_) => false
    case Blob(_) => true
    case Array(_) => true
    case Tuple(fields) => exists i | 0 <= i < |fields| :: IsDynamic(fields[i])
  }

  /** The bytes a component takes in the head of its tuple. */
  function HeadSize(v: Value): nat
    decreases v, 0
  {
    if IsDynamic(v) then 32
    else match v
      case Tuple(fields) => HeadSizes(fields)
      case _ => 32
  }

  function HeadSizes(vs: seq<Value>): nat
    decreases vs, 1
  {
    if vs == [] then 0 else HeadSize(vs[0]) + HeadSizes(vs[1..])
  }

  const TWO_256 := 0x1_00000000_00000000_00000000_00000000_00000000_00000000_00000000_00000000

  /** Lengths and counts are uint256 values. */
  predicate CountsFit(v: Value)
    decreases v, 0
  {
    match v
    case Static(_) => true
    case Blob(data) => |data| < TWO_256
    case Array(elems) => |elems| < TWO_256 && AllFit(elems)
    case Tuple(fields) => AllFit(fields)
  }

  predicate AllFit(vs: seq<Value>)
    decreases vs, 1
  {
    vs == [] || (CountsFit(vs[0]) && AllFit(vs[1..]))
  }

  // ----- The canonical encoder -----

  function Padding(n: nat): seq<Byte> { seq((32 - n % 32) % 32, _ => 0) }

  function Enc(v: Value): seq<Byte>
    decreases v, 0
  {
    match v
    case Static(w) => w
    case Blob(data) => ToBE(|data|, 32) + data + Padding(|data|)
    case Array(elems) => ToBE(|elems|, 32) + EncTuple(elems)
    case Tuple(fields) => EncTuple(fields)
  }

  function EncTuple(vs: seq<Value>): seq<Byte>
    decreases vs, 2
  {
    Heads(vs, HeadSizes(vs)) + Tails(vs)
  }

  /** The heads of the components, whose tails start at `off`. */
  function Heads(vs: seq<Value>, off: nat): seq<Byte>
    decreases vs, 1
  {
    if vs == [] then []
    else if IsDynamic(vs[0]) then ToBE(off, 32) + Heads(vs[1..], off + |Enc(vs[0])|)
    else Enc(vs[0]) + Heads(vs[1..], off)
  }

  function Tails(vs: seq<Value>): seq<Byte>
    decreases vs, 1
  {
    if vs == [] then []
    else (if IsDynamic(vs[0]) then Enc(vs[0]) else []) + Tails(vs[1..])
  }

  // ----- Layouts -----

  /** The bytes of `b` from `off` on start with `s`. */
  predicate At(b: seq<Byte>, off: nat, s: seq<Byte>) {
    off + |s| <= |b| && b[off..off + |s|] == s
  }

  function WordAt(b: seq<Byte>, off: nat): Word
    requires off + 32 <= |b|
  {
    b[off..off + 32]
  }

  function NumAt(b: seq<Byte>, off: nat): nat
    requires off + 32 <= |b|
  {
    FromBE(WordAt(b, off))
  }

  /** `b` holds `v` at `off`, under any choice of tail positions. */
  predicate Holds(b: seq<Byte>, off: nat, v: Value)
    decreases v, 0
  {
    match v
    case Static(w) => At(b, off, w)
    case Blob(data) => off + 32 <= |b| && NumAt(b, off) == |data| && At(b, off + 32, data)
    case Array(elems) => off + 32 <= |b| && NumAt(b, off) == |elems| && HoldsAll(b, off + 32, off + 32, elems)
    case Tuple(fields) => HoldsAll(b, off, off, fields)
  }

  /** The heads of `vs` stand at `pos`; pointers count from `base`. */
  predicate HoldsAll(b: seq<Byte>, base: nat, pos: nat, vs: seq<Value>)
    decreases vs, 1
  {
    if vs == [] then true
    else if IsDynamic(vs[0]) then
      pos + 32 <= |b| && Holds(b, base + NumAt(b, pos), vs[0]) && HoldsAll(b, base, pos + 32, vs[1..])
    else
      Holds(b, pos, vs[0]) && HoldsAll(b, base, pos + HeadSize(vs[0]), vs[1..])
  }

  lemma {:induction false} HeadsLength(vs: seq<Value>, off: nat)
    ensures |Heads(vs, off)| == HeadSizes(vs)
    decreases vs, 1
  {
    if vs != [] {
      if IsDynamic(vs[0]) {
        HeadsLength(vs[1..], off + |Enc(vs[0])|);
      } else {
        HeadsLength(vs[1..], off);
        StaticLength(vs[0]);
      }
    }
  }

  lemma {:induction false} StaticLength(v: Value)
    requires !IsDynamic(v)
    ensures |Enc(v)| == HeadSize(v)
    decreases v, 0
  {
    if v.Tuple? {
      HeadsLength(v.fields, HeadSizes(v.fields));
      NoTails(v.fields);
    }
  }

  lemma {:induction false} NoTails(vs: seq<Value>)
    requires forall i | 0 <= i < |vs| :: !IsDynamic(vs[i])
    ensures Tails(vs) == []
  {
    if vs != [] {
      NoTails(vs[1..]);
    }
  }

  lemma AtSplit(b: seq<Byte>, off: nat, s: seq<Byte>, t: seq<Byte>)
    requires At(b, off, s + t)
    ensures At(b, off, s) && At(b, off + |s|, t)
  {
    var c := b[off..off + |s + t|];
    assert c[..|s|] == s && c[|s|..] == t;
  }

  lemma {:induction false} Pow256Add(m: nat, n: nat)
    ensures Pow256(m + n) == Pow256(m) * Pow256(n)
    decreases n
  {
    if n > 0 {
      Pow256Add(m, n - 1);
    }
  }

  lemma Pow256Double(n: nat, p: nat)
    requires Pow256(n) == p
    ensures Pow256(n + n) == p * p
  {
    Pow256Add(n, n);
  }

  lemma WordRange()
    ensures Pow256(32) == TWO_256
  {
    assert Pow256(2) == 0x1_0000;
    Pow256Double(2, 0x1_0000);
    Pow256Double(4, 0x1_0000_0000);
    Pow256Double(8, 0x1_0000_0000_0000_0000);
    Pow256Double(16, 0x1_0000_0000_0000_0000_0000_0000_0000_0000);
  }

  lemma NumWritten(b: seq<Byte>, off: nat, n: nat)
    requires At(b, off, ToBE(n, 32)) && n < TWO_256
    ensures NumAt(b, off) == n
  {
    WordRange();
    FromToBE(n, 32);
  }

  /** The canonical encoding is one of the layouts. */
  lemma {:induction false} EncHolds(b: seq<Byte>, off: nat, v: Value)
    requires At(b, off, Enc(v)) && |b| <= MAX_ALLOC && CountsFit(v)
    ensures Holds(b, off, v)
    decreases v, 0
  {
    match v
    case Static(w) =>
    case Blob(data) =>
      AtSplit(b, off, ToBE(|data|, 32) + data, Padding(|data|));
      AtSplit(b, off, ToBE(|data|, 32), data);
      NumWritten(b, off, |data|);
    case Array(elems) =>
      AtSplit(b, off, ToBE(|elems|, 32), EncTuple(elems));
      NumWritten(b, off, |elems|);
      EncTupleHolds(b, off + 32, elems);
    case Tuple(fields) =>
      EncTupleHolds(b, off, fields);
  }

  lemma {:induction false} EncTupleHolds(b: seq<Byte>, base: nat, vs: seq<Value>)
    requires At(b, base, EncTuple(vs)) && |b| <= MAX_ALLOC && AllFit(vs)
    ensures HoldsAll(b, base, base, vs)
    decreases vs, 3
  {
    var off := HeadSizes(vs);
    HeadsLength(vs, off);
    AtSplit(b, base, Heads(vs, off), Tails(vs));
    HeadsAreParts(vs, off);
    PartsPlaced(b, base, base, PartsOf(vs), off);
    HeadsHold(b, base, base, vs, off);
  }

  /** A component of a tuple once it is encoded. */
  datatype Part = Part(dynamic: bool, bytes: seq<Byte>)

  function PartsOf(vs: seq<Value>): seq<Part>
    decreases vs, 1
  {
    if vs == [] then [] else [Part(IsDynamic(vs[0]), Enc(vs[0]))] + PartsOf(vs[1..])
  }

  function PartHeads(ps: seq<Part>, off: nat): seq<Byte> {
    if ps == [] then []
    else if ps[0].dynamic then ToBE(off, 32) + PartHeads(ps[1..], off + |ps[0].bytes|)
    else ps[0].bytes + PartHeads(ps[1..], off)
  }

  function PartTails(ps: seq<Part>): seq<Byte> {
    if ps == [] then []
    else if ps[0].dynamic then ps[0].bytes + PartTails(ps[1..])
    else PartTails(ps[1..])
  }

  lemma {:induction false} HeadsAreParts(vs: seq<Value>, off: nat)
    ensures Heads(vs, off) == PartHeads(PartsOf(vs), off) && Tails(vs) == PartTails(PartsOf(vs))
    decreases |vs|
  {
    if vs != [] {
      HeadsAreParts(vs[1..], if IsDynamic(vs[0]) then off + |Enc(vs[0])| else off);
      assert PartsOf(vs)[1..] == PartsOf(vs[1..]);
      assert [] + Tails(vs[1..]) == Tails(vs[1..]);
    }
  }

  /** The heads stand at `pos` one after the other, and the tails from `base + off` on. */
  predicate Placed(b: seq<Byte>, base: nat, pos: nat, ps: seq<Part>, off: nat)
    decreases |ps|
  {
    if ps == [] then true
    else if ps[0].dynamic then
      && pos + 32 <= |b| && NumAt(b, pos) == off && At(b, base + off, ps[0].bytes)
      && Placed(b, base, pos + 32, ps[1..], off + |ps[0].bytes|)
    else
      At(b, pos, ps[0].bytes) && Placed(b, base, pos + |ps[0].bytes|, ps[1..], off)
  }

  lemma PointerStands(b: seq<Byte>, pos: nat, off: nat, rest: seq<Byte>)
    requires At(b, pos, ToBE(off, 32) + rest) && off < TWO_256
    ensures pos + 32 <= |b| && NumAt(b, pos) == off && At(b, pos + 32, rest)
  {
    AtSplit(b, pos, ToBE(off, 32), rest);
    NumWritten(b, pos, off);
  }

  /** The heads and the tails still to be placed stand one after the other. */
  predicate Lined(b: seq<Byte>, base: nat, pos: nat, ps: seq<Part>, off: nat) {
    At(b, pos, PartHeads(ps, off)) && At(b, base + off, PartTails(ps)) && |b| <= MAX_ALLOC
  }

  lemma DynamicLined(b: seq<Byte>, base: nat, pos: nat, ps: seq<Part>, off: nat)
    requires ps != [] && ps[0].dynamic && Lined(b, base, pos, ps, off)
    ensures pos + 32 <= |b| && NumAt(b, pos) == off && At(b, base + off, ps[0].bytes)
    ensures Lined(b, base, pos + 32, ps[1..], off + |ps[0].bytes|)
  {
    AtSplit(b, base + off, ps[0].bytes, PartTails(ps[1..]));
    PointerStands(b, pos, off, PartHeads(ps[1..], off + |ps[0].bytes|));
  }

  lemma StaticLined(b: seq<Byte>, base: nat, pos: nat, ps: seq<Part>, off: nat)
    requires ps != [] && !ps[0].dynamic && Lined(b, base, pos, ps, off)
    ensures At(b, pos, ps[0].bytes) && Lined(b, base, pos + |ps[0].bytes|, ps[1..], off)
  {
    AtSplit(b, pos, ps[0].bytes, PartHeads(ps[1..], off));
  }

  lemma {:induction false} PartsPlaced(b: seq<Byte>, base: nat, pos: nat, ps: seq<Part>, off: nat)
    requires Lined(b, base, pos, ps, off)
    ensures Placed(b, base, pos, ps, off)
    decreases |ps|
  {
    if ps != [] {
      if ps[0].dynamic {
        DynamicLined(b, base, pos, ps, off);
        PartsPlaced(b, base, pos + 32, ps[1..], off + |ps[0].bytes|);
      } else {
        StaticLined(b, base, pos, ps, off);
        PartsPlaced(b, base, pos + |ps[0].bytes|, ps[1..], off);
      }
    }
  }

  lemma PartsCons(vs: seq<Value>)
    requires vs != []
    ensures PartsOf(vs) != [] && PartsOf(vs)[0] == Part(IsDynamic(vs[0]), Enc(vs[0])) && PartsOf(vs)[1..] == PartsOf(vs[1..])
  {
  }

  lemma PlacedCons(b: seq<Byte>, base: nat, pos: nat, ps: seq<Part>, off: nat, first: Part, rest: seq<Part>)
    requires ps != [] && ps[0] == first && ps[1..] == rest && Placed(b, base, pos, ps, off)
    ensures if first.dynamic then
              && pos + 32 <= |b| && NumAt(b, pos) == off && At(b, base + off, first.bytes)
              && Placed(b, base, pos + 32, rest, off + |first.bytes|)
            else
              At(b, pos, first.bytes) && Placed(b, base, pos + |first.bytes|, rest, off)
  {
  }

  lemma PlacedFirst(b: seq<Byte>, base: nat, pos: nat, vs: seq<Value>, off: nat)
    requires vs != [] && Placed(b, base, pos, PartsOf(vs), off)
    ensures if IsDynamic(vs[0]) then
              && pos + 32 <= |b| && NumAt(b, pos) == off && At(b, base + off, Enc(vs[0]))
              && Placed(b, base, pos + 32, PartsOf(vs[1..]), off + |Enc(vs[0])|)
            else
              At(b, pos, Enc(vs[0])) && Placed(b, base, pos + |Enc(vs[0])|, PartsOf(vs[1..]), off)
  {
    PartsCons(vs);
    PlacedCons(b, base, pos, PartsOf(vs), off, Part(IsDynamic(vs[0]), Enc(vs[0])), PartsOf(vs[1..]));
  }

  lemma {:induction false} HeadsHold(b: seq<Byte>, base: nat, pos: nat, vs: seq<Value>, off: nat)
    requires Placed(b, base, pos, PartsOf(vs), off) && |b| <= MAX_ALLOC && AllFit(vs)
    ensures HoldsAll(b, base, pos, vs)
    decreases vs, 2
  {
    if vs != [] {
      PlacedFirst(b, base, pos, vs, off);
      if IsDynamic(vs[0]) {
        EncHolds(b, base + off, vs[0]);
        HeadsHold(b, base, pos + 32, vs[1..], off + |Enc(vs[0])|);
      } else {
        EncHolds(b, pos, vs[0]);
        StaticLength(vs[0]);
        HeadsHold(b, base, pos + |Enc(vs[0])|, vs[1..], off);
      }
    }
  }

  /** Leading static words stand one after the other. */
  lemma {:induction false} LeadingWords(b: seq<Byte>, base: nat, pos: nat, vs: seq<Value>, k: nat)
    requires HoldsAll(b, base, pos, vs) && k <= |vs| && forall i | 0 <= i < k :: vs[i].Static?
    ensures forall i | 0 <= i < k :: At(b, pos + 32 * i, vs[i].w)
    ensures HoldsAll(b, base, pos + 32 * k, vs[k..])
    decreases k
  {
    if k > 0 {
      LeadingWords(b, base, pos + 32, vs[1..], k - 1);
      assert vs[1..][k - 1..] == vs[k..];
      forall i | 0 <= i < k ensures At(b, pos + 32 * i, vs[i].w) {
        if i > 0 {
          assert vs[1..][i - 1] == vs[i];
        }
      }
    } else {
      assert vs[0..] == vs;
    }
  }

  function Statics(ws: seq<Word>): seq<Value> {
    seq(|ws|, i requires 0 <= i < |ws| => Static(ws[i]))
  }

  function Concat(ws: seq<Word>): (s: seq<Byte>)
    ensures |s| == 32 * |ws|
  {
    if ws == [] then [] else ws[0] + Concat(ws[1..])
  }

  /** The encoding of words only is the words. */
  lemma {:induction false} EncStatics(ws: seq<Word>, off: nat)
    ensures Heads(Statics(ws), off) == Concat(ws) && HeadSizes(Statics(ws)) == 32 * |ws| && Tails(Statics(ws)) == []
  {
    if ws != [] {
      EncStatics(ws[1..], off);
      assert Statics(ws)[1..] == Statics(ws[1..]);
    }
  }
}
