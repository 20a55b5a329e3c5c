/** Decoding the two ABI replies of the capabilities registry (fetchDONInfo in cre/report_verification.go).

    All offsets are Go ints: sums and products wrap around at 64 bits, and a slice expression or an
    allocation with impossible bounds panics. */
module Replies {
  import opened Wrappers
  import opened Bytes
  import Abi

  datatype ReplyError = DonReplyTooShort | NodeIdsPointer | NodeIdsData | NodesReplyTooShort | OuterPointer

  datatype Don = Don(f: Int64, nodeP2PIds: seq<Word>)

  /** The size of a slice header, which bounds how many byte slices one allocation can hold. */
  const SLICE_HEADER := 24
  const NODE_TUPLE_HEAD := 288

  /** b[lo:hi] does not panic. */
  predicate SliceOk(b: seq<Byte>, lo: int, hi: int) { 0 <= lo <= hi <= |b| }

  function IntAt(b: seq<Byte>, off: nat): Int64
    requires off + 32 <= |b|
  {
    WordToInt(Abi.WordAt(b, off))
  }

  function WordsAt(b: seq<Byte>, off: nat, n: nat): seq<Word>
    requires off + 32 * n <= |b|
  {
    seq(n, i requires 0 <= i < n => Abi.WordAt(b, off + 32 * i))
  }

  // ----- The reply of getDON -----

  function DecodeDon(b: GoBytes): Outcome<Don, ReplyError> {
    if |b| < 224 then Failed(DonReplyTooShort)
    else
      var off := Wrap64(32 + IntAt(b, 192));
      if Wrap64(off + 32) > |b| then Failed(NodeIdsPointer)
      else if !SliceOk(b, off, Wrap64(off + 32)) then Panicked
      else
        var count := IntAt(b, off);
        if Wrap64(off + 32 + Wrap64(count * 32)) > |b| then Failed(NodeIdsData)
        else if count < 0 || count * SLICE_HEADER > MAX_ALLOC then Panicked
        else Done(Don(IntAt(b, 96), WordsAt(b, off + 32, count)))
  }

  method DecodeDonReply(b: GoBytes) returns (r: Outcome<Don, ReplyError>)
    ensures r == DecodeDon(b)
  {
    if |b| < 224 {
      return Failed(DonReplyTooShort);
    }
    var f := WordToInt(b[96..128]);
    var nodeP2PIdsPtr: int := WordToInt(b[192..224]);
    var nodeCountOff: int := Wrap64(32 + nodeP2PIdsPtr);
    if Wrap64(nodeCountOff + 32) > |b| {
      return Failed(NodeIdsPointer);
    }
    if !SliceOk(b, nodeCountOff, Wrap64(nodeCountOff + 32)) {
      return Panicked;
    }
    var nodeCount: int := WordToInt(b[nodeCountOff..nodeCountOff + 32]);
    if Wrap64(nodeCountOff + 32 + Wrap64(nodeCount * 32)) > |b| {
      return Failed(NodeIdsData);
    }
    if nodeCount < 0 || nodeCount * SLICE_HEADER > MAX_ALLOC {
      return Panicked;
    }
    var ids := CopyWords(b, nodeCountOff + 32, nodeCount);
    return Done(Don(f, ids));
  }

  /** The loop that copies the node ids out of the reply. */
  method CopyWords(b: seq<Byte>, off: nat, count: nat) returns (ids: seq<Word>)
    requires off + 32 * count <= |b|
    ensures ids == WordsAt(b, off, count)
  {
    ids := [];
    for i := 0 to count
      invariant ids == WordsAt(b, off, i)
    {
      var start := off + i * 32;
      ids := ids + [b[start..start + 32]];
    }
  }

  // ----- The reply of getNodesByP2PIds -----

  /** The loop over the claimed number of nodes, from node i on. It breaks at the first pointer or tuple
      that lies past the end. */
  function NodesFrom(b: GoBytes, outer: nat, count: Int64, i: nat, acc: Signers): Outcome<Signers, ReplyError>
    decreases |b| - 32 * i
  {
    if i >= count || outer + 64 + 32 * i > |b| then Done(acc)
    else match EntryAt(b, outer, i)
      case PastEnd => Done(acc)
      case OutOfRange => Panicked
      case At(base) => NodesFrom(b, outer, count, i + 1, acc[AddressAt(b, base) := OperatorAt(b, base)])
  }

  /** Where an element pointer leads: past the end, to an impossible slice, or to a tuple. */
  datatype Entry = PastEnd | OutOfRange | At(base: nat)

  function EntryAt(b: GoBytes, outer: nat, i: nat): (e: Entry)
    requires outer + 64 + 32 * i <= |b|
    ensures e.At? ==> e.base + NODE_TUPLE_HEAD <= |b|
  {
    var base := Wrap64(outer + 32 + IntAt(b, outer + 32 + 32 * i));
    if Wrap64(base + NODE_TUPLE_HEAD) > |b| then PastEnd
    else if !SliceOk(b, base, Wrap64(base + NODE_TUPLE_HEAD)) then OutOfRange
    else At(base)
  }

  /** Slot 3 of a node tuple: the address is left-aligned. */
  function AddressAt(b: seq<Byte>, base: nat): Address
    requires base + NODE_TUPLE_HEAD <= |b|
  {
    b[base + 96..base + 116]
  }

  /** Slot 0: a uint32, cut out of the low 64 bits of the word. */
  function OperatorAt(b: seq<Byte>, base: nat): nat
    requires base + NODE_TUPLE_HEAD <= |b|
  {
    Abi.NumAt(b, base) % 0x1_0000_0000
  }

  function DecodeNodes(b: GoBytes): Outcome<Signers, ReplyError> {
    if |b| < 64 then Failed(NodesReplyTooShort)
    else
      var outer := IntAt(b, 0);
      if Wrap64(outer + 32) > |b| then Failed(OuterPointer)
      else if !SliceOk(b, outer, Wrap64(outer + 32)) then Panicked
      else NodesFrom(b, outer, IntAt(b, outer), 0, map[])
  }

  /** Whatever count the reply claims, the loop body is entered at most length/32 + 1 times. */
  method DecodeNodesReply(b: GoBytes) returns (r: Outcome<Signers, ReplyError>, rounds: nat)
    ensures r == DecodeNodes(b)
    ensures rounds <= |b| / 32 + 1
  {
    rounds := 0;
    if |b| < 64 {
      return Failed(NodesReplyTooShort), 0;
    }
    var outerPtr: int := WordToInt(b[0..32]);
    if Wrap64(outerPtr + 32) > |b| {
      return Failed(OuterPointer), 0;
    }
    if !SliceOk(b, outerPtr, Wrap64(outerPtr + 32)) {
      return Panicked, 0;
    }
    var returnedCount := WordToInt(b[outerPtr..outerPtr + 32]);
    r, rounds := CollectSigners(b, outerPtr, returnedCount);
  }

  /** The loop of DecodeNodesReply. */
  method CollectSigners(b: GoBytes, outerPtr: nat, returnedCount: Int64)
    returns (r: Outcome<Signers, ReplyError>, rounds: nat)
    requires outerPtr + 32 <= |b|
    ensures r == NodesFrom(b, outerPtr, returnedCount, 0, map[])
    ensures rounds <= |b| / 32 + 1
  {
    var signers: Signers := map[];
    ghost var all := NodesFrom(b, outerPtr, returnedCount, 0, map[]);
    var i := 0;
    rounds := 0;
    while i < returnedCount
      invariant 0 <= i && 32 * i <= |b| && rounds == i
      invariant NodesFrom(b, outerPtr, returnedCount, i, signers) == all
      decreases |b| - 32 * i
    {
      rounds := rounds + 1;
      var elemPtrOff := outerPtr + 32 + i * 32;
      if elemPtrOff + 32 > |b| {
        break;
      }
      var tuple := EntryAt(b, outerPtr, i);
      if tuple.PastEnd? {
        break;
      }
      if tuple.OutOfRange? {
        return Panicked, rounds;
      }
      var nodeOperatorId := OperatorAt(b, tuple.base);
      var addr := AddressAt(b, tuple.base);
      signers := signers[addr := nodeOperatorId];
      i := i + 1;
    }
    r := Done(signers);
  }

  // ----- When no arithmetic wraps and no slice is out of range -----

  const TWO_57 := 0x200_0000_0000_0000

  /** The same decoding over unbounded integers, without wrap-around and without panics. */
  function IdealDon(b: GoBytes): Result<Don, ReplyError> {
    if |b| < 224 then Err(DonReplyTooShort)
    else
      var off := 32 + Abi.NumAt(b, 192);
      if off + 32 > |b| then Err(NodeIdsPointer)
      else if off + 32 + 32 * Abi.NumAt(b, off) > |b| then Err(NodeIdsData)
      else Ok(Don(IntAt(b, 96), WordsAt(b, off + 32, Abi.NumAt(b, off))))
  }

  function IdealNodesFrom(b: GoBytes, outer: nat, count: nat, i: nat, acc: Signers): Signers
    decreases |b| - 32 * i
  {
    if i >= count || outer + 64 + 32 * i > |b| then acc
    else
      var base := outer + 32 + Abi.NumAt(b, outer + 32 + 32 * i);
      if base + NODE_TUPLE_HEAD > |b| then acc
      else IdealNodesFrom(b, outer, count, i + 1, acc[AddressAt(b, base) := OperatorAt(b, base)])
  }

  function IdealNodes(b: GoBytes): Result<Signers, ReplyError> {
    if |b| < 64 then Err(NodesReplyTooShort)
    else
      var outer := Abi.NumAt(b, 0);
      if outer + 32 > |b| then Err(OuterPointer) else Ok(IdealNodesFrom(b, outer, Abi.NumAt(b, outer), 0, map[]))
  }

  function Lift<T, E>(r: Result<T, E>): Outcome<T, E> {
    match r case Ok(v) => Done(v) case Err(e) => Failed(e)
  }

  /** With pointer and count below 2^57 the decoding of getDON is the unbounded one, so it never panics. */
  lemma DonNeverWraps(b: GoBytes)
    requires |b| >= 224 ==> Abi.NumAt(b, 192) < TWO_57
    requires |b| >= 224 && 64 + Abi.NumAt(b, 192) <= |b| ==> Abi.NumAt(b, 32 + Abi.NumAt(b, 192)) < TWO_57
    ensures DecodeDon(b) == Lift(IdealDon(b))
  {
  }

  lemma {:induction false} NodesNeverWrapFrom(b: GoBytes, outer: nat, count: nat, i: nat, acc: Signers)
    requires outer + 32 <= |b| && count < TWO_57
    requires forall j: nat | outer + 64 + 32 * j <= |b| :: Abi.NumAt(b, outer + 32 + 32 * j) < TWO_57
    ensures NodesFrom(b, outer, count, i, acc) == Done(IdealNodesFrom(b, outer, count, i, acc))
    decreases |b| - 32 * i
  {
    if i < count && outer + 64 + 32 * i <= |b| {
      var base := outer + 32 + Abi.NumAt(b, outer + 32 + 32 * i);
      if base + NODE_TUPLE_HEAD <= |b| {
        NodesNeverWrapFrom(b, outer, count, i + 1, acc[AddressAt(b, base) := OperatorAt(b, base)]);
      }
    }
  }

  /** The same for getNodesByP2PIds, with every element pointer below 2^57. */
  lemma NodesNeverWrap(b: GoBytes)
    requires |b| >= 64 ==> Abi.NumAt(b, 0) < TWO_57
    requires |b| >= 64 && Abi.NumAt(b, 0) + 32 <= |b| ==>
               && Abi.NumAt(b, Abi.NumAt(b, 0)) < TWO_57
               && forall j: nat | Abi.NumAt(b, 0) + 64 + 32 * j <= |b| :: Abi.NumAt(b, Abi.NumAt(b, 0) + 32 + 32 * j) < TWO_57
    ensures DecodeNodes(b) == Lift(IdealNodes(b))
  {
    if |b| >= 64 && Abi.NumAt(b, 0) + 32 <= |b| {
      var outer := Abi.NumAt(b, 0);
      NodesNeverWrapFrom(b, outer, Abi.NumAt(b, outer), 0, map[]);
    }
  }

  /** Exactly which getDON replies make the decoder panic, by the signed pointer and count it reads. */
  lemma DonPanicIff(b: GoBytes)
    requires |b| >= 224
    ensures var ptr := IntAt(b, 192);
            DecodeDon(b).Panicked? <==>
              || ptr < -32
              || ptr >= TWO_63 - 64
              || (ptr + 64 <= |b| && IntAt(b, 32 + ptr) < 0 && Wrap64(ptr + 64 + Wrap64(IntAt(b, 32 + ptr) * 32)) <= |b|)
              || (ptr + 64 <= |b| && IntAt(b, 32 + ptr) * SLICE_HEADER > MAX_ALLOC
                  && Wrap64(ptr + 64 + Wrap64(IntAt(b, 32 + ptr) * 32)) <= |b|)
  {
  }

  /** Where element pointer i leads, without wrap-around. */
  function Target(b: seq<Byte>, outer: nat, i: nat): int
    requires outer + 64 + 32 * i <= |b|
  {
    outer + 32 + IntAt(b, outer + 32 + 32 * i)
  }

  /** The pointer leads in front of the reply, with the end of its tuple inside, or so far behind it that the end wraps. */
  predicate BadPointer(b: seq<Byte>, outer: nat, i: nat) {
    && outer + 64 + 32 * i <= |b|
    && var t := Target(b, outer, i); (t < 0 && t + NODE_TUPLE_HEAD <= |b|) || t >= TWO_63 - NODE_TUPLE_HEAD
  }

  predicate GoodPointer(b: seq<Byte>, outer: nat, i: nat) {
    && outer + 64 + 32 * i <= |b|
    && var t := Target(b, outer, i); 0 <= t && t + NODE_TUPLE_HEAD <= |b|
  }

  lemma EntryPointers(b: GoBytes, outer: nat, i: nat)
    requires outer + 64 + 32 * i <= |b|
    ensures EntryAt(b, outer, i).OutOfRange? <==> BadPointer(b, outer, i)
    ensures EntryAt(b, outer, i).At? <==> GoodPointer(b, outer, i)
  {
  }

  /** Element k is reached from element i on, and its pointer is bad. */
  predicate MeetsBad(b: seq<Byte>, outer: nat, count: int, i: nat, k: nat) {
    i <= k < count && BadPointer(b, outer, k) && forall j | i <= j < k :: GoodPointer(b, outer, j)
  }

  lemma MeetsBadLater(b: GoBytes, outer: nat, count: int, i: nat)
    requires i < count && GoodPointer(b, outer, i)
    ensures forall k: nat :: MeetsBad(b, outer, count, i, k) <==> MeetsBad(b, outer, count, i + 1, k)
  {
    forall k: nat ensures MeetsBad(b, outer, count, i, k) <==> MeetsBad(b, outer, count, i + 1, k) {
      if MeetsBad(b, outer, count, i, k) {
        assert k != i;
      }
    }
  }

  lemma {:induction false} LoopPanics(b: GoBytes, outer: nat, count: Int64, i: nat, acc: Signers) returns (k: nat)
    ensures if NodesFrom(b, outer, count, i, acc).Panicked? then MeetsBad(b, outer, count, i, k)
            else forall j: nat :: !MeetsBad(b, outer, count, i, j)
    decreases |b| - 32 * i
  {
    k := i;
    if i < count && outer + 64 + 32 * i <= |b| {
      EntryPointers(b, outer, i);
      if GoodPointer(b, outer, i) {
        var base := EntryAt(b, outer, i).base;
        k := LoopPanics(b, outer, count, i + 1, acc[AddressAt(b, base) := OperatorAt(b, base)]);
        MeetsBadLater(b, outer, count, i);
      }
    }
  }

  /** Exactly which getNodesByP2PIds replies make the decoder panic: by the outer pointer, or by the first element
      pointer that does not lead to a tuple inside the reply. */
  lemma NodesPanicIff(b: GoBytes)
    requires |b| >= 64
    ensures var outer := IntAt(b, 0);
            DecodeNodes(b).Panicked? <==>
              || outer < 0
              || outer >= TWO_63 - 32
              || (outer + 32 <= |b| && exists k: nat :: MeetsBad(b, outer, IntAt(b, outer), 0, k))
  {
    var outer: int := IntAt(b, 0);
    if 0 <= outer && outer + 32 <= |b| {
      var k := LoopPanics(b, outer, IntAt(b, outer), 0, map[]);
    }
  }

  // ----- Well-formed ABI replies -----

  /** The components of a DONInfo tuple; `others` are the components after the node ids. */
  datatype DonTuple = DonTuple(id: Word, configCount: Word, f: Word, isPublic: Word, acceptsWorkflows: Word,
                               nodeP2PIds: seq<Word>, others: seq<Abi.Value>)

  function DonFields(d: DonTuple): seq<Abi.Value> {
    [Abi.Static(d.id), Abi.Static(d.configCount), Abi.Static(d.f), Abi.Static(d.isPublic), Abi.Static(d.acceptsWorkflows),
     Abi.Array(Abi.Statics(d.nodeP2PIds))] + d.others
  }

  /** The return value of getDON: one dynamic tuple. */
  function DonReply(d: DonTuple): Abi.Value { Abi.Tuple([Abi.Tuple(DonFields(d))]) }

  lemma {:induction false} StaticsHold(b: seq<Byte>, base: nat, pos: nat, ws: seq<Word>)
    requires Abi.HoldsAll(b, base, pos, Abi.Statics(ws))
    ensures pos + 32 * |ws| <= |b| || ws == []
    ensures forall i | 0 <= i < |ws| :: Abi.At(b, pos + 32 * i, ws[i])
  {
    Abi.LeadingWords(b, base, pos, Abi.Statics(ws), |ws|);
    if ws != [] {
      assert Abi.At(b, pos + 32 * (|ws| - 1), Abi.Statics(ws)[|ws| - 1].w);
    }
    forall i | 0 <= i < |ws| ensures Abi.At(b, pos + 32 * i, ws[i]) {
      assert Abi.At(b, pos + 32 * i, Abi.Statics(ws)[i].w);
    }
  }

  /** The components of a DONInfo tuple, one by one. */
  predicate IsDonTuple(fields: seq<Abi.Value>, d: DonTuple) {
    && |fields| > 5 && fields[0] == Abi.Static(d.id) && fields[1] == Abi.Static(d.configCount) && fields[2] == Abi.Static(d.f)
    && fields[3] == Abi.Static(d.isPublic) && fields[4] == Abi.Static(d.acceptsWorkflows)
    && fields[5] == Abi.Array(Abi.Statics(d.nodeP2PIds))
  }

  lemma DonFieldsTuple(d: DonTuple)
    ensures IsDonTuple(DonFields(d), d) && Abi.IsDynamic(Abi.Tuple(DonFields(d)))
  {
    assert Abi.IsDynamic(DonFields(d)[5]);
  }

  /** What stands at fixed distances from the tuple at `base`, and behind its ids pointer. */
  predicate DonParts(b: seq<Byte>, base: nat, d: DonTuple) {
    && base + 192 <= |b| && Abi.At(b, base + 32, d.configCount) && Abi.At(b, base + 64, d.f)
    && Abi.At(b, base + 128, d.acceptsWorkflows)
    && Abi.Holds(b, base + Abi.NumAt(b, base + 160), Abi.Array(Abi.Statics(d.nodeP2PIds)))
  }

  /** Where the parts of a DONInfo tuple stand. */
  lemma DonTupleHolds(b: seq<Byte>, base: nat, fields: seq<Abi.Value>, d: DonTuple)
    requires Abi.HoldsAll(b, base, base, fields) && IsDonTuple(fields, d)
    ensures DonParts(b, base, d)
  {
    Abi.LeadingWords(b, base, base, fields, 5);
    assert Abi.At(b, base + 32 * 1, fields[1].w) && Abi.At(b, base + 32 * 2, fields[2].w) && Abi.At(b, base + 32 * 4, fields[4].w);
    FirstPointer(b, base, base + 160, fields[5..]);
  }

  lemma FirstPointer(b: seq<Byte>, base: nat, pos: nat, vs: seq<Abi.Value>)
    requires Abi.HoldsAll(b, base, pos, vs) && vs != [] && Abi.IsDynamic(vs[0])
    ensures pos + 32 <= |b| && Abi.Holds(b, base + Abi.NumAt(b, pos), vs[0])
  {
  }

  lemma IdsHold(b: seq<Byte>, off: nat, ids: seq<Word>)
    requires Abi.Holds(b, off, Abi.Array(Abi.Statics(ids)))
    ensures off + 32 + 32 * |ids| <= |b| && Abi.NumAt(b, off) == |ids| && WordsAt(b, off + 32, |ids|) == ids
  {
    StaticsHold(b, off + 32, off + 32, ids);
    assert forall i | 0 <= i < |ids| :: WordsAt(b, off + 32, |ids|)[i] == ids[i];
  }

  lemma OnlyDynamicHolds(b: seq<Byte>, v: Abi.Value)
    requires Abi.Holds(b, 0, Abi.Tuple([v])) && Abi.IsDynamic(v)
    ensures |b| >= 32 && Abi.Holds(b, Abi.NumAt(b, 0), v)
  {
    assert Abi.HoldsAll(b, 0, 0, [v]);
  }

  lemma ReplyTuple(b: seq<Byte>, fields: seq<Abi.Value>)
    requires Abi.Holds(b, 0, Abi.Tuple([Abi.Tuple(fields)])) && Abi.IsDynamic(Abi.Tuple(fields))
    ensures |b| >= 32 && Abi.HoldsAll(b, Abi.NumAt(b, 0), Abi.NumAt(b, 0), fields)
  {
    OnlyDynamicHolds(b, Abi.Tuple(fields));
  }

  lemma FieldsParts(b: seq<Byte>, fields: seq<Abi.Value>, d: DonTuple)
    requires Abi.Holds(b, 0, Abi.Tuple([Abi.Tuple(fields)])) && Abi.IsDynamic(Abi.Tuple(fields)) && IsDonTuple(fields, d)
    ensures |b| >= 32 && DonParts(b, Abi.NumAt(b, 0), d)
  {
    ReplyTuple(b, fields);
    DonTupleHolds(b, Abi.NumAt(b, 0), fields, d);
  }

  lemma DonReplyParts(b: seq<Byte>, d: DonTuple)
    requires Abi.Holds(b, 0, DonReply(d))
    ensures |b| >= 32 && DonParts(b, Abi.NumAt(b, 0), d)
  {
    DonFieldsTuple(d);
    FieldsParts(b, DonFields(d), d);
  }

  lemma DecodeDonParts(b: GoBytes, d: DonTuple)
    requires DonParts(b, 32, d)
    ensures DecodeDon(b) == Done(Don(WordToInt(d.f), d.nodeP2PIds))
  {
    IdsHold(b, 32 + Abi.NumAt(b, 192), d.nodeP2PIds);
    DonNeverWraps(b);
  }

  /** Decoding a well-formed getDON reply, under any placement of the tails inside the tuple, gives the
      encoded f and the encoded ids. The encoding of a single dynamic return value starts with the pointer 32. */
  lemma DecodeDonCorrect(b: GoBytes, d: DonTuple)
    requires Abi.Holds(b, 0, DonReply(d)) && |b| >= 32 && Abi.NumAt(b, 0) == 32
    ensures DecodeDon(b) == Done(Don(WordToInt(d.f), d.nodeP2PIds))
  {
    DonReplyParts(b, d);
    DecodeDonParts(b, d);
  }

  /** The components of a NodeInfo tuple. */
  datatype NodeTuple = NodeTuple(nodeOperatorId: Word, configCount: Word, workflowDONId: Word, signer: Word, p2pId: Word,
                                 encryptionPublicKey: Word, csaKey: Word, capabilityIds: Abi.Value, capabilitiesDONIds: Abi.Value)
  {
    function Fields(): seq<Abi.Value> {
      [Abi.Static(nodeOperatorId), Abi.Static(configCount), Abi.Static(workflowDONId), Abi.Static(signer), Abi.Static(p2pId),
       Abi.Static(encryptionPublicKey), Abi.Static(csaKey), capabilityIds, capabilitiesDONIds]
    }

    predicate Valid() { capabilityIds.Array? && capabilitiesDONIds.Array? }
  }

  function NodeValues(ns: seq<NodeTuple>): seq<Abi.Value> {
    seq(|ns|, i requires 0 <= i < |ns| => Abi.Tuple(ns[i].Fields()))
  }

  /** The return value of getNodesByP2PIds: one array of tuples. */
  function NodesReply(ns: seq<NodeTuple>): Abi.Value { Abi.Tuple([Abi.Array(NodeValues(ns))]) }

  /** Signer address to node operator id; the last tuple wins on a repeated signer. */
  function SignerMap(ns: seq<NodeTuple>): Signers {
    if ns == [] then map[]
    else
      var last := ns[|ns| - 1];
      SignerMap(ns[..|ns| - 1])[last.signer[..20] := FromBE(last.nodeOperatorId) % 0x1_0000_0000]
  }

  /** The map has exactly the addresses of the nodes, each with the operator of its last node. */
  lemma {:induction false} LastNodeWins(ns: seq<NodeTuple>, a: Address) returns (i: nat)
    ensures a in SignerMap(ns) ==>
            && i < |ns| && ns[i].signer[..20] == a && SignerMap(ns)[a] == FromBE(ns[i].nodeOperatorId) % 0x1_0000_0000
            && forall j | i < j < |ns| :: ns[j].signer[..20] != a
    ensures a !in SignerMap(ns) ==> forall j | 0 <= j < |ns| :: ns[j].signer[..20] != a
  {
    i := 0;
    if ns != [] {
      if ns[|ns| - 1].signer[..20] == a {
        i := |ns| - 1;
      } else {
        i := LastNodeWins(ns[..|ns| - 1], a);
      }
    }
  }

  lemma NodeHolds(b: GoBytes, base: nat, n: NodeTuple)
    requires Abi.Holds(b, base, Abi.Tuple(n.Fields())) && n.Valid()
    ensures base + NODE_TUPLE_HEAD <= |b|
    ensures AddressAt(b, base) == n.signer[..20] && Abi.NumAt(b, base) == FromBE(n.nodeOperatorId)
  {
    var fields := n.Fields();
    Abi.LeadingWords(b, base, base, fields, 7);
    assert Abi.At(b, base + 32 * 0, fields[0].w) && Abi.At(b, base + 32 * 3, fields[3].w);
    assert fields[7..][0] == n.capabilityIds && fields[7..][1..][0] == n.capabilitiesDONIds;
    assert b[base + 96..base + 128][..20] == b[base + 96..base + 116];
  }

  /** The heads of an array of dynamic values are its pointers. */
  lemma {:induction false} PointerAt(b: seq<Byte>, base: nat, pos: nat, vs: seq<Abi.Value>, i: nat)
    requires Abi.HoldsAll(b, base, pos, vs) && i < |vs| && forall j | 0 <= j < |vs| :: Abi.IsDynamic(vs[j])
    ensures pos + 32 * i + 32 <= |b| && Abi.Holds(b, base + Abi.NumAt(b, pos + 32 * i), vs[i])
    decreases i
  {
    if i > 0 {
      PointerAt(b, base, pos + 32, vs[1..], i - 1);
    }
  }

  /** One round over a well-formed node. */
  lemma NodesStep(b: GoBytes, outer: nat, count: Int64, i: nat, acc: Signers, n: NodeTuple)
    requires i < count && outer + 64 + 32 * i <= |b| && n.Valid()
    requires Abi.Holds(b, outer + 32 + Abi.NumAt(b, outer + 32 + 32 * i), Abi.Tuple(n.Fields()))
    ensures NodesFrom(b, outer, count, i, acc) ==
            NodesFrom(b, outer, count, i + 1, acc[n.signer[..20] := FromBE(n.nodeOperatorId) % 0x1_0000_0000])
  {
    NodeHolds(b, outer + 32 + Abi.NumAt(b, outer + 32 + 32 * i), n);
  }

  lemma NodePointer(b: GoBytes, base: nat, ns: seq<NodeTuple>, i: nat)
    requires Abi.HoldsAll(b, base, base, NodeValues(ns)) && i < |ns|
    requires forall j | 0 <= j < |ns| :: ns[j].Valid()
    ensures base + 32 * i + 32 <= |b| && Abi.Holds(b, base + Abi.NumAt(b, base + 32 * i), Abi.Tuple(ns[i].Fields()))
  {
    forall j | 0 <= j < |ns| ensures Abi.IsDynamic(NodeValues(ns)[j]) {
      assert Abi.IsDynamic(ns[j].Fields()[7]);
    }
    PointerAt(b, base, base, NodeValues(ns), i);
  }

  lemma SignerMapSnoc(ns: seq<NodeTuple>, i: nat)
    requires i < |ns|
    ensures SignerMap(ns[..i + 1]) == SignerMap(ns[..i])[ns[i].signer[..20] := FromBE(ns[i].nodeOperatorId) % 0x1_0000_0000]
  {
    assert ns[..i + 1][..i] == ns[..i];
  }

  lemma {:induction false} DecodeNodesFrom(b: GoBytes, outer: nat, ns: seq<NodeTuple>, i: nat)
    requires outer + 32 <= |b| && Abi.HoldsAll(b, outer + 32, outer + 32, NodeValues(ns)) && i <= |ns|
    requires (forall j | 0 <= j < |ns| :: ns[j].Valid()) && |ns| < TWO_63
    ensures NodesFrom(b, outer, |ns|, i, SignerMap(ns[..i])) == Done(SignerMap(ns))
    decreases |ns| - i
  {
    if i == |ns| {
      assert ns[..i] == ns;
    } else {
      NodePointer(b, outer + 32, ns, i);
      NodesStep(b, outer, |ns|, i, SignerMap(ns[..i]), ns[i]);
      SignerMapSnoc(ns, i);
      DecodeNodesFrom(b, outer, ns, i + 1);
    }
  }

  lemma FewNodes(b: GoBytes, base: nat, ns: seq<NodeTuple>)
    requires Abi.HoldsAll(b, base, base, NodeValues(ns)) && forall j | 0 <= j < |ns| :: ns[j].Valid()
    ensures |ns| < TWO_63
  {
    if ns != [] {
      NodePointer(b, base, ns, |ns| - 1);
    }
  }

  /** The array of nodes stands at `outer`. */
  predicate NodesStand(b: seq<Byte>, outer: nat, ns: seq<NodeTuple>) {
    outer + 32 <= |b| && Abi.NumAt(b, outer) == |ns| && Abi.HoldsAll(b, outer + 32, outer + 32, NodeValues(ns))
  }

  lemma NodesHold(b: GoBytes, ns: seq<NodeTuple>)
    requires Abi.Holds(b, 0, NodesReply(ns))
    ensures |b| >= 32 && NodesStand(b, Abi.NumAt(b, 0), ns)
  {
    OnlyDynamicHolds(b, Abi.Array(NodeValues(ns)));
  }

  /** Where the loop starts. */
  lemma NodesStart(b: GoBytes, outer: nat, count: nat)
    requires |b| >= 64 && Abi.NumAt(b, 0) == outer && outer + 32 <= |b| && Abi.NumAt(b, outer) == count < TWO_63
    ensures DecodeNodes(b) == NodesFrom(b, outer, count, 0, map[])
  {
  }

  lemma DecodeStanding(b: GoBytes, outer: nat, ns: seq<NodeTuple>)
    requires NodesStand(b, outer, ns) && forall j | 0 <= j < |ns| :: ns[j].Valid()
    ensures |ns| < TWO_63 && NodesFrom(b, outer, |ns|, 0, map[]) == Done(SignerMap(ns))
  {
    FewNodes(b, outer + 32, ns);
    DecodeNodesFrom(b, outer, ns, 0);
    assert ns[..0] == [];
  }

  /** Decoding a well-formed getNodesByP2PIds reply, under any placement of the array and of the tails inside
      it, gives the map from signers to node operator ids, exactly when the reply is long enough to be looked at. */
  lemma DecodeNodesCorrect(b: GoBytes, ns: seq<NodeTuple>)
    requires Abi.Holds(b, 0, NodesReply(ns)) && forall j | 0 <= j < |ns| :: ns[j].Valid()
    ensures DecodeNodes(b) == if |b| < 64 then Failed(NodesReplyTooShort) else Done(SignerMap(ns))
  {
    NodesHold(b, ns);
    DecodeStanding(b, Abi.NumAt(b, 0), ns);
    if |b| >= 64 {
      NodesStart(b, Abi.NumAt(b, 0), |ns|);
    }
  }

  lemma CanonicalHolds(v: Abi.Value, b: GoBytes)
    requires Abi.IsDynamic(v) && Abi.CountsFit(v) && b == Abi.Enc(Abi.Tuple([v]))
    ensures Abi.Holds(b, 0, Abi.Tuple([v])) && |b| >= 32 && Abi.NumAt(b, 0) == 32
  {
    assert [v][1..] == [];
    assert b[0..|b|] == b;
    Abi.EncHolds(b, 0, Abi.Tuple([v]));
    EncOnlyDynamic(v);
    Abi.AtSplit(b, 0, ToBE(32, 32), Abi.Enc(v));
    Abi.NumWritten(b, 0, 32);
  }

  /** The canonical encodings in particular: what the registry contract returns is decoded exactly. */
  lemma DecodeCanonicalDon(d: DonTuple, b: GoBytes)
    requires b == Abi.Enc(DonReply(d)) && Abi.CountsFit(Abi.Tuple(DonFields(d)))
    ensures DecodeDon(b) == Done(Don(WordToInt(d.f), d.nodeP2PIds))
  {
    assert Abi.IsDynamic(DonFields(d)[5]);
    CanonicalHolds(Abi.Tuple(DonFields(d)), b);
    DecodeDonCorrect(b, d);
  }

  lemma CanonicalNodesHold(nodes: Abi.Value, b: GoBytes)
    requires nodes.Array? && Abi.CountsFit(nodes) && b == Abi.Enc(Abi.Tuple([nodes]))
    ensures Abi.Holds(b, 0, Abi.Tuple([nodes])) && |b| >= 64
  {
    CanonicalHolds(nodes, b);
    OnlyDynamicHolds(b, nodes);
  }

  lemma {:induction false} DecodeCanonicalNodes(ns: seq<NodeTuple>, b: GoBytes)
    requires b == Abi.Enc(NodesReply(ns)) && Abi.CountsFit(Abi.Array(NodeValues(ns)))
    requires forall j | 0 <= j < |ns| :: ns[j].Valid()
    ensures DecodeNodes(b) == Done(SignerMap(ns))
  {
    CanonicalNodesHold(Abi.Array(NodeValues(ns)), b);
    DecodeNodesCorrect(b, ns);
  }

  // ----- A getDON reply with its tuple elsewhere -----

  function ZeroWord(): Word { seq(32, _ => 0) }

  /** A DONInfo tuple without nodes, behind an outer pointer of 64 and an unused word. */
  function ShiftedReply(d: DonTuple): seq<Byte> {
    ToBE(64, 32) + ZeroWord() + Abi.Enc(Abi.Tuple(DonFields(d)))
  }

  lemma {:induction false} LeadingZeros(s: seq<Byte>, n: nat)
    requires n <= |s| && forall i | 0 <= i < n :: s[i] == 0
    ensures Leading(s, n) == 0
  {
    if n > 0 {
      LeadingZeros(s, n - 1);
    }
  }

  /** The shifted reply is a valid layout. */
  lemma ShiftedHolds(b: GoBytes, d: DonTuple, ptr: nat)
    requires b == ToBE(ptr, 32) + ZeroWord() + Abi.Enc(Abi.Tuple(DonFields(d))) && ptr == 64
    requires Abi.CountsFit(Abi.Tuple(DonFields(d)))
    ensures Abi.HoldsAll(b, 64, 64, DonFields(d)) && Abi.Holds(b, 0, DonReply(d))
    ensures Abi.NumAt(b, 0) == 64 && |b| >= 64 && Abi.WordAt(b, 32) == ZeroWord()
  {
    var t := Abi.Tuple(DonFields(d));
    assert Abi.IsDynamic(DonFields(d)[5]);
    assert b[0..32] == ToBE(ptr, 32) && b[32..64] == ZeroWord() && b[64..64 + |Abi.Enc(t)|] == Abi.Enc(t);
    Abi.NumWritten(b, 0, ptr);
    Abi.EncHolds(b, 64, t);
    HoldsOnly(b, t);
  }

  lemma HoldsOnly(b: seq<Byte>, v: Abi.Value)
    requires Abi.IsDynamic(v) && |b| >= 32 && Abi.Holds(b, Abi.NumAt(b, 0), v)
    ensures Abi.Holds(b, 0, Abi.Tuple([v]))
  {
    assert [v][1..] == [];
    assert Abi.HoldsAll(b, 0, 0, [v]);
  }

  lemma SmallTupleFits(d: DonTuple)
    requires d.nodeP2PIds == [] && d.others == []
    ensures Abi.CountsFit(Abi.Tuple(DonFields(d)))
  {
    assert Abi.CountsFit(DonFields(d)[5]);
    FieldsFit(DonFields(d), 6);
  }

  lemma DecodeDonZeros(b: GoBytes)
    requires |b| >= 224 && Abi.WordAt(b, 192) == ZeroWord() && Abi.WordAt(b, 32) == ZeroWord()
    ensures DecodeDon(b) == Done(Don(IntAt(b, 96), []))
  {
    LeadingZeros(ZeroWord(), 32);
    assert IntAt(b, 192) == 0 && IntAt(b, 32) == 0;
    assert WordsAt(b, 64, 0) == [];
  }

  /** The decoder looks at fixed places, as if the outer pointer were 32: in this valid layout it takes the
      configuration count for f. */
  lemma ShiftedDonMisread(b: GoBytes, d: DonTuple)
    requires d.nodeP2PIds == [] && d.others == [] && d.acceptsWorkflows == ZeroWord() && b == ShiftedReply(d)
    ensures Abi.Holds(b, 0, DonReply(d))
    ensures DecodeDon(b) == Done(Don(WordToInt(d.configCount), []))
  {
    SmallTupleFits(d);
    ShiftedHolds(b, d, 64);
    DonReplyParts(b, d);
    DecodeDonZeros(b);
  }

  lemma {:induction false} FieldsFit(vs: seq<Abi.Value>, n: nat)
    requires |vs| == n && forall i | 0 <= i < |vs| :: Abi.CountsFit(vs[i])
    ensures Abi.AllFit(vs)
    decreases n
  {
    if vs != [] {
      FieldsFit(vs[1..], n - 1);
    }
  }

  // ----- Which outer pointers are safe -----

  /** Zeros behind an outer pointer p, with two bytes set: the last byte of the ids pointer of a DONInfo tuple
      at p, which leads to the zero configuration count, and one byte at `spike`. */
  function Spiked(p: nat, spike: nat, length: nat): (b: seq<Byte>)
    requires length >= 32
    ensures |b| == length
  {
    ToBE(p, 32) + seq(length - 32, i requires 0 <= i < length - 32 =>
      if i + 32 == spike then 1 else if i + 32 == p + 191 then 32 else 0)
  }

  lemma SpikedAt(p: nat, spike: nat, length: nat, i: nat)
    requires 32 <= i < length
    ensures Spiked(p, spike, length)[i] == if i == spike then 1 else if i == p + 191 then 32 else 0
  {
  }

  /** A word with a value in its last byte only. */
  lemma LastByteOnly(w: Word)
    requires forall i | 0 <= i < 31 :: w[i] == 0
    ensures FromBE(w) == w[31]
  {
    LeadingZeros(w, 31);
    assert Leading(w, 32) == 256 * Leading(w, 31) + w[31];
  }

  lemma SpikedWord(p: nat, spike: nat, length: nat, off: nat)
    requires 32 <= off && off + 32 <= length
    requires !(off <= spike < off + 31) && !(off <= p + 191 < off + 31)
    ensures Abi.NumAt(Spiked(p, spike, length), off) ==
            if off + 31 == spike then 1 else if off + 31 == p + 191 then 32 else 0
  {
    var b := Spiked(p, spike, length);
    var w := Abi.WordAt(b, off);
    forall i | 0 <= i < 31 ensures w[i] == 0 {
      SpikedAt(p, spike, length, off + i);
      assert w[i] == b[off + i];
    }
    assert w[31] == b[off + 31];
    SpikedAt(p, spike, length, off + 31);
    LastByteOnly(w);
  }

  /** The tuple that stands at p, without node ids. */
  function TupleAt(b: seq<Byte>, p: nat): DonTuple
    requires p + 192 <= |b|
  {
    DonTuple(Abi.WordAt(b, p), Abi.WordAt(b, p + 32), Abi.WordAt(b, p + 64), Abi.WordAt(b, p + 96), Abi.WordAt(b, p + 128), [], [])
  }

  lemma OneMoreWord(b: seq<Byte>, base: nat, pos: nat, w: Word, vs: seq<Abi.Value>)
    requires Abi.At(b, pos, w) && Abi.HoldsAll(b, base, pos + 32, vs)
    ensures Abi.HoldsAll(b, base, pos, [Abi.Static(w)] + vs)
  {
    assert ([Abi.Static(w)] + vs)[1..] == vs;
  }

  predicate WordsStand(b: seq<Byte>, pos: nat, ws: seq<Word>) {
    forall i | 0 <= i < |ws| :: Abi.At(b, pos + 32 * i, ws[i])
  }

  lemma WordsStandTail(b: seq<Byte>, pos: nat, ws: seq<Word>)
    requires ws != [] && WordsStand(b, pos, ws)
    ensures Abi.At(b, pos, ws[0]) && WordsStand(b, pos + 32, ws[1..])
  {
    assert Abi.At(b, pos + 32 * 0, ws[0]);
    forall i | 0 <= i < |ws[1..]| ensures Abi.At(b, pos + 32 + 32 * i, ws[1..][i]) {
      assert Abi.At(b, pos + 32 * (i + 1), ws[i + 1]);
    }
  }

  lemma StaticsCons(ws: seq<Word>, ids: Abi.Value)
    requires ws != []
    ensures Abi.Statics(ws) + [ids] == [Abi.Static(ws[0])] + (Abi.Statics(ws[1..]) + [ids])
  {
  }

  lemma {:induction false} StaticsThenIds(b: seq<Byte>, base: nat, pos: nat, ws: seq<Word>, ids: Abi.Value)
    requires pos + 32 * |ws| + 32 <= |b| && WordsStand(b, pos, ws)
    requires Abi.IsDynamic(ids) && Abi.Holds(b, base + Abi.NumAt(b, pos + 32 * |ws|), ids)
    ensures Abi.HoldsAll(b, base, pos, Abi.Statics(ws) + [ids])
    decreases |ws|
  {
    if ws == [] {
      assert [ids][1..] == [];
      assert Abi.Statics(ws) + [ids] == [ids];
    } else {
      WordsStandTail(b, pos, ws);
      StaticsThenIds(b, base, pos + 32, ws[1..], ids);
      OneMoreWord(b, base, pos, ws[0], Abi.Statics(ws[1..]) + [ids]);
      StaticsCons(ws, ids);
    }
  }

  /** A tuple whose ids pointer leads to a zero word is laid out without node ids. */
  lemma TupleAtHolds(b: seq<Byte>, p: nat)
    requires p + 192 <= |b| && p + Abi.NumAt(b, p + 160) + 32 <= |b|
    requires Abi.NumAt(b, p + Abi.NumAt(b, p + 160)) == 0
    ensures Abi.HoldsAll(b, p, p, DonFields(TupleAt(b, p)))
  {
    var d := TupleAt(b, p);
    var ws := [d.id, d.configCount, d.f, d.isPublic, d.acceptsWorkflows];
    var ids := Abi.Array(Abi.Statics(d.nodeP2PIds));
    assert Abi.Statics(d.nodeP2PIds) == [];
    StaticsThenIds(b, p, p, ws, ids);
    assert DonFields(d) == Abi.Statics(ws) + [ids];
  }

  lemma ReplyAtHolds(b: seq<Byte>, p: nat, d: DonTuple)
    requires |b| >= 32 && Abi.NumAt(b, 0) == p && Abi.HoldsAll(b, p, p, DonFields(d))
    ensures Abi.Holds(b, 0, DonReply(d))
  {
    assert Abi.IsDynamic(DonFields(d)[5]);
    HoldsOnly(b, Abi.Tuple(DonFields(d)));
  }

  lemma SpikedHead(b: GoBytes, p: nat, spike: nat)
    requires p + 192 <= |b| && b == Spiked(p, spike, |b|)
    ensures Abi.NumAt(b, 0) == p
  {
    assert b[0..32] == ToBE(p, 32);
    Abi.NumWritten(b, 0, p);
  }

  lemma SpikedTuple(b: GoBytes, p: nat, spike: nat)
    requires p + 192 <= |b| && b == Spiked(p, spike, |b|) && p + 64 <= spike < p + 160
    ensures Abi.HoldsAll(b, p, p, DonFields(TupleAt(b, p)))
  {
    SpikedWord(p, spike, |b|, p + 160);
    SpikedWord(p, spike, |b|, p + 32);
    TupleAtHolds(b, p);
  }

  /** The spiked bytes are a valid layout with outer pointer p. */
  lemma SpikedHolds(b: GoBytes, p: nat, spike: nat)
    requires p + 192 <= |b| && b == Spiked(p, spike, |b|) && p + 64 <= spike < p + 160
    ensures Abi.NumAt(b, 0) == p && Abi.Holds(b, 0, DonReply(TupleAt(b, p)))
  {
    SpikedHead(b, p, spike);
    SpikedTuple(b, p, spike);
    ReplyAtHolds(b, p, TupleAt(b, p));
  }

  lemma DonTakesF(b: GoBytes)
    requires DecodeDon(b).Done?
    ensures |b| >= 224 && DecodeDon(b).value.f == IntAt(b, 96)
  {
  }

  /** Behind every outer pointer other than 32 some tuple is misread: its f is not the word at byte 96. */
  lemma OtherPointerMisread(p: nat) returns (b: GoBytes, d: DonTuple)
    requires p != 32 && p + 192 <= MAX_ALLOC
    ensures |b| >= 224 && Abi.NumAt(b, 0) == p && Abi.Holds(b, 0, DonReply(d))
    ensures DecodeDon(b) != Done(Don(WordToInt(d.f), d.nodeP2PIds))
  {
    var spike, length := 127, p + 224;
    if p > 32 {
      spike, length := p + 95, p + 192;
    }
    b := Spiked(p, spike, length);
    d := TupleAt(b, p);
    SpikedHolds(b, p, spike);
    SpikedWord(p, spike, length, p + 64);
    SpikedWord(p, spike, length, 96);
    assert WordToInt(d.f) != IntAt(b, 96);
    if DecodeDon(b).Done? {
      DonTakesF(b);
    }
  }

  /** Every layout with outer pointer p decodes to its f and its ids. */
  ghost predicate SafePointer(p: nat) {
    forall b: GoBytes, d | |b| >= 32 && Abi.NumAt(b, 0) == p && Abi.Holds(b, 0, DonReply(d)) ::
      DecodeDon(b) == Done(Don(WordToInt(d.f), d.nodeP2PIds))
  }

  /** Of all outer pointers that leave room for a tuple in any reply, exactly 32 is safe. */
  lemma OnlyPointer32IsSafe(p: nat)
    ensures SafePointer(p) <==> p == 32 || p + 192 > MAX_ALLOC
  {
    if p == 32 || p + 192 > MAX_ALLOC {
      forall b: GoBytes, d | |b| >= 32 && Abi.NumAt(b, 0) == p && Abi.Holds(b, 0, DonReply(d))
        ensures DecodeDon(b) == Done(Don(WordToInt(d.f), d.nodeP2PIds))
      {
        DonReplyParts(b, d);
        DecodeDonCorrect(b, d);
      }
    } else {
      var b, d := OtherPointerMisread(p);
    }
  }

  // ----- The call data -----

  /** padUint256: a 64-bit number as a big-endian word. */
  function PadUint256(v: nat): seq<Byte> { seq(24, _ => 0) + ToBE(v, 8) }

  lemma PadUint256IsWord(v: nat)
    requires v < TWO_64
    ensures PadUint256(v) == ToBE(v, 32)
  {
    assert Pow256(8) == TWO_64;
    ToBELeadingZeros(v, 8, 24);
  }

  /** Appending ids one by one. */
  method AppendWords(buffer: seq<Byte>, ids: seq<Word>) returns (r: seq<Byte>)
    ensures r == buffer + Abi.Concat(ids)
  {
    r := buffer;
    for i := 0 to |ids|
      invariant r == buffer + Abi.Concat(ids[..i])
    {
      ConcatSnoc(ids[..i], ids[i]);
      ConcatAssociates(buffer, Abi.Concat(ids[..i]), ids[i]);
      assert ids[..i + 1] == ids[..i] + [ids[i]];
      r := r + ids[i];
    }
    assert ids[..|ids|] == ids;
  }

  /** The data of the second call: the selector of getNodesByP2PIds and the ABI encoding of the ids. */
  method EncodeNodesCall(ids: seq<Word>) returns (data: seq<Byte>)
    requires |ids| < TWO_63
    ensures data == [0x05, 0xa5, 0x19, 0x66] + Abi.Enc(Abi.Tuple([Abi.Array(Abi.Statics(ids))]))
  {
    var p2pIdsABI := PadUint256(32);
    p2pIdsABI := p2pIdsABI + PadUint256(|ids|);
    p2pIdsABI := AppendWords(p2pIdsABI, ids);
    EncIds(ids);
    data := [0x05, 0xa5, 0x19, 0x66] + p2pIdsABI;
  }

  lemma {:induction false} ConcatSnoc(ws: seq<Word>, w: Word)
    ensures Abi.Concat(ws + [w]) == Abi.Concat(ws) + w
  {
    if ws != [] {
      ConcatSnoc(ws[1..], w);
      assert (ws + [w])[1..] == ws[1..] + [w];
    } else {
      assert [w][1..] == [];
    }
  }

  lemma EncIds(ids: seq<Word>)
    requires |ids| < TWO_63
    ensures Abi.Enc(Abi.Tuple([Abi.Array(Abi.Statics(ids))])) == PadUint256(32) + PadUint256(|ids|) + Abi.Concat(ids)
  {
    PadUint256IsWord(32);
    PadUint256IsWord(|ids|);
    EncIdArray(ids);
    EncOnlyDynamic(Abi.Array(Abi.Statics(ids)));
    ConcatAssociates(PadUint256(32), PadUint256(|ids|), Abi.Concat(ids));
  }

  lemma ConcatAssociates(x: seq<Byte>, y: seq<Byte>, z: seq<Byte>)
    ensures x + (y + z) == x + y + z
  {
  }

  lemma EncIdArray(ids: seq<Word>)
    ensures Abi.Enc(Abi.Array(Abi.Statics(ids))) == ToBE(|ids|, 32) + Abi.Concat(ids)
  {
    var vs := Abi.Statics(ids);
    Abi.EncStatics(ids, Abi.HeadSizes(vs));
    assert Abi.EncTuple(vs) == Abi.Concat(ids) + [];
  }

  lemma OneDynamic(v: Abi.Value, off: nat)
    requires Abi.IsDynamic(v)
    ensures Abi.HeadSizes([v]) == 32 && Abi.Heads([v], off) == ToBE(off, 32) && Abi.Tails([v]) == Abi.Enc(v)
  {
    var vs := [v];
    assert vs[1..] == [];
    assert Abi.Heads(vs, off) == ToBE(off, 32) + Abi.Heads([], off + |Abi.Enc(v)|) == ToBE(off, 32);
    assert Abi.Tails(vs) == Abi.Enc(v) + [] == Abi.Enc(v);
  }

  /** A tuple of one dynamic value: the pointer 32, then the value. */
  lemma EncOnlyDynamic(v: Abi.Value)
    requires Abi.IsDynamic(v)
    ensures Abi.Enc(Abi.Tuple([v])) == ToBE(32, 32) + Abi.Enc(v)
  {
    OneDynamic(v, 32);
  }

  /** The data of the first call. */
  function GetDonCall(donID: nat): seq<Byte> {
    [0x23, 0x53, 0x74, 0x05] + seq(28, _ => 0) + ToBE(donID, 4)
  }

  lemma {:induction false} ToBELeadingZeros(v: nat, n: nat, m: nat)
    requires v < Pow256(n)
    ensures ToBE(v, n + m) == seq(m, _ => 0) + ToBE(v, n)
    decreases n
  {
    if n == 0 {
      ToBEZero(m);
    } else {
      ToBELeadingZeros(v / 256, n - 1, m);
    }
  }

  lemma {:induction false} ToBEZero(m: nat)
    ensures ToBE(0, m) == seq(m, _ => 0)
  {
    if m > 0 {
      ToBEZero(m - 1);
    }
  }

  /** It is the selector and the ABI encoding of the DON id. */
  lemma GetDonCallEncodes(donID: nat)
    requires donID < 0x1_0000_0000
    ensures GetDonCall(donID) == [0x23, 0x53, 0x74, 0x05] + Abi.Enc(Abi.Tuple([Abi.Static(ToBE(donID, 32))]))
  {
    assert Pow256(4) == 0x1_0000_0000;
    ToBELeadingZeros(donID, 4, 28);
    var vs := [Abi.Static(ToBE(donID, 32))];
    assert vs[1..] == [];
    assert Abi.HeadSizes(vs) == 32;
    assert Abi.Enc(Abi.Tuple(vs)) == Abi.EncTuple(vs) == Abi.Heads(vs, 32) + Abi.Tails(vs);
    assert Abi.Heads(vs, 32) == ToBE(donID, 32) + [];
    assert Abi.Tails(vs) == [] + [];
  }
}
