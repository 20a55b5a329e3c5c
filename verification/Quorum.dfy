/** The f+1 signature quorum (verifySigs in cre/report_verification.go). */
module Quorum {
  import opened Wrappers
  import opened Bytes

  /** Hashing and signer recovery are library cryptography: two functions about which nothing is assumed. */
  datatype Crypto = Crypto(
    keccak: seq<Byte> -> seq<Byte>,
    recover: (seq<Byte>, seq<Byte>) -> Option<Address>)

  class AttributedSignature {
    const signature: seq<Byte>
    var signerId: nat

    constructor (signature: seq<Byte>)
      ensures this.signature == signature && signerId == 0
    {
      this.signature, signerId := signature, 0;
    }
  }

  /** The response that carries a report: `None` is a nil raw report. */
  class ReportResponse {
    const rawReport: Option<seq<Byte>>
    const reportContext: seq<Byte>
    const configDigest: seq<Byte>
    const seqNr: nat
    var sigs: seq<AttributedSignature>

    constructor (rawReport: Option<seq<Byte>>, reportContext: seq<Byte>, configDigest: seq<Byte>, seqNr: nat,
                 sigs: seq<AttributedSignature>)
      ensures this.rawReport == rawReport && this.reportContext == reportContext
      ensures this.configDigest == configDigest && this.seqNr == seqNr && this.sigs == sigs
    {
      this.rawReport, this.reportContext, this.configDigest, this.seqNr, this.sigs :=
        rawReport, reportContext, configDigest, seqNr, sigs;
    }

    function Hash(c: Crypto): seq<Byte> {
      c.keccak(c.keccak(if rawReport.Some? then rawReport.value else []) + reportContext)
    }
  }

  // ----- What one signature recovers to -----

  datatype SkipReason = ParseSignature | RecoverSigner | DuplicateSigner | UnknownSigner

  /** A skipped entry of the list. */
  datatype Skip = Skip(index: nat, reason: SkipReason)

  type Recovery = Result<Address, SkipReason>

  /** Legacy Ethereum v values 27 and 28 count as 0 and 1. */
  function Normalise(sig: seq<Byte>): seq<Byte>
    requires |sig| == 65
  {
    if sig[64] == 27 || sig[64] == 28 then sig[64 := sig[64] - 27] else sig
  }

  function Recover(c: Crypto, hash: seq<Byte>, sig: seq<Byte>): Recovery {
    if |sig| != 65 then Err(ParseSignature)
    else match c.recover(hash, Normalise(sig))
      case None => Err(RecoverSigner)
      case Some(a) => Ok(a)
  }

  function Recoveries(c: Crypto, hash: seq<Byte>, sigs: seq<AttributedSignature>): (rs: seq<Recovery>)
    ensures |rs| == |sigs|
  {
    seq(|sigs|, i requires 0 <= i < |sigs| => Recover(c, hash, sigs[i].signature))
  }

  // ----- The greedy choice -----

  /** Entry i is the first one that recovers to its signer, and the signer is authorised. */
  predicate First(rs: seq<Recovery>, auth: Signers, i: nat)
    requires i < |rs|
  {
    rs[i].Ok? && rs[i].value in auth && rs[i] !in rs[..i]
  }

  /** The first occurrences among the first n entries, in order. */
  function Firsts(rs: seq<Recovery>, auth: Signers, n: nat): (ks: seq<nat>)
    requires n <= |rs|
    ensures forall j | 0 <= j < |ks| :: ks[j] < n && First(rs, auth, ks[j])
  {
    if n == 0 then [] else Firsts(rs, auth, n - 1) + if First(rs, auth, n - 1) then [n - 1] else []
  }

  function Reason(rs: seq<Recovery>, auth: Signers, i: nat): SkipReason
    requires i < |rs|
  {
    if rs[i].Err? then rs[i].error else if rs[i] in rs[..i] then DuplicateSigner else UnknownSigner
  }

  function Skips(rs: seq<Recovery>, auth: Signers, n: nat): seq<Skip>
    requires n <= |rs|
  {
    if n == 0 then []
    else Skips(rs, auth, n - 1) + if First(rs, auth, n - 1) then [] else [Skip(n - 1, Reason(rs, auth, n - 1))]
  }

  /** The last error of the code, for no skip at all and still too few, is `TooFewValid`. */
  datatype QuorumError = WrongSignatureCount | Skipped(reasons: seq<Skip>) | TooFewValid

  /** How many signatures are asked for; f + 1 wraps around like any Go int. */
  function Required(f: Int64): Int64 { Wrap64(f + 1) }

  function Verdict(rs: seq<Recovery>, auth: Signers, f: Int64): Outcome<(), QuorumError> {
    if |rs| < Required(f) then Failed(WrongSignatureCount)
    else if Required(f) < 0 then Panicked // a negative capacity
    else if |Firsts(rs, auth, |rs|)| < Required(f) then Failed(Skipped(Skips(rs, auth, |rs|)))
    else Done(())
  }

  /** The entries whose SignerId is written: the first `Required` first occurrences, also when they are too few. */
  function Chosen(rs: seq<Recovery>, auth: Signers, f: Int64): (ks: seq<nat>)
    ensures forall j | 0 <= j < |ks| :: ks[j] < |rs| && First(rs, auth, ks[j])
  {
    var ks := Firsts(rs, auth, |rs|);
    if |rs| < Required(f) || Required(f) < 0 then []
    else if |ks| < Required(f) then ks else ks[..Required(f)]
  }

  predicate Indices(ks: seq<nat>, n: nat) {
    forall j | 0 <= j < |ks| :: ks[j] < n
  }

  function Pick<T>(s: seq<T>, ks: seq<nat>): seq<T>
    requires Indices(ks, |s|)
  {
    seq(|ks|, j requires 0 <= j < |ks| => s[ks[j]])
  }

  lemma PickAppend<T>(s: seq<T>, ks: seq<nat>, k: nat)
    requires Indices(ks, |s|) && k < |s|
    ensures Indices(ks + [k], |s|) && Pick(s, ks + [k]) == Pick(s, ks) + [s[k]]
  {
  }

  lemma {:induction false} FirstsPrefix(rs: seq<Recovery>, auth: Signers, i: nat, n: nat)
    requires i <= n <= |rs|
    ensures Firsts(rs, auth, i) <= Firsts(rs, auth, n)
  {
    if i < n {
      FirstsPrefix(rs, auth, i, n - 1);
    }
  }

  /** The first occurrences are listed completely and in order; the others are skipped. */
  lemma {:induction false} FirstsMembers(rs: seq<Recovery>, auth: Signers, n: nat)
    requires n <= |rs|
    ensures forall a, b | 0 <= a < b < |Firsts(rs, auth, n)| :: Firsts(rs, auth, n)[a] < Firsts(rs, auth, n)[b]
    ensures |Firsts(rs, auth, n)| + |Skips(rs, auth, n)| == n
  {
    if n > 0 {
      FirstsMembers(rs, auth, n - 1);
    }
  }

  lemma {:induction false} FirstsComplete(rs: seq<Recovery>, auth: Signers, n: nat, k: nat) returns (j: nat)
    requires k < n <= |rs| && First(rs, auth, k)
    ensures j < |Firsts(rs, auth, n)| && Firsts(rs, auth, n)[j] == k
  {
    if k == n - 1 {
      j := |Firsts(rs, auth, n)| - 1;
    } else {
      j := FirstsComplete(rs, auth, n - 1, k);
    }
  }

  /** SignerIds are written on exactly the chosen objects. */
  twostate predicate SignerIdsWritten(sigs: seq<AttributedSignature>, rs: seq<Recovery>, auth: Signers, ks: seq<nat>)
    requires |rs| == |sigs| && Indices(ks, |rs|)
    requires forall j | 0 <= j < |ks| :: rs[ks[j]].Ok? && rs[ks[j]].value in auth
    reads sigs
  {
    && (forall j | 0 <= j < |ks| :: sigs[ks[j]].signerId == auth[rs[ks[j]].value])
    && (forall s | s in sigs && s !in Pick(sigs, ks) :: s.signerId == old(s.signerId))
  }

  /** The signers recovered from the first n entries. */
  function Seen(rs: seq<Recovery>, n: nat): set<Address>
    requires n <= |rs|
  {
    if n == 0 then {} else Seen(rs, n - 1) + if rs[n - 1].Ok? then {rs[n - 1].value} else {}
  }

  lemma {:induction false} SeenMembers(rs: seq<Recovery>, n: nat, r: Recovery)
    requires n <= |rs|
    ensures r.Ok? ==> (r.value in Seen(rs, n) <==> r in rs[..n])
  {
    if n > 0 {
      SeenMembers(rs, n - 1, r);
      assert rs[..n] == rs[..n - 1] + [rs[n - 1]];
    }
  }

  /** The loop of verifySigs: stops as soon as `required` signatures are accepted. */
  method AcceptSigs(c: Crypto, hash: seq<Byte>, sigs: seq<AttributedSignature>, required: nat, auth: Signers)
    returns (accepted: seq<AttributedSignature>, skipErrs: seq<Skip>, ghost i: nat)
    modifies sigs`signerId
    ensures var rs := Recoveries(c, hash, sigs);
            && i <= |sigs| && |accepted| <= required && (|accepted| < required ==> i == |sigs|)
            && accepted == Pick(sigs, Firsts(rs, auth, i))
            && skipErrs == Skips(rs, auth, i)
            && SignerIdsWritten(sigs, rs, auth, Firsts(rs, auth, i))
  {
    ghost var rs := Recoveries(c, hash, sigs);
    var seen: set<Address> := {};
    accepted, skipErrs, i := [], [], 0;
    for k := 0 to |sigs|
      invariant i == k && |accepted| <= required
      invariant seen == Seen(rs, k)
      invariant accepted == Pick(sigs, Firsts(rs, auth, k))
      invariant skipErrs == Skips(rs, auth, k)
      invariant SignerIdsWritten(sigs, rs, auth, Firsts(rs, auth, k))
    {
      if |accepted| == required {
        break;
      }
      i := k + 1;
      var attrSig := sigs[k];
      var judged;
      judged, seen := Judge(c, hash, attrSig.signature, seen, auth, rs, k);
      match judged {
        case Err(reason) => skipErrs := skipErrs + [Skip(k, reason)];
        case Ok(id) =>
          ghost var before := Firsts(rs, auth, k);
          NewObject(c, hash, sigs, rs, auth, before, k);
          PickAppend(sigs, before, k);
          attrSig.signerId := id;
          accepted := accepted + [attrSig];
      }
    }
  }

  lemma NewObject(c: Crypto, hash: seq<Byte>, sigs: seq<AttributedSignature>, rs: seq<Recovery>, auth: Signers, ks: seq<nat>, k: nat)
    requires rs == Recoveries(c, hash, sigs) && k < |rs| && First(rs, auth, k) && Indices(ks, k)
    ensures forall j | 0 <= j < |ks| :: sigs[ks[j]] != sigs[k]
  {
    forall j | 0 <= j < |ks| ensures sigs[ks[j]] != sigs[k] {
      FirstsDiffer(rs, auth, ks[j], k);
    }
  }

  lemma FirstsDiffer(rs: seq<Recovery>, auth: Signers, a: nat, b: nat)
    requires a < b < |rs| && First(rs, auth, b)
    ensures rs[a] != rs[b]
  {
    assert rs[..b][a] == rs[a];
  }

  /** What the loop makes of entry k: the node operator's id of a first authorised signer, or a reason to skip. */
  method Judge(c: Crypto, hash: seq<Byte>, signature: seq<Byte>, seen: set<Address>, auth: Signers,
               ghost rs: seq<Recovery>, ghost k: nat)
    returns (judged: Result<nat, SkipReason>, seenNow: set<Address>)
    requires k < |rs| && rs[k] == Recover(c, hash, signature) && seen == Seen(rs, k)
    ensures judged == if First(rs, auth, k) then Ok(auth[rs[k].value]) else Err(Reason(rs, auth, k))
    ensures seenNow == Seen(rs, k + 1)
  {
    SeenMembers(rs, k, rs[k]);
    seenNow := seen;
    match Recover(c, hash, signature) {
      case Err(e) => judged := Err(e);
      case Ok(signer) =>
        if signer in seen {
          judged := Err(DuplicateSigner);
        } else {
          seenNow := seen + {signer};
          judged := if signer in auth then Ok(auth[signer]) else Err(UnknownSigner);
        }
    }
  }

  /** verifySigs: checks the quorum, and on success trims the list to the accepted signatures. */
  method VerifySigs(c: Crypto, report: ReportResponse, f: Int64, auth: Signers) returns (r: Outcome<(), QuorumError>)
    modifies report`sigs, report.sigs`signerId
    ensures r.Done? <==> 0 <= Required(f) <= |SigningSigners(c, DigestOf(c, report.rawReport, report.reportContext), old(report.sigs), auth)|
    ensures var rs := Recoveries(c, report.Hash(c), old(report.sigs));
            && r == Verdict(rs, auth, f)
            && report.sigs == (if r.Done? then Pick(old(report.sigs), Chosen(rs, auth, f)) else old(report.sigs))
            && SignerIdsWritten(old(report.sigs), rs, auth, Chosen(rs, auth, f))
  {
    var required := Required(f);
    var sigs := report.sigs;
    QuorumOfSignatures(c, report.Hash(c), sigs, auth, f);
    if |sigs| < required {
      return Failed(WrongSignatureCount);
    }
    if required < 0 {
      return Panicked;
    }
    ghost var rs := Recoveries(c, report.Hash(c), sigs);
    var accepted, skipErrs, i := AcceptSigs(c, report.Hash(c), sigs, required, auth);
    FirstsPrefix(rs, auth, i, |rs|);
    FirstsMembers(rs, auth, |rs|);
    assert Chosen(rs, auth, f) == Firsts(rs, auth, i);
    if |accepted| < required {
      r := Failed(if |skipErrs| > 0 then Skipped(skipErrs) else TooFewValid);
    } else {
      report.sigs := accepted;
      r := Done(());
    }
  }

  // ----- What the quorum decides -----

  /** The authorised signers that some signature of the list recovers to. */
  function AuthorisedSigners(rs: seq<Recovery>, auth: Signers): set<Address> {
    set a | a in auth && Ok(a) in rs
  }

  lemma {:induction false} FirstsCount(rs: seq<Recovery>, auth: Signers, n: nat)
    requires n <= |rs|
    ensures |Firsts(rs, auth, n)| == |AuthorisedSigners(rs[..n], auth)|
  {
    if n > 0 {
      FirstsCount(rs, auth, n - 1);
      assert rs[..n] == rs[..n - 1] + [rs[n - 1]];
      if First(rs, auth, n - 1) {
        assert AuthorisedSigners(rs[..n], auth) == AuthorisedSigners(rs[..n - 1], auth) + {rs[n - 1].value};
      } else {
        assert AuthorisedSigners(rs[..n], auth) == AuthorisedSigners(rs[..n - 1], auth);
      }
    }
  }

  /** The verdict in full, for every f: success exactly when f + 1 is not negative and the distinct
      authorised signers are at least f + 1; a panic exactly when f + 1 is negative. */
  lemma QuorumIff(rs: seq<Recovery>, auth: Signers, f: Int64)
    ensures Verdict(rs, auth, f).Done? <==> 0 <= Required(f) <= |AuthorisedSigners(rs, auth)|
    ensures Verdict(rs, auth, f).Panicked? <==> Required(f) < 0
    ensures 0 <= f < TWO_63 - 1 ==> (Verdict(rs, auth, f).Done? <==> |AuthorisedSigners(rs, auth)| >= f + 1)
  {
    FirstsCount(rs, auth, |rs|);
    FirstsMembers(rs, auth, |rs|);
    assert rs[..|rs|] == rs;
  }

  /** The verdict does not depend on the order of the signatures, and more signatures never hurt. */
  lemma QuorumMonotone(rs: seq<Recovery>, more: seq<Recovery>, auth: Signers, f: Int64)
    requires forall x | x in rs :: x in more
    ensures Verdict(rs, auth, f).Done? ==> Verdict(more, auth, f).Done?
    ensures multiset(rs) == multiset(more) ==> Verdict(rs, auth, f).Done? == Verdict(more, auth, f).Done?
  {
    QuorumIff(rs, auth, f);
    QuorumIff(more, auth, f);
    SubsetCardinality(AuthorisedSigners(rs, auth), AuthorisedSigners(more, auth));
    if multiset(rs) == multiset(more) {
      forall x | x in more ensures x in rs {
        assert x in multiset(more);
      }
      assert AuthorisedSigners(rs, auth) == AuthorisedSigners(more, auth);
    }
  }

  lemma {:induction false} SubsetCardinality<T>(a: set<T>, b: set<T>)
    requires a <= b
    ensures |a| <= |b|
  {
    if a != {} {
      var x :| x in a;
      SubsetCardinality(a - {x}, b - {x});
    }
  }

  /** The kept list: f + 1 entries in list order, each the first of its signer, all signers authorised and
      distinct; no first occurrence before the last kept one is left out. */
  lemma KeptAreFirst(rs: seq<Recovery>, auth: Signers, f: Int64)
    requires Verdict(rs, auth, f).Done?
    ensures var ks := Chosen(rs, auth, f);
            && |ks| == Required(f)
            && (forall a, b | 0 <= a < b < |ks| :: ks[a] < ks[b] && rs[ks[a]] != rs[ks[b]])
            && (forall a | 0 <= a < |ks| :: rs[ks[a]].Ok? && rs[ks[a]].value in auth && rs[ks[a]] !in rs[..ks[a]])
            && (forall k | 0 <= k < |rs| && First(rs, auth, k) && |ks| > 0 && k <= ks[|ks| - 1] :: k in ks)
  {
    var ks := Chosen(rs, auth, f);
    FirstsMembers(rs, auth, |rs|);
    forall a, b | 0 <= a < b < |ks| ensures ks[a] < ks[b] && rs[ks[a]] != rs[ks[b]] {
      FirstsDiffer(rs, auth, ks[a], ks[b]);
    }
    forall k | 0 <= k < |rs| && First(rs, auth, k) && |ks| > 0 && k <= ks[|ks| - 1] ensures k in ks {
      var j := FirstsComplete(rs, auth, |rs|, k);
      assert j < |ks|;
    }
  }

  lemma {:induction false} FaultyCoverTooSmall(rs: seq<Recovery>, ks: seq<nat>, faulty: set<Address>)
    requires Indices(ks, |rs|) && (forall a | 0 <= a < |ks| :: rs[ks[a]].Ok? && rs[ks[a]].value in faulty)
    requires forall a, b | 0 <= a < b < |ks| :: rs[ks[a]] != rs[ks[b]]
    ensures |ks| <= |faulty|
    decreases |ks|
  {
    if ks != [] {
      var last := |ks| - 1;
      FaultyCoverTooSmall(rs, ks[..last], faulty - {rs[ks[last]].value});
    }
  }

  /** Among the kept signers at least one lies outside any set of at most f signers. */
  lemma CorrectSignerKept(rs: seq<Recovery>, auth: Signers, f: Int64, faulty: set<Address>) returns (a: nat)
    requires 0 <= f < TWO_63 - 1 && Verdict(rs, auth, f).Done? && |faulty| <= f
    ensures var ks := Chosen(rs, auth, f);
            a < |ks| && rs[ks[a]].Ok? && rs[ks[a]].value in auth && rs[ks[a]].value !in faulty
  {
    var ks := Chosen(rs, auth, f);
    KeptAreFirst(rs, auth, f);
    if forall b | 0 <= b < |ks| :: rs[ks[b]].value in faulty {
      FaultyCoverTooSmall(rs, ks, faulty);
    }
    a :| 0 <= a < |ks| && rs[ks[a]].value !in faulty;
  }

  lemma {:induction false} FirstsOfDistinct(rs: seq<Recovery>, auth: Signers, n: nat)
    requires n <= |rs|
    requires forall i | 0 <= i < |rs| :: rs[i].Ok? && rs[i].value in auth
    requires forall i, j | 0 <= i < j < |rs| :: rs[i] != rs[j]
    ensures Firsts(rs, auth, n) == seq(n, i => i)
  {
    if n > 0 {
      FirstsOfDistinct(rs, auth, n - 1);
      assert First(rs, auth, n - 1);
    }
  }

  /** Verifying the trimmed list again with the same f and signers succeeds and keeps every entry. */
  lemma VerifyAgain(rs: seq<Recovery>, auth: Signers, f: Int64)
    requires Verdict(rs, auth, f).Done?
    ensures var kept := Pick(rs, Chosen(rs, auth, f));
            Verdict(kept, auth, f).Done? && Chosen(kept, auth, f) == seq(|kept|, i => i)
            && Pick(kept, Chosen(kept, auth, f)) == kept
  {
    var kept := Pick(rs, Chosen(rs, auth, f));
    KeptAreFirst(rs, auth, f);
    FirstsOfDistinct(kept, auth, |kept|);
    assert seq(|kept|, i => i)[..|kept|] == seq(|kept|, i => i);
  }

  /** On a failure by skips, the skipped entries and the accepted ones together are the whole list. */
  lemma SkipsAccountForAll(rs: seq<Recovery>, auth: Signers, f: Int64)
    requires Verdict(rs, auth, f).Failed? && Verdict(rs, auth, f).error.Skipped?
    ensures |Verdict(rs, auth, f).error.reasons| + |Chosen(rs, auth, f)| == |rs|
    ensures Verdict(rs, auth, f).error.reasons != [] && |AuthorisedSigners(rs, auth)| == |Chosen(rs, auth, f)| <= f
  {
    FirstsMembers(rs, auth, |rs|);
    FirstsCount(rs, auth, |rs|);
    assert rs[..|rs|] == rs;
  }

  // ----- What an entry stands for -----

  /** The digest that is signed: the hash of the raw report's hash followed by the context; a nil report counts as empty. */
  function DigestOf(c: Crypto, rawReport: Option<seq<Byte>>, context: seq<Byte>): seq<Byte> {
    match rawReport
    case None => c.keccak(c.keccak([]) + context)
    case Some(raw) => c.keccak(c.keccak(raw) + context)
  }

  /** The recovery byte that a last byte means: Ethereum writes 27 and 28 for 0 and 1. */
  predicate MeansV(last: Byte, v: Byte) {
    (last == 27 && v == 0) || (last == 28 && v == 1) || (last != 27 && last != 28 && v == last)
  }

  /** The signature is by `a`: 65 bytes from which, with the recovery byte in place, `a` is recovered. */
  predicate Signs(c: Crypto, digest: seq<Byte>, sig: seq<Byte>, a: Address) {
    |sig| == 65 && exists v: Byte :: MeansV(sig[64], v) && c.recover(digest, sig[..64] + [v]) == Some(a)
  }

  lemma NormaliseMeansV(sig: seq<Byte>, v: Byte)
    requires |sig| == 65 && MeansV(sig[64], v)
    ensures Normalise(sig) == sig[..64] + [v]
  {
    assert sig == sig[..64] + [sig[64]];
  }

  lemma MeantV(last: Byte) returns (v: Byte)
    ensures MeansV(last, v)
  {
    v := if last == 27 then 0 else if last == 28 then 1 else last;
  }

  /** What an entry recovers to: its signer; or it is unparsable for its length, or nothing is recovered from it. */
  lemma RecoverIff(c: Crypto, digest: seq<Byte>, sig: seq<Byte>)
    ensures forall a :: Recover(c, digest, sig) == Ok(a) <==> Signs(c, digest, sig, a)
    ensures Recover(c, digest, sig) == Err(ParseSignature) <==> |sig| != 65
    ensures Recover(c, digest, sig) == Err(RecoverSigner) <==> |sig| == 65 && forall a :: !Signs(c, digest, sig, a)
  {
    if |sig| == 65 {
      var v := MeantV(sig[64]);
      NormaliseMeansV(sig, v);
      forall a ensures Recover(c, digest, sig) == Ok(a) <==> Signs(c, digest, sig, a) {
        if Recover(c, digest, sig) == Ok(a) {
          assert MeansV(sig[64], v) && c.recover(digest, sig[..64] + [v]) == Some(a);
        }
        if Signs(c, digest, sig, a) {
          var u: Byte :| MeansV(sig[64], u) && c.recover(digest, sig[..64] + [u]) == Some(a);
          NormaliseMeansV(sig, u);
        }
      }
      if Recover(c, digest, sig).Ok? {
        assert Signs(c, digest, sig, Recover(c, digest, sig).value);
      }
    }
  }

  /** The digest of the code is that one. */
  lemma HashIsDigest(c: Crypto, report: ReportResponse)
    ensures report.Hash(c) == DigestOf(c, report.rawReport, report.reportContext)
  {
  }

  /** The authorised signers that some signature of the list is by. */
  ghost function SigningSigners(c: Crypto, digest: seq<Byte>, sigs: seq<AttributedSignature>, auth: Signers): set<Address> {
    set a | a in auth && SignsSome(c, digest, sigs, a)
  }

  ghost predicate SignsSome(c: Crypto, digest: seq<Byte>, sigs: seq<AttributedSignature>, a: Address) {
    exists i :: 0 <= i < |sigs| && Signs(c, digest, sigs[i].signature, a)
  }

  lemma SigningIsAuthorised(c: Crypto, digest: seq<Byte>, sigs: seq<AttributedSignature>, auth: Signers)
    ensures SigningSigners(c, digest, sigs, auth) == AuthorisedSigners(Recoveries(c, digest, sigs), auth)
  {
    var rs := Recoveries(c, digest, sigs);
    forall a: Address ensures SignsSome(c, digest, sigs, a) <==> Ok(a) in rs {
      if SignsSome(c, digest, sigs, a) {
        var i :| 0 <= i < |sigs| && Signs(c, digest, sigs[i].signature, a);
        RecoverIff(c, digest, sigs[i].signature);
        assert rs[i] == Ok(a);
      }
      if Ok(a) in rs {
        var i :| 0 <= i < |rs| && rs[i] == Ok(a);
        RecoverIff(c, digest, sigs[i].signature);
        assert Signs(c, digest, sigs[i].signature, a);
      }
    }
  }

  /** The verdict by the signatures themselves: success exactly when f + 1 is not negative and at least f + 1
      authorised signers have signed the digest. */
  lemma QuorumOfSignatures(c: Crypto, digest: seq<Byte>, sigs: seq<AttributedSignature>, auth: Signers, f: Int64)
    ensures Verdict(Recoveries(c, digest, sigs), auth, f).Done? <==> 0 <= Required(f) <= |SigningSigners(c, digest, sigs, auth)|
  {
    QuorumIff(Recoveries(c, digest, sigs), auth, f);
    SigningIsAuthorised(c, digest, sigs, auth);
  }

  /** The same signature up to how its recovery byte is written. */
  predicate SameUpToV(s: seq<Byte>, t: seq<Byte>) {
    s == t ||
    (|s| == |t| == 65 && s[..64] == t[..64]
     && ((s[64] == 27 && t[64] == 0) || (s[64] == 0 && t[64] == 27) || (s[64] == 28 && t[64] == 1) || (s[64] == 1 && t[64] == 28)))
  }

  lemma SameRecovery(c: Crypto, digest: seq<Byte>, s: seq<Byte>, t: seq<Byte>)
    requires SameUpToV(s, t)
    ensures Recover(c, digest, s) == Recover(c, digest, t)
  {
    if s != t {
      var v: Byte := if s[64] == 27 || s[64] == 0 then 0 else 1;
      NormaliseMeansV(s, v);
      NormaliseMeansV(t, v);
    }
  }

  /** Lists that differ only in last bytes 27 against 0 and 28 against 1 get the same verdict, the same chosen
      positions and the same ids. */
  lemma LegacyVAlike(c: Crypto, digest: seq<Byte>, xs: seq<AttributedSignature>, ys: seq<AttributedSignature>,
                     auth: Signers, f: Int64)
    requires |xs| == |ys| && forall i | 0 <= i < |xs| :: SameUpToV(xs[i].signature, ys[i].signature)
    ensures var rs, ts := Recoveries(c, digest, xs), Recoveries(c, digest, ys);
            && Verdict(rs, auth, f) == Verdict(ts, auth, f) && Chosen(rs, auth, f) == Chosen(ts, auth, f)
            && forall j | 0 <= j < |Chosen(rs, auth, f)| ::
                 auth[rs[Chosen(rs, auth, f)[j]].value] == auth[ts[Chosen(ts, auth, f)[j]].value]
  {
    var rs, ts := Recoveries(c, digest, xs), Recoveries(c, digest, ys);
    forall i | 0 <= i < |xs| ensures rs[i] == ts[i] {
      SameRecovery(c, digest, xs[i].signature, ys[i].signature);
    }
    assert rs == ts;
  }

  // ----- Why entries are skipped -----

  /** Entry i is by an authorised signer that no earlier entry is by. */
  ghost predicate SignsFirst(c: Crypto, digest: seq<Byte>, sigs: seq<AttributedSignature>, auth: Signers, i: nat, a: Address)
    requires i < |sigs|
  {
    a in auth && Signs(c, digest, sigs[i].signature, a) && !SignsSome(c, digest, sigs[..i], a)
  }

  /** The reason fits entry i. */
  ghost predicate Explains(c: Crypto, digest: seq<Byte>, sigs: seq<AttributedSignature>, auth: Signers, i: nat, reason: SkipReason)
    requires i < |sigs|
  {
    var sig := sigs[i].signature;
    match reason
    case ParseSignature => |sig| != 65
    case RecoverSigner => |sig| == 65 && forall a :: !Signs(c, digest, sig, a)
    case DuplicateSigner => exists a :: Signs(c, digest, sig, a) && SignsSome(c, digest, sigs[..i], a)
    case UnknownSigner => exists a :: Signs(c, digest, sig, a) && !SignsSome(c, digest, sigs[..i], a) && a !in auth
  }

  lemma InPrefixIff(c: Crypto, digest: seq<Byte>, sigs: seq<AttributedSignature>, i: nat, a: Address)
    requires i < |sigs|
    ensures SignsSome(c, digest, sigs[..i], a) <==> Ok(a) in Recoveries(c, digest, sigs)[..i]
  {
    var rs := Recoveries(c, digest, sigs);
    if SignsSome(c, digest, sigs[..i], a) {
      var j :| 0 <= j < |sigs[..i]| && Signs(c, digest, sigs[..i][j].signature, a);
      RecoverIff(c, digest, sigs[j].signature);
      assert rs[..i][j] == Ok(a);
    }
    if Ok(a) in rs[..i] {
      var j :| 0 <= j < i && rs[..i][j] == Ok(a);
      RecoverIff(c, digest, sigs[j].signature);
      assert Signs(c, digest, sigs[..i][j].signature, a);
    }
  }

  /** An entry is either the first by its authorised signer, or its reason explains why it is skipped. */
  lemma ReasonExplains(c: Crypto, digest: seq<Byte>, sigs: seq<AttributedSignature>, auth: Signers, i: nat)
    requires i < |sigs|
    ensures var rs := Recoveries(c, digest, sigs);
            if First(rs, auth, i) then SignsFirst(c, digest, sigs, auth, i, rs[i].value)
            else Explains(c, digest, sigs, auth, i, Reason(rs, auth, i))
  {
    var rs := Recoveries(c, digest, sigs);
    RecoverIff(c, digest, sigs[i].signature);
    if rs[i].Ok? {
      InPrefixIff(c, digest, sigs, i, rs[i].value);
      assert Signs(c, digest, sigs[i].signature, rs[i].value);
    }
  }

  lemma {:induction false} SkipsMembers(rs: seq<Recovery>, auth: Signers, n: nat)
    requires n <= |rs|
    ensures forall j | 0 <= j < |Skips(rs, auth, n)| ::
              var x := Skips(rs, auth, n)[j];
              x.index < n && !First(rs, auth, x.index) && x.reason == Reason(rs, auth, x.index)
    ensures forall i, j | 0 <= i < j < |Skips(rs, auth, n)| :: Skips(rs, auth, n)[i].index < Skips(rs, auth, n)[j].index
  {
    if n > 0 {
      SkipsMembers(rs, auth, n - 1);
    }
  }

  /** A failure is for too few entries exactly when there are fewer than f + 1; otherwise it lists skipped entries in
      order, each with the reason that fits it, and as many as are not chosen. */
  lemma FailureExplained(c: Crypto, digest: seq<Byte>, sigs: seq<AttributedSignature>, auth: Signers, f: Int64)
    requires Verdict(Recoveries(c, digest, sigs), auth, f).Failed?
    ensures match Verdict(Recoveries(c, digest, sigs), auth, f).error
            case WrongSignatureCount => |sigs| < Required(f)
            case TooFewValid => false
            case Skipped(reasons) =>
              && Required(f) <= |sigs| && |reasons| + |Chosen(Recoveries(c, digest, sigs), auth, f)| == |sigs|
              && (forall i, j | 0 <= i < j < |reasons| :: reasons[i].index < reasons[j].index)
              && forall j | 0 <= j < |reasons| ::
                   reasons[j].index < |sigs| && Explains(c, digest, sigs, auth, reasons[j].index, reasons[j].reason)
  {
    var rs := Recoveries(c, digest, sigs);
    SkipsMembers(rs, auth, |rs|);
    FirstsMembers(rs, auth, |rs|);
    forall j | 0 <= j < |Skips(rs, auth, |rs|)|
      ensures Skips(rs, auth, |rs|)[j].index < |sigs|
      ensures Explains(c, digest, sigs, auth, Skips(rs, auth, |rs|)[j].index, Skips(rs, auth, |rs|)[j].reason)
    {
      ReasonExplains(c, digest, sigs, auth, Skips(rs, auth, |rs|)[j].index);
    }
  }
}
