/** Validating a zone's DNSSEC chain (sections 5.2 and 5.3 of RFC 4035), over abstract cryptography. */
module DNSSEC {
  import opened Core

  datatype Key = Key(tag: int, algorithm: int, data: string)

  datatype Sig = Sig(tag: int, algorithm: int, inception: int, expiration: int, data: string)

  datatype DS = DS(tag: int, algorithm: int, digestType: int, digest: string)

  /** The records a signature covers. */
  datatype Covered = KeySet(keys: seq<Key>) | Zone(soa: seq<string>)

  datatype Verification = Good | Bad | UnknownAlgorithm

  /** Signature checks, digests (None for an unknown digest type) and validity periods, as functions. */
  datatype Crypto = Crypto(
    verify: (Sig, Key, Covered) -> Verification,
    digest: (Key, int) -> Option<string>,
    validAt: (Sig, int) -> bool)

  datatype Fault = DoesNotVerify(tag: int) | OutsidePeriod(tag: int, inception: int, expiration: int)

  datatype Verdict = Verified | NoSignatures | Faults(faults: seq<Fault>) | Unsupported | NoSuchKey

  /** The signature claims to be made by the key. */
  predicate Claims(sig: Sig, k: Key) { k.tag == sig.tag && k.algorithm == sig.algorithm }

  /** The pair can be judged: claimed, by an algorithm that can be checked. */
  predicate Judged(c: Crypto, sig: Sig, k: Key, set_: Covered) {
    Claims(sig, k) && c.verify(sig, k, set_) != UnknownAlgorithm
  }

  predicate Proves(c: Crypto, sig: Sig, k: Key, set_: Covered, now: int) {
    Claims(sig, k) && c.verify(sig, k, set_) == Good && c.validAt(sig, now)
  }

  ghost predicate Proven(c: Crypto, sigs: seq<Sig>, keys: seq<Key>, set_: Covered, now: int) {
    exists sig, k :: sig in sigs && k in keys && Proves(c, sig, k, set_, now)
  }

  ghost predicate AnyJudged(c: Crypto, sigs: seq<Sig>, keys: seq<Key>, set_: Covered) {
    exists sig, k :: sig in sigs && k in keys && Judged(c, sig, k, set_)
  }

  /** Some key has a signature's tag, whatever its algorithm. */
  ghost predicate AnyTagged(sigs: seq<Sig>, keys: seq<Key>) {
    exists sig, k :: sig in sigs && k in keys && SameTag(sig, k)
  }

  predicate SameTag(sig: Sig, k: Key) { k.tag == sig.tag }

  /** The fault is what is wrong with one of the pairs. */
  ghost predicate TrueFault(c: Crypto, sigs: seq<Sig>, keys: seq<Key>, set_: Covered, now: int, f: Fault) {
    exists sig, k :: sig in sigs && k in keys && FaultOf(c, sig, k, set_, now) == Some(f)
  }

  function FaultOf(c: Crypto, sig: Sig, k: Key, set_: Covered, now: int): Option<Fault> {
    if !Judged(c, sig, k, set_) then None
    else if c.verify(sig, k, set_) == Bad then Some(DoesNotVerify(sig.tag))
    else if !c.validAt(sig, now) then Some(OutsidePeriod(sig.tag, sig.inception, sig.expiration))
    else None
  }

  /** One signature against every key: stops at the first that proves it. */
  method TryKeys(c: Crypto, sig: Sig, keys: seq<Key>, set_: Covered, now: int)
    returns (proven: bool, judged: bool, faults: seq<Fault>)
    ensures proven <==> exists k :: k in keys && Proves(c, sig, k, set_, now)
    ensures !proven ==> (judged <==> exists k :: k in keys && Judged(c, sig, k, set_))
    ensures !proven && judged ==> faults != []
    ensures forall f :: f in faults ==> exists k :: k in keys && FaultOf(c, sig, k, set_, now) == Some(f)
  {
    proven, judged, faults := false, false, [];
    for i := 0 to |keys|
      invariant !proven
      invariant forall k :: k in keys[..i] ==> !Proves(c, sig, k, set_, now)
      invariant judged <==> exists k :: k in keys[..i] && Judged(c, sig, k, set_)
      invariant judged ==> faults != []
      invariant forall f :: f in faults ==> exists k :: k in keys[..i] && FaultOf(c, sig, k, set_, now) == Some(f)
    {
      var k := keys[i];
      assert forall x :: x in keys[..i + 1] <==> x in keys[..i] || x == k;
      if k.tag != sig.tag || k.algorithm != sig.algorithm { continue; }
      var v := c.verify(sig, k, set_);
      if v == UnknownAlgorithm { continue; }
      assert Judged(c, sig, k, set_);
      judged := true;
      if v == Bad {
        assert FaultOf(c, sig, k, set_, now) == Some(DoesNotVerify(sig.tag));
        faults := faults + [DoesNotVerify(sig.tag)];
      } else if !c.validAt(sig, now) {
        assert FaultOf(c, sig, k, set_, now) == Some(OutsidePeriod(sig.tag, sig.inception, sig.expiration));
        faults := faults + [OutsidePeriod(sig.tag, sig.inception, sig.expiration)];
      } else {
        assert Proves(c, sig, k, set_, now);
        return true, true, faults;
      }
    }
    assert keys[..|keys|] == keys;
  }

  /** Exactly what each verdict means. */
  ghost predicate Means(v: Verdict, c: Crypto, sigs: seq<Sig>, keys: seq<Key>, set_: Covered, now: int) {
    match v
    case NoSignatures => sigs == []
    case Verified => Proven(c, sigs, keys, set_, now)
    case Faults(fs) => !Proven(c, sigs, keys, set_, now) && AnyJudged(c, sigs, keys, set_) &&
                       fs != [] && forall f :: f in fs ==> TrueFault(c, sigs, keys, set_, now, f)
    case Unsupported => !AnyJudged(c, sigs, keys, set_) && AnyTagged(sigs, keys)
    case NoSuchKey => sigs != [] && !AnyTagged(sigs, keys)
  }

  method HasTag(sig: Sig, keys: seq<Key>) returns (r: bool)
    ensures r <==> exists k :: k in keys && SameTag(sig, k)
  {
    for i := 0 to |keys|
      invariant forall k :: k in keys[..i] ==> !SameTag(sig, k)
    {
      assert forall x :: x in keys[..i + 1] <==> x in keys[..i] || x == keys[i];
      if keys[i].tag == sig.tag {
        assert SameTag(sig, keys[i]);
        return true;
      }
    }
    assert keys[..|keys|] == keys;
    r := false;
  }

  method AnyHasTag(sigs: seq<Sig>, keys: seq<Key>) returns (r: bool)
    ensures r <==> AnyTagged(sigs, keys)
  {
    for i := 0 to |sigs|
      invariant forall sig, k :: sig in sigs[..i] && k in keys ==> !SameTag(sig, k)
    {
      assert forall x :: x in sigs[..i + 1] <==> x in sigs[..i] || x == sigs[i];
      var has := HasTag(sigs[i], keys);
      if has { return true; }
    }
    assert sigs[..|sigs|] == sigs;
    r := false;
  }

  /** Checks that some signature, made by one of the keys, is valid for the set now. */
  method VerifySet(c: Crypto, sigs: seq<Sig>, keys: seq<Key>, set_: Covered, now: int) returns (v: Verdict)
    ensures Means(v, c, sigs, keys, set_, now)
  {
    hide Judged, Proves, FaultOf, SameTag;
    if |sigs| == 0 { return NoSignatures; }
    var judged, faults := false, [];
    for i := 0 to |sigs|
      invariant !Proven(c, sigs[..i], keys, set_, now)
      invariant judged <==> AnyJudged(c, sigs[..i], keys, set_)
      invariant judged ==> faults != []
      invariant forall f :: f in faults ==> TrueFault(c, sigs, keys, set_, now, f)
    {
      assert forall x :: x in sigs[..i + 1] <==> x in sigs[..i] || x == sigs[i];
      var p, j, fs := TryKeys(c, sigs[i], keys, set_, now);
      assert sigs[i] in sigs;
      if p { return Verified; }
      judged, faults := judged || j, faults + fs;
    }
    assert sigs[..|sigs|] == sigs;
    if !judged {
      var tagged := AnyHasTag(sigs, keys);
      return if tagged then Unsupported else NoSuchKey;
    }
    v := Faults(faults);
  }

  /** No other verdict hides a proof. */
  lemma VerdictDecides(v: Verdict, c: Crypto, sigs: seq<Sig>, keys: seq<Key>, set_: Covered, now: int)
    requires Means(v, c, sigs, keys, set_, now)
    ensures v == Verified <==> Proven(c, sigs, keys, set_, now)
    ensures v == Unsupported <==> Means(Unsupported, c, sigs, keys, set_, now)
  {
  }

  // ----- the chain ------------------------------------------------------------------------------

  datatype ZoneState = ZoneState(ds: seq<DS>, keys: seq<Key>, keySigs: seq<Sig>, soaSigs: seq<Sig>, soa: seq<string>)

  datatype Problem = NoKeys | StaleDS | KeySetProblem(v: Verdict) | ZoneProblem(v: Verdict)

  predicate Points(ds: DS, k: Key) { k.tag == ds.tag && k.algorithm == ds.algorithm }

  /** strings.EqualFold, on hexadecimal digests. */
  predicate SameDigest(a: string, b: string) {
    |a| == |b| && forall i :: 0 <= i < |a| ==> LowerChar(a[i]) == LowerChar(b[i])
  }

  /** The parent's DS vouches for the key. */
  predicate Anchors(c: Crypto, ds: DS, k: Key) {
    Points(ds, k) && match c.digest(k, ds.digestType) case None => false case Some(d) => SameDigest(d, ds.digest)
  }

  predicate Unknown(c: Crypto, ds: DS, k: Key) { Points(ds, k) && c.digest(k, ds.digestType).None? }

  /** DS to key to key set to SOA, all valid now. */
  ghost predicate ChainValid(c: Crypto, st: ZoneState, now: int) {
    && (exists ds, k, sig :: ds in st.ds && k in st.keys && sig in st.keySigs &&
          Anchors(c, ds, k) && Proves(c, sig, k, KeySet(st.keys), now))
    && Proven(c, st.soaSigs, st.keys, Zone(st.soa), now)
  }

  /** A digest type, or a signing algorithm at one of the two steps, that cannot be judged. */
  ghost predicate CannotJudge(c: Crypto, st: ZoneState, anchors: seq<Key>) {
    || (exists ds, k :: ds in st.ds && k in st.keys && Unknown(c, ds, k))
    || (!AnyJudged(c, st.keySigs, anchors, KeySet(st.keys)) && AnyTagged(st.keySigs, anchors))
    || (!AnyJudged(c, st.soaSigs, st.keys, Zone(st.soa)) && AnyTagged(st.soaSigs, st.keys))
  }

  /** Exactly when a signed zone gets neither a problem nor an error. */
  ghost predicate Silent(c: Crypto, st: ZoneState, anchors: seq<Key>, now: int) {
    if anchors == [] then exists ds, k :: ds in st.ds && k in st.keys && Unknown(c, ds, k)
    else if Means(Unsupported, c, st.keySigs, anchors, KeySet(st.keys), now) then true
    else
      && Proven(c, st.keySigs, anchors, KeySet(st.keys), now)
      && (Means(Unsupported, c, st.soaSigs, st.keys, Zone(st.soa), now) ||
        Proven(c, st.soaSigs, st.keys, Zone(st.soa), now))
  }

  ghost predicate AreAnchors(c: Crypto, dss: seq<DS>, keys: seq<Key>, anchors: seq<Key>) {
    forall k :: k in anchors <==> k in keys && exists ds :: ds in dss && Anchors(c, ds, k)
  }

  method AnchorsOf(c: Crypto, ds: DS, keys: seq<Key>) returns (anchors: seq<Key>, unknown: bool)
    ensures forall k :: k in anchors <==> k in keys && Anchors(c, ds, k)
    ensures unknown <==> exists k :: k in keys && Unknown(c, ds, k)
  {
    anchors, unknown := [], false;
    for i := 0 to |keys|
      invariant forall k :: k in anchors <==> k in keys[..i] && Anchors(c, ds, k)
      invariant unknown <==> exists k :: k in keys[..i] && Unknown(c, ds, k)
    {
      var k := keys[i];
      assert forall x :: x in keys[..i + 1] <==> x in keys[..i] || x == k;
      if k.tag != ds.tag || k.algorithm != ds.algorithm { continue; }
      var d := c.digest(k, ds.digestType);
      if d.None? {
        assert Unknown(c, ds, k);
        unknown := true;
      } else if SameDigest(d.value, ds.digest) {
        anchors := anchors + [k];
      }
    }
    assert keys[..|keys|] == keys;
  }

  method FindAnchors(c: Crypto, dss: seq<DS>, keys: seq<Key>) returns (anchors: seq<Key>, unknown: bool)
    ensures AreAnchors(c, dss, keys, anchors)
    ensures unknown <==> exists ds, k :: ds in dss && k in keys && Unknown(c, ds, k)
  {
    hide Anchors, Unknown;
    anchors, unknown := [], false;
    for i := 0 to |dss|
      invariant AreAnchors(c, dss[..i], keys, anchors)
      invariant unknown <==> exists ds, k :: ds in dss[..i] && k in keys && Unknown(c, ds, k)
    {
      assert forall x :: x in dss[..i + 1] <==> x in dss[..i] || x == dss[i];
      var as_, u := AnchorsOf(c, dss[i], keys);
      anchors, unknown := anchors + as_, unknown || u;
    }
    assert dss[..|dss|] == dss;
  }

  lemma ChainFromAnchors(c: Crypto, st: ZoneState, anchors: seq<Key>, now: int)
    requires AreAnchors(c, st.ds, st.keys, anchors)
    ensures ChainValid(c, st, now) <==>
      Proven(c, st.keySigs, anchors, KeySet(st.keys), now) && Proven(c, st.soaSigs, st.keys, Zone(st.soa), now)
  {
  }

  // ----- the same, letter by letter -------------------------------------------------------------------

  predicate SameUpToCase(a: string, b: string) {
    && |a| == |b|
    && forall i :: 0 <= i < |a| ==>
         || a[i] == b[i]
         || ('A' <= a[i] <= 'Z' && b[i] as int == a[i] as int + 32)
         || ('A' <= b[i] <= 'Z' && a[i] as int == b[i] as int + 32)
  }

  /** A DS record and a key that belong together, and whose digests agree or cannot be compared. */
  predicate Matched(c: Crypto, ds: DS, k: Key) {
    && k.tag == ds.tag && k.algorithm == ds.algorithm
    && match c.digest(k, ds.digestType) case None => true case Some(d) => SameUpToCase(d, ds.digest)
  }

  /** A key the DS vouches for has made a signature that holds now. */
  ghost predicate Vouched(c: Crypto, st: ZoneState, now: int, ds: DS, k: Key, sig: Sig) {
    && ds in st.ds && k in st.keys && sig in st.keySigs
    && Matched(c, ds, k) && c.digest(k, ds.digestType).Some?
    && k.tag == sig.tag && k.algorithm == sig.algorithm
    && c.verify(sig, k, KeySet(st.keys)) == Good && c.validAt(sig, now)
  }

  lemma MatchedIsAnchor(c: Crypto, ds: DS, k: Key)
    ensures Matched(c, ds, k) <==> Anchors(c, ds, k) || Unknown(c, ds, k)
    ensures Matched(c, ds, k) && c.digest(k, ds.digestType).Some? <==> Anchors(c, ds, k)
  {
  }

  /** What a valid chain is: a DS vouches for a key that signed the key set, and one of the keys signed the SOA. */
  lemma ChainMeans(c: Crypto, st: ZoneState, now: int)
    ensures ChainValid(c, st, now) <==>
      && (exists ds, k, sig :: Vouched(c, st, now, ds, k, sig))
      && exists sig, k :: sig in st.soaSigs && k in st.keys && k.tag == sig.tag && k.algorithm == sig.algorithm &&
                          c.verify(sig, k, Zone(st.soa)) == Good && c.validAt(sig, now)
  {
    forall ds, k, sig
      ensures Vouched(c, st, now, ds, k, sig) <==>
        ds in st.ds && k in st.keys && sig in st.keySigs && Anchors(c, ds, k) && Proves(c, sig, k, KeySet(st.keys), now)
    {
      MatchedIsAnchor(c, ds, k);
    }
    hide Matched, Anchors, Vouched;
  }

  ghost predicate AnyMatched(c: Crypto, st: ZoneState) {
    exists ds, k :: ds in st.ds && k in st.keys && Matched(c, ds, k)
  }

  lemma MatchedSomewhere(c: Crypto, st: ZoneState, anchors: seq<Key>)
    requires AreAnchors(c, st.ds, st.keys, anchors)
    ensures AnyMatched(c, st) <==> anchors != [] || exists ds, k :: ds in st.ds && k in st.keys && Unknown(c, ds, k)
  {
    forall ds, k ensures Matched(c, ds, k) <==> Anchors(c, ds, k) || Unknown(c, ds, k) { MatchedIsAnchor(c, ds, k); }
    hide Matched, Anchors, Unknown;
    if anchors != [] { assert anchors[0] in anchors; }
  }

  /**
   * Why the zone's DNSSEC is broken, if it is. A problem is reported only when
   * no valid chain exists; silence means a valid chain, or something that
   * cannot be judged; and a zone without keys or signatures is told apart.
   */
  method Validate(c: Crypto, st: ZoneState, now: int)
    returns (problem: Option<Problem>, failed: bool, ghost anchors: seq<Key>)
    ensures !failed ==> AreAnchors(c, st.ds, st.keys, anchors)
    ensures failed <==> st.keys != [] && st.keySigs == [] && st.soaSigs == []
    ensures failed ==> problem.None?
    ensures problem.Some? ==> !ChainValid(c, st, now)
    ensures problem.None? && !failed ==> ChainValid(c, st, now) || CannotJudge(c, st, anchors)
    ensures problem.None? && !failed <==>
      st.keys != [] && (st.keySigs != [] || st.soaSigs != []) && Silent(c, st, anchors, now)
    ensures problem.None? && !failed ==> AnyMatched(c, st)
    ensures problem == Some(StaleDS) <==>
      st.keys != [] && (st.keySigs != [] || st.soaSigs != []) && !AnyMatched(c, st)
    ensures problem == Some(NoKeys) <==> st.keys == []
    ensures problem == Some(StaleDS) <==>
      st.keys != [] && !failed && anchors == [] && !(exists ds, k :: ds in st.ds && k in st.keys && Unknown(c, ds, k))
    ensures problem.Some? && problem.value.KeySetProblem? ==>
      Means(problem.value.v, c, st.keySigs, anchors, KeySet(st.keys), now) && problem.value.v != Unsupported
    ensures problem.Some? && problem.value.ZoneProblem? ==>
      Means(problem.value.v, c, st.soaSigs, st.keys, Zone(st.soa), now) && problem.value.v != Unsupported
  {
    hide Anchors, Unknown, Proves, Judged, TrueFault, SameTag, AnyMatched;
    problem, failed, anchors := None, false, [];
    if |st.keys| == 0 {
      ChainFromAnchors(c, st, [], now);
      return Some(NoKeys), false, [];
    }
    if |st.keySigs| == 0 && |st.soaSigs| == 0 { return None, true, []; }
    var found, unknown := FindAnchors(c, st.ds, st.keys);
    anchors := found;
    ChainFromAnchors(c, st, found, now);
    MatchedSomewhere(c, st, found);
    if |found| == 0 && unknown { return; }
    if |found| == 0 { return Some(StaleDS), false, anchors; }
    var v := VerifySet(c, st.keySigs, found, KeySet(st.keys), now);
    VerdictDecides(v, c, st.keySigs, found, KeySet(st.keys), now);
    if v == Unsupported { return; }
    if v != Verified { return Some(KeySetProblem(v)), false, anchors; }
    v := VerifySet(c, st.soaSigs, st.keys, Zone(st.soa), now);
    VerdictDecides(v, c, st.soaSigs, st.keys, Zone(st.soa), now);
    if v == Unsupported { return; }
    if v != Verified { return Some(ZoneProblem(v)), false, anchors; }
  }
}
