// The algorithm preference order: `known_public_key_algs` and `PreferredPublicKeyAlgIter`
// (src/known_hosts.rs).
module PreferredAlgs {
  import opened Text
  import opened HostGlob
  import opened KnownHosts
  import opened TrustDecisions

  /** What `KnownHosts::new` leaves in the trusted array. */
  ghost predicate Stored(es: seq<Entry>) {
    Sorted(es) && forall i :: 0 <= i < |es| ==> es[i].lookup.Pubkey? ==> es[i].lookup.alg != SigOther
  }

  lemma TailStored(es: seq<Entry>)
    requires Stored(es) && es != []
    ensures Stored(es[1..])
    ensures es[0].lookup.Ca? ==> forall i :: 0 <= i < |es| ==> es[i].lookup.Ca?
    ensures forall i :: 0 <= i < |es| && es[0].lookup.Pubkey? && es[i].lookup.Pubkey? ==>
      Rank(es[0].lookup.alg) <= Rank(es[i].lookup.alg)
  {
    forall i | 0 < i < |es|
      ensures !Less(es[i].lookup, es[0].lookup)
    {
    }
  }

  // ---- The mask ----

  /** The mask holds exactly the algorithms with a matching entry. */
  ghost predicate MaskOf(known: bv8, es: seq<Entry>, matches: HostPatterns -> bool) {
    (forall a :: Has(known, a) <==> exists e :: e in es && StoredFor(e, a, matches)) && OnlyAlgorithms(known)
  }

  /** No other bits are set. */
  ghost predicate OnlyAlgorithms(known: bv8) {
    known != 0 <==> exists a :: Has(known, a)
  }

  function Updated(known: bv8, e: Entry, matches: HostPatterns -> bool): bv8
    requires e.lookup.Pubkey?
  {
    if !Has(known, e.lookup.alg) && matches(e.hosts) then known | Mask(e.lookup.alg) else known
  }

  lemma MaskBitStep(known: bv8, e: Entry, a: SigAlg, matches: HostPatterns -> bool)
    requires e.lookup.Pubkey?
    ensures Has(Updated(known, e, matches), a) <==> Has(known, a) || StoredFor(e, a, matches)
  {
    hide Has, Mask;
    MaskUnion(known, e.lookup.alg, a);
  }

  lemma SetBitIsAlgorithm(known: bv8, alg: SigAlg)
    ensures OnlyAlgorithms(known | Mask(alg))
  {
    hide Has, Mask;
    MaskUnion(known, alg, alg);
  }

  lemma OnlyAlgorithmsStep(known: bv8, e: Entry, matches: HostPatterns -> bool)
    requires e.lookup.Pubkey? && OnlyAlgorithms(known)
    ensures OnlyAlgorithms(Updated(known, e, matches))
  {
    hide Has, Mask, OnlyAlgorithms;
    SetBitIsAlgorithm(known, e.lookup.alg);
  }

  lemma MaskStep(known: bv8, es: seq<Entry>, e: Entry, matches: HostPatterns -> bool)
    requires MaskOf(known, es, matches) && e.lookup.Pubkey?
    ensures MaskOf(Updated(known, e, matches), es + [e], matches)
  {
    hide Has, Mask, StoredFor, Updated, OnlyAlgorithms;
    OnlyAlgorithmsStep(known, e, matches);
    forall a
      ensures Has(Updated(known, e, matches), a) <==> exists x :: x in es + [e] && StoredFor(x, a, matches)
    {
      MaskBitStep(known, e, a, matches);
      assert forall x :: x in es + [e] <==> x in es || x == e;
    }
  }

  /** `known_public_key_algs`: the loop may stop at the first `Ca` entry because they all come last. */
  method KnownPublicKeyAlgs(es: seq<Entry>, matches: HostPatterns -> bool) returns (known: bv8)
    requires Stored(es)
    ensures MaskOf(known, es, matches)
  {
    hide Has, Mask;
    known := 0;
    forall a ensures !Has(known, a) { MaskUnion(0, a, a); }
    for i := 0 to |es|
      invariant MaskOf(known, es[..i], matches)
    {
      if es[i].lookup.Ca? {
        CaEntriesAreLast(es, i);
        forall e, a | e in es && StoredFor(e, a, matches)
          ensures e in es[..i]
        {
          var j :| 0 <= j < |es| && es[j] == e;
        }
        return;
      }
      hide MaskOf;
      MaskStep(known, es[..i], es[i], matches);
      assert es[..i + 1] == es[..i] + [es[i]];
      var alg := es[i].lookup.alg;
      if !Has(known, alg) && matches(es[i].hosts) {
        known := known | Mask(alg);
      }
    }
    assert es[..|es|] == es;
  }

  lemma CaEntriesAreLast(es: seq<Entry>, at: nat)
    requires Sorted(es) && at < |es| && es[at].lookup.Ca?
    ensures forall j :: at <= j < |es| ==> es[j].lookup.Ca?
  {
    forall j | at < j < |es|
      ensures es[j].lookup.Ca?
    {
      assert !Less(es[j].lookup, es[at].lookup);
    }
  }

  // ---- The iterator ----

  /** What the known part still yields, before the first `Ca` entry. */
  function KnownRest(es: seq<Entry>, prev: SigAlg, mask: bv8): seq<SigAlg> {
    if es == [] || es[0].lookup.Ca? then []
    else if !Has(mask, es[0].lookup.alg) || es[0].lookup.alg == prev then KnownRest(es[1..], prev, mask)
    else [es[0].lookup.alg] + KnownRest(es[1..], es[0].lookup.alg, mask)
  }

  /** The configured algorithms whose group is not known, in order and with duplicates. */
  function Unknown(algs: seq<Algorithm>, mask: bv8): seq<Algorithm> {
    if algs == [] then []
    else (if Has(mask, FromAlgorithm(algs[0])) then [] else [algs[0]]) + Unknown(algs[1..], mask)
  }

  function ToAlgorithms(algs: seq<SigAlg>): seq<Algorithm>
    requires SigOther !in algs
  {
    if algs == [] then [] else [ToAlgorithm(algs[0])] + ToAlgorithms(algs[1..])
  }

  lemma {:induction false} KnownRestIsSupported(es: seq<Entry>, prev: SigAlg, mask: bv8)
    requires Stored(es)
    ensures SigOther !in KnownRest(es, prev, mask)
  {
    if es != [] && es[0].lookup.Pubkey? {
      TailStored(es);
      KnownRestIsSupported(es[1..], prev, mask);
      KnownRestIsSupported(es[1..], es[0].lookup.alg, mask);
    }
  }

  /** Everything an iterator in this state still yields. */
  ghost function Remaining(es: seq<Entry>, prev: SigAlg, mask: bv8, key: seq<Algorithm>): seq<Algorithm>
    requires Stored(es)
  {
    KnownRestIsSupported(es, prev, mask);
    if mask == 0 then [] else ToAlgorithms(KnownRest(es, prev, mask)) + Unknown(key, mask)
  }

  /** How consuming one entry changes what remains. */
  lemma RemainingStep(es: seq<Entry>, prev: SigAlg, mask: bv8, key: seq<Algorithm>)
    requires Stored(es) && es != [] && mask != 0
    ensures Stored(es[1..])
    ensures es[0].lookup.Ca? ==>
      Remaining(es, prev, mask, key) == Remaining(es[1..], prev, mask, key) == Unknown(key, mask)
      && KnownRest(es[1..], prev, mask) == []
    ensures es[0].lookup.Pubkey? ==>
      var alg := es[0].lookup.alg;
      Remaining(es, prev, mask, key)
        == if !Has(mask, alg) || alg == prev then Remaining(es[1..], prev, mask, key)
           else [ToAlgorithm(alg)] + Remaining(es[1..], alg, mask, key)
  {
    hide Has, Rank;
    TailStored(es);
    if es[0].lookup.Pubkey? {
      hide Stored;
      var alg := es[0].lookup.alg;
      KnownRestIsSupported(es, prev, mask);
      KnownRestIsSupported(es[1..], alg, mask);
      if Has(mask, alg) && alg != prev {
        assert KnownRest(es, prev, mask)[1..] == KnownRest(es[1..], alg, mask);
        Assoc([ToAlgorithm(alg)], ToAlgorithms(KnownRest(es[1..], alg, mask)), Unknown(key, mask));
      }
    }
  }

  class PreferredIter {
    const knownMask: bv8
    var knownIt: seq<Entry>
    var prev: SigAlg
    var preferred: seq<Algorithm>

    constructor (mask: bv8, trusted: seq<Entry>, key: seq<Algorithm>)
      requires Stored(trusted)
      ensures Valid() && knownMask == mask && knownIt == trusted && prev == SigOther && preferred == key
    {
      knownMask := mask;
      knownIt := trusted;
      prev := SigOther;
      preferred := key;
    }

    ghost predicate Valid()
      reads this
    {
      Stored(knownIt)
    }

    /** Everything still to come. */
    ghost function Pending(): seq<Algorithm>
      reads this
      requires Valid()
    {
      Remaining(knownIt, prev, knownMask, preferred)
    }

    /** The loop over the stored entries; `break` gives up the `Ca` entry it stopped at. */
    method NextKnown() returns (r: Option<Algorithm>)
      requires Valid() && knownMask != 0
      modifies this`knownIt, this`prev
      ensures Valid()
      ensures r.Some? ==> old(Pending()) == [r.value] + Pending()
      ensures r.None? ==> Pending() == old(Pending()) == Unknown(preferred, knownMask)
      ensures r.None? ==> KnownRest(knownIt, prev, knownMask) == []
    {
      hide Stored, Has;
      EmptyRemaining(prev, knownMask, preferred);
      while knownIt != []
        invariant Valid() && Pending() == old(Pending())
        decreases |knownIt|
      {
        hide Remaining, KnownRest, Unknown;
        RemainingStep(knownIt, prev, knownMask, preferred);
        var lookup := knownIt[0].lookup;
        knownIt := knownIt[1..];
        if lookup.Ca? {
          return None;
        }
        if !Has(knownMask, lookup.alg) || lookup.alg == prev {
          continue;
        }
        prev := lookup.alg;
        return Some(ToAlgorithm(prev));
      }
      EmptyRemaining(prev, knownMask, preferred);
      return None;
    }

    /** Yields exactly the pending algorithms, one by one, and then `None` for ever. */
    method Next() returns (r: Option<Algorithm>)
      requires Valid()
      modifies this
      ensures Valid()
      ensures old(Pending()) == [] ==> r == None && Pending() == []
      ensures old(Pending()) != [] ==> r == Some(old(Pending())[0]) && Pending() == old(Pending())[1..]
    {
      hide Stored, Has;
      if knownMask == 0 {
        return None;
      }
      r := NextKnown();
      if r.Some? {
        return;
      }
      while preferred != []
        invariant Valid() && KnownRest(knownIt, prev, knownMask) == []
        invariant Unknown(preferred, knownMask) == old(Pending())
        decreases |preferred|
      {
        var alg := preferred[0];
        preferred := preferred[1..];
        if !Has(knownMask, FromAlgorithm(alg)) {
          return Some(alg);
        }
      }
      return None;
    }
  }

  lemma EmptyRemaining(prev: SigAlg, mask: bv8, key: seq<Algorithm>)
    requires mask != 0
    ensures Remaining([], prev, mask, key) == Unknown(key, mask)
  {
  }

  lemma MoveFirst(algs: seq<Algorithm>, pending: seq<Algorithm>)
    requires pending != []
    ensures algs + pending == algs + [pending[0]] + pending[1..]
  {
  }

  /** `collect`. */
  method Collect(it: PreferredIter) returns (algs: seq<Algorithm>)
    requires it.Valid()
    modifies it
    ensures it.Valid() && it.Pending() == []
    ensures algs == old(it.Pending())
  {
    hide *;
    algs := [];
    while true
      invariant it.Valid() && algs + it.Pending() == old(it.Pending())
      decreases |it.Pending()|
    {
      ghost var before := it.Pending();
      var next := it.Next();
      if next == None {
        return;
      }
      MoveFirst(algs, before);
      algs := algs + [next.value];
    }
  }

  // ---- The whole run, in terms of the lines ----

  predicate Increasing(algs: seq<SigAlg>) {
    forall i, j :: 0 <= i < j < |algs| ==> Rank(algs[i]) < Rank(algs[j])
  }

  predicate Occurs(es: seq<Entry>, a: SigAlg) {
    exists i :: 0 <= i < |es| && es[i].lookup.Pubkey? && es[i].lookup.alg == a
  }

  ghost predicate AllFrom(es: seq<Entry>, prev: SigAlg) {
    prev == SigOther || forall i :: 0 <= i < |es| && es[i].lookup.Pubkey? ==> Rank(prev) <= Rank(es[i].lookup.alg)
  }

  /** On a sorted array, comparing with the previous algorithm is enough to yield each one once. */
  lemma {:induction false} KnownRestIsIncreasing(es: seq<Entry>, prev: SigAlg, mask: bv8)
    requires Stored(es) && AllFrom(es, prev)
    ensures Increasing(KnownRest(es, prev, mask))
    ensures prev != SigOther ==> forall a :: a in KnownRest(es, prev, mask) ==> Rank(prev) < Rank(a)
  {
    if es != [] && es[0].lookup.Pubkey? {
      TailStored(es);
      RankIsInjective();
      var alg := es[0].lookup.alg;
      var next := if !Has(mask, alg) || alg == prev then prev else alg;
      KnownRestIsIncreasing(es[1..], next, mask);
    }
  }

  lemma {:induction false} KnownRestIsComplete(es: seq<Entry>, prev: SigAlg, mask: bv8)
    requires Stored(es) && AllFrom(es, prev)
    ensures forall a :: a in KnownRest(es, prev, mask) <==> a != prev && Has(mask, a) && Occurs(es, a)
  {
    hide Has, Mask;
    if es != [] {
      TailStored(es);
      OccursStep(es);
      if es[0].lookup.Pubkey? {
        RankIsInjective();
        var alg := es[0].lookup.alg;
        var next := if !Has(mask, alg) || alg == prev then prev else alg;
        assert AllFrom(es[1..], next);
        assert prev != SigOther && prev != alg ==> !Occurs(es[1..], prev);
        hide Stored, Occurs, AllFrom, Rank;
        KnownRestIsComplete(es[1..], next, mask);
        var rest := KnownRest(es[1..], next, mask);
        assert forall a :: a in [alg] + rest <==> a == alg || a in rest;
      } else {
        assert forall a :: !Occurs(es, a);
      }
    }
  }

  lemma OccursStep(es: seq<Entry>)
    requires es != []
    ensures forall a :: Occurs(es, a) <==> (es[0].lookup.Pubkey? && es[0].lookup.alg == a) || Occurs(es[1..], a)
  {
    forall a | Occurs(es[1..], a)
      ensures Occurs(es, a)
    {
      var i :| 0 <= i < |es[1..]| && es[1..][i].lookup.Pubkey? && es[1..][i].lookup.alg == a;
      assert es[i + 1] == es[1..][i];
    }
  }

  lemma RankIsInjective()
    ensures forall x, y {:trigger Rank(x), Rank(y)} :: Rank(x) == Rank(y) ==> x == y
  {
  }

  lemma {:induction false} IncreasingIsUnique(xs: seq<SigAlg>, ys: seq<SigAlg>)
    requires Increasing(xs) && Increasing(ys) && forall a :: a in xs <==> a in ys
    ensures xs == ys
  {
    assert (xs != [] ==> xs[0] in xs) && (ys != [] ==> ys[0] in ys);
    if xs != [] && ys != [] {
      assert xs[0] in ys && ys[0] in xs;
      RankIsInjective();
      assert xs[0] == ys[0];
      forall a
        ensures a in xs[1..] <==> a in ys[1..]
      {
        assert a in xs <==> a == xs[0] || a in xs[1..];
        assert a in ys <==> a == ys[0] || a in ys[1..];
        assert forall i :: 0 < i < |xs| ==> xs[i] != xs[0];
        assert forall i :: 0 < i < |ys| ==> ys[i] != ys[0];
      }
      IncreasingIsUnique(xs[1..], ys[1..]);
      assert xs == [xs[0]] + xs[1..] && ys == [ys[0]] + ys[1..];
    }
  }

  function KnownIn(s: Scan, order: seq<SigAlg>): (r: seq<SigAlg>)
    ensures forall a :: a in r <==> a in order && s.KnownAlg(a)
  {
    if order == [] then []
    else (if s.KnownAlg(order[0]) then [order[0]] else []) + KnownIn(s, order[1..])
  }

  lemma {:induction false} KnownInIsOrdered(s: Scan, order: seq<SigAlg>)
    requires Increasing(order)
    ensures Increasing(KnownIn(s, order))
  {
    hide Scan.KnownAlg, Rank;
    if order != [] {
      KnownInIsOrdered(s, order[1..]);
      forall a | a in KnownIn(s, order[1..])
        ensures Rank(order[0]) < Rank(a)
      {
        var i :| 0 <= i < |order[1..]| && order[1..][i] == a;
        assert order[i + 1] == a;
      }
    }
  }

  function NotKnown(s: Scan, algs: seq<Algorithm>): seq<Algorithm> {
    if algs == [] then []
    else (if s.KnownAlg(FromAlgorithm(algs[0])) then [] else [algs[0]]) + NotKnown(s, algs[1..])
  }

  /** What the documentation promises: nothing if no key is known; otherwise each known algorithm once,
      in the fixed order, then the other configured algorithms with their order and duplicates. */
  function Preference(s: Scan, key: seq<Algorithm>): seq<Algorithm> {
    if !s.AnyKey() then [] else ToAlgorithms(KnownIn(s, PREFERENCE_ORDER)) + NotKnown(s, key)
  }

  lemma {:induction false} SameKnown(s: Scan, t: Scan, order: seq<SigAlg>, algs: seq<Algorithm>)
    requires forall a :: s.KnownAlg(a) <==> t.KnownAlg(a)
    ensures KnownIn(s, order) == KnownIn(t, order) && NotKnown(s, algs) == NotKnown(t, algs)
    decreases |order| + |algs|
  {
    hide Scan.KnownAlg;
    if order != [] {
      SameKnown(s, t, order[1..], []);
    }
    if algs != [] {
      SameKnown(s, t, [], algs[1..]);
    }
  }

  /** The order of the lines does not matter to the preference. */
  lemma PreferenceIgnoresOrder(s: Scan, t: Scan, key: seq<Algorithm>)
    requires multiset(s.lines) == multiset(t.lines) && s.matches == t.matches
    ensures s.AnyKey() == t.AnyKey() && Preference(s, key) == Preference(t, key)
  {
    hide Scan.KnownAlg;
    assert forall l :: l in s.lines <==> l in multiset(s.lines);
    assert forall l :: l in t.lines <==> l in multiset(t.lines);
    forall a
      ensures s.KnownAlg(a) <==> t.KnownAlg(a)
    {
      SameLines(s, t, 0, a);
    }
    SameKnown(s, t, PREFERENCE_ORDER, key);
  }

  lemma {:induction false} UnknownIsNotKnown(s: Scan, algs: seq<Algorithm>, mask: bv8)
    requires forall a :: Has(mask, a) <==> s.KnownAlg(a)
    ensures Unknown(algs, mask) == NotKnown(s, algs)
  {
    if algs != [] {
      UnknownIsNotKnown(s, algs[1..], mask);
    }
  }

  lemma KnownRestIsPreference(h: Handler, lines: seq<Option<Line>>, mask: bv8)
    requires Indexes(h.known, lines) && h.known.trusted.Some? && Stored(h.known.trusted.value)
    requires forall a :: Has(mask, a) <==> ScanFor(h, lines).KnownAlg(a)
    ensures KnownRest(h.known.trusted.value, SigOther, mask) == KnownIn(ScanFor(h, lines), PREFERENCE_ORDER)
  {
    var s, es := ScanFor(h, lines), h.known.trusted.value;
    KnownRestIsIncreasing(es, SigOther, mask);
    KnownRestIsComplete(es, SigOther, mask);
    KnownRestIsSupported(es, SigOther, mask);
    KnownInIsOrdered(s, PREFERENCE_ORDER);
    forall a
      ensures a in KnownRest(es, SigOther, mask) <==> a in KnownIn(s, PREFERENCE_ORDER)
    {
      assert a != SigOther ==> a in PREFERENCE_ORDER by {
        assert a == SigOther || a == PREFERENCE_ORDER[Rank(a)];
      }
      KnownAlgIsStored(h.known, lines, s, a);
      if s.KnownAlg(a) {
        var e :| e in es && StoredFor(e, a, s.matches);
        assert Occurs(es, a);
      }
    }
    IncreasingIsUnique(KnownRest(es, SigOther, mask), KnownIn(s, PREFERENCE_ORDER));
  }

  lemma TrustedIsStored(known: KnownHosts, lines: seq<Option<Line>>)
    requires Indexes(known, lines)
    ensures Stored(if known.trusted.Some? then known.trusted.value else [])
  {
    if known.trusted.Some? {
      forall i | 0 <= i < |known.trusted.value| && known.trusted.value[i].lookup.Pubkey?
        ensures known.trusted.value[i].lookup.alg != SigOther
      {
        var e := known.trusted.value[i];
        StoredHas(known.trusted, Entries(lines, TrustedEntry), e);
        var j :| 0 <= j < |lines| && Picked(lines[j], TrustedEntry, e);
      }
    }
  }

  /** `update_preferred_config`: the new `config.key`, whatever the order of the lines. */
  method UpdatePreferredKeys(h: Handler, key: seq<Algorithm>, ghost lines: seq<Option<Line>>)
    returns (key': seq<Algorithm>)
    requires Indexes(h.known, lines)
    ensures key' == if ScanFor(h, lines).AnyKey() then Preference(ScanFor(h, lines), key) else key
  {
    var trusted := if h.known.trusted.Some? then h.known.trusted.value else [];
    TrustedIsStored(h.known, lines);
    var mask := KnownPublicKeyAlgs(trusted, h.Matches());
    ghost var s := ScanFor(h, lines);
    forall a
      ensures Has(mask, a) <==> s.KnownAlg(a)
    {
      KnownAlgIsStored(h.known, lines, s, a);
    }
    var it := new PreferredIter(mask, trusted, key);
    UnknownIsNotKnown(s, key, mask);
    if h.known.trusted.Some? {
      KnownRestIsPreference(h, lines, mask);
    }
    assert mask != 0 ==> it.Pending() == Preference(s, key);
    if mask != 0 {
      key' := Collect(it);
    } else {
      key' := key;
    }
  }

  /** Some unmarked line for the host has a key of this kind. */
  ghost predicate IsKnown(h: Handler, lines: seq<Option<Line>>, alg: Algorithm) {
    exists line :: line in lines && IsKeyLine(h, line) && SameKind(line.value.alg, alg)
  }

  lemma IsKnownMeans(h: Handler, lines: seq<Option<Line>>, alg: Algorithm)
    requires Supported(alg)
    ensures ScanFor(h, lines).KnownAlg(FromAlgorithm(alg)) <==> IsKnown(h, lines, alg)
  {
    var a, m := FromAlgorithm(alg), h.Matches();
    var p := (l: Line) => l.marker == None && FromAlgorithm(l.alg) == a && m(l.hosts);
    SomeLineIs(lines, p);
    FromAlgorithmIs(alg, alg);
    forall line
      ensures Selected(line, p) <==> IsKeyLine(h, line) && SameKind(line.value.alg, alg)
    {
      if line.Some? {
        FromAlgorithmIs(line.value.alg, alg);
      }
    }
    hide SomeLine, Selected, IsKeyLine, HostMatched, FromAlgorithm, SameKind;
    assert ScanFor(h, lines).KnownAlg(a) <==> a != SigOther && SomeLine(lines, p);
  }

  const PREFERRED: seq<Algorithm> :=
    [Ed25519, Ecdsa(NistP521), Ecdsa(NistP384), Ecdsa(NistP256), Rsa(Some(Sha512)), Rsa(Some(Sha256))]

  ghost function OnlyKnown(h: Handler, lines: seq<Option<Line>>, algs: seq<Algorithm>): seq<Algorithm> {
    if algs == [] then []
    else (if IsKnown(h, lines, algs[0]) then [algs[0]] else []) + OnlyKnown(h, lines, algs[1..])
  }

  /** Unsupported algorithms are never known. */
  ghost function OnlyUnknown(h: Handler, lines: seq<Option<Line>>, algs: seq<Algorithm>): seq<Algorithm> {
    if algs == [] then []
    else (if Supported(algs[0]) && IsKnown(h, lines, algs[0]) then [] else [algs[0]]) + OnlyUnknown(h, lines, algs[1..])
  }

  lemma {:induction false} OnlyUnknownIs(h: Handler, lines: seq<Option<Line>>, algs: seq<Algorithm>)
    ensures NotKnown(ScanFor(h, lines), algs) == OnlyUnknown(h, lines, algs)
  {
    hide IsKnown, Scan.KnownAlg;
    if algs != [] {
      OnlyUnknownIs(h, lines, algs[1..]);
      FromAlgorithmIs(algs[0], algs[0]);
      if Supported(algs[0]) {
        IsKnownMeans(h, lines, algs[0]);
      } else {
        OtherIsNotKnown(ScanFor(h, lines));
      }
    }
  }

  lemma OtherIsNotKnown(s: Scan)
    ensures !s.KnownAlg(SigOther)
  {
  }

  lemma PreferredAt(i: nat)
    requires i < |PREFERRED|
    ensures Supported(PREFERRED[i]) && FromAlgorithm(PREFERRED[i]) == PREFERENCE_ORDER[i]
    ensures PREFERENCE_ORDER[i] != SigOther && ToAlgorithm(PREFERENCE_ORDER[i]) == PREFERRED[i]
  {
  }

  lemma KnownInStep(s: Scan, order: seq<SigAlg>)
    requires order != [] && order[0] != SigOther && SigOther !in KnownIn(s, order[1..])
    ensures SigOther !in KnownIn(s, order)
    ensures ToAlgorithms(KnownIn(s, order))
         == (if s.KnownAlg(order[0]) then [ToAlgorithm(order[0])] else []) + ToAlgorithms(KnownIn(s, order[1..]))
  {
    hide Scan.KnownAlg;
    if s.KnownAlg(order[0]) {
      assert KnownIn(s, order)[1..] == KnownIn(s, order[1..]);
    } else {
      assert KnownIn(s, order) == KnownIn(s, order[1..]);
    }
  }

  lemma {:induction false} OnlyKnownIs(h: Handler, lines: seq<Option<Line>>, i: nat)
    requires i <= |PREFERRED|
    ensures SigOther !in KnownIn(ScanFor(h, lines), PREFERENCE_ORDER[i..])
    ensures ToAlgorithms(KnownIn(ScanFor(h, lines), PREFERENCE_ORDER[i..])) == OnlyKnown(h, lines, PREFERRED[i..])
    decreases |PREFERRED| - i
  {
    hide IsKnown, Scan.KnownAlg, FromAlgorithm, ToAlgorithm, Supported, ScanFor;
    if i < |PREFERRED| {
      OnlyKnownIs(h, lines, i + 1);
      PreferredAt(i);
      IsKnownMeans(h, lines, PREFERRED[i]);
      assert PREFERENCE_ORDER[i..][1..] == PREFERENCE_ORDER[i + 1..] && PREFERRED[i..][1..] == PREFERRED[i + 1..];
      hide KnownIn, ToAlgorithms;
      KnownInStep(ScanFor(h, lines), PREFERENCE_ORDER[i..]);
    }
  }

  /** The preference, by the names of the algorithms and the lines of the file. */
  lemma PreferenceMeans(h: Handler, lines: seq<Option<Line>>, key: seq<Algorithm>)
    ensures Preference(ScanFor(h, lines), key)
      == if !HasKeyLine(h, lines) then [] else OnlyKnown(h, lines, PREFERRED) + OnlyUnknown(h, lines, key)
  {
    AnyKeyMeans(h, lines);
    OnlyKnownIs(h, lines, 0);
    OnlyUnknownIs(h, lines, key);
    assert PREFERENCE_ORDER[0..] == PREFERENCE_ORDER && PREFERRED[0..] == PREFERRED;
    hide OnlyKnown, OnlyUnknown, KnownIn, NotKnown, Scan.AnyKey, HasKeyLine;
  }
}
