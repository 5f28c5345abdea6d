// The known_hosts index (src/known_hosts.rs): entries are split into trusted and revoked arrays,
// sorted by lookup key and searched by binary search. The results are those of a scan of the lines.
module KnownHosts {
  import opened Text
  import opened HostGlob

  // ---- Algorithms ----

  datatype Curve = NistP256 | NistP384 | NistP521

  datatype HashAlg = Sha256 | Sha512

  datatype Algorithm =
    | Dsa
    | Ecdsa(curve: Curve)
    | Ed25519
    | Rsa(hash: Option<HashAlg>)
    | SkEcdsa
    | SkEd25519
    | Named(name: string)

  /** In the order of the declaration, with the `rsa` feature. */
  datatype SigAlg = SigEd25519 | SigP521 | SigP384 | SigP256 | SigRsaSha512 | SigRsaSha256 | SigOther

  const PREFERENCE_ORDER: seq<SigAlg> := [SigEd25519, SigP521, SigP384, SigP256, SigRsaSha512, SigRsaSha256]

  function Rank(a: SigAlg): (r: nat)
    ensures r < 7
  {
    match a
    case SigEd25519 => 0
    case SigP521 => 1
    case SigP384 => 2
    case SigP256 => 3
    case SigRsaSha512 => 4
    case SigRsaSha256 => 5
    case SigOther => 6
  }

  function Mask(a: SigAlg): bv8 {
    match a
    case SigEd25519 => 1 << 0
    case SigP521 => 1 << 1
    case SigP384 => 1 << 2
    case SigP256 => 1 << 3
    case SigRsaSha512 => 1 << 4
    case SigRsaSha256 => 1 << 5
    case SigOther => 1 << 6
  }

  function FromAlgorithm(alg: Algorithm): SigAlg {
    match alg
    case Ed25519 => SigEd25519
    case Ecdsa(NistP521) => SigP521
    case Ecdsa(NistP384) => SigP384
    case Ecdsa(NistP256) => SigP256
    case Rsa(Some(Sha512)) => SigRsaSha512
    case Rsa(_) => SigRsaSha256
    case _ => SigOther
  }

  function ToAlgorithm(a: SigAlg): (alg: Algorithm)
    requires a != SigOther
    ensures FromAlgorithm(alg) == a
  {
    match a
    case SigEd25519 => Ed25519
    case SigP521 => Ecdsa(NistP521)
    case SigP384 => Ecdsa(NistP384)
    case SigP256 => Ecdsa(NistP256)
    case SigRsaSha512 => Rsa(Some(Sha512))
    case SigRsaSha256 => Rsa(Some(Sha256))
  }

  predicate Supported(alg: Algorithm) {
    alg.Ed25519? || alg.Ecdsa? || alg.Rsa?
  }

  /** Keys are compared by their algorithm, except that an RSA key without a hash, as in a line that says
      `ssh-rsa`, goes with SHA-256; all unsupported algorithms go together. */
  predicate SameKind(x: Algorithm, y: Algorithm) {
    || x == y
    || (x.Rsa? && y.Rsa? && x.hash != Some(Sha512) && y.hash != Some(Sha512))
    || (!Supported(x) && !Supported(y))
  }

  lemma FromAlgorithmIs(x: Algorithm, y: Algorithm)
    ensures FromAlgorithm(x) == SigOther <==> !Supported(x)
    ensures FromAlgorithm(x) == FromAlgorithm(y) <==> SameKind(x, y)
    ensures Supported(x) ==>
      ToAlgorithm(FromAlgorithm(x)) == if x.Rsa? && x.hash != Some(Sha512) then Rsa(Some(Sha256)) else x
  {
  }

  predicate Has(mask: bv8, a: SigAlg) {
    mask & Mask(a) != 0
  }

  lemma MaskUnion(mask: bv8, a: SigAlg, b: SigAlg)
    ensures Has(mask | Mask(a), b) <==> Has(mask, b) || a == b
    ensures mask | Mask(a) != 0
    ensures !Has(0, b)
  {
    hide Has, Mask;
    if a == b {
      SameBit(mask, a);
    } else {
      OtherBit(mask, a, b);
    }
  }

  lemma MasksAreDistinct(a: SigAlg, b: SigAlg)
    ensures Mask(a) != 0 && (a != b ==> Mask(a) & Mask(b) == 0)
  {
  }

  lemma SameBit(mask: bv8, a: SigAlg)
    ensures Has(mask | Mask(a), a) && mask | Mask(a) != 0 && !Has(0, a)
  {
    MasksAreDistinct(a, a);
    hide Mask;
  }

  lemma OtherBit(mask: bv8, a: SigAlg, b: SigAlg)
    requires a != b
    ensures Has(mask | Mask(a), b) <==> Has(mask, b)
    ensures mask | Mask(a) != 0 && !Has(0, b)
  {
    MasksAreDistinct(a, b);
    hide Mask;
    BitsStay(mask, Mask(a), Mask(b));
  }

  lemma BitsStay(mask: bv8, x: bv8, y: bv8)
    requires x & y == 0
    ensures (mask | x) & y == mask & y
  {
  }

  // ---- Lookup keys ----

  /** A SHA-256 digest; arrays of equal length compare like the number they spell. */
  type Digest = nat

  datatype LookupKey = Pubkey(alg: SigAlg, digest: Digest) | Ca(digest: Digest)

  /** The derived order: the variant, then the fields. */
  predicate Less(a: LookupKey, b: LookupKey) {
    match (a, b)
    case (Pubkey(x, d), Pubkey(y, e)) => Rank(x) < Rank(y) || (x == y && d < e)
    case (Pubkey(_, _), Ca(_)) => true
    case (Ca(_), Pubkey(_, _)) => false
    case (Ca(d), Ca(e)) => d < e
  }

  lemma LessIsTotalOrder(a: LookupKey, b: LookupKey, c: LookupKey)
    ensures !Less(a, a)
    ensures Less(a, b) && Less(b, c) ==> Less(a, c)
    ensures !Less(a, b) && !Less(b, a) ==> a == b
    ensures !Less(b, a) && !Less(c, b) ==> !Less(c, a)
  {
    assert forall x, y {:trigger Rank(x), Rank(y)} :: Rank(x) == Rank(y) ==> x == y;
  }

  datatype Entry = Entry(lookup: LookupKey, hosts: HostPatterns)

  ghost predicate Sorted(es: seq<Entry>) {
    forall i, j :: 0 <= i < j < |es| ==> !Less(es[j].lookup, es[i].lookup)
  }

  // ---- Lines ----

  datatype Marker = RevokedMarker | CertAuthority

  datatype Line = Line(marker: Option<Marker>, alg: Algorithm, digest: Digest, hosts: HostPatterns)

  function RevokedEntry(l: Line): Option<Entry> {
    if l.marker == Some(RevokedMarker) then Some(Entry(Pubkey(FromAlgorithm(l.alg), l.digest), l.hosts)) else None
  }

  /** The entry a line adds to the trusted array: unsupported unmarked keys are ignored. */
  function TrustedEntry(l: Line): Option<Entry> {
    match l.marker
    case Some(RevokedMarker) => None
    case Some(CertAuthority) => Some(Entry(Ca(l.digest), l.hosts))
    case None =>
      var alg := FromAlgorithm(l.alg);
      if alg == SigOther then None else Some(Entry(Pubkey(alg, l.digest), l.hosts))
  }

  /** The entries of the parsed lines (`None` is a line that did not parse), in their order. */
  function Entries(lines: seq<Option<Line>>, pick: Line -> Option<Entry>): (es: seq<Entry>)
    ensures forall e :: e in es <==> exists i :: 0 <= i < |lines| && Picked(lines[i], pick, e)
  {
    if lines == [] then []
    else
      var n := |lines| - 1;
      var before := Entries(lines[..n], pick);
      assert forall i :: 0 <= i < n ==> lines[..n][i] == lines[i];
      if lines[n].Some? && pick(lines[n].value).Some? then before + [pick(lines[n].value).value] else before
  }

  predicate Picked(line: Option<Line>, pick: Line -> Option<Entry>, e: Entry) {
    line.Some? && pick(line.value) == Some(e)
  }

  datatype KnownHosts = KnownHosts(trusted: Option<seq<Entry>>, revoked: Option<seq<Entry>>)

  ghost predicate Holds(stored: Option<seq<Entry>>, es: seq<Entry>) {
    match stored
    case None => es == []
    case Some(s) => es != [] && Sorted(s) && multiset(s) == multiset(es)
  }

  /** What `new` guarantees, whatever order the unstable sort leaves equal keys in. */
  ghost predicate Indexes(kh: KnownHosts, lines: seq<Option<Line>>) {
    Holds(kh.trusted, Entries(lines, TrustedEntry)) && Holds(kh.revoked, Entries(lines, RevokedEntry))
  }

  /** `sort_unstable_by_key`. */
  method SortByLookup(es: seq<Entry>) returns (r: seq<Entry>)
    ensures Sorted(r) && multiset(r) == multiset(es)
  {
    r := [];
    for i := 0 to |es|
      invariant Sorted(r) && multiset(r) == multiset(es[..i])
    {
      var at := PartitionPoint(r, es[i].lookup, 0, |r|);
      InsertSorted(r, es[i], at);
      r := r[..at] + [es[i]] + r[at..];
      assert es[..i + 1] == es[..i] + [es[i]];
    }
    assert es[..|es|] == es;
  }

  lemma InsertSorted(r: seq<Entry>, e: Entry, at: nat)
    requires Sorted(r) && at <= |r|
    requires forall i :: 0 <= i < at ==> Less(r[i].lookup, e.lookup)
    requires forall i :: at <= i < |r| ==> !Less(r[i].lookup, e.lookup)
    ensures Sorted(r[..at] + [e] + r[at..])
    ensures multiset(r[..at] + [e] + r[at..]) == multiset(r) + multiset{e}
  {
    hide Less;
    forall i | 0 <= i < at
      ensures !Less(e.lookup, r[i].lookup)
    {
      LessIsTotalOrder(r[i].lookup, e.lookup, r[i].lookup);
    }
    assert r == r[..at] + r[at..];
  }

  method New(lines: seq<Option<Line>>) returns (kh: KnownHosts)
    ensures Indexes(kh, lines)
  {
    var trusted: Option<seq<Entry>>, revoked: Option<seq<Entry>> := None, None;
    for i := 0 to |lines|
      invariant Gathered(trusted, Entries(lines[..i], TrustedEntry))
      invariant Gathered(revoked, Entries(lines[..i], RevokedEntry))
    {
      assert lines[..i + 1][..i] == lines[..i];
      if lines[i].Some? {
        var l := lines[i].value;
        match l.marker {
          case Some(RevokedMarker) =>
            revoked := Push(revoked, Entry(Pubkey(FromAlgorithm(l.alg), l.digest), l.hosts));
          case Some(CertAuthority) =>
            trusted := Push(trusted, Entry(Ca(l.digest), l.hosts));
          case None =>
            var alg := FromAlgorithm(l.alg);
            if alg != SigOther {
              trusted := Push(trusted, Entry(Pubkey(alg, l.digest), l.hosts));
            }
        }
      }
    }
    assert lines[..|lines|] == lines;
    if trusted.Some? {
      var sorted := SortByLookup(trusted.value);
      trusted := Some(sorted);
    }
    if revoked.Some? {
      var sorted := SortByLookup(revoked.value);
      revoked := Some(sorted);
    }
    kh := KnownHosts(trusted, revoked);
  }

  /** `get_or_insert_default().push(e)`. */
  function Push(entries: Option<seq<Entry>>, e: Entry): Option<seq<Entry>> {
    Some((if entries.Some? then entries.value else []) + [e])
  }

  predicate Gathered(entries: Option<seq<Entry>>, es: seq<Entry>) {
    entries == if es == [] then None else Some(es)
  }

  // ---- Searching ----

  /** `partition_point` for `entry.lookup < key`, by binary search between `lo` and `hi`. */
  function PartitionPoint(es: seq<Entry>, key: LookupKey, lo: nat, hi: nat): (p: nat)
    requires lo <= hi <= |es|
    ensures lo <= p <= hi
    ensures Sorted(es) && (forall i :: 0 <= i < lo ==> Less(es[i].lookup, key))
            && (forall i :: hi <= i < |es| ==> !Less(es[i].lookup, key))
            ==> (forall i :: 0 <= i < p ==> Less(es[i].lookup, key))
                && (forall i :: p <= i < |es| ==> !Less(es[i].lookup, key))
    decreases hi - lo
  {
    if lo == hi then lo
    else
      var mid := (lo + hi) / 2;
      MidpointOrder(es, key, mid);
      if Less(es[mid].lookup, key) then PartitionPoint(es, key, mid + 1, hi) else PartitionPoint(es, key, lo, mid)
  }

  lemma MidpointOrder(es: seq<Entry>, key: LookupKey, mid: nat)
    requires mid < |es|
    ensures Sorted(es) && Less(es[mid].lookup, key) ==> forall i :: 0 <= i < mid ==> Less(es[i].lookup, key)
    ensures Sorted(es) && !Less(es[mid].lookup, key) ==> forall i :: mid <= i < |es| ==> !Less(es[i].lookup, key)
  {
    if Sorted(es) {
      forall i | 0 <= i < mid && Less(es[mid].lookup, key)
        ensures Less(es[i].lookup, key)
      {
        LessIsTotalOrder(key, es[i].lookup, es[mid].lookup);
        LessIsTotalOrder(es[i].lookup, es[mid].lookup, key);
      }
      forall i | mid <= i < |es| && !Less(es[mid].lookup, key)
        ensures !Less(es[i].lookup, key)
      {
        LessIsTotalOrder(key, es[mid].lookup, es[i].lookup);
      }
    }
  }

  /** `take_while(lookup == key).any(host_matched)` from index `at`. */
  predicate AnyWhileEqual(es: seq<Entry>, at: nat, key: LookupKey, matches: HostPatterns -> bool)
    requires at <= |es|
    decreases |es| - at
  {
    at < |es| && es[at].lookup == key && (matches(es[at].hosts) || AnyWhileEqual(es, at + 1, key, matches))
  }

  predicate ContainsEntry(es: seq<Entry>, key: LookupKey, matches: HostPatterns -> bool) {
    AnyWhileEqual(es, PartitionPoint(es, key, 0, |es|), key, matches)
  }

  predicate Hit(e: Entry, key: LookupKey, matches: HostPatterns -> bool) {
    e.lookup == key && matches(e.hosts)
  }

  lemma {:induction false} AnyWhileEqualFinds(es: seq<Entry>, at: nat, key: LookupKey, matches: HostPatterns -> bool)
    requires Sorted(es) && at <= |es|
    requires forall i :: at <= i < |es| ==> !Less(es[i].lookup, key)
    ensures AnyWhileEqual(es, at, key, matches) <==> exists i :: at <= i < |es| && Hit(es[i], key, matches)
    decreases |es| - at
  {
    if at < |es| && es[at].lookup == key {
      AnyWhileEqualFinds(es, at + 1, key, matches);
      assert Hit(es[at], key, matches) <==> matches(es[at].hosts);
    } else if at < |es| {
      forall i | at <= i < |es|
        ensures es[i].lookup != key
      {
        LessIsTotalOrder(es[at].lookup, key, key);
      }
    }
  }

  /** On a sorted array the binary search finds an entry iff there is one. */
  lemma SearchIsScan(es: seq<Entry>, key: LookupKey, matches: HostPatterns -> bool)
    requires Sorted(es)
    ensures ContainsEntry(es, key, matches) <==> exists e :: e in es && Hit(e, key, matches)
  {
    var p := PartitionPoint(es, key, 0, |es|);
    AnyWhileEqualFinds(es, p, key, matches);
    forall e | e in es && Hit(e, key, matches)
      ensures ContainsEntry(es, key, matches)
    {
      var i :| 0 <= i < |es| && es[i] == e;
      LessIsTotalOrder(key, key, key);
      assert i >= p;
    }
  }
}
