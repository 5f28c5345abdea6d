// `KnownHostsHandler`: the results of checking a key or certificate (src/known_hosts.rs).
module TrustDecisions {
  import opened Text
  import opened HostGlob
  import opened KnownHosts

  datatype Handler = Handler(known: KnownHosts, host: string, port: nat, lib: Library)
  {
    /** `host_matched`: port 22 is passed as no port. */
    function Matches(): HostPatterns -> bool {
      hosts => HostMatched(lib, host, if port == 22 then None else Some(Decimal(port)), hosts)
    }

    predicate IsTrusted(key: LookupKey) {
      known.trusted.Some? && ContainsEntry(known.trusted.value, key, Matches())
    }

    predicate IsRevoked(key: LookupKey) {
      known.revoked.Some? && ContainsEntry(known.revoked.value, key, Matches())
    }

    predicate HasPubkeys() {
      known.trusted.Some? && exists e :: e in known.trusted.value && e.lookup.Pubkey? && Matches()(e.hosts)
    }

    /** `check_public_key_impl`. */
    function CheckPublicKey(digest: Digest, alg: SigAlg): MatchResult {
      var lookup := Pubkey(alg, digest);
      if IsRevoked(lookup) then Revoked
      else if alg != SigOther && IsTrusted(lookup) then Found
      else if HasPubkeys() then KeyMismatch
      else NotFound
    }

    function CheckCert(cert: Certificate): MatchResult {
      if !cert.isHost then CertNotVerified
      else if cert.criticalOptions then UnknownCriticalOptions
      else if !PrincipalsMatched(lib, host, cert.principals) then PrincipalMismatch
      else if IsRevoked(Pubkey(FromAlgorithm(cert.signatureKey.0), cert.signatureKey.1))
           || IsRevoked(Pubkey(FromAlgorithm(cert.publicKey.0), cert.publicKey.1)) then Revoked
      else if !IsTrusted(Ca(cert.signatureKey.1)) then CertNotVerified
      else if cert.validates then Found
      else CheckPublicKey(cert.publicKey.1, FromAlgorithm(cert.alg))
    }
  }

  datatype MatchResult =
    | Found
    | NotFound
    | KeyMismatch
    | Revoked
    | PrincipalMismatch
    | UnknownCriticalOptions
    | CertNotVerified

  /** Keys are pairs of algorithm and digest; `validates` is the library's answer for the CA. */
  datatype Certificate = Certificate(
    isHost: bool, criticalOptions: bool, principals: seq<string>,
    signatureKey: (Algorithm, Digest), publicKey: (Algorithm, Digest), alg: Algorithm, validates: bool)

  // ---- Hosts and ports ----

  lemma {:induction false} DecimalIsInjective(m: nat, n: nat)
    requires Decimal(m) == Decimal(n)
    ensures m == n
  {
    DecimalRoundTrip(m);
    DecimalRoundTrip(n);
  }

  /** A plain host without a port covers port 22 only; `[host]:port` covers exactly that port, 22 or
      not. */
  lemma PlainPatterns(h: Handler, host: string, port: nat)
    requires host != "" && host[0] != '!' && !HasWildcard(host) && LastSeparator(host).None?
    ensures h.Matches()(Patterns([host])) <==> h.host == host && h.port == 22
    ensures h.Matches()(Patterns(["[" + host + "]:" + Decimal(port)])) <==> h.host == host && h.port == port
  {
    hide GlobMatches, Covers;
    var portText := if h.port == 22 then None else Some(Decimal(h.port));
    PlainHost(h.lib, h.host, portText, host);
    BracketedHost(h, host, port);
    MatchesPatterns(h, portText, [host]);
    MatchesPatterns(h, portText, ["[" + host + "]:" + Decimal(port)]);
  }

  /** A hashed name is that of the host for port 22, and of `[host]:port` for any other port. */
  lemma HashedNames(h: Handler, salt: seq<nat>, hash: seq<nat>)
    ensures h.Matches()(HashedName(salt, hash)) <==>
      hash == h.lib.hmac(salt, if h.port == 22 then h.host else "[" + h.host + "]:" + Decimal(h.port))
  {
    var portText := if h.port == 22 then None else Some(Decimal(h.port));
    var hosts := HashedName(salt, hash);
    assert h.Matches()(hosts) == HostMatched(h.lib, h.host, portText, hosts);
  }

  lemma MatchesPatterns(h: Handler, portText: Option<string>, pats: seq<string>)
    requires portText == if h.port == 22 then None else Some(Decimal(h.port))
    ensures h.Matches()(Patterns(pats)) <==> PlainMatches(h.lib, h.host, portText, pats)
  {
    assert h.Matches()(Patterns(pats)) == HostMatched(h.lib, h.host, portText, Patterns(pats));
  }

  lemma PlainHost(lib: Library, asked: string, portText: Option<string>, host: string)
    requires host != "" && host[0] != '!' && !HasWildcard(host) && LastSeparator(host).None?
    ensures PlainMatches(lib, asked, portText, [host]) <==> asked == host && portText.None?
  {
    hide GlobMatches, PlainMatches, HasWildcard;
    SinglePattern(lib, asked, portText, host);
    NoWildcard(lib, asked, host);
  }

  lemma BracketedHost(h: Handler, host: string, port: nat)
    requires !HasWildcard(host)
    ensures var portText := if h.port == 22 then None else Some(Decimal(h.port));
      PlainMatches(h.lib, h.host, portText, ["[" + host + "]:" + Decimal(port)]) <==> h.host == host && h.port == port
  {
    hide GlobMatches, PlainMatches, HasWildcard;
    var portText := if h.port == 22 then None else Some(Decimal(h.port));
    var pat := "[" + host + "]:" + Decimal(port);
    LastSeparatorIs("[" + host, Decimal(port));
    SinglePattern(h.lib, h.host, portText, pat);
    NoWildcard(h.lib, h.host, host);
    DecimalIsPlain(port);
    NoWildcard(h.lib, Decimal(h.port), Decimal(port));
    assert Decimal(22) == "22";
    assert pat[..|host| + 1] == "[" + host && ("[" + host)[1..] == host;
    assert pat[|host| + 3..] == Decimal(port);
    if h.port != port && Decimal(h.port) == Decimal(port) {
      DecimalIsInjective(h.port, port);
    }
  }

  lemma DecimalIsPlain(n: nat)
    ensures !HasWildcard(Decimal(n))
  {
  }

  lemma NoWildcard(lib: Library, needle: string, pattern: string)
    requires !HasWildcard(pattern)
    ensures GlobMatches(lib, needle, pattern) <==> needle == pattern
  {
  }

  lemma SinglePattern(lib: Library, host: string, port: Option<string>, pat: string)
    requires !IsNegated(pat)
    ensures PlainMatches(lib, host, port, [pat]) <==> Covers(lib, host, port, pat)
  {
    hide Covers;
    assert pat in [pat];
    assert Positive(lib, host, port, pat) <==> Covers(lib, host, port, pat);
  }

  // ---- The same decisions, by scanning the lines ----

  predicate SomeLine(lines: seq<Option<Line>>, p: Line -> bool) {
    exists i :: 0 <= i < |lines| && Selected(lines[i], p)
  }

  predicate Selected(line: Option<Line>, p: Line -> bool) {
    line.Some? && p(line.value)
  }

  /** A file together with the host being looked up. */
  datatype Scan = Scan(lines: seq<Option<Line>>, lib: Library, host: string, matches: HostPatterns -> bool)
  {
    predicate RevokedKey(alg: SigAlg, digest: Digest) {
      SomeLine(lines, (l: Line) =>
        l.marker == Some(RevokedMarker) && FromAlgorithm(l.alg) == alg && l.digest == digest && matches(l.hosts))
    }

    predicate TrustedKey(alg: SigAlg, digest: Digest) {
      alg != SigOther && SomeLine(lines, (l: Line) =>
        l.marker == None && FromAlgorithm(l.alg) == alg && l.digest == digest && matches(l.hosts))
    }

    predicate TrustedCa(digest: Digest) {
      SomeLine(lines, (l: Line) => l.marker == Some(CertAuthority) && l.digest == digest && matches(l.hosts))
    }

    predicate KnownAlg(alg: SigAlg) {
      alg != SigOther && SomeLine(lines, (l: Line) =>
        l.marker == None && FromAlgorithm(l.alg) == alg && matches(l.hosts))
    }

    predicate AnyKey() {
      exists alg :: KnownAlg(alg)
    }

    function PublicKeyResult(digest: Digest, alg: SigAlg): MatchResult {
      if RevokedKey(alg, digest) then Revoked
      else if TrustedKey(alg, digest) then Found
      else if AnyKey() then KeyMismatch
      else NotFound
    }

    function CertResult(cert: Certificate): MatchResult {
      if !cert.isHost then CertNotVerified
      else if cert.criticalOptions then UnknownCriticalOptions
      else if !PrincipalsMatched(lib, host, cert.principals) then PrincipalMismatch
      else if RevokedKey(FromAlgorithm(cert.signatureKey.0), cert.signatureKey.1)
           || RevokedKey(FromAlgorithm(cert.publicKey.0), cert.publicKey.1) then Revoked
      else if !TrustedCa(cert.signatureKey.1) then CertNotVerified
      else if cert.validates then Found
      else PublicKeyResult(cert.publicKey.1, FromAlgorithm(cert.alg))
    }
  }

  function ScanFor(h: Handler, lines: seq<Option<Line>>): Scan {
    Scan(lines, h.lib, h.host, h.Matches())
  }

  // ---- The index agrees with the scan ----

  lemma StoredHas(stored: Option<seq<Entry>>, es: seq<Entry>, e: Entry)
    requires Holds(stored, es)
    ensures stored.Some? && e in stored.value <==> e in es
  {
    if stored.Some? {
      assert e in stored.value <==> e in multiset(stored.value);
    }
  }

  /** A lookup in a stored array, in terms of the lines it came from. */
  lemma StoredLookup(stored: Option<seq<Entry>>, lines: seq<Option<Line>>, pick: Line -> Option<Entry>,
                     key: LookupKey, matches: HostPatterns -> bool)
    requires Holds(stored, Entries(lines, pick))
    ensures stored.Some? && ContainsEntry(stored.value, key, matches)
       <==> SomeLine(lines, (l: Line) => pick(l).Some? && Hit(pick(l).value, key, matches))
  {
    var p := (l: Line) => pick(l).Some? && Hit(pick(l).value, key, matches);
    var es := Entries(lines, pick);
    if stored.Some? {
      SearchIsScan(stored.value, key, matches);
    }
    forall e | stored.Some? && e in stored.value && Hit(e, key, matches)
      ensures SomeLine(lines, p)
    {
      StoredHas(stored, es, e);
      var i :| 0 <= i < |lines| && Picked(lines[i], pick, e);
      assert Selected(lines[i], p);
    }
    forall i | 0 <= i < |lines| && Selected(lines[i], p)
      ensures stored.Some? && exists e :: e in stored.value && Hit(e, key, matches)
    {
      var e := pick(lines[i].value).value;
      assert Picked(lines[i], pick, e);
      StoredHas(stored, es, e);
      assert e in stored.value && Hit(e, key, matches);
    }
  }

  /** Two line predicates that agree select the same. */
  lemma SameSelection(lines: seq<Option<Line>>, p: Line -> bool, q: Line -> bool)
    requires forall l :: p(l) <==> q(l)
    ensures SomeLine(lines, p) <==> SomeLine(lines, q)
  {
    forall i | 0 <= i < |lines|
      ensures Selected(lines[i], p) <==> Selected(lines[i], q)
    {
    }
  }

  lemma RevokedAgrees(h: Handler, lines: seq<Option<Line>>, alg: SigAlg, digest: Digest)
    requires Indexes(h.known, lines)
    ensures h.IsRevoked(Pubkey(alg, digest)) <==> ScanFor(h, lines).RevokedKey(alg, digest)
  {
    hide HostMatched, ContainsEntry;
    var m := h.Matches();
    StoredLookup(h.known.revoked, lines, RevokedEntry, Pubkey(alg, digest), m);
    SameSelection(lines,
      (l: Line) => RevokedEntry(l).Some? && Hit(RevokedEntry(l).value, Pubkey(alg, digest), m),
      (l: Line) => l.marker == Some(RevokedMarker) && FromAlgorithm(l.alg) == alg && l.digest == digest && m(l.hosts));
  }

  lemma TrustedAgrees(h: Handler, lines: seq<Option<Line>>, alg: SigAlg, digest: Digest)
    requires Indexes(h.known, lines)
    ensures alg != SigOther && h.IsTrusted(Pubkey(alg, digest)) <==> ScanFor(h, lines).TrustedKey(alg, digest)
  {
    hide HostMatched, ContainsEntry;
    if alg != SigOther {
      var m := h.Matches();
      StoredLookup(h.known.trusted, lines, TrustedEntry, Pubkey(alg, digest), m);
      SameSelection(lines,
        (l: Line) => TrustedEntry(l).Some? && Hit(TrustedEntry(l).value, Pubkey(alg, digest), m),
        (l: Line) => l.marker == None && FromAlgorithm(l.alg) == alg && l.digest == digest && m(l.hosts));
    }
  }

  lemma CaAgrees(h: Handler, lines: seq<Option<Line>>, digest: Digest)
    requires Indexes(h.known, lines)
    ensures h.IsTrusted(Ca(digest)) <==> ScanFor(h, lines).TrustedCa(digest)
  {
    hide HostMatched, ContainsEntry;
    var m := h.Matches();
    StoredLookup(h.known.trusted, lines, TrustedEntry, Ca(digest), m);
    SameSelection(lines,
      (l: Line) => TrustedEntry(l).Some? && Hit(TrustedEntry(l).value, Ca(digest), m),
      (l: Line) => l.marker == Some(CertAuthority) && l.digest == digest && m(l.hosts));
  }

  /** An unmarked, supported, matching line, and the entry it became. */
  lemma KnownAlgIsStored(known: KnownHosts, lines: seq<Option<Line>>, s: Scan, alg: SigAlg)
    requires Indexes(known, lines) && s.lines == lines
    ensures s.KnownAlg(alg) <==>
      known.trusted.Some? && exists e :: e in known.trusted.value && StoredFor(e, alg, s.matches)
  {
    var p := (l: Line) => l.marker == None && FromAlgorithm(l.alg) == alg && s.matches(l.hosts);
    var es := Entries(lines, TrustedEntry);
    forall i | 0 <= i < |lines| && alg != SigOther && Selected(lines[i], p)
      ensures known.trusted.Some? && exists e :: e in known.trusted.value && StoredFor(e, alg, s.matches)
    {
      var e := TrustedEntry(lines[i].value).value;
      assert Picked(lines[i], TrustedEntry, e);
      StoredHas(known.trusted, es, e);
      assert StoredFor(e, alg, s.matches);
    }
    forall e | known.trusted.Some? && e in known.trusted.value && StoredFor(e, alg, s.matches)
      ensures s.KnownAlg(alg)
    {
      StoredHas(known.trusted, es, e);
      var i :| 0 <= i < |lines| && Picked(lines[i], TrustedEntry, e);
      assert Selected(lines[i], p);
    }
  }

  predicate StoredFor(e: Entry, alg: SigAlg, matches: HostPatterns -> bool) {
    e.lookup.Pubkey? && e.lookup.alg == alg && matches(e.hosts)
  }

  lemma HasPubkeysAgrees(h: Handler, lines: seq<Option<Line>>)
    requires Indexes(h.known, lines)
    ensures h.HasPubkeys() <==> ScanFor(h, lines).AnyKey()
  {
    var s := ScanFor(h, lines);
    forall alg | s.KnownAlg(alg)
      ensures h.HasPubkeys()
    {
      KnownAlgIsStored(h.known, lines, s, alg);
    }
    if h.HasPubkeys() {
      var e :| e in h.known.trusted.value && e.lookup.Pubkey? && h.Matches()(e.hosts);
      assert StoredFor(e, e.lookup.alg, s.matches);
      KnownAlgIsStored(h.known, lines, s, e.lookup.alg);
    }
  }

  /** Every public-key result is that of a scan of the unsorted lines. */
  lemma PublicKeyResultIsScan(h: Handler, lines: seq<Option<Line>>, digest: Digest, alg: SigAlg)
    requires Indexes(h.known, lines)
    ensures h.CheckPublicKey(digest, alg) == ScanFor(h, lines).PublicKeyResult(digest, alg)
  {
    RevokedAgrees(h, lines, alg, digest);
    TrustedAgrees(h, lines, alg, digest);
    HasPubkeysAgrees(h, lines);
  }

  /** Every certificate result is that of a scan of the unsorted lines. */
  lemma CertResultIsScan(h: Handler, lines: seq<Option<Line>>, cert: Certificate)
    requires Indexes(h.known, lines)
    ensures h.CheckCert(cert) == ScanFor(h, lines).CertResult(cert)
  {
    RevokedAgrees(h, lines, FromAlgorithm(cert.signatureKey.0), cert.signatureKey.1);
    RevokedAgrees(h, lines, FromAlgorithm(cert.publicKey.0), cert.publicKey.1);
    CaAgrees(h, lines, cert.signatureKey.1);
    PublicKeyResultIsScan(h, lines, cert.publicKey.1, FromAlgorithm(cert.alg));
  }

  // ---- Order and monotonicity ----

  /** Selection only depends on which lines there are. */
  lemma SelectionGrows(lines: seq<Option<Line>>, more: seq<Option<Line>>, p: Line -> bool)
    requires forall l :: l in lines && Selected(l, p) ==> l in more
    ensures SomeLine(lines, p) ==> SomeLine(more, p)
  {
    if i: int :| 0 <= i < |lines| && Selected(lines[i], p) {
      var j :| 0 <= j < |more| && more[j] == lines[i];
    }
  }

  /** The lines of `more` are those of `lines` and others that all satisfy `added`. */
  ghost predicate Extends(lines: seq<Option<Line>>, more: seq<Option<Line>>, added: Line -> bool) {
    (forall l :: l in lines ==> l in more) && (forall l :: l in more && l !in lines ==> Selected(l, added))
  }

  lemma SelectionExtends(lines: seq<Option<Line>>, more: seq<Option<Line>>, added: Line -> bool, p: Line -> bool)
    requires Extends(lines, more, added)
    ensures SomeLine(lines, p) ==> SomeLine(more, p)
    ensures (forall l :: added(l) ==> !p(l)) ==> (SomeLine(lines, p) <==> SomeLine(more, p))
  {
    SelectionGrows(lines, more, p);
    if forall l :: added(l) ==> !p(l) {
      SelectionGrows(more, lines, p);
    }
  }

  lemma ScansExtend(s: Scan, t: Scan, added: Line -> bool, alg: SigAlg, digest: Digest)
    requires Extends(s.lines, t.lines, added) && s.matches == t.matches
    ensures s.RevokedKey(alg, digest) ==> t.RevokedKey(alg, digest)
    ensures s.TrustedKey(alg, digest) ==> t.TrustedKey(alg, digest)
    ensures s.AnyKey() ==> t.AnyKey()
    ensures (forall l :: added(l) ==> l.marker.None?) ==>
      (s.RevokedKey(alg, digest) <==> t.RevokedKey(alg, digest)) && (s.TrustedCa(digest) <==> t.TrustedCa(digest))
    ensures (forall l :: added(l) ==> l.marker == Some(RevokedMarker)) ==>
      (s.TrustedKey(alg, digest) <==> t.TrustedKey(alg, digest)) && (s.TrustedCa(digest) <==> t.TrustedCa(digest))
      && (s.AnyKey() <==> t.AnyKey())
  {
    var m := s.matches;
    SelectionExtends(s.lines, t.lines, added, (l: Line) =>
      l.marker == Some(RevokedMarker) && FromAlgorithm(l.alg) == alg && l.digest == digest && m(l.hosts));
    SelectionExtends(s.lines, t.lines, added, (l: Line) =>
      l.marker == None && FromAlgorithm(l.alg) == alg && l.digest == digest && m(l.hosts));
    SelectionExtends(s.lines, t.lines, added, (l: Line) =>
      l.marker == Some(CertAuthority) && l.digest == digest && m(l.hosts));
    forall a | a != SigOther
      ensures s.KnownAlg(a) ==> t.KnownAlg(a)
      ensures (forall l :: added(l) ==> l.marker == Some(RevokedMarker)) ==> (s.KnownAlg(a) <==> t.KnownAlg(a))
    {
      SelectionExtends(s.lines, t.lines, added, (l: Line) =>
        l.marker == None && FromAlgorithm(l.alg) == a && m(l.hosts));
    }
  }

  /** The order of the lines does not matter to any check. */
  lemma OrderDoesNotMatter(h: Handler, lines: seq<Option<Line>>, h': Handler, lines': seq<Option<Line>>,
                           digest: Digest, alg: SigAlg, cert: Certificate)
    requires Indexes(h.known, lines) && Indexes(h'.known, lines') && h' == h.(known := h'.known)
    requires multiset(lines) == multiset(lines')
    ensures h.CheckPublicKey(digest, alg) == h'.CheckPublicKey(digest, alg)
    ensures h.CheckCert(cert) == h'.CheckCert(cert)
  {
    var s, t := ScanFor(h, lines), ScanFor(h', lines');
    assert forall l :: l in lines <==> l in multiset(lines);
    assert forall l :: l in lines' <==> l in multiset(lines');
    SameLines(s, t, digest, alg);
    SameLines(s, t, cert.signatureKey.1, FromAlgorithm(cert.signatureKey.0));
    SameLines(s, t, cert.publicKey.1, FromAlgorithm(cert.publicKey.0));
    SameLines(s, t, cert.publicKey.1, FromAlgorithm(cert.alg));
    PublicKeyResultIsScan(h, lines, digest, alg);
    PublicKeyResultIsScan(h', lines', digest, alg);
    CertResultIsScan(h, lines, cert);
    CertResultIsScan(h', lines', cert);
  }

  /** Two files with the same lines give the same answers. */
  lemma SameLines(s: Scan, t: Scan, digest: Digest, alg: SigAlg)
    requires (forall l :: l in s.lines <==> l in t.lines) && s.matches == t.matches
    ensures s.RevokedKey(alg, digest) <==> t.RevokedKey(alg, digest)
    ensures s.TrustedKey(alg, digest) <==> t.TrustedKey(alg, digest)
    ensures s.TrustedCa(digest) <==> t.TrustedCa(digest)
    ensures s.KnownAlg(alg) <==> t.KnownAlg(alg)
    ensures s.AnyKey() <==> t.AnyKey()
  {
    var m := s.matches;
    var known := (l: Line) => l.marker == None && FromAlgorithm(l.alg) == alg && m(l.hosts);
    SelectionGrows(s.lines, t.lines, known);
    SelectionGrows(t.lines, s.lines, known);
    var none := (l: Line) => false;
    ScansExtend(s, t, none, alg, digest);
    ScansExtend(t, s, none, alg, digest);
  }

  /** Adding `@revoked` lines anywhere leaves a result as it is or makes it `Revoked`. */
  lemma RevokingIsMonotone(s: Scan, t: Scan, digest: Digest, alg: SigAlg, cert: Certificate)
    requires Extends(s.lines, t.lines, (l: Line) => l.marker == Some(RevokedMarker))
    requires s.matches == t.matches && s.host == t.host && s.lib == t.lib
    ensures t.PublicKeyResult(digest, alg) in {s.PublicKeyResult(digest, alg), Revoked}
    ensures t.CertResult(cert) in {s.CertResult(cert), Revoked}
  {
    var added := (l: Line) => l.marker == Some(RevokedMarker);
    ScansExtend(s, t, added, alg, digest);
    ScansExtend(s, t, added, FromAlgorithm(cert.signatureKey.0), cert.signatureKey.1);
    ScansExtend(s, t, added, FromAlgorithm(cert.publicKey.0), cert.publicKey.1);
    ScansExtend(s, t, added, FromAlgorithm(cert.alg), cert.publicKey.1);
  }

  function TrustLevel(r: MatchResult): nat {
    match r
    case NotFound => 0
    case KeyMismatch => 1
    case Found => 2
    case _ => 3
  }

  /** Adding unmarked lines anywhere moves a public-key result only up NotFound, KeyMismatch, Found. */
  lemma TrustingIsMonotone(s: Scan, t: Scan, digest: Digest, alg: SigAlg)
    requires Extends(s.lines, t.lines, (l: Line) => l.marker.None?)
    requires s.matches == t.matches
    ensures s.PublicKeyResult(digest, alg) == Revoked <==> t.PublicKeyResult(digest, alg) == Revoked
    ensures TrustLevel(s.PublicKeyResult(digest, alg)) <= TrustLevel(t.PublicKeyResult(digest, alg))
  {
    ScansExtend(s, t, (l: Line) => l.marker.None?, alg, digest);
  }

  // ---- What the results mean ----

  /** A line of this kind for the host, with this key. */
  predicate IsLineFor(h: Handler, line: Option<Line>, marker: Option<Marker>, alg: Algorithm, digest: Digest) {
    && line.Some? && line.value.marker == marker && SameKind(line.value.alg, alg) && line.value.digest == digest
    && h.Matches()(line.value.hosts)
  }

  ghost predicate HasLineFor(h: Handler, lines: seq<Option<Line>>, marker: Option<Marker>, alg: Algorithm,
                             digest: Digest)
  {
    exists line :: line in lines && IsLineFor(h, line, marker, alg, digest)
  }

  /** An unmarked line for the host, whatever its key, if it is supported. */
  predicate IsKeyLine(h: Handler, line: Option<Line>) {
    line.Some? && line.value.marker == None && Supported(line.value.alg) && h.Matches()(line.value.hosts)
  }

  ghost predicate HasKeyLine(h: Handler, lines: seq<Option<Line>>) {
    exists line :: line in lines && IsKeyLine(h, line)
  }

  predicate IsCaLine(h: Handler, line: Option<Line>, digest: Digest) {
    && line.Some? && line.value.marker == Some(CertAuthority) && line.value.digest == digest
    && h.Matches()(line.value.hosts)
  }

  ghost predicate HasCaLine(h: Handler, lines: seq<Option<Line>>, digest: Digest) {
    exists line :: line in lines && IsCaLine(h, line, digest)
  }

  lemma SomeLineIs(lines: seq<Option<Line>>, p: Line -> bool)
    ensures SomeLine(lines, p) <==> exists line :: line in lines && Selected(line, p)
  {
    if line :| line in lines && Selected(line, p) {
      var i :| 0 <= i < |lines| && lines[i] == line;
      assert Selected(lines[i], p);
    }
  }

  lemma RevokedKeyMeans(h: Handler, lines: seq<Option<Line>>, alg: Algorithm, digest: Digest)
    ensures ScanFor(h, lines).RevokedKey(FromAlgorithm(alg), digest)
      <==> HasLineFor(h, lines, Some(RevokedMarker), alg, digest)
  {
    var m, a := h.Matches(), FromAlgorithm(alg);
    var p := (l: Line) =>
      l.marker == Some(RevokedMarker) && FromAlgorithm(l.alg) == a && l.digest == digest && m(l.hosts);
    SomeLineIs(lines, p);
    forall line
      ensures Selected(line, p) <==> IsLineFor(h, line, Some(RevokedMarker), alg, digest)
    {
      if line.Some? {
        FromAlgorithmIs(line.value.alg, alg);
      }
    }
    hide SomeLine, Selected, IsLineFor, HostMatched, FromAlgorithm;
    assert ScanFor(h, lines).RevokedKey(a, digest) <==> SomeLine(lines, p);
  }

  lemma TrustedKeyMeans(h: Handler, lines: seq<Option<Line>>, alg: Algorithm, digest: Digest)
    ensures ScanFor(h, lines).TrustedKey(FromAlgorithm(alg), digest)
      <==> Supported(alg) && HasLineFor(h, lines, None, alg, digest)
  {
    var m, a := h.Matches(), FromAlgorithm(alg);
    var p := (l: Line) => l.marker == None && FromAlgorithm(l.alg) == a && l.digest == digest && m(l.hosts);
    SomeLineIs(lines, p);
    FromAlgorithmIs(alg, alg);
    forall line
      ensures Selected(line, p) <==> IsLineFor(h, line, None, alg, digest)
    {
      if line.Some? {
        FromAlgorithmIs(line.value.alg, alg);
      }
    }
    hide SomeLine, Selected, IsLineFor, HostMatched, FromAlgorithm;
    assert ScanFor(h, lines).TrustedKey(a, digest) <==> a != SigOther && SomeLine(lines, p);
  }

  lemma TrustedCaMeans(h: Handler, lines: seq<Option<Line>>, digest: Digest)
    ensures ScanFor(h, lines).TrustedCa(digest) <==> HasCaLine(h, lines, digest)
  {
    var m := h.Matches();
    var p := (l: Line) => l.marker == Some(CertAuthority) && l.digest == digest && m(l.hosts);
    SomeLineIs(lines, p);
    assert forall line :: Selected(line, p) <==> IsCaLine(h, line, digest);
    hide SomeLine, Selected, IsCaLine, HostMatched;
    assert ScanFor(h, lines).TrustedCa(digest) <==> SomeLine(lines, p);
  }

  lemma AnyKeyMeans(h: Handler, lines: seq<Option<Line>>)
    ensures ScanFor(h, lines).AnyKey() <==> HasKeyLine(h, lines)
  {
    var s, m := ScanFor(h, lines), h.Matches();
    forall a | s.KnownAlg(a)
      ensures HasKeyLine(h, lines)
    {
      var p := (l: Line) => l.marker == None && FromAlgorithm(l.alg) == a && m(l.hosts);
      SomeLineIs(lines, p);
      var line :| line in lines && Selected(line, p);
      FromAlgorithmIs(line.value.alg, line.value.alg);
      assert IsKeyLine(h, line);
    }
    if line :| line in lines && IsKeyLine(h, line) {
      var a := FromAlgorithm(line.value.alg);
      FromAlgorithmIs(line.value.alg, line.value.alg);
      var p := (l: Line) => l.marker == None && FromAlgorithm(l.alg) == a && m(l.hosts);
      assert Selected(line, p);
      SomeLineIs(lines, p);
      assert s.KnownAlg(a);
    }
  }

  /** What each result of `check_public_key` says about the lines of the file. */
  lemma PublicKeyResultMeans(h: Handler, lines: seq<Option<Line>>, alg: Algorithm, digest: Digest)
    requires Indexes(h.known, lines)
    ensures var r := h.CheckPublicKey(digest, FromAlgorithm(alg));
      var revoked := HasLineFor(h, lines, Some(RevokedMarker), alg, digest);
      var trusted := Supported(alg) && HasLineFor(h, lines, None, alg, digest);
      && (r == Revoked <==> revoked)
      && (r == Found <==> trusted && !revoked)
      && (r == KeyMismatch <==> HasKeyLine(h, lines) && !trusted && !revoked)
      && (r == NotFound <==> !HasKeyLine(h, lines) && !revoked)
  {
    PublicKeyResultIsScan(h, lines, digest, FromAlgorithm(alg));
    RevokedKeyMeans(h, lines, alg, digest);
    TrustedKeyMeans(h, lines, alg, digest);
    AnyKeyMeans(h, lines);
    hide HostMatched, SomeLine, FromAlgorithm;
    forall line | line in lines && IsLineFor(h, line, None, alg, digest) && Supported(alg)
      ensures IsKeyLine(h, line)
    {
    }
  }

  /** What each result of `check_cert` says about the certificate and the lines of the file. */
  lemma CertResultMeans(h: Handler, lines: seq<Option<Line>>, cert: Certificate)
    requires Indexes(h.known, lines)
    ensures var r := h.CheckCert(cert);
      var named := cert.principals == [] || exists p :: p in cert.principals && Promised(h.lib, h.host, p);
      var accepted := cert.isHost && !cert.criticalOptions && named;
      var revoked := HasLineFor(h, lines, Some(RevokedMarker), cert.signatureKey.0, cert.signatureKey.1)
                  || HasLineFor(h, lines, Some(RevokedMarker), cert.publicKey.0, cert.publicKey.1);
      var signed := HasCaLine(h, lines, cert.signatureKey.1);
      && (r == UnknownCriticalOptions <==> cert.isHost && cert.criticalOptions)
      && (r == PrincipalMismatch <==> cert.isHost && !cert.criticalOptions && !named)
      && (r == CertNotVerified <==> !cert.isHost || (accepted && !revoked && !signed))
      && (accepted && revoked ==> r == Revoked)
      && (accepted && !revoked && signed && cert.validates ==> r == Found)
      && (accepted && !revoked && signed && !cert.validates ==>
            r == h.CheckPublicKey(cert.publicKey.1, FromAlgorithm(cert.alg)))
  {
    CertResultIsScan(h, lines, cert);
    PublicKeyResultIsScan(h, lines, cert.publicKey.1, FromAlgorithm(cert.alg));
    PrincipalsMean(h.lib, h.host, cert.principals);
    RevokedKeyMeans(h, lines, cert.signatureKey.0, cert.signatureKey.1);
    RevokedKeyMeans(h, lines, cert.publicKey.0, cert.publicKey.1);
    TrustedCaMeans(h, lines, cert.signatureKey.1);
    hide HostMatched, SomeLine, FromAlgorithm, HasLineFor, HasCaLine, Promised, PrincipalsMatched;
  }

  /** The key of a line for the host is never missed, whichever its supported algorithm is. */
  lemma KnownKeyIsFound(h: Handler, lines: seq<Option<Line>>, l: Line)
    requires Indexes(h.known, lines) && Some(l) in lines
    requires l.marker == None && h.Matches()(l.hosts)
    requires l.alg in {Ed25519, Ecdsa(NistP256), Ecdsa(NistP384), Ecdsa(NistP521),
                       Rsa(None), Rsa(Some(Sha256)), Rsa(Some(Sha512))}
    ensures h.CheckPublicKey(l.digest, FromAlgorithm(l.alg)) in {Found, Revoked}
    ensures h.CheckPublicKey(l.digest, FromAlgorithm(l.alg)) == Revoked
      <==> HasLineFor(h, lines, Some(RevokedMarker), l.alg, l.digest)
  {
    PublicKeyResultMeans(h, lines, l.alg, l.digest);
    assert IsLineFor(h, Some(l), None, l.alg, l.digest);
  }
}
