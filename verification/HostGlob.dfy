// Host matching (`verify_plain` and `matched_glob` of src/known_hosts.rs). Here a character is a
// Unicode character, as in the glob library.
module HostGlob {
  import opened Text

  /** What other libraries answer: HMAC-SHA1 of a salt and a message, and whether a needle matches a
      glob pattern that holds `**`. */
  datatype Library = Library(hmac: (seq<nat>, string) -> seq<nat>, doubleStar: (string, string) -> bool)

  // ---- A reference for glob patterns ----

  datatype Token = AnyChar | AnySequence | Exactly(c: char) | Within(specs: string) | Except(specs: string)

  /** A class body: single characters and `a-z` ranges. */
  predicate InClass(specs: string, c: char) {
    if |specs| >= 3 && specs[1] == '-' then specs[0] <= c <= specs[2] || InClass(specs[3..], c)
    else specs != "" && (specs[0] == c || InClass(specs[1..], c))
  }

  function IndexOf(s: string, c: char): (i: nat)
    ensures i <= |s| && (i < |s| ==> s[i] == c)
  {
    if s == "" || s[0] == c then 0 else 1 + IndexOf(s[1..], c)
  }

  /** The library's pattern parser, for patterns without `**`. */
  function Compile(p: string): Option<seq<Token>> {
    if p == "" then Some([])
    else if p[0] == '?' then Prefix(AnyChar, Compile(p[1..]))
    else if p[0] == '*' then
      if |p| >= 2 && p[1] == '*' then None else Prefix(AnySequence, Compile(p[1..]))
    else if p[0] == '[' then
      if |p| >= 4 && p[1] == '!' then
        var j := IndexOf(p[3..], ']') + 3;
        if j == |p| then None else Prefix(Except(p[2..j]), Compile(p[j + 1..]))
      else if |p| >= 3 && p[1] != '!' then
        var j := IndexOf(p[2..], ']') + 2;
        if j == |p| then None else Prefix(Within(p[1..j]), Compile(p[j + 1..]))
      else None
    else Prefix(Exactly(p[0]), Compile(p[1..]))
  }

  function Prefix(t: Token, rest: Option<seq<Token>>): Option<seq<Token>> {
    match rest
    case None => None
    case Some(ts) => Some([t] + ts)
  }

  predicate TokenMatches(t: Token, c: char) {
    match t
    case AnyChar => true
    case AnySequence => false
    case Exactly(x) => x == c
    case Within(specs) => InClass(specs, c)
    case Except(specs) => !InClass(specs, c)
  }

  predicate MatchTokens(ts: seq<Token>, s: string)
    decreases |ts|
  {
    if ts == [] then s == ""
    else if ts[0].AnySequence? then exists k | 0 <= k <= |s| :: MatchTokens(ts[1..], s[k..])
    else s != "" && TokenMatches(ts[0], s[0]) && MatchTokens(ts[1..], s[1..])
  }

  // ---- What the documentation promises: only `*` and `?` are special ----

  predicate LiteralMatch(p: string, s: string)
    decreases |p|
  {
    if p == "" then s == ""
    else if p[0] == '*' then exists k | 0 <= k <= |s| :: LiteralMatch(p[1..], s[k..])
    else s != "" && (p[0] == '?' || p[0] == s[0]) && LiteralMatch(p[1..], s[1..])
  }

  predicate HasWildcard(p: string) {
    exists i :: 0 <= i < |p| && (p[i] == '*' || p[i] == '?')
  }

  predicate StarsAt(p: string, i: int) {
    0 <= i < |p| - 1 && p[i] == '*' && p[i + 1] == '*'
  }

  predicate HasDoubleStar(p: string) {
    exists i :: 0 <= i < |p| && StarsAt(p, i)
  }

  // ---- The code ----

  function EscapeBracket(c: char): string {
    if c == '[' then "[[]" else if c == ']' then "[]]" else [c]
  }

  function Rewrite(p: string): string {
    if p == "" then "" else EscapeBracket(p[0]) + Rewrite(p[1..])
  }

  predicate IsBracket(c: char) {
    c == '[' || c == ']'
  }

  /** `match_indices(['[', ']'])`, from index `start` on. */
  function BracketIndices(p: string, start: nat): seq<nat>
    requires start <= |p|
    decreases |p| - start
  {
    if start == |p| then []
    else if IsBracket(p[start]) then [start] + BracketIndices(p, start + 1)
    else BracketIndices(p, start + 1)
  }

  predicate NoBrackets(s: string) {
    forall i :: 0 <= i < |s| ==> !IsBracket(s[i])
  }

  lemma {:induction false} BracketIndicesAre(p: string, start: nat)
    requires start <= |p|
    ensures var r := BracketIndices(p, start);
      if r == [] then NoBrackets(p[start..])
      else
        && start <= r[0] < |p| && IsBracket(p[r[0]]) && r[1..] == BracketIndices(p, r[0] + 1)
        && NoBrackets(p[start..r[0]])
    decreases |p| - start
  {
    if start < |p| {
      if IsBracket(p[start]) {
        assert BracketIndices(p, start)[1..] == BracketIndices(p, start + 1);
      } else {
        BracketIndicesAre(p, start + 1);
        var r := BracketIndices(p, start);
        var end := if r == [] then |p| else r[0];
        assert p[start..end] == [p[start]] + p[start + 1..end];
      }
    }
  }

  lemma {:induction false} RewriteCopies(s: string, tail: string)
    requires NoBrackets(s)
    ensures Rewrite(s + tail) == s + Rewrite(tail)
  {
    if s == "" {
      assert s + tail == tail;
    } else {
      RewriteCopies(s[1..], tail);
      assert (s + tail)[0] == s[0] && (s + tail)[1..] == s[1..] + tail;
      assert EscapeBracket(s[0]) == [s[0]];
      Assoc([s[0]], s[1..], Rewrite(tail));
    }
  }

  /** Up to the next bracket the text is copied; the bracket itself becomes a class. */
  lemma RewriteFrom(p: string, start: nat)
    requires start <= |p|
    ensures var r := BracketIndices(p, start);
      if r == [] then Rewrite(p[start..]) == p[start..]
      else
        && start <= r[0] < |p| && IsBracket(p[r[0]]) && r[1..] == BracketIndices(p, r[0] + 1)
        && Rewrite(p[start..]) == p[start..r[0]] + EscapeBracket(p[r[0]]) + Rewrite(p[r[0] + 1..])
  {
    BracketIndicesAre(p, start);
    var r := BracketIndices(p, start);
    hide BracketIndices, EscapeBracket;
    if r == [] {
      RewriteCopies(p[start..], "");
      assert p[start..] + "" == p[start..];
    } else {
      var at := r[0];
      RewriteCopies(p[start..at], p[at..]);
      assert p[start..at] + p[at..] == p[start..];
      assert p[at..][1..] == p[at + 1..];
      Assoc(p[start..at], EscapeBracket(p[at]), Rewrite(p[at + 1..]));
    }
  }

  lemma BracketIsEscaped(c: char)
    requires IsBracket(c)
    ensures EscapeBracket(c) == if c == '[' then "[[]" else "[]]"
  {
  }

  lemma AppendRewritten(written: string, append: string, escaped: string, rest: string)
    ensures written + append + escaped + rest == written + (append + escaped + rest)
    ensures written + (append + escaped) == written + append + escaped
  {
  }

  method RewriteBrackets(pattern: string) returns (pat: string)
    ensures pat == Rewrite(pattern)
  {
    var ret: Option<string> := None;
    var start := 0;
    var indices := BracketIndices(pattern, 0);
    ghost var written := "";
    hide Rewrite, BracketIndices, EscapeBracket;
    assert pattern[0..] == pattern;
    while indices != []
      invariant start <= |pattern| && indices == BracketIndices(pattern, start)
      invariant written == if ret.Some? then ret.value else ""
      invariant ret.None? ==> start == 0
      invariant written + Rewrite(pattern[start..]) == Rewrite(pattern)
      decreases |pattern| - start
    {
      RewriteFrom(pattern, start);
      var idx := indices[0];
      var escaped := if pattern[idx] == '[' then "[[]" else "[]]";
      BracketIsEscaped(pattern[idx]);
      var append := pattern[start..idx];
      AppendRewritten(written, append, escaped, Rewrite(pattern[idx + 1..]));
      written := written + append + escaped;
      ret := Some((if ret.Some? then ret.value else "") + append + escaped);
      start := idx + 1;
      indices := indices[1..];
    }
    RewriteFrom(pattern, start);
    if ret.Some? {
      pat := ret.value + pattern[start..];
    } else {
      pat := pattern;
    }
  }

  /** What the library answers for a pattern. */
  predicate LibraryMatches(lib: Library, needle: string, pat: string) {
    if HasDoubleStar(pat) then lib.doubleStar(needle, pat)
    else
      match Compile(pat)
      case None => false
      case Some(ts) => MatchTokens(ts, needle)
  }

  predicate GlobMatches(lib: Library, needle: string, pattern: string) {
    if HasWildcard(pattern) then LibraryMatches(lib, needle, Rewrite(pattern)) else needle == pattern
  }

  method MatchedGlob(lib: Library, needle: string, pattern: string) returns (b: bool)
    ensures b == GlobMatches(lib, needle, pattern)
  {
    if !HasWildcard(pattern) {
      return needle == pattern;
    }
    var pat := RewriteBrackets(pattern);
    return LibraryMatches(lib, needle, pat);
  }

  // ---- The rewritten pattern means the original with literal brackets ----

  function TokenOf(c: char): Token {
    if c == '?' then AnyChar else if c == '*' then AnySequence
    else if IsBracket(c) then Within([c]) else Exactly(c)
  }

  function TokensOf(p: string): seq<Token> {
    if p == "" then [] else [TokenOf(p[0])] + TokensOf(p[1..])
  }

  lemma TailHasNoDoubleStar(p: string)
    requires p != "" && !HasDoubleStar(p)
    ensures !HasDoubleStar(p[1..])
    ensures p[0] == '*' && |p| >= 2 ==> p[1] != '*'
  {
    forall i | 0 <= i < |p[1..]| && StarsAt(p[1..], i)
      ensures StarsAt(p, i + 1)
    {
    }
    assert !StarsAt(p, 0);
  }

  lemma CompileClass(c: char, rest: string)
    requires IsBracket(c)
    ensures Compile(['[', c, ']'] + rest) == Prefix(Within([c]), Compile(rest))
  {
    var r := ['[', c, ']'] + rest;
    assert r[3..] == rest && r[1..2] == [c] && IndexOf(r[2..], ']') == 0;
  }

  lemma CompilePlain(c: char, rest: string)
    requires !IsBracket(c) && (c == '*' && rest != "" ==> rest[0] != '*')
    ensures Compile([c] + rest) == Prefix(TokenOf(c), Compile(rest))
  {
    var r := [c] + rest;
    assert r[0] == c && r[1..] == rest;
  }

  lemma {:induction false} RewriteCompiles(p: string)
    requires !HasDoubleStar(p)
    ensures Compile(Rewrite(p)) == Some(TokensOf(p))
  {
    if p != "" {
      TailHasNoDoubleStar(p);
      RewriteCompiles(p[1..]);
      hide Compile, HasDoubleStar;
      var rest := Rewrite(p[1..]);
      if IsBracket(p[0]) {
        assert Rewrite(p) == ['[', p[0], ']'] + rest;
        CompileClass(p[0], rest);
      } else {
        assert |p| >= 2 && p[1] != '*' ==> rest[0] == EscapeBracket(p[1])[0] != '*';
        CompilePlain(p[0], rest);
      }
    } else {
      assert Rewrite(p) == "";
    }
  }

  lemma {:induction false} TokensMatchLiterally(p: string, s: string)
    ensures MatchTokens(TokensOf(p), s) <==> LiteralMatch(p, s)
    decreases |p|
  {
    if p != "" {
      assert TokensOf(p)[1..] == TokensOf(p[1..]);
      if p[0] == '*' {
        forall k | 0 <= k <= |s|
          ensures MatchTokens(TokensOf(p[1..]), s[k..]) <==> LiteralMatch(p[1..], s[k..])
        {
          TokensMatchLiterally(p[1..], s[k..]);
        }
      } else if s != "" {
        TokensMatchLiterally(p[1..], s[1..]);
        assert [p[0]][1..] == "";
        assert InClass([p[0]], s[0]) <==> p[0] == s[0];
        assert TokenMatches(TokenOf(p[0]), s[0]) <==> p[0] == '?' || p[0] == s[0];
      }
    }
  }

  lemma {:induction false} NoWildcardMatchesItself(p: string, s: string)
    requires !HasWildcard(p)
    ensures LiteralMatch(p, s) <==> s == p
    decreases |p|
  {
    if p != "" {
      assert p[0] != '*' && p[0] != '?';
      assert forall i :: 0 <= i < |p[1..]| ==> p[1..][i] == p[i + 1];
      if s != "" {
        NoWildcardMatchesItself(p[1..], s[1..]);
        assert s == [s[0]] + s[1..] && p == [p[0]] + p[1..];
      }
    }
  }

  lemma ConsDoubleStar(c: char, s: string)
    ensures HasDoubleStar([c] + s) <==> HasDoubleStar(s) || (c == '*' && s != "" && s[0] == '*')
  {
    var t := [c] + s;
    if i :| 0 <= i < |s| && StarsAt(s, i) {
      assert StarsAt(t, i + 1);
    }
    if i :| 0 <= i < |t| && StarsAt(t, i) {
      assert i > 0 ==> StarsAt(s, i - 1);
    }
    assert c == '*' && s != "" && s[0] == '*' ==> StarsAt(t, 0);
  }

  /** The classes put around brackets neither join nor part two stars. */
  lemma {:induction false} RewriteKeepsDoubleStar(p: string)
    ensures HasDoubleStar(Rewrite(p)) <==> HasDoubleStar(p)
  {
    hide HasDoubleStar;
    if p == "" {
      assert Rewrite(p) == p;
    } else {
      var rest := Rewrite(p[1..]);
      RewriteKeepsDoubleStar(p[1..]);
      ConsDoubleStar(p[0], p[1..]);
      assert p == [p[0]] + p[1..];
      if IsBracket(p[0]) {
        assert Rewrite(p) == ['['] + ([p[0]] + ([']'] + rest));
        ConsDoubleStar(']', rest);
        ConsDoubleStar(p[0], [']'] + rest);
        ConsDoubleStar('[', [p[0]] + ([']'] + rest));
      } else {
        ConsDoubleStar(p[0], rest);
        assert rest != "" ==> rest[0] == EscapeBracket(p[1])[0];
      }
    }
  }

  /** Both paths of `matched_glob` match exactly what the documentation promises; only a pattern with
      `**` is left to the library, with its brackets still literal. */
  lemma GlobIsLiteral(lib: Library, needle: string, pattern: string)
    ensures GlobMatches(lib, needle, pattern) <==>
      if HasDoubleStar(pattern) then lib.doubleStar(needle, Rewrite(pattern)) else LiteralMatch(pattern, needle)
  {
    RewriteKeepsDoubleStar(pattern);
    if HasDoubleStar(pattern) {
      var i :| 0 <= i < |pattern| && StarsAt(pattern, i);
      assert pattern[i] == '*';
    } else if HasWildcard(pattern) {
      RewriteCompiles(pattern);
      TokensMatchLiterally(pattern, needle);
    } else {
      NoWildcardMatchesItself(pattern, needle);
    }
  }

  // ---- Pattern lists ----

  /** The last position of `]:` in `s`, if any. */
  function LastSeparator(s: string): (r: Option<nat>)
    ensures r.Some? ==> r.value + 2 <= |s|
  {
    if |s| < 2 then None
    else if s[|s| - 2] == ']' && s[|s| - 1] == ':' then Some(|s| - 2)
    else LastSeparator(s[..|s| - 1])
  }

  predicate IsNegated(pat: string) {
    pat != "" && pat[0] == '!'
  }

  /** Whether one pattern, without its `!`, covers the host and the port (`None` for port 22). */
  predicate Covers(lib: Library, host: string, port: Option<string>, pat: string) {
    match LastSeparator(pat)
    case None => port.None? && GlobMatches(lib, host, pat)
    case Some(i) =>
      var hostPat := pat[..i];
      && GlobMatches(lib, if port.Some? then port.value else "22", pat[i + 2..])
      && GlobMatches(lib, host, if hostPat != "" && hostPat[0] == '[' then hostPat[1..] else hostPat)
  }

  predicate Positive(lib: Library, host: string, port: Option<string>, pat: string) {
    !IsNegated(pat) && Covers(lib, host, port, pat)
  }

  predicate Negative(lib: Library, host: string, port: Option<string>, pat: string) {
    IsNegated(pat) && Covers(lib, host, port, pat[1..])
  }

  predicate PlainMatches(lib: Library, host: string, port: Option<string>, pats: seq<string>) {
    && (exists pat :: pat in pats && Positive(lib, host, port, pat))
    && !(exists pat :: pat in pats && Negative(lib, host, port, pat))
  }

  method CoversHost(lib: Library, host: string, port: Option<string>, pat: string) returns (b: bool)
    ensures b == Covers(lib, host, port, pat)
  {
    hide GlobMatches;
    var sep := LastSeparator(pat);
    var hostPat := pat;
    if sep.Some? {
      b := MatchedGlob(lib, if port.Some? then port.value else "22", pat[sep.value + 2..]);
      if !b {
        return;
      }
      hostPat := pat[..sep.value];
      if hostPat != "" && hostPat[0] == '[' {
        hostPat := hostPat[1..];
      }
    } else if port.Some? {
      return false;
    }
    b := MatchedGlob(lib, host, hostPat);
  }

  /** The early-returning loop says: some positive pattern and no negated pattern matches. */
  method VerifyPlain(lib: Library, host: string, port: Option<string>, pats: seq<string>) returns (b: bool)
    ensures b == PlainMatches(lib, host, port, pats)
  {
    hide Covers;
    if |pats| == 0 {
      return false;
    }
    var someMatched := false;
    for i := 0 to |pats|
      invariant someMatched <==> exists pat :: pat in pats[..i] && Positive(lib, host, port, pat)
      invariant forall pat :: pat in pats[..i] ==> !Negative(lib, host, port, pat)
    {
      assert pats[..i + 1] == pats[..i] + [pats[i]] && pats[i] in pats && pats[i] in pats[..i + 1];
      var isNeg := IsNegated(pats[i]);
      var covered := CoversHost(lib, host, port, if isNeg then pats[i][1..] else pats[i]);
      if !covered {
        continue;
      }
      if isNeg {
        assert Negative(lib, host, port, pats[i]);
        return false;
      } else {
        assert Positive(lib, host, port, pats[i]);
        someMatched := true;
      }
    }
    assert pats[..|pats|] == pats;
    return someMatched;
  }

  // ---- Hosts of a line, and certificate principals ----

  /** How the host part of a line is written. */
  datatype HostPatterns = Patterns(pats: seq<string>) | HashedName(salt: seq<nat>, hash: seq<nat>)

  predicate HostMatched(lib: Library, host: string, port: Option<string>, hosts: HostPatterns) {
    match hosts
    case Patterns(pats) => PlainMatches(lib, host, port, pats)
    case HashedName(salt, hash) =>
      lib.hmac(salt, if port.Some? then "[" + host + "]:" + port.value else host) == hash
  }

  predicate PrincipalsMatched(lib: Library, host: string, principals: seq<string>) {
    principals == [] || exists p :: p in principals && GlobMatches(lib, host, p)
  }

  // ---- What patterns and principals match ----

  /** What the documentation promises of one pattern; `**` is left to the library. */
  predicate Promised(lib: Library, needle: string, pattern: string) {
    if HasDoubleStar(pattern) then lib.doubleStar(needle, Rewrite(pattern)) else LiteralMatch(pattern, needle)
  }

  lemma {:induction false} LastSeparatorIs(s: string, tail: string)
    requires forall i :: 0 <= i < |tail| ==> tail[i] != ':'
    ensures LastSeparator(s + "]:" + tail) == Some(|s|)
  {
    var t := s + "]:" + tail;
    if tail == "" {
      assert t[|t| - 2] == ']' && t[|t| - 1] == ':';
    } else {
      LastSeparatorIs(s, tail[..|tail| - 1]);
      assert t[|t| - 1] == tail[|tail| - 1];
      assert t[..|t| - 1] == s + "]:" + tail[..|tail| - 1];
    }
  }

  /** A pattern without a port needs port 22, which is passed as none. */
  lemma HostPatternMeans(lib: Library, host: string, port: Option<string>, pat: string)
    requires LastSeparator(pat).None?
    ensures Covers(lib, host, port, pat) <==> port.None? && Promised(lib, host, pat)
  {
    GlobIsLiteral(lib, host, pat);
  }

  /** `[host]:port` matches host and port separately, with wildcards in both. */
  lemma PortPatternMeans(lib: Library, host: string, port: Option<string>, hostPat: string, portPat: string)
    requires forall i :: 0 <= i < |portPat| ==> portPat[i] != ':'
    ensures Covers(lib, host, port, "[" + hostPat + "]:" + portPat) <==>
      Promised(lib, if port.Some? then port.value else "22", portPat) && Promised(lib, host, hostPat)
  {
    var pat := "[" + hostPat + "]:" + portPat;
    LastSeparatorIs("[" + hostPat, portPat);
    hide GlobMatches, Promised;
    assert pat[..|hostPat| + 1] == "[" + hostPat && ("[" + hostPat)[1..] == hostPat;
    assert pat[|hostPat| + 3..] == portPat;
    GlobIsPromised(lib, host, hostPat);
    GlobIsPromised(lib, if port.Some? then port.value else "22", portPat);
  }

  lemma GlobIsPromised(lib: Library, needle: string, pattern: string)
    ensures GlobMatches(lib, needle, pattern) <==> Promised(lib, needle, pattern)
  {
    GlobIsLiteral(lib, needle, pattern);
  }

  predicate IsExcluded(lib: Library, host: string, port: Option<string>, pats: seq<string>) {
    exists p :: p in pats && p != "" && p[0] == '!' && Covers(lib, host, port, p[1..])
  }

  /** Adding `!pat` to a list takes away what `pat` covers; adding any other pattern adds what it covers,
      unless a negated pattern takes it away. */
  lemma PatternIsAdded(lib: Library, host: string, port: Option<string>, pats: seq<string>, pat: string)
    ensures var listed := PlainMatches(lib, host, port, pats);
      && (PlainMatches(lib, host, port, pats + ["!" + pat]) <==> listed && !Covers(lib, host, port, pat))
      && (pat == "" || pat[0] != '!' ==>
            (PlainMatches(lib, host, port, pats + [pat]) <==>
              listed || (Covers(lib, host, port, pat) && !IsExcluded(lib, host, port, pats))))
  {
    hide Covers;
    var negated := "!" + pat;
    assert negated[0] == '!' && negated[1..] == pat;
    assert Negative(lib, host, port, negated) <==> Covers(lib, host, port, pat);
    assert forall p :: p in pats + [negated] <==> p in pats || p == negated;
    assert forall p :: p in pats + [pat] <==> p in pats || p == pat;
    assert pat == "" || pat[0] != '!' ==> (Positive(lib, host, port, pat) <==> Covers(lib, host, port, pat));
    assert !Positive(lib, host, port, negated);
    assert forall p :: p != "" && p[0] == '!' ==> (Negative(lib, host, port, p) <==> Covers(lib, host, port, p[1..]));
  }

  /** An empty list of principals accepts any host; otherwise one of them must match. */
  lemma PrincipalsMean(lib: Library, host: string, principals: seq<string>)
    ensures PrincipalsMatched(lib, host, principals)
      <==> principals == [] || exists p :: p in principals && Promised(lib, host, p)
  {
    forall p
      ensures GlobMatches(lib, host, p) <==> Promised(lib, host, p)
    {
      GlobIsLiteral(lib, host, p);
    }
  }
}
