// Where a parameter expansion ends (IEEE Std 1003.1-2017, XCU, section 2.6.2): at the `}` that matches
// its `${`. A `}` that is escaped, inside a quoted string or inside a nested expansion does not count.
module Braces {
  import opened Text

  datatype Enclosure = InBraces | InDouble | InSingle

  /** What the next character stands in, innermost first. */
  datatype Nesting = Outermost | Inside(kind: Enclosure, outer: Nesting)

  const EXPANSION := Inside(InBraces, Outermost)

  /** `Closed(n)`: the first `n` characters leave every enclosure. */
  datatype Scan = Closed(n: nat) | Unclosed | NotFollowed

  function Later(n: nat, r: Scan): Scan {
    if r.Closed? then Closed(n + r.n) else r
  }

  /** Reading on after one or two characters, or the end of the scan. */
  datatype Step = Move(n: nat, to: Nesting) | Stop(why: Scan)

  predicate IsDollar(s: Text, next: char) {
    |s| >= 2 && s[0] == '$' && s[1] == next
  }

  /** Command and arithmetic substitutions are not followed; nor is what section 2.2.3 asks applications
      to avoid: an unescaped `{`, and a single quote, unless it comes in a pair around plain text, where
      it does not matter whether it quotes. */
  function Advance(s: Text, within: Nesting): (r: Step)
    requires within.Inside?
    ensures if r.Move? then 1 <= r.n <= |s| else !r.why.Closed?
  {
    if s == "" || s[0] == '\0' then Stop(Unclosed)
    else if within.kind.InSingle? then
      if s[0] == '\'' then Move(1, within.outer)
      else if s[0] == '$' || s[0] == '`' || s[0] == '"' || s[0] == '\\' || s[0] == '{' || s[0] == '}' then
        Stop(NotFollowed)
      else Move(1, within)
    else if s[0] == '\\' then if |s| < 2 || s[1] == '\0' then Stop(Unclosed) else Move(2, within)
    else if s[0] == '\'' then Move(1, Inside(InSingle, within))
    else if s[0] == '"' then Move(1, if within.kind.InDouble? then within.outer else Inside(InDouble, within))
    else if s[0] == '}' then Move(1, if within.kind.InBraces? then within.outer else within)
    else if IsDollar(s, '{') then Move(2, Inside(InBraces, within))
    else if IsDollar(s, '$') then Move(2, within)
    else if IsDollar(s, '(') || s[0] == '`' || s[0] == '{' then Stop(NotFollowed)
    else Move(1, within)
  }

  /** Reads on until every enclosure is left. */
  function Follow(s: Text, within: Nesting): (r: Scan)
    ensures r.Closed? ==> r.n <= |s|
    decreases |s|
  {
    if within.Outermost? then Closed(0)
    else
      match Advance(s, within)
      case Stop(why) => why
      case Move(n, to) => Later(n, Follow(s[n..], to))
  }

  lemma AdvanceIsLocal(s: Text, t: Text, within: Nesting)
    requires within.Inside? && s != "" && t != "" && s[0] == t[0]
    requires s[0] == '$' || s[0] == '\\' ==> |s| >= 2 && |t| >= 2 && s[1] == t[1]
    ensures Advance(s, within) == Advance(t, within)
  {
  }

  /** What follows the matching brace does not matter. */
  lemma {:induction false} ClosedIsLocal(s: Text, t: Text, within: Nesting)
    requires Follow(s, within).Closed? && Follow(s, within).n <= |t|
    requires s[..Follow(s, within).n] == t[..Follow(s, within).n]
    ensures Follow(t, within) == Follow(s, within)
    decreases |s|
  {
    if within.Inside? {
      var k := Follow(s, within).n;
      var step := Advance(s, within);
      assert s[..k][0] == t[..k][0] && (k >= 2 ==> s[..k][1] == t[..k][1]);
      AtLeastTwo(s, within);
      AdvanceIsLocal(s, t, within);
      hide Advance;
      assert s[step.n..][..k - step.n] == s[..k][step.n..];
      assert t[step.n..][..k - step.n] == t[..k][step.n..];
      ClosedIsLocal(s[step.n..], t[step.n..], step.to);
    }
  }

  lemma AtLeastTwo(s: Text, within: Nesting)
    requires within.Inside? && Follow(s, within).Closed?
    ensures Follow(s, within).n >= 1
    ensures s[0] == '$' || s[0] == '\\' ==> Follow(s, within).n >= 2
  {
  }

  /** No shorter text is closed. */
  lemma {:induction false} PrefixIsOpen(s: Text, within: Nesting, m: nat)
    requires Follow(s, within).Closed? && m < Follow(s, within).n
    ensures Follow(s[..m], within) == Unclosed
    decreases |s|
  {
    var step := Advance(s, within);
    if m == 1 && (s[0] == '$' || s[0] == '\\') {
      assert s[..m][1..] == "";
      assert Follow("", within) == Unclosed;
    } else if m > 0 {
      AdvanceIsLocal(s, s[..m], within);
      hide Advance;
      assert s[..m][step.n..] == s[step.n..][..m - step.n];
      PrefixIsOpen(s[step.n..], step.to, m - step.n);
    }
  }

  // ---- Expansions inside expansions ----

  /** The enclosures `within`, all of them inside `outer`. */
  function Around(within: Nesting, outer: Nesting): Nesting {
    if within.Outermost? then outer else Inside(within.kind, Around(within.outer, outer))
  }

  lemma AdvanceAround(s: Text, within: Nesting, outer: Nesting)
    requires within.Inside? && Advance(s, within).Move?
    ensures var step := Advance(s, within);
      Advance(s, Around(within, outer)) == Move(step.n, Around(step.to, outer))
  {
  }

  lemma {:induction false} FollowAround(s: Text, within: Nesting, outer: Nesting)
    requires Follow(s, within).Closed?
    ensures Follow(s, Around(within, outer)) == Later(Follow(s, within).n, Follow(s[Follow(s, within).n..], outer))
    decreases |s|
  {
    if within.Outermost? {
      assert s[0..] == s;
    } else {
      var step := Advance(s, within);
      AdvanceAround(s, within, outer);
      hide Advance, Around;
      FollowAround(s[step.n..], step.to, outer);
      var n := Follow(s[step.n..], step.to).n;
      assert s[step.n..][n..] == s[step.n + n..];
      assert Around(within, outer).Inside?;
    }
  }

  /** The text of an expansion is closed by the brace printed after it, and not before. */
  predicate IsClosed(e: Text) {
    Follow(e + "}", EXPANSION) == Closed(|e| + 1)
  }

  predicate IsPlain(s: Text) {
    forall i :: 0 <= i < |s| ==> NameChar(s[i]) || s[i] == ':' || s[i] == '-'
  }

  lemma FollowLast()
    ensures Follow("}", EXPANSION) == Closed(1)
  {
    assert "}"[1..] == "";
  }

  lemma {:induction false} FollowPlain(s: Text, t: Text, within: Nesting)
    requires IsPlain(s) && within.Inside?
    ensures Follow(s + t, within) == Later(|s|, Follow(t, within))
  {
    if s == "" {
      assert s + t == t;
    } else {
      var u := s + t;
      assert u[0] == s[0] && u[1..] == s[1..] + t;
      assert Advance(u, within) == Move(1, within);
      hide Advance;
      FollowPlain(s[1..], t, within);
    }
  }

  lemma PlainIsClosed(s: Text)
    requires IsPlain(s)
    ensures IsClosed(s)
  {
    FollowPlain(s, "}", EXPANSION);
    FollowLast();
  }

  /** A closed expansion may be the default value of another, to any depth. */
  lemma NestedDefaultIsClosed(name: Text, e: Text)
    requires (forall i :: 0 <= i < |name| ==> NameChar(name[i])) && IsClosed(e)
    ensures IsClosed(name + ":-${" + e + "}")
  {
    var inner, rest := e + "}", "${" + (e + "}" + "}");
    assert name + ":-${" + e + "}" + "}" == name + ":-" + rest;
    assert rest[2..] == inner + "}";
    hide Follow, Advance;
    FollowPlain(name + ":-", rest, EXPANSION);
    FollowOpen(inner + "}", EXPANSION);
    ClosedIsLocal(inner, inner + "}", EXPANSION);
    FollowAround(inner + "}", EXPANSION, EXPANSION);
    assert (inner + "}")[|e| + 1..] == "}";
    FollowLast();
  }

  lemma FollowOpen(s: Text, within: Nesting)
    requires within.Inside? && !within.kind.InSingle?
    ensures Follow("${" + s, within) == Later(2, Follow(s, Inside(InBraces, within)))
  {
    assert ("${" + s)[2..] == s;
  }

  // Variables, escaped characters and quoted texts inside an expansion, as in `FOO:-$BAR`, `FOO:-a\}b`
  // and `FOO:-'x'`.

  lemma VariableIsClosed(s: Text, t: Text)
    requires IsPlain(s) && IsPlain(t)
    ensures IsClosed(s + "$" + t)
  {
    var rest := "$" + (t + "}");
    assert s + "$" + t + "}" == s + rest && rest[1..] == t + "}";
    FollowPlain(s, rest, EXPANSION);
    PlainIsClosed(t);
    assert Advance(rest, EXPANSION) == Move(1, EXPANSION);
  }

  lemma EscapedIsClosed(s: Text, c: char, t: Text)
    requires IsPlain(s) && IsPlain(t) && c != '\0'
    ensures IsClosed(s + ['\\', c] + t)
  {
    var rest := ['\\', c] + (t + "}");
    assert s + ['\\', c] + t + "}" == s + rest && rest[2..] == t + "}";
    FollowPlain(s, rest, EXPANSION);
    PlainIsClosed(t);
    assert Advance(rest, EXPANSION) == Move(2, EXPANSION);
  }

  lemma {:induction false} FollowQuoted(t: Text, rest: Text, within: Nesting)
    requires IsPlain(t)
    ensures Follow(t + ("'" + rest), Inside(InSingle, within)) == Later(|t| + 1, Follow(rest, within))
  {
    var s := t + ("'" + rest);
    if t == "" {
      assert s == "'" + rest && s[1..] == rest;
    } else {
      assert s[0] == t[0] && s[1..] == t[1..] + ("'" + rest);
      assert Advance(s, Inside(InSingle, within)) == Move(1, Inside(InSingle, within));
      hide Advance;
      FollowQuoted(t[1..], rest, within);
    }
  }

  lemma QuotedIsClosed(s: Text, t: Text)
    requires IsPlain(s) && IsPlain(t)
    ensures IsClosed(s + "'" + t + "'")
  {
    var rest := "'" + (t + ("'" + "}"));
    assert s + "'" + t + "'" + "}" == s + rest && rest[1..] == t + ("'" + "}");
    FollowPlain(s, rest, EXPANSION);
    FollowQuoted(t, "}", EXPANSION);
    FollowLast();
    assert Advance(rest, EXPANSION) == Move(1, Inside(InSingle, EXPANSION));
  }
}
