// The exact texts that the documentation of `Command`, `ExpandCommand` and `RawBytes` shows
// (src/process/cmd.rs, src/process/escape/cmd.rs, src/process/escape/str.rs).
module Documented {
  import opened Text
  import opened Escape
  import opened CommandRun

  predicate Unescaped(s: Text) {
    forall i :: 0 <= i < |s| ==> s[i] != '\'' && s[i] != '\\' && s[i] != '$' && s[i] != '"' && s[i] != '`'
  }

  lemma {:induction false} UnescapedText(s: Text, q: SurroundBy)
    requires Unescaped(s)
    ensures EscapeText(s, q) == s
  {
    if s != "" {
      UnescapedText(s[1..], q);
    }
  }

  /** A word without special characters is printed between single quotes. */
  lemma StringWord(s: Text)
    requires Unescaped(s)
    ensures PrintQuoted(Str(s)) == "'" + s + "'"
  {
    UnescapedText(s, Single);
  }

  /** A text and an expansion are printed between double quotes. */
  lemma TextAndExpansion(s: Text, a: Arg)
    requires Unescaped(s) && (a.Env? || a.Expand?)
    ensures PrintQuoted(Tuple([Str(s), a])) == "\"" + s + PrintArg(a, Double) + "\""
  {
    UnescapedText(s, Double);
    var components := [Str(s), a];
    assert components[1..] == [a] && [a][1..] == [];
    assert NeedDouble(components[1]);
    hide EscapeText, PrintPart;
    assert PrintAll([a], Double) == PrintArg(a, Double) + "";
    assert PrintArg(a, Double) + "" == PrintArg(a, Double);
    assert PrintAll(components, Double) == s + PrintArg(a, Double);
    Assoc("\"", s, PrintArg(a, Double));
  }

  /** A call appends its text to what the calls before it printed. */
  lemma PrintPush(calls: seq<Call>, c: Call)
    ensures PrintCalls(calls + [c]) == PrintCalls(calls) + PrintCall(c)
  {
    assert (calls + [c])[..|calls|] == calls;
  }

  /** Programs and arguments: `'ls' `, `"${PWD}" `. */
  lemma WordTexts(s: Text, expr: Text)
    requires Unescaped(s)
    ensures PrintCall(ProgCall(Str(s))) == PrintCall(ArgCall(Str(s))) == "'" + s + "'" + " "
    ensures PrintCall(ArgCall(Env(expr))) == "\"" + ("${" + expr + "}") + "\"" + " "
  {
    StringWord(s);
    assert PrintQuoted(Env(expr)) == "\"" + ("${" + expr + "}") + "\"";
  }

  lemma ArgumentsText(s: Text, t: Text)
    requires Unescaped(s) && Unescaped(t)
    ensures PrintCall(ArgsCall([Str(s), Str(t)])) == "'" + s + "'" + " " + ("'" + t + "'" + " ")
  {
    StringWord(s);
    StringWord(t);
    hide PrintQuoted, EscapeText;
    var args := [Str(s), Str(t)];
    assert args[1..] == [Str(t)] && [Str(t)][1..] == [];
    assert PrintWords([Str(t)]) == PrintQuoted(Str(t)) + " " + "";
    assert PrintQuoted(Str(t)) + " " + "" == PrintQuoted(Str(t)) + " ";
  }

  lemma ConnectorTexts()
    ensures PrintCall(AndCall) == "&& " && PrintCall(OrCall) == "|| " && PrintCall(PipeCall) == "| "
    ensures PrintCall(Complete(false)) == "; " && PrintCall(Complete(true)) == "& " && PrintCall(Chain) == ""
  {
  }

  /** `PATH='value' ` under the longest name the key starts with, or nothing. */
  lemma AssignmentText(key: Key, value: Text)
    requires Unescaped(value)
    ensures PrintCall(EnvCall(key, Str(value)))
      == if KeyPrefix(key).None? then "" else KeyPrefix(key).value + "=" + ("'" + value + "'") + " "
  {
    StringWord(value);
    hide PrintQuoted, KeyPrefix;
  }

  /** Redirects to a path and to a descriptor: `<'in' `, `2>&1 `. */
  lemma RedirectTexts(path: Text, fd: nat)
    requires Unescaped(path)
    ensures PrintRedirect(Stdin(Path(Str(path)))) == "<" + ("'" + path + "'") + " "
    ensures PrintRedirect(Stdout(Path(Str(path)), false)) == ">" + ("'" + path + "'") + " "
    ensures PrintRedirect(Stdout(Path(Str(path)), true)) == ">>" + ("'" + path + "'") + " "
    ensures PrintRedirect(Stderr(Path(Str(path)), false)) == "2>" + ("'" + path + "'") + " "
    ensures PrintRedirect(Stderr(Path(Str(path)), true)) == "2>>" + ("'" + path + "'") + " "
    ensures PrintRedirect(Stdout(Dup(fd), false)) == ">" + ("&" + Decimal(fd)) + " "
    ensures PrintRedirect(Stderr(Dup(fd), false)) == "2>" + ("&" + Decimal(fd)) + " "
  {
    StringWord(path);
    hide PrintQuoted, Decimal;
    assert "" + "<" == "<" && "" + ">" == ">" && "" + ">>" == ">>" && "2" + ">" == "2>" && "2" + ">>" == "2>>";
  }

  // ---- Raw bytes ----

  lemma RawAsciiStep(bs: seq<Byte>, q: SurroundBy)
    requires bs != [] && Printable(bs[0])
    ensures PrintRaw(bs, q, false) == EscapeChar(bs[0], q) + PrintRaw(bs[1..], q, false)
  {
    assert "" + EscapeChar(bs[0], q) == EscapeChar(bs[0], q);
  }

  /** Printable ASCII is printed like a string, up to the first byte that is not. */
  lemma {:induction false} RawAsciiIsText(s: seq<Byte>, bs: seq<Byte>, q: SurroundBy)
    requires IsAsciiText(s)
    ensures PrintRaw(s + bs, q, false) == EscapeText(s, q) + PrintRaw(bs, q, false)
  {
    hide EscapeChar;
    if s == [] {
      assert s + bs == bs;
      assert "" + PrintRaw(bs, q, false) == PrintRaw(bs, q, false);
    } else {
      RawAsciiIsText(s[1..], bs, q);
      assert (s + bs)[0] == s[0] && (s + bs)[1..] == s[1..] + bs;
      RawAsciiStep(s + bs, q);
      hide PrintRaw;
      Assoc(EscapeChar(s[0], q), EscapeText(s[1..], q), PrintRaw(bs, q, false));
    }
  }

  const HEX_DIGITS := "0123456789abcdef"

  /** `\xe3\x81\x82` */
  function Hexes(bs: seq<Byte>): Text {
    if bs == [] then ""
    else ['\\', 'x', HEX_DIGITS[bs[0] as int / 16], HEX_DIGITS[bs[0] as int % 16]] + Hexes(bs[1..])
  }

  predicate IsOther(b: Byte) {
    b as int != 0 && !(0x20 <= b as int < 0x7f)
  }

  lemma HexDigitsAreLowerCase(v: nat)
    requires v < 16
    ensures Nibble(v) == HEX_DIGITS[v]
  {
  }

  lemma {:induction false} RawRun(bs: seq<Byte>, q: SurroundBy)
    requires forall i :: 0 <= i < |bs| ==> IsOther(bs[i])
    ensures PrintRaw(bs, q, true) == Hexes(bs) + ("'" + [QuoteChar(q)])
  {
    if bs == [] {
      assert "" + ("'" + [QuoteChar(q)]) == ['\'', QuoteChar(q)];
    } else {
      RawRun(bs[1..], q);
      HexDigitsAreLowerCase(bs[0] as int / 16);
      HexDigitsAreLowerCase(bs[0] as int % 16);
      assert "" + HexEscape(bs[0]) == HexEscape(bs[0]);
      Assoc(HexEscape(bs[0]), Hexes(bs[1..]), "'" + [QuoteChar(q)]);
    }
  }

  /** All other bytes but NUL are printed in one `$'...'`, outside the surrounding quotes, in lower-case
      hexadecimal. */
  lemma RawRunIsEncoded(bs: seq<Byte>, q: SurroundBy)
    requires bs != [] && forall i :: 0 <= i < |bs| ==> IsOther(bs[i])
    ensures PrintRaw(bs, q, false) == [QuoteChar(q)] + "$'" + (Hexes(bs) + ("'" + [QuoteChar(q)]))
  {
    var b, rest := bs[0], bs[1..];
    RawRun(bs, q);
    hide HexEscape, Hexes;
    assert "" + HexEscape(b) == HexEscape(b);
    assert PrintRaw(bs, q, true) == HexEscape(b) + PrintRaw(rest, q, true);
    assert PrintRaw(bs, q, false) == [QuoteChar(q)] + "$'" + HexEscape(b) + PrintRaw(rest, q, true);
    Assoc([QuoteChar(q)] + "$'", HexEscape(b), PrintRaw(rest, q, true));
  }
}
