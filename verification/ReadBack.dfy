// The shell reader undoes the printer.
module ReadBack {
  import opened Text
  import opened Escape
  import Shell

  function QuoteOf(q: SurroundBy): Shell.Quote {
    if q.Double? then Shell.Double else Shell.Single
  }

  // ---- Literals ----

  lemma LiteralsStep(acc: Shell.Word, s: Text, quoted: bool)
    requires s != ""
    ensures acc + [Shell.Lit(s[0], quoted)] + Shell.Literals(s[1..], quoted) == acc + Shell.Literals(s, quoted)
  {
  }

  lemma LiteralsConcat(acc: Shell.Word, s: Text, t: Text, quoted: bool)
    ensures acc + Shell.Literals(s, quoted) + Shell.Literals(t, quoted) == acc + Shell.Literals(s + t, quoted)
  {
  }

  lemma DropNulStep(bs: seq<Byte>)
    requires bs != []
    ensures DropNul(bs) == DropNul([bs[0]]) + DropNul(bs[1..])
  {
  }

  lemma ReadChar(sh: Shell.Dialect, c: char, q: SurroundBy, tail: Text, acc: Shell.Word)
    requires c != '\0'
    ensures Shell.ReadIn(sh, QuoteOf(q), EscapeChar(c, q) + tail, acc)
         == Shell.ReadIn(sh, QuoteOf(q), tail, acc + [Shell.Lit(c, true)])
  {
    var s := EscapeChar(c, q) + tail;
    if q.Single? && c == '\'' {
      assert s[1..][0] == '\\' && s[1..][1] == '\'' && s[1..][2..][0] == '\'';
      assert s[1..][2..][1..] == tail;
      assert Shell.ReadUnquoted(sh, s[1..], acc) == Shell.ReadUnquoted(sh, s[1..][2..], acc + [Shell.Lit(c, true)]);
    } else if |EscapeChar(c, q)| == 1 {
      assert s[1..] == tail;
    } else {
      assert s[2..] == tail;
    }
  }

  lemma {:induction false} ReadText(sh: Shell.Dialect, s: Text, q: SurroundBy, tail: Text, acc: Shell.Word)
    requires NoNul(s)
    ensures Shell.ReadIn(sh, QuoteOf(q), EscapeText(s, q) + tail, acc)
         == Shell.ReadIn(sh, QuoteOf(q), tail, acc + Shell.Literals(s, true))
  {
    hide EscapeChar, Shell.ReadIn;
    if s == "" {
      assert "" + tail == tail && acc + Shell.Literals(s, true) == acc;
    } else {
      Assoc(EscapeChar(s[0], q), EscapeText(s[1..], q), tail);
      ReadChar(sh, s[0], q, EscapeText(s[1..], q) + tail, acc);
      ReadText(sh, s[1..], q, tail, acc + [Shell.Lit(s[0], true)]);
      LiteralsStep(acc, s, true);
    }
  }

  // ---- Raw bytes ----

  lemma HexPair(k: nat, b: Byte, rest: Text)
    requires k >= 2
    requires rest != "" && !Shell.IsHex(rest[0])
    ensures var s := [Nibble(b as int / 16), Nibble(b as int % 16)] + rest;
            Shell.HexRun(k, s) == 2 && Shell.HexValue(s[..2]) == b as int
  {
    var hi, lo := Nibble(b as int / 16), Nibble(b as int % 16);
    var s := [hi, lo] + rest;
    assert s[1..] == [lo] + rest && s[1..][1..] == rest;
    assert Shell.HexRun(k - 2, rest) == 0;
    assert Shell.HexRun(k - 1, s[1..]) == 1;
    assert s[..2][..1] == [hi] && [hi][..0] == "";
    assert Shell.HexValue([hi]) == b as int / 16;
  }

  /** The reader's state that matches the printer's `encoding` flag. */
  function ReadRawIn(sh: Shell.Dialect, q: SurroundBy, encoding: bool, s: Text, acc: Shell.Word)
    : Option<(Shell.Word, Text)>
  {
    if encoding then Shell.ReadDollarSingle(sh, s, acc) else Shell.ReadIn(sh, QuoteOf(q), s, acc)
  }

  lemma LeaveRaw(sh: Shell.Dialect, q: SurroundBy, encoding: bool, tail: Text, acc: Shell.Word)
    ensures ReadRawIn(sh, q, encoding, CloseEncoding(q, encoding) + tail, acc)
         == Shell.ReadIn(sh, QuoteOf(q), tail, acc)
  {
    var s := CloseEncoding(q, encoding) + tail;
    if encoding {
      var t := s[1..];
      assert t == [QuoteChar(q)] + tail && t[1..] == tail;
      assert Shell.ReadDollarSingle(sh, s, acc) == Shell.ReadUnquoted(sh, t, acc);
      assert Shell.ReadUnquoted(sh, t, acc) == Shell.ReadIn(sh, QuoteOf(q), t[1..], acc);
    } else {
      assert s == tail;
    }
  }

  lemma EnterRaw(sh: Shell.Dialect, q: SurroundBy, encoding: bool, tail: Text, acc: Shell.Word)
    ensures ReadRawIn(sh, q, encoding, OpenEncoding(q, encoding) + tail, acc) == Shell.ReadDollarSingle(sh, tail, acc)
  {
    var s := OpenEncoding(q, encoding) + tail;
    if encoding {
      assert s == tail;
    } else {
      var t := s[1..];
      assert t[0] == '$' && t[1] == '\'' && t[2..] == tail;
      assert Shell.ReadIn(sh, QuoteOf(q), s, acc) == Shell.ReadUnquoted(sh, t, acc);
      assert Shell.ReadUnquoted(sh, t, acc) == Shell.ReadDollarSingle(sh, t[2..], acc);
    }
  }

  /** Encoded bytes are followed by a backslash or a quote, never by a hex digit. */
  lemma {:induction false} RawContinues(bs: seq<Byte>, q: SurroundBy, tail: Text)
    ensures var s := PrintRaw(bs, q, true) + tail;
            s != "" && (s[0] == '\\' || s[0] == '\'')
  {
    if bs != [] && !Printable(bs[0]) && bs[0] as int == 0 {
      RawContinues(bs[1..], q, tail);
      assert PrintRaw(bs, q, true) == PrintRaw(bs[1..], q, true);
    }
  }

  lemma ReadHex(sh: Shell.Dialect, b: Byte, rest: Text, acc: Shell.Word)
    requires b != '\0'
    requires rest != "" && !Shell.IsHex(rest[0])
    ensures Shell.ReadDollarSingle(sh, HexEscape(b) + rest, acc)
         == Shell.ReadDollarSingle(sh, rest, acc + [Shell.Lit(b, true)])
  {
    var s := HexEscape(b) + rest;
    HexPair(2 + sh.moreHex, b, rest);
    assert s[2..] == [Nibble(b as int / 16), Nibble(b as int % 16)] + rest;
    assert s[2..4] == s[2..][..2] && s[4..] == rest;
  }

  /** One byte of the flag machine, read back. */
  lemma ReadRawByte(sh: Shell.Dialect, b: Byte, q: SurroundBy, encoding: bool, tail: Text, acc: Shell.Word)
    requires EncodingAfter(b, encoding) ==> tail != "" && !Shell.IsHex(tail[0])
    ensures ReadRawIn(sh, q, encoding, PrintRawByte(b, q, encoding) + tail, acc)
         == ReadRawIn(sh, q, EncodingAfter(b, encoding), tail, acc + Shell.Literals(DropNul([b]), true))
  {
    hide Shell.ReadIn, Shell.ReadDollarSingle, EscapeChar, OpenEncoding, CloseEncoding, HexEscape;
    if b as int == 0 {
      assert acc + Shell.Literals(DropNul([b]), true) == acc;
      assert PrintRawByte(b, q, encoding) + tail == tail;
    } else {
      assert Shell.Literals(DropNul([b]), true) == [Shell.Lit(b, true)];
      if Printable(b) {
        LeaveRaw(sh, q, encoding, EscapeChar(b, q) + tail, acc);
        ReadChar(sh, b, q, tail, acc);
        Assoc(CloseEncoding(q, encoding), EscapeChar(b, q), tail);
      } else {
        EnterRaw(sh, q, encoding, HexEscape(b) + tail, acc);
        ReadHex(sh, b, tail, acc);
        Assoc(OpenEncoding(q, encoding), HexEscape(b), tail);
      }
    }
  }

  /** However many hex digits beyond two the shell takes after `\x`. */
  lemma {:induction false} ReadRaw(sh: Shell.Dialect, bs: seq<Byte>, q: SurroundBy, encoding: bool, tail: Text,
                                   acc: Shell.Word)
    ensures ReadRawIn(sh, q, encoding, PrintRaw(bs, q, encoding) + tail, acc)
         == Shell.ReadIn(sh, QuoteOf(q), tail, acc + Shell.Literals(DropNul(bs), true))
    decreases |bs|
  {
    hide ReadRawIn, PrintRawByte, CloseEncoding, EncodingAfter, Shell.ReadIn;
    if bs == [] {
      LeaveRaw(sh, q, encoding, tail, acc);
      assert acc + Shell.Literals("", true) == acc;
    } else {
      var b, rest := bs[0], bs[1..];
      var next := EncodingAfter(b, encoding);
      var text' := PrintRaw(rest, q, next);
      var acc' := acc + Shell.Literals(DropNul([b]), true);
      if next {
        RawContinues(rest, q, tail);
      }
      ReadRawByte(sh, b, q, encoding, text' + tail, acc);
      ReadRaw(sh, rest, q, next, tail, acc');
      Assoc(PrintRawByte(b, q, encoding), text', tail);
      DropNulStep(bs);
      LiteralsConcat(acc, DropNul([b]), DropNul(rest), true);
    }
  }

  // ---- Unquoted pieces ----

  lemma {:induction false} ReadPlain(sh: Shell.Dialect, s: Text, tail: Text, acc: Shell.Word)
    requires forall i :: 0 <= i < |s| ==> NameChar(s[i]) || s[i] == '='
    ensures Shell.ReadUnquoted(sh, s + tail, acc) == Shell.ReadUnquoted(sh, tail, acc + Shell.Literals(s, false))
  {
    if s == "" {
      assert s + tail == tail && acc + Shell.Literals(s, false) == acc;
    } else {
      assert (s + tail)[0] == s[0] && (s + tail)[1..] == s[1..] + tail;
      ReadPlain(sh, s[1..], tail, acc + [Shell.Lit(s[0], false)]);
      LiteralsStep(acc, s, false);
    }
  }

  lemma {:induction false} NameRunIs(name: Text, w: Shell.Word)
    requires forall i :: 0 <= i < |name| ==> NameChar(name[i])
    requires w != [] && !(w[0].Lit? && NameChar(w[0].c))
    ensures Shell.NameRun(Shell.Literals(name, false) + w) == |name|
  {
    var u := Shell.Literals(name, false) + w;
    if name == "" {
      assert u == w;
    } else {
      NameRunIs(name[1..], w);
      assert u[1..] == Shell.Literals(name[1..], false) + w;
    }
  }

  lemma ClassifyAssignment(sh: Shell.Dialect, name: Text, value: Shell.Word)
    requires name != "" && NameStart(name[0]) && forall i :: 0 <= i < |name| ==> NameChar(name[i])
    ensures Shell.Classify(sh, Shell.Literals(name + "=", false) + value, false) == Some(Shell.Assign(name, value))
  {
    var w := Shell.Literals(name + "=", false) + value;
    assert w == Shell.Literals(name, false) + ([Shell.Lit('=', false)] + value);
    NameRunIs(name, [Shell.Lit('=', false)] + value);
    assert Shell.Letters(w[..|name|]) == name;
    assert w[|name| + 1..] == value;
  }

  predicate AllQuoted(w: Shell.Word) {
    forall i :: 0 <= i < |w| ==> w[i].quoted
  }

  lemma ClassifyQuoted(sh: Shell.Dialect, w: Shell.Word, named: bool)
    requires AllQuoted(w)
    ensures Shell.Classify(sh, w, named) == Some(Shell.Argument(w))
  {
    assert Shell.NameRun(w) == 0;
    forall i | 0 <= i < |Shell.RESERVED|
      ensures w != Shell.Literals(Shell.RESERVED[i], false)
    {
      assert Shell.RESERVED[i] != "";
      assert !Shell.Literals(Shell.RESERVED[i], false)[0].quoted;
    }
  }

  lemma FirstBraceIs(sh: Shell.Dialect, expr: Text, tail: Text)
    requires Shell.Encloses(sh, expr)
    ensures Shell.FirstBrace(sh, expr + ("}" + tail), 0) == Some(|expr|)
  {
    hide Shell.Completes;
    var s := expr + ("}" + tail);
    assert s[|expr|] == '}' && s[..|expr|] == expr;
    assert forall m :: 0 <= m < |expr| ==> s[m] == expr[m] && s[..m] == expr[..m];
  }

  lemma ReadEnvExpansion(sh: Shell.Dialect, expr: Text, tail: Text, acc: Shell.Word)
    requires Shell.Encloses(sh, expr)
    ensures Shell.ReadDouble(sh, "${" + expr + "}" + tail, acc)
         == Shell.ReadDouble(sh, tail, acc + [Shell.Param(expr, true)])
  {
    hide Shell.FirstBrace, Shell.Encloses;
    var s := "${" + expr + "}" + tail;
    var t := s[1..];
    assert s[0] == '$' && t[0] == '{';
    assert t[1..] == expr + ("}" + tail);
    FirstBraceIs(sh, expr, tail);
    assert expr != "" by { EnclosesIsNotEmpty(sh, expr); }
    assert t[1..][..|expr|] == expr && t[1..][|expr| + 1..] == tail;
    assert Shell.ReadExpansion(sh, t, true) == Some((Shell.Param(expr, true), tail));
  }

  lemma EnclosesIsNotEmpty(sh: Shell.Dialect, expr: Text)
    requires Shell.Encloses(sh, expr)
    ensures expr != ""
  {
  }

  /** One element, read from its text. */
  lemma ReadStep(sh: Shell.Dialect, s: Text, rest: Text, p: Shell.Progress, e: Shell.Element)
    requires s != "" && (NameChar(s[0]) || s[0] == '\'' || s[0] == '"' || s[0] == '<' || s[0] == '>')
    requires |rest| + 1 < |s|
    requires Shell.ReadElement(sh, s, p.named) == Some((e, " " + rest))
    ensures Shell.ReadScript(sh, s, p) == Shell.ReadScript(sh, rest, p.Add(e))
  {
    hide Shell.ReadElement;
    var t := " " + rest;
    assert Shell.ReadScript(sh, s, p) == Shell.ReadScript(sh, t, p.Add(e));
    assert t[1..] == rest;
  }
}
