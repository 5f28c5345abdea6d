// The code that appends to the command string (src/process/escape, `helpers` of src/process/mod.rs),
// proved against the functions of Escape.
module Printer {
  import opened Text
  import opened Escape

  class Buffer {
    var text: Text

    constructor ()
      ensures text == ""
    {
      text := "";
    }

    method PushStr(s: Text)
      modifies this
      ensures text == old(text) + s
    {
      text := text + s;
    }

    method Push(c: char)
      modifies this
      ensures text == old(text) + [c]
    {
      text := text + [c];
    }
  }

  // ---- Splitting ----

  /** `str::split`: the segments between the separators; there is always at least one. */
  function Split(s: Text, sep: char): (r: seq<Text>)
    ensures r != []
  {
    if s == "" then [""]
    else
      var rest := Split(s[1..], sep);
      if s[0] == sep then [""] + rest else [[s[0]] + rest[0]] + rest[1..]
  }

  predicate IsTarget(c: char) {
    c == '\\' || c == '$' || c == '"' || c == '`'
  }

  /** `str::split_inclusive`: each segment ends right after a target character, except the last. */
  function SplitInclusive(s: Text): (r: seq<Text>)
    ensures forall i :: 0 <= i < |r| ==> r[i] != ""
  {
    if s == "" then []
    else
      var rest := SplitInclusive(s[1..]);
      if IsTarget(s[0]) || rest == [] then [[s[0]]] + rest else [[s[0]] + rest[0]] + rest[1..]
  }

  /** The remaining segments, each after an escaped quote. */
  function Quoted(segments: seq<Text>): Text {
    if segments == [] then "" else "'\\''" + segments[0] + Quoted(segments[1..])
  }

  lemma QuotedStep(segments: seq<Text>, i: nat)
    requires i < |segments|
    ensures Quoted(segments[i..]) == "'\\''" + segments[i] + Quoted(segments[i + 1..])
  {
    assert segments[i..][1..] == segments[i + 1..];
  }

  function EscapeSegment(segment: Text): Text
    requires segment != ""
  {
    var n := |segment| - 1;
    if IsTarget(segment[n]) then segment[..n] + "\\" + [segment[n]] else segment
  }

  function EscapeSegments(segments: seq<Text>): Text
    requires forall i :: 0 <= i < |segments| ==> segments[i] != ""
  {
    if segments == [] then "" else EscapeSegment(segments[0]) + EscapeSegments(segments[1..])
  }

  /** Splitting at the quotes gives the same text as escaping every character. */
  lemma {:induction false} SplitIsPerCharacter(s: Text)
    ensures Split(s, '\'')[0] + Quoted(Split(s, '\'')[1..]) == EscapeText(s, Single)
  {
    if s != "" {
      var rest := Split(s[1..], '\'');
      SplitIsPerCharacter(s[1..]);
      if s[0] == '\'' {
        assert Split(s, '\'')[1..] == rest;
        Assoc("'\\''", rest[0], Quoted(rest[1..]));
      } else {
        assert Split(s, '\'')[1..] == rest[1..];
        Assoc([s[0]], rest[0], Quoted(rest[1..]));
      }
    }
  }

  lemma SegmentOfOne(c: char)
    ensures EscapeSegment([c]) == EscapeChar(c, Double)
  {
    assert [c][..0] == "";
  }

  lemma SegmentGrows(c: char, segment: Text)
    requires segment != "" && !IsTarget(c)
    ensures EscapeSegment([c] + segment) == EscapeChar(c, Double) + EscapeSegment(segment)
  {
    var n := |segment| - 1;
    assert ([c] + segment)[n + 1] == segment[n] && ([c] + segment)[..n + 1] == [c] + segment[..n];
  }

  lemma {:induction false} SplitInclusiveIsPerCharacter(s: Text)
    ensures EscapeSegments(SplitInclusive(s)) == EscapeText(s, Double)
  {
    hide EscapeSegment, EscapeChar;
    if s != "" {
      var c, rest, r := s[0], SplitInclusive(s[1..]), SplitInclusive(s);
      SplitInclusiveIsPerCharacter(s[1..]);
      if IsTarget(c) || rest == [] {
        assert r[1..] == rest;
        SegmentOfOne(c);
      } else {
        assert r[1..] == rest[1..];
        SegmentGrows(c, rest[0]);
        Assoc(EscapeChar(c, Double), EscapeSegment(rest[0]), EscapeSegments(rest[1..]));
      }
    }
  }

  lemma PrintRawStep(bytes: seq<Byte>, i: nat, q: SurroundBy, encoding: bool)
    requires i < |bytes|
    ensures PrintRaw(bytes[i..], q, encoding)
         == PrintRawByte(bytes[i], q, encoding) + PrintRaw(bytes[i + 1..], q, EncodingAfter(bytes[i], encoding))
  {
    assert bytes[i..][1..] == bytes[i + 1..];
  }

  // ---- Escaper ----

  class Escaper {
    const buf: Buffer
    const surr: SurroundBy

    constructor (buf: Buffer, surr: SurroundBy)
      ensures this.buf == buf && this.surr == surr
    {
      this.buf := buf;
      this.surr := surr;
    }

    method WriteRaw(s: Text)
      modifies buf
      ensures buf.text == old(buf.text) + s
    {
      buf.PushStr(s);
    }

    method WriteRawChar(c: char)
      modifies buf
      ensures buf.text == old(buf.text) + [c]
    {
      buf.Push(c);
    }

    method EscapeStrSingle(s: Text)
      modifies buf
      ensures buf.text == old(buf.text) + EscapeText(s, Single)
    {
      SplitIsPerCharacter(s);
      var segments := Split(s, '\'');
      hide EscapeText, Split;
      WriteRaw(segments[0]);
      var i := 1;
      while i < |segments|
        invariant 1 <= i <= |segments|
        invariant buf.text + Quoted(segments[i..]) == old(buf.text) + EscapeText(s, Single)
      {
        hide Quoted;
        ghost var before := buf.text;
        QuotedStep(segments, i);
        WriteRaw("'\\''");
        WriteRaw(segments[i]);
        Assoc(before, "'\\''", segments[i]);
        Assoc(before, "'\\''" + segments[i], Quoted(segments[i + 1..]));
        i := i + 1;
      }
    }

    method EscapeStrDouble(s: Text)
      modifies buf
      ensures buf.text == old(buf.text) + EscapeText(s, Double)
    {
      SplitInclusiveIsPerCharacter(s);
      var segments := SplitInclusive(s);
      var i := 0;
      while i < |segments|
        invariant 0 <= i <= |segments|
        invariant buf.text + EscapeSegments(segments[i..]) == old(buf.text) + EscapeText(s, Double)
      {
        hide EscapeText;
        ghost var before := buf.text;
        var segment := segments[i];
        var n := |segment| - 1;
        if IsTarget(segment[n]) {
          WriteRaw(segment[..n]);
          WriteRawChar('\\');
          WriteRawChar(segment[n]);
          Assoc(before, segment[..n], "\\");
          Assoc(before, segment[..n] + "\\", [segment[n]]);
        } else {
          WriteRaw(segment);
        }
        assert buf.text == before + EscapeSegment(segment);
        hide EscapeSegment;
        assert segments[i..][1..] == segments[i + 1..];
        Assoc(before, EscapeSegment(segment), EscapeSegments(segments[i + 1..]));
        i := i + 1;
      }
    }

    method EscapeStr(s: Text)
      modifies buf
      ensures buf.text == old(buf.text) + EscapeText(s, surr)
    {
      match surr
      case Double => EscapeStrDouble(s);
      case Single => EscapeStrSingle(s);
    }

    method WriteChar(c: char)
      modifies buf
      ensures buf.text == old(buf.text) + EscapeChar(c, surr)
    {
      match surr
      case Double =>
        if IsTarget(c) {
          WriteRawChar('\\');
          WriteRawChar(c);
        } else {
          WriteRawChar(c);
        }
      case Single =>
        if c == '\'' {
          WriteRaw("'\\''");
        } else {
          WriteRawChar(c);
        }
    }

    /** However a formatter splits its output, the text is that of the whole. */
    method EscapeFmt(pieces: seq<FmtCall>)
      modifies buf
      ensures buf.text == old(buf.text) + EscapeText(Flatten(pieces), surr)
    {
      PiecesAreOneText(pieces, surr);
      var i := 0;
      while i < |pieces|
        invariant 0 <= i <= |pieces|
        invariant buf.text + PrintPieces(pieces[i..], surr) == old(buf.text) + PrintPieces(pieces, surr)
      {
        hide EscapeText, EscapeChar;
        ghost var before := buf.text;
        assert pieces[i..][1..] == pieces[i + 1..];
        match pieces[i] {
          case FmtStr(s) => EscapeStr(s);
          case FmtChar(c) => WriteChar(c);
        }
        assert buf.text == before + PrintPiece(pieces[i], surr);
        Assoc(before, PrintPiece(pieces[i], surr), PrintPieces(pieces[i + 1..], surr));
        i := i + 1;
      }
    }

    method LeaveEncoding(encoding: bool)
      modifies buf
      ensures buf.text == old(buf.text) + CloseEncoding(surr, encoding)
    {
      if encoding {
        WriteRawChar('\'');
        WriteRawChar(QuoteChar(surr));
        Assoc(old(buf.text), ['\''], [QuoteChar(surr)]);
      }
    }

    method EnterEncoding(encoding: bool)
      modifies buf
      ensures buf.text == old(buf.text) + OpenEncoding(surr, encoding)
    {
      if !encoding {
        WriteRawChar(QuoteChar(surr));
        WriteRaw("$'");
        Assoc(old(buf.text), [QuoteChar(surr)], "$'");
      }
    }

    method WriteRawBytes(bytes: seq<Byte>)
      modifies buf
      ensures buf.text == old(buf.text) + PrintRaw(bytes, surr, false)
    {
      var encoding := false;
      var i := 0;
      while i < |bytes|
        invariant 0 <= i <= |bytes|
        invariant buf.text + PrintRaw(bytes[i..], surr, encoding) == old(buf.text) + PrintRaw(bytes, surr, false)
      {
        hide EscapeChar, PrintRaw, OpenEncoding, CloseEncoding;
        var byte := bytes[i];
        ghost var before, was := buf.text, encoding;
        if Printable(byte) {
          LeaveEncoding(encoding);
          encoding := false;
          WriteChar(byte);
          Assoc(before, CloseEncoding(surr, was), EscapeChar(byte, surr));
        } else if byte as int != 0 {
          EnterEncoding(encoding);
          encoding := true;
          var hi, lo := byte as int / 16, byte as int % 16;
          WriteRaw(['\\', 'x', Nibble(hi), Nibble(lo)]);
          Assoc(before, OpenEncoding(surr, was), HexEscape(byte));
        }
        assert buf.text == before + PrintRawByte(byte, surr, was);
        hide PrintRawByte, HexEscape;
        PrintRawStep(bytes, i, surr, was);
        Assoc(before, PrintRawByte(byte, surr, was), PrintRaw(bytes[i + 1..], surr, encoding));
        i := i + 1;
      }
      LeaveEncoding(encoding);
    }

    /** `Arg::write`, for every kind of argument. */
    method Write(a: Arg)
      modifies buf
      ensures buf.text == old(buf.text) + PrintArg(a, surr)
      decreases a, 0
    {
      hide EscapeText, PrintPieces, PrintRaw, PrintAll, PrintPart, Flatten;
      match a
      case Str(s) => EscapeStr(s);
      case Display(pieces) =>
        PiecesAreOneText(pieces, surr);
        EscapeFmt(pieces);
      case RawBytes(bytes) => WriteRawBytes(bytes);
      case Env(expr) =>
        WriteRaw("${");
        WriteRaw(expr);
        WriteRawChar('}');
      case Tuple(components) => WriteAll(components);
      case Concat(_, items) => WriteAll(items);
      case Expand(part) =>
        WriteRaw("$(");
        WritePart(buf, part);
        WriteRawChar(')');
    }

    method WriteAll(args: seq<Arg>)
      modifies buf
      ensures buf.text == old(buf.text) + PrintAll(args, surr)
      decreases args, 0
    {
      var i := 0;
      while i < |args|
        invariant 0 <= i <= |args|
        invariant buf.text + PrintAll(args[i..], surr) == old(buf.text) + PrintAll(args, surr)
      {
        hide PrintArg;
        ghost var before := buf.text;
        assert args[i..][1..] == args[i + 1..];
        Write(args[i]);
        Assoc(before, PrintArg(args[i], surr), PrintAll(args[i + 1..], surr));
        i := i + 1;
      }
    }
  }

  // ---- helpers ----

  method WriteQuoted(buf: Buffer, a: Arg)
    modifies buf
    ensures buf.text == old(buf.text) + PrintQuoted(a)
    decreases a, 1
  {
    var q := Surround(a);
    buf.Push(QuoteChar(q));
    var escaper := new Escaper(buf, q);
    escaper.Write(a);
    buf.Push(QuoteChar(q));
  }

  method WriteEnv(buf: Buffer, key: Key, value: Arg)
    modifies buf
    ensures buf.text == old(buf.text) + PrintEnv(key, value)
    decreases value, 2
  {
    if key == [] || !FirstAllowed(key[0]) {
      return;
    }
    var idx := RestLength(key[1..]);
    idx := FloorCharBoundary(key, idx + 1);
    ghost var before, name, word := buf.text, key[..idx], PrintQuoted(value);
    buf.PushStr(key[..idx]);
    buf.PushStr("=");
    hide PrintQuoted;
    WriteQuoted(buf, value);
    buf.PushStr(" ");
    Assoc(before, name, "=");
    Assoc(before, name + "=", word);
    Assoc(before, name + "=" + word, " ");
  }

  method WriteArg(buf: Buffer, a: Arg)
    modifies buf
    ensures buf.text == old(buf.text) + (PrintQuoted(a) + " ")
    decreases a, 2
  {
    WriteQuoted(buf, a);
    buf.PushStr(" ");
  }

  method WriteTarget(buf: Buffer, target: RedirectTo)
    modifies buf
    ensures buf.text == old(buf.text) + PrintRedirectTo(target)
    decreases target, 1
  {
    match target
    case Path(path) => WriteQuoted(buf, path);
    case Dup(fd) =>
      buf.Push('&');
      buf.PushStr(Decimal(fd));
  }

  method WriteOperator(buf: Buffer, r: Redirect)
    modifies buf
    ensures buf.text == old(buf.text) + (DescriptorText(r) + OperatorText(r))
  {
    match r {
      case Stdin(_) => buf.Push('<');
      case Stdout(_, append) => if append { buf.PushStr(">>"); } else { buf.Push('>'); }
      case Stderr(_, append) => if append { buf.PushStr("2>>"); } else { buf.PushStr("2>"); }
      case Custom(fd, _, mode) =>
        buf.PushStr(Decimal(fd));
        match mode {
          case Read => buf.Push('<');
          case Write => buf.Push('>');
          case Append => buf.PushStr(">>");
          case ReadWrite => buf.PushStr("<>");
        }
    }
  }

  method WriteRedirect(buf: Buffer, r: Redirect)
    modifies buf
    ensures buf.text == old(buf.text) + PrintRedirect(r)
    decreases r, 1
  {
    ghost var before, op, to := buf.text, DescriptorText(r) + OperatorText(r), PrintRedirectTo(r.to);
    WriteOperator(buf, r);
    hide PrintRedirectTo, DescriptorText, OperatorText;
    WriteTarget(buf, r.to);
    buf.Push(' ');
    Assoc(before, op, to);
    Assoc(before, op + to, " ");
  }

  method WriteEnvs(buf: Buffer, envs: seq<Binding>)
    modifies buf
    ensures buf.text == old(buf.text) + PrintEnvs(envs)
    decreases envs, 0
  {
    var i := 0;
    while i < |envs|
      invariant 0 <= i <= |envs|
      invariant buf.text + PrintEnvs(envs[i..]) == old(buf.text) + PrintEnvs(envs)
    {
      hide PrintEnv;
      ghost var before := buf.text;
      assert envs[i..][1..] == envs[i + 1..];
      WriteEnv(buf, envs[i].key, envs[i].value);
      Assoc(before, PrintEnv(envs[i].key, envs[i].value), PrintEnvs(envs[i + 1..]));
      i := i + 1;
    }
  }

  method WriteArgs(buf: Buffer, args: seq<Arg>)
    modifies buf
    ensures buf.text == old(buf.text) + PrintWords(args)
    decreases args, 0
  {
    var i := 0;
    while i < |args|
      invariant 0 <= i <= |args|
      invariant buf.text + PrintWords(args[i..]) == old(buf.text) + PrintWords(args)
    {
      hide PrintQuoted;
      ghost var before := buf.text;
      assert args[i..][1..] == args[i + 1..];
      WriteArg(buf, args[i]);
      Assoc(before, PrintQuoted(args[i]) + " ", PrintWords(args[i + 1..]));
      i := i + 1;
    }
  }

  /** `Part::write`. */
  method WritePart(buf: Buffer, part: Part)
    modifies buf
    ensures buf.text == old(buf.text) + PrintPart(part)
    decreases part, 0
  {
    hide PrintEnv, PrintEnvs, PrintWords, PrintRedirect, PrintQuoted;
    match part
    case Assignment(key, value) => WriteEnv(buf, key, value);
    case Envs(envs) => WriteEnvs(buf, envs);
    case Args(args) => WriteArgs(buf, args);
    case And => buf.PushStr("&& ");
    case Or => buf.PushStr("|| ");
    case Pipe => buf.PushStr("| ");
    case Term => buf.PushStr("; ");
    case Redir(r) => WriteRedirect(buf, r);
    case Word(a) => WriteArg(buf, a);
    case Then(first, second) =>
      WritePart(buf, first);
      WritePart(buf, second);
  }
}
