// A reference reader for the POSIX shell command language (IEEE Std 1003.1-2017, XCU), written
// without looking at the printer. Sections 2.2 (quoting), 2.3 (token recognition), 2.6.2 and 2.6.3
// (parameter expansion, command substitution), 2.7 (redirection) and 2.10 (grammar); `$'...'` is
// section 2.2.4 of POSIX.1-2024. Constructs outside the subset (arithmetic, here-documents,
// backquotes, compound commands, comments, newlines between commands) make the reader fail. So does
// a NUL byte: no program, and no shell, can be started on a command string that holds one.
module Shell {
  import opened Text
  import Braces

  // What a script means: its commands, with every character, expansion and substitution of every
  // word, and whether it was quoted.
  datatype Unit =
    | Lit(c: char, quoted: bool)
    | Param(expr: Text, quoted: bool)
    | Subst(script: seq<SimpleCommand>, quoted: bool)

  type Word = seq<Unit>

  datatype Operator = Less | Great | DGreat | LessGreat

  datatype Target = File(word: Word) | Descriptor(fd: nat)

  datatype Element =
    | Assign(name: Text, value: Word)
    | Redirect(fd: nat, op: Operator, target: Target)
    | Argument(word: Word)

  datatype Connector = AndIf | OrIf | Pipe | Semi | Amp

  datatype SimpleCommand = SimpleCommand(elements: seq<Element>, conn: Connector)

  /** A script being read: finished commands, the elements of the current one, and whether its
      command name has been seen. */
  datatype Progress = Progress(done: seq<SimpleCommand>, current: seq<Element>, named: bool)
  {
    function Add(e: Element): Progress {
      Progress(done, current + [e], named || e.Argument?)
    }

    function Close(conn: Connector): Progress {
      Progress(done + [SimpleCommand(current, conn)], [], false)
    }

    /** The whole script; the last command may omit its `;`, but not the right side of `&&`. */
    function Finish(): Option<seq<SimpleCommand>> {
      if current != [] then Some(Close(Semi).done)
      else if done != [] && !done[|done| - 1].conn.Semi? && !done[|done| - 1].conn.Amp? then None
      else Some(done)
    }
  }

  const START := Progress([], [], false)

  // ---- What the standard leaves to the shell ----

  /** How many digits beyond two it reads after `\x`, how many digits beyond one a descriptor may have
      (section 2.7), and which texts it takes as those of an expansion among the ones `Braces.Follow`
      does not follow. */
  datatype Dialect = Dialect(moreHex: nat, moreDigits: nat, takes: Text -> bool)
  {
    predicate TakesDescriptor(digits: nat) {
      digits <= 1 + moreDigits
    }
  }

  /** `e` is the text of an expansion if the next character is `}`. */
  predicate Completes(sh: Dialect, e: Text) {
    match Braces.Follow(e + "}", Braces.EXPANSION)
    case Closed(n) => n == |e| + 1
    case Unclosed => false
    case NotFollowed => NoNul(e) && sh.takes(e)
  }

  /** The expansion with the text `e` is ended by the brace after it and by no earlier one. */
  predicate Encloses(sh: Dialect, e: Text) {
    e != "" && Completes(sh, e) && forall m :: 0 <= m < |e| && e[m] == '}' ==> !Completes(sh, e[..m])
  }

  /** The first brace, from index `start` on, that ends the expansion. */
  function FirstBrace(sh: Dialect, s: Text, start: nat): (r: Option<nat>)
    requires start <= |s|
    ensures r.Some? ==> start <= r.value < |s| && s[r.value] == '}' && Completes(sh, s[..r.value])
    ensures forall m :: start <= m < (if r.Some? then r.value else |s|) && s[m] == '}' ==> !Completes(sh, s[..m])
    decreases |s| - start
  {
    if start == |s| then None
    else if s[start] == '}' && Completes(sh, s[..start]) then Some(start)
    else FirstBrace(sh, s, start + 1)
  }

  lemma FirstBraceEncloses(sh: Dialect, s: Text)
    ensures var r := FirstBrace(sh, s, 0);
      r.Some? && r.value > 0 ==> Encloses(sh, s[..r.value])
  {
    var r := FirstBrace(sh, s, 0);
    if r.Some? {
      assert forall m :: 0 <= m < r.value ==> s[..r.value][..m] == s[..m];
    }
  }

  /** If every character can be followed, a caller can tell by scanning the text and its brace. */
  lemma EnclosesIsClosed(sh: Dialect, e: Text)
    requires Braces.Follow(e + "}", Braces.EXPANSION) != Braces.NotFollowed
    ensures Encloses(sh, e) <==> e != "" && Braces.IsClosed(e)
  {
    if Braces.IsClosed(e) {
      forall m | 0 <= m < |e| && e[m] == '}'
        ensures !Completes(sh, e[..m])
      {
        Braces.PrefixIsOpen(e + "}", Braces.EXPANSION, m + 1);
        assert (e + "}")[..m + 1] == e[..m] + "}";
      }
    }
  }

  // ---- Characters ----

  predicate IsBlank(c: char) {
    c == ' ' || c == '\t'
  }

  predicate IsControl(c: char) {
    c == ';' || c == '&' || c == '|'
  }

  predicate IsAngle(c: char) {
    c == '<' || c == '>'
  }

  /** Characters that keep their backslash escape inside double quotes (section 2.2.3). */
  predicate IsDoubleSpecial(c: char) {
    c == '$' || c == '`' || c == '"' || c == '\\'
  }

  /** Characters that end an unquoted token (section 2.3). */
  predicate IsDelimiter(c: char) {
    IsBlank(c) || c == '\n' || IsControl(c) || IsAngle(c) || c == '(' || c == ')'
  }

  predicate IsHex(c: char) {
    IsDigit(c) || 'a' <= c <= 'f' || 'A' <= c <= 'F'
  }

  function HexDigit(c: char): nat
    requires IsHex(c)
  {
    if IsDigit(c) then DigitValue(c)
    else if 'a' <= c <= 'f' then c as int - 'a' as int + 10
    else c as int - 'A' as int + 10
  }

  /** Leading hexadecimal digits, at most `hexMax` of them: shells differ in how many they read. */
  function HexRun(hexMax: nat, s: Text): (n: nat)
    ensures n <= |s| && n <= hexMax
    ensures forall i :: 0 <= i < n ==> IsHex(s[i])
  {
    if hexMax == 0 || s == "" || !IsHex(s[0]) then 0 else 1 + HexRun(hexMax - 1, s[1..])
  }

  function HexValue(s: Text): nat
    requires forall i :: 0 <= i < |s| ==> IsHex(s[i])
  {
    if s == "" then 0 else HexValue(s[..|s| - 1]) * 16 + HexDigit(s[|s| - 1])
  }

  // ---- Words ----

  datatype Quote = Unquoted | Single | Double

  /** Reads on inside the given quotes, up to the end of the word. */
  function ReadIn(sh: Dialect, q: Quote, s: Text, acc: Word): (r: Option<(Word, Text)>)
    ensures r.Some? ==> |r.value.1| <= |s|
    ensures FormedWord(sh, acc) && r.Some? ==> FormedWord(sh, r.value.0)
    decreases |s|, 1
  {
    match q
    case Unquoted => ReadUnquoted(sh, s, acc)
    case Single => ReadSingle(sh, s, acc)
    case Double => ReadDouble(sh, s, acc)
  }

  function ReadUnquoted(sh: Dialect, s: Text, acc: Word): (r: Option<(Word, Text)>)
    ensures r.Some? ==> |r.value.1| <= |s|
    ensures FormedWord(sh, acc) && r.Some? ==> FormedWord(sh, r.value.0)
    decreases |s|, 0
  {
    if s == "" || IsDelimiter(s[0]) then Some((acc, s))
    else if s[0] == '\'' then ReadSingle(sh, s[1..], acc)
    else if s[0] == '"' then ReadDouble(sh, s[1..], acc)
    else if s[0] == '\\' then
      if |s| < 2 then None
      else if s[1] == '\n' then ReadUnquoted(sh, s[2..], acc)
      else if s[1] == '\0' then None
      else ReadUnquoted(sh, s[2..], acc + [Lit(s[1], true)])
    else if s[0] == '$' then
      if |s| >= 2 && s[1] == '\'' then ReadDollarSingle(sh, s[2..], acc)
      else
        match ReadExpansion(sh, s[1..], false)
        case None => None
        case Some((u, rest)) => ReadUnquoted(sh, rest, acc + [u])
    else if s[0] == '`' || s[0] == '\0' then None
    else ReadUnquoted(sh, s[1..], acc + [Lit(s[0], false)])
  }

  /** Section 2.2.2: everything up to the next single quote is literal. */
  function ReadSingle(sh: Dialect, s: Text, acc: Word): (r: Option<(Word, Text)>)
    ensures r.Some? ==> |r.value.1| <= |s|
    ensures FormedWord(sh, acc) && r.Some? ==> FormedWord(sh, r.value.0)
    decreases |s|, 0
  {
    if s == "" || s[0] == '\0' then None
    else if s[0] == '\'' then ReadUnquoted(sh, s[1..], acc)
    else ReadSingle(sh, s[1..], acc + [Lit(s[0], true)])
  }

  /** Section 2.2.3: `$`, backquote and backslash stay special. */
  function ReadDouble(sh: Dialect, s: Text, acc: Word): (r: Option<(Word, Text)>)
    ensures r.Some? ==> |r.value.1| <= |s|
    ensures FormedWord(sh, acc) && r.Some? ==> FormedWord(sh, r.value.0)
    decreases |s|, 0
  {
    if s == "" then None
    else if s[0] == '"' then ReadUnquoted(sh, s[1..], acc)
    else if s[0] == '\\' then
      if |s| < 2 then None
      else if s[1] == '\n' then ReadDouble(sh, s[2..], acc)
      else if IsDoubleSpecial(s[1]) then ReadDouble(sh, s[2..], acc + [Lit(s[1], true)])
      else ReadDouble(sh, s[1..], acc + [Lit('\\', true)])
    else if s[0] == '$' then
      match ReadExpansion(sh, s[1..], true)
      case None => None
      case Some((u, rest)) => ReadDouble(sh, rest, acc + [u])
    else if s[0] == '`' || s[0] == '\0' then None
    else ReadDouble(sh, s[1..], acc + [Lit(s[0], true)])
  }

  /** Section 2.2.4 of POSIX.1-2024: inside `$'...'`. */
  function ReadDollarSingle(sh: Dialect, s: Text, acc: Word): (r: Option<(Word, Text)>)
    ensures r.Some? ==> |r.value.1| <= |s|
    ensures FormedWord(sh, acc) && r.Some? ==> FormedWord(sh, r.value.0)
    decreases |s|, 0
  {
    if s == "" || s[0] == '\0' then None
    else if s[0] == '\'' then ReadUnquoted(sh, s[1..], acc)
    else if s[0] != '\\' then ReadDollarSingle(sh, s[1..], acc + [Lit(s[0], true)])
    else if |s| < 2 then None
    else if s[1] == 'x' then
      var n := HexRun(2 + sh.moreHex, s[2..]);
      if n == 0 || HexValue(s[2..2 + n]) % 0x100 == 0 then None
      else ReadDollarSingle(sh, s[2 + n..], acc + [Lit((HexValue(s[2..2 + n]) % 0x100) as char, true)])
    else
      match SimpleEscape(s[1])
      case None => None
      case Some(c) => ReadDollarSingle(sh, s[2..], acc + [Lit(c, true)])
  }

  function SimpleEscape(c: char): Option<char> {
    if c == '"' || c == '\'' || c == '\\' then Some(c)
    else if c == 'a' then Some(7 as char)
    else if c == 'b' then Some(8 as char)
    else if c == 'e' then Some(27 as char)
    else if c == 'f' then Some(12 as char)
    else if c == 'n' then Some(10 as char)
    else if c == 'r' then Some(13 as char)
    else if c == 't' then Some(9 as char)
    else if c == 'v' then Some(11 as char)
    else None
  }

  /** What follows a `$`: `${...}` or `$(...)`. A text starting with `((` is arithmetic (section
      2.6.4) and is not read as a substitution. */
  function ReadExpansion(sh: Dialect, s: Text, quoted: bool): (r: Option<(Unit, Text)>)
    ensures r.Some? ==> |r.value.1| < |s| && FormedUnit(sh, r.value.0)
    decreases |s|, 0
  {
    if s == "" then None
    else if s[0] == '{' then
      var t := s[1..];
      match FirstBrace(sh, t, 0)
      case None => None
      case Some(n) => if n == 0 then None else
        FirstBraceEncloses(sh, t);
        Some((Param(t[..n], quoted), t[n + 1..]))
    else if s[0] == '(' && !(|s| >= 2 && s[1] == '(') then
      match ReadScript(sh, s[1..], START)
      case None => None
      case Some((p, rest)) =>
        if rest == "" || p.Finish().None? then None
        else Some((Subst(p.Finish().value, quoted), rest[1..]))
    else None
  }

  // ---- Scripts ----

  /** Reads commands up to the end of the text or an unmatched `)`. */
  function ReadScript(sh: Dialect, s: Text, p: Progress): (r: Option<(Progress, Text)>)
    ensures r.Some? ==> |r.value.1| <= |s| && (r.value.1 != "" ==> r.value.1[0] == ')')
    ensures FormedProgress(sh, p) && r.Some? ==> FormedProgress(sh, r.value.0)
    decreases |s|, 2
  {
    if s == "" || s[0] == ')' then Some((p, s))
    else if IsBlank(s[0]) then ReadScript(sh, s[1..], p)
    else if IsControl(s[0]) then
      match ControlOperator(s)
      case None => None
      case Some((conn, n)) =>
        if p.current == [] then None else ReadScript(sh, s[n..], p.Close(conn))
    else if s[0] == '(' || s[0] == '#' || s[0] == '\n' then None
    else
      match ReadElement(sh, s, p.named)
      case None => None
      case Some((e, rest)) => if |rest| == |s| then None else ReadScript(sh, rest, p.Add(e))
  }

  /** The longest control operator at the start of `s`, and its length. */
  function ControlOperator(s: Text): (r: Option<(Connector, nat)>)
    requires s != ""
    ensures r.Some? ==> 1 <= r.value.1 <= |s|
  {
    var twice := |s| >= 2 && s[1] == s[0];
    if s[0] == ';' then (if twice then None else Some((Semi, 1)))
    else if s[0] == '&' then (if twice then Some((AndIf, 2)) else Some((Amp, 1)))
    else if s[0] == '|' then (if twice then Some((OrIf, 2)) else Some((Pipe, 1)))
    else None
  }

  /** One redirection, assignment or word. Digits directly before `<` or `>` are an IO number, unless
      there are too many of them. */
  function ReadElement(sh: Dialect, s: Text, named: bool): (r: Option<(Element, Text)>)
    ensures r.Some? ==> |r.value.1| <= |s| && FormedElement(sh, r.value.0)
    decreases |s|, 1
  {
    var n := DigitRun(s);
    if n < |s| && IsAngle(s[n]) && sh.TakesDescriptor(n) then
      DigitRunIsDigits(s);
      DecimalIsShortest(s[..n]);
      var fd := if n > 0 then DecimalValue(s[..n]) else if s[0] == '<' then 0 else 1;
      match ReadRedirect(sh, s[n..])
      case None => None
      case Some((op, target, rest)) => Some((Redirect(fd, op, target), rest))
    else
      match ReadUnquoted(sh, s, [])
      case None => None
      case Some((w, rest)) =>
        match Classify(sh, w, named)
        case None => None
        case Some(e) => Some((e, rest))
  }

  function ReadRedirect(sh: Dialect, s: Text): (r: Option<(Operator, Target, Text)>)
    requires s != "" && IsAngle(s[0])
    ensures r.Some? ==> |r.value.2| <= |s| && FormedTarget(sh, r.value.0, r.value.1)
    decreases |s|, 0
  {
    var next := if |s| >= 2 then s[1] else ' ';
    var op := if s[0] == '<' then (if next == '>' then LessGreat else Less)
              else (if next == '>' then DGreat else Great);
    if (s[0] == '<' && next == '<') || (s[0] == '>' && next == '|') then None
    else
      var dup := next == '&';
      var rest := SkipBlanks(s[if dup || next == '>' then 2 else 1..]);
      match ReadUnquoted(sh, rest, [])
      case None => None
      case Some((w, rest')) =>
        if |rest'| == |rest| then None
        else if !dup then Some((op, File(w), rest'))
        else
          match DescriptorNumber(sh, w)
          case None => None
          case Some(fd) => Some((op, Descriptor(fd), rest'))
  }

  /** The descriptor named after `<&` or `>&`: unquoted digits. */
  function DescriptorNumber(sh: Dialect, w: Word): (r: Option<nat>)
    ensures r.Some? ==> sh.TakesDescriptor(|Decimal(r.value)|)
  {
    if w != [] && sh.TakesDescriptor(|w|)
       && forall i :: 0 <= i < |w| ==> w[i].Lit? && !w[i].quoted && IsDigit(w[i].c) then
      DecimalIsShortest(Letters(w));
      Some(DecimalValue(Letters(w)))
    else None
  }

  function SkipBlanks(s: Text): (r: Text)
    ensures |r| <= |s|
  {
    if s == "" || !IsBlank(s[0]) then s else SkipBlanks(s[1..])
  }

  function Letters(w: Word): (s: Text)
    requires forall i :: 0 <= i < |w| ==> w[i].Lit?
    ensures |s| == |w| && forall i :: 0 <= i < |s| ==> s[i] == w[i].c
  {
    seq(|w|, i requires 0 <= i < |w| => w[i].c)
  }

  const RESERVED: seq<Text> :=
    ["!", "{", "}", "case", "do", "done", "elif", "else", "esac", "fi", "for", "if", "in", "then", "until", "while"]

  function Literals(s: Text, quoted: bool): (w: Word)
    ensures |w| == |s| && forall i :: 0 <= i < |w| ==> w[i] == Lit(s[i], quoted)
  {
    seq(|s|, i requires 0 <= i < |s| => Lit(s[i], quoted))
  }

  /** The length of the unquoted assignment name at the start of a word (0 if there is none). */
  function NameRun(w: Word): (n: nat)
    ensures n <= |w|
    ensures forall i :: 0 <= i < n ==> w[i].Lit?
  {
    if w == [] || !w[0].Lit? || w[0].quoted || !NameChar(w[0].c) then 0 else 1 + NameRun(w[1..])
  }

  /** Section 2.10.2: before the command name, `name=...` is an assignment, and an unquoted reserved
      word starts a compound command, which is not read. */
  function Classify(sh: Dialect, w: Word, named: bool): (r: Option<Element>)
    ensures FormedWord(sh, w) && r.Some? ==> FormedElement(sh, r.value)
  {
    var n := NameRun(w);
    if named then Some(Argument(w))
    else if n > 0 && NameStart(w[0].c) && n < |w| && w[n] == Lit('=', false) then
      Some(Assign(Letters(w[..n]), w[n + 1..]))
    else if exists i :: 0 <= i < |RESERVED| && w == Literals(RESERVED[i], false) then None
    else Some(Argument(w))
  }

  /** The meaning of a whole text, if it is a script. */
  function Read(sh: Dialect, s: Text): (r: Option<seq<SimpleCommand>>)
    ensures r.Some? ==> FormedScript(sh, r.value)
  {
    match ReadScript(sh, s, START)
    case None => None
    case Some((p, rest)) => if rest == "" then p.Finish() else None
  }

  lemma DigitRunIsDigits(s: Text)
    ensures forall i :: 0 <= i < DigitRun(s) ==> IsDigit(s[i])
  {
  }

  // ---- What the reader can return ----

  // No character is NUL, every expansion is ended by the brace after its text and not before, no
  // descriptor has too many digits, and one is duplicated only by `<&` or `>&`.

  predicate FormedUnit(sh: Dialect, u: Unit)
    decreases u
  {
    match u
    case Lit(c, _) => c != '\0'
    case Param(expr, _) => Encloses(sh, expr)
    case Subst(script, _) => FormedScript(sh, script)
  }

  predicate FormedWord(sh: Dialect, w: Word)
    decreases w
  {
    forall i :: 0 <= i < |w| ==> (w[i].Lit? && w[i].c != '\0') || FormedUnit(sh, w[i])
  }

  predicate FormedTarget(sh: Dialect, op: Operator, t: Target)
    decreases t
  {
    match t
    case File(w) => FormedWord(sh, w)
    case Descriptor(fd) => sh.TakesDescriptor(|Decimal(fd)|) && (op.Less? || op.Great?)
  }

  predicate FormedElement(sh: Dialect, e: Element)
    decreases e
  {
    match e
    case Assign(_, w) => FormedWord(sh, w)
    case Redirect(fd, op, t) => sh.TakesDescriptor(|Decimal(fd)|) && FormedTarget(sh, op, t)
    case Argument(w) => FormedWord(sh, w)
  }

  predicate FormedElements(sh: Dialect, es: seq<Element>)
    decreases es
  {
    forall i :: 0 <= i < |es| ==> FormedElement(sh, es[i])
  }

  predicate FormedScript(sh: Dialect, cs: seq<SimpleCommand>)
    decreases cs
  {
    forall i :: 0 <= i < |cs| ==> FormedElements(sh, cs[i].elements)
  }

  predicate FormedProgress(sh: Dialect, p: Progress) {
    FormedScript(sh, p.done) && FormedElements(sh, p.current)
  }
}
