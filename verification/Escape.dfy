// Command arguments and the text they are printed as (src/process/escape, src/process/mod.rs).
module Escape {
  import opened Text
  import Shell

  datatype SurroundBy = Double | Single

  /** An argument value together with what its Rust type says. All items of one `Concat` have the
      same type, so they share the type's `need_double()`, kept here as `double`. A `Display` value
      is the list of calls its formatter makes. */
  datatype Arg =
    | Str(s: Text)
    | Display(pieces: seq<FmtCall>)
    | RawBytes(bytes: seq<Byte>)
    | Env(expr: Text)
    | Tuple(components: seq<Arg>)
    | Concat(double: bool, items: seq<Arg>)
    | Expand(part: Part)

  /** A call of the formatting machinery: `write_str` or `write_char`. */
  datatype FmtCall = FmtStr(s: Text) | FmtChar(c: char)

  datatype Binding = Binding(key: Key, value: Arg)

  datatype RedirectTo = Path(path: Arg) | Dup(fd: nat)

  datatype RedirectMode = Read | Write | Append | ReadWrite

  datatype Redirect =
    | Stdin(to: RedirectTo)
    | Stdout(to: RedirectTo, append: bool)
    | Stderr(to: RedirectTo, append: bool)
    | Custom(fd: nat, to: RedirectTo, mode: RedirectMode)

  /** The parts an `ExpandCommand` stores. */
  datatype Part =
    | Assignment(key: Key, value: Arg)
    | Envs(envs: seq<Binding>)
    | Args(args: seq<Arg>)
    | And
    | Or
    | Pipe
    | Term
    | Redir(redirect: Redirect)
    | Word(arg: Arg)
    | Then(first: Part, second: Part)

  // ---- Environment names ----

  predicate IsContinuation(b: Byte) {
    0x80 <= b as int < 0xC0
  }

  /** A Rust string: in UTF-8 a continuation byte neither starts the text nor follows ASCII. */
  type Key = k: seq<Byte> |
    forall i :: 0 <= i < |k| && IsContinuation(k[i]) ==> i > 0 && k[i - 1] as int >= 0x80
    witness []

  function Or20(b: int): int
    requires 0 <= b < 0x100
  {
    if b / 0x20 % 2 == 1 then b else b + 0x20
  }

  function WrappingSub(x: int, y: int): int {
    (x - y) % 0x100
  }

  predicate FirstAllowed(b: Byte) {
    b == '_' || WrappingSub(Or20(b as int), 'a' as int) < 26
  }

  predicate RestAllowed(b: Byte) {
    FirstAllowed(b) || WrappingSub(b as int, '0' as int) < 10
  }

  /** `position(...).unwrap_or(len)`: the first byte that is not allowed. */
  function RestLength(s: seq<Byte>): (n: nat)
    ensures n <= |s|
  {
    if s == [] || !RestAllowed(s[0]) then 0 else 1 + RestLength(s[1..])
  }

  function FloorCharBoundary(s: seq<Byte>, i: nat): (n: nat)
    requires i <= |s|
    ensures n <= i
  {
    if i == 0 || i == |s| || !IsContinuation(s[i]) then i else FloorCharBoundary(s, i - 1)
  }

  /** The name `helpers::env` writes, or nothing if the assignment is ignored. */
  function KeyPrefix(key: Key): Option<Text> {
    if key == [] || !FirstAllowed(key[0]) then None
    else Some(key[..FloorCharBoundary(key, RestLength(key[1..]) + 1)])
  }

  // ---- Quoting ----

  predicate NeedDouble(a: Arg) {
    match a
    case Env(_) => true
    case Expand(_) => true
    case Tuple(components) => exists i :: 0 <= i < |components| && NeedDouble(components[i])
    case Concat(double, _) => double
    case _ => false
  }

  function QuoteChar(q: SurroundBy): char {
    if q.Double? then '"' else '\''
  }

  function EscapeChar(c: char, q: SurroundBy): Text {
    match q
    case Double => if c == '\\' || c == '$' || c == '"' || c == '`' then ['\\', c] else [c]
    case Single => if c == '\'' then "'\\''" else [c]
  }

  function EscapeText(s: Text, q: SurroundBy): Text {
    if s == "" then "" else EscapeChar(s[0], q) + EscapeText(s[1..], q)
  }

  function PieceText(piece: FmtCall): Text {
    match piece
    case FmtStr(s) => s
    case FmtChar(c) => [c]
  }

  /** The whole formatted text. */
  function Flatten(pieces: seq<FmtCall>): Text {
    if pieces == [] then "" else PieceText(pieces[0]) + Flatten(pieces[1..])
  }

  lemma {:induction false} EscapeTextConcat(s: Text, t: Text, q: SurroundBy)
    ensures EscapeText(s + t, q) == EscapeText(s, q) + EscapeText(t, q)
  {
    hide EscapeChar;
    if s == "" {
      assert s + t == t;
    } else {
      EscapeTextConcat(s[1..], t, q);
      assert (s + t)[0] == s[0] && (s + t)[1..] == s[1..] + t;
      Assoc(EscapeChar(s[0], q), EscapeText(s[1..], q), EscapeText(t, q));
    }
  }

  function Nibble(v: nat): char
    requires v < 16
  {
    if v < 10 then (v + '0' as int) as char else (v - 10 + 'a' as int) as char
  }

  predicate Printable(b: Byte) {
    0x20 <= b as int < 0x7f
  }

  /** The `encoding` flag of `RawBytes::write` after one byte: a NUL leaves it alone. */
  function EncodingAfter(b: Byte, encoding: bool): bool {
    if Printable(b) then false else if b as int != 0 then true else encoding
  }

  function CloseEncoding(q: SurroundBy, encoding: bool): Text {
    if encoding then ['\'', QuoteChar(q)] else ""
  }

  function OpenEncoding(q: SurroundBy, encoding: bool): Text {
    if encoding then "" else [QuoteChar(q)] + "$'"
  }

  function HexEscape(b: Byte): Text {
    ['\\', 'x', Nibble(b as int / 16), Nibble(b as int % 16)]
  }

  /** What one byte adds to the text. */
  function PrintRawByte(b: Byte, q: SurroundBy, encoding: bool): Text {
    if Printable(b) then CloseEncoding(q, encoding) + EscapeChar(b, q)
    else if b as int != 0 then OpenEncoding(q, encoding) + HexEscape(b)
    else ""
  }

  /** `RawBytes::write` from a given value of its `encoding` flag. */
  function PrintRaw(bs: seq<Byte>, q: SurroundBy, encoding: bool): Text {
    if bs == [] then CloseEncoding(q, encoding)
    else PrintRawByte(bs[0], q, encoding) + PrintRaw(bs[1..], q, EncodingAfter(bs[0], encoding))
  }

  predicate IsAsciiText(s: Text) {
    forall i :: 0 <= i < |s| ==> 0x20 <= s[i] as int < 0x7f
  }

  lemma RawByteIsAscii(b: Byte, q: SurroundBy, encoding: bool)
    ensures IsAsciiText(PrintRawByte(b, q, encoding)) && IsAsciiText(CloseEncoding(q, encoding))
  {
  }

  /** Whatever the bytes are, what is printed is printable ASCII. */
  lemma {:induction false} RawIsAscii(bs: seq<Byte>, q: SurroundBy, encoding: bool)
    ensures IsAsciiText(PrintRaw(bs, q, encoding))
  {
    hide PrintRawByte, CloseEncoding;
    if bs == [] {
      RawByteIsAscii('a', q, encoding);
    } else {
      RawByteIsAscii(bs[0], q, encoding);
      RawIsAscii(bs[1..], q, EncodingAfter(bs[0], encoding));
    }
  }

  /** `Arg::write`: the text between the quotes. */
  function PrintArg(a: Arg, q: SurroundBy): Text
    decreases a, 0
  {
    match a
    case Str(s) => EscapeText(s, q)
    case Display(pieces) => PrintPieces(pieces, q)
    case RawBytes(bs) => PrintRaw(bs, q, false)
    case Env(expr) => "${" + expr + "}"
    case Tuple(components) => PrintAll(components, q)
    case Concat(_, items) => PrintAll(items, q)
    case Expand(part) => "$(" + PrintPart(part) + ")"
  }

  function PrintAll(args: seq<Arg>, q: SurroundBy): Text
    decreases args, 0
  {
    if args == [] then "" else PrintArg(args[0], q) + PrintAll(args[1..], q)
  }

  function PrintPiece(piece: FmtCall, q: SurroundBy): Text {
    match piece
    case FmtStr(s) => EscapeText(s, q)
    case FmtChar(c) => EscapeChar(c, q)
  }

  function PrintPieces(pieces: seq<FmtCall>, q: SurroundBy): Text {
    if pieces == [] then "" else PrintPiece(pieces[0], q) + PrintPieces(pieces[1..], q)
  }

  lemma PieceIsText(piece: FmtCall, q: SurroundBy)
    ensures PrintPiece(piece, q) == EscapeText(PieceText(piece), q)
  {
    if piece.FmtChar? {
      assert [piece.c][1..] == "";
    }
  }

  lemma {:induction false} PiecesAreOneText(pieces: seq<FmtCall>, q: SurroundBy)
    ensures PrintPieces(pieces, q) == EscapeText(Flatten(pieces), q)
  {
    hide EscapeChar, PieceText, PrintPiece;
    if pieces != [] {
      PiecesAreOneText(pieces[1..], q);
      PieceIsText(pieces[0], q);
      EscapeTextConcat(PieceText(pieces[0]), Flatten(pieces[1..]), q);
    }
  }

  function Surround(a: Arg): SurroundBy {
    if NeedDouble(a) then Double else Single
  }

  /** A whole word, with the quotes its type asks for. */
  function PrintQuoted(a: Arg): Text
    decreases a, 1
  {
    var q := Surround(a);
    [QuoteChar(q)] + PrintArg(a, q) + [QuoteChar(q)]
  }

  function PrintEnv(key: Key, value: Arg): Text
    decreases value, 2
  {
    match KeyPrefix(key)
    case None => ""
    case Some(name) => name + "=" + PrintQuoted(value) + " "
  }

  function PrintRedirectTo(target: RedirectTo): Text
    decreases target, 0
  {
    match target
    case Path(path) => PrintQuoted(path)
    case Dup(fd) => "&" + Decimal(fd)
  }

  function DescriptorText(r: Redirect): Text {
    match r
    case Stdin(_) => ""
    case Stdout(_, _) => ""
    case Stderr(_, _) => "2"
    case Custom(fd, _, _) => Decimal(fd)
  }

  function OperatorText(r: Redirect): Text {
    match r
    case Stdin(_) => "<"
    case Stdout(_, append) => if append then ">>" else ">"
    case Stderr(_, append) => if append then ">>" else ">"
    case Custom(_, _, mode) =>
      match mode { case Read => "<" case Write => ">" case Append => ">>" case ReadWrite => "<>" }
  }

  function PrintRedirect(r: Redirect): Text
    decreases r, 0
  {
    DescriptorText(r) + OperatorText(r) + PrintRedirectTo(r.to) + " "
  }

  function PrintEnvs(envs: seq<Binding>): Text
    decreases envs, 0
  {
    if envs == [] then "" else PrintEnv(envs[0].key, envs[0].value) + PrintEnvs(envs[1..])
  }

  function PrintWords(args: seq<Arg>): Text
    decreases args, 0
  {
    if args == [] then "" else PrintQuoted(args[0]) + " " + PrintWords(args[1..])
  }

  /** `Part::write`. */
  function PrintPart(p: Part): Text
    decreases p, 0
  {
    match p
    case Assignment(key, value) => PrintEnv(key, value)
    case Envs(envs) => PrintEnvs(envs)
    case Args(args) => PrintWords(args)
    case And => "&& "
    case Or => "|| "
    case Pipe => "| "
    case Term => "; "
    case Redir(r) => PrintRedirect(r)
    case Word(a) => PrintQuoted(a) + " "
    case Then(first, second) => PrintPart(first) + PrintPart(second)
  }

  // ---- What the types guarantee ----

  datatype Stage = NeedProg | NeedTerm | Completed

  /** The typestate after the builder call that stores `p`. */
  function After(p: Part, st: Stage): Option<Stage> {
    match p
    case Assignment(_, _) => if st.NeedProg? then Some(NeedProg) else None
    case Envs(_) => if st.NeedProg? then Some(NeedProg) else None
    case Args(_) => if st.NeedTerm? then Some(NeedTerm) else None
    case And => if st.NeedTerm? then Some(NeedProg) else None
    case Or => if st.NeedTerm? then Some(NeedProg) else None
    case Pipe => if st.NeedTerm? then Some(NeedProg) else None
    case Term => if st.NeedTerm? then Some(Completed) else None
    case Redir(_) => if st.Completed? then None else Some(st)
    case Word(_) => if st.Completed? then None else Some(NeedTerm)
    case Then(first, second) =>
      match After(first, st)
      case None => None
      case Some(st') => After(second, st')
  }

  predicate WellTyped(a: Arg) {
    match a
    case Tuple(components) => forall i :: 0 <= i < |components| ==> WellTyped(components[i])
    case Concat(double, items) =>
      forall i :: 0 <= i < |items| ==> WellTyped(items[i]) && NeedDouble(items[i]) == double
    case Expand(part) => After(part, NeedProg) == Some(Completed) && WellTypedPart(part)
    case _ => true
  }

  predicate WellTypedRedirect(r: Redirect) {
    r.to.Path? ==> WellTyped(r.to.path)
  }

  predicate WellTypedPart(p: Part) {
    match p
    case Assignment(_, value) => WellTyped(value)
    case Envs(envs) => forall i :: 0 <= i < |envs| ==> WellTyped(envs[i].value)
    case Args(args) => forall i :: 0 <= i < |args| ==> WellTyped(args[i])
    case Redir(r) => WellTypedRedirect(r)
    case Word(a) => WellTyped(a)
    case Then(first, second) => WellTypedPart(first) && WellTypedPart(second)
    case _ => true
  }

  // ---- What the values mean, without printing them ----

  function DropNul(bs: seq<Byte>): Text {
    if bs == [] then "" else (if bs[0] as int == 0 then "" else [bs[0]]) + DropNul(bs[1..])
  }

  function Meaning(a: Arg): Shell.Word
    decreases a, 0
  {
    match a
    case Str(s) => Shell.Literals(s, true)
    case Display(pieces) => Shell.Literals(Flatten(pieces), true)
    case RawBytes(bs) => Shell.Literals(DropNul(bs), true)
    case Env(expr) => [Shell.Param(expr, true)]
    case Tuple(components) => MeaningAll(components)
    case Concat(_, items) => MeaningAll(items)
    case Expand(part) => [Shell.Subst(Run(part, Shell.START).done, true)]
  }

  function MeaningAll(args: seq<Arg>): Shell.Word
    decreases args, 0
  {
    if args == [] then [] else Meaning(args[0]) + MeaningAll(args[1..])
  }

  function RunEnv(key: Key, value: Arg, p: Shell.Progress): Shell.Progress
    decreases value, 1
  {
    match KeyPrefix(key)
    case None => p
    case Some(name) => p.Add(Shell.Assign(name, Meaning(value)))
  }

  function RunEnvs(envs: seq<Binding>, p: Shell.Progress): Shell.Progress
    decreases envs, 0
  {
    if envs == [] then p else RunEnvs(envs[1..], RunEnv(envs[0].key, envs[0].value, p))
  }

  function RunWord(a: Arg, p: Shell.Progress): Shell.Progress
    decreases a, 1
  {
    p.Add(Shell.Argument(Meaning(a)))
  }

  function RunWords(args: seq<Arg>, p: Shell.Progress): Shell.Progress
    decreases args, 0
  {
    if args == [] then p else RunWords(args[1..], RunWord(args[0], p))
  }

  /** The descriptor and operator of a redirect: `Stderr` is descriptor 2. */
  function RedirectKind(r: Redirect): (nat, Shell.Operator) {
    match r
    case Stdin(_) => (0, Shell.Less)
    case Stdout(_, append) => (1, if append then Shell.DGreat else Shell.Great)
    case Stderr(_, append) => (2, if append then Shell.DGreat else Shell.Great)
    case Custom(fd, _, mode) =>
      (fd, match mode {
        case Read => Shell.Less
        case Write => Shell.Great
        case Append => Shell.DGreat
        case ReadWrite => Shell.LessGreat
      })
  }

  function RedirectTarget(target: RedirectTo): Shell.Target
    decreases target, 0
  {
    match target
    case Path(a) => Shell.File(Meaning(a))
    case Dup(fd) => Shell.Descriptor(fd)
  }

  function RunRedirect(r: Redirect, p: Shell.Progress): Shell.Progress
    decreases r, 0
  {
    p.Add(Shell.Redirect(RedirectKind(r).0, RedirectKind(r).1, RedirectTarget(r.to)))
  }

  function Run(part: Part, p: Shell.Progress): Shell.Progress
    decreases part, 0
  {
    match part
    case Assignment(key, value) => RunEnv(key, value, p)
    case Envs(envs) => RunEnvs(envs, p)
    case Args(args) => RunWords(args, p)
    case And => p.Close(Shell.AndIf)
    case Or => p.Close(Shell.OrIf)
    case Pipe => p.Close(Shell.Pipe)
    case Term => p.Close(Shell.Semi)
    case Redir(r) => RunRedirect(r, p)
    case Word(a) => RunWord(a, p)
    case Then(first, second) => Run(second, Run(first, p))
  }

  // ---- When the printed text is faithful ----

  /** No NUL in a string (`RawBytes` drops its own), every expansion ended by its own brace, and
      descriptors that the shell takes, duplicated only by `<` or `>`, at any depth. Ignored
      assignments do not matter. */
  predicate Faithful(sh: Shell.Dialect, a: Arg)
    decreases a, 0
  {
    match a
    case Str(s) => NoNul(s)
    case Display(pieces) => NoNul(Flatten(pieces))
    case Env(expr) => Shell.Encloses(sh, expr)
    case Tuple(components) => forall i :: 0 <= i < |components| ==> Faithful(sh, components[i])
    case Concat(_, items) => forall i :: 0 <= i < |items| ==> Faithful(sh, items[i])
    case Expand(part) => FaithfulPart(sh, part)
    case _ => true
  }

  predicate FaithfulEnv(sh: Shell.Dialect, key: Key, value: Arg)
    decreases value, 1
  {
    KeyPrefix(key).Some? ==> Faithful(sh, value)
  }

  predicate FaithfulRedirect(sh: Shell.Dialect, r: Redirect)
    decreases r, 0
  {
    && (r.Custom? ==> sh.TakesDescriptor(|Decimal(r.fd)|))
    && match r.to
       case Path(a) => Faithful(sh, a)
       case Dup(fd) => sh.TakesDescriptor(|Decimal(fd)|) && (OperatorText(r) == "<" || OperatorText(r) == ">")
  }

  predicate FaithfulPart(sh: Shell.Dialect, p: Part)
    decreases p, 0
  {
    match p
    case Assignment(key, value) => FaithfulEnv(sh, key, value)
    case Envs(envs) => forall i :: 0 <= i < |envs| ==> FaithfulEnv(sh, envs[i].key, envs[i].value)
    case Args(args) => forall i :: 0 <= i < |args| ==> Faithful(sh, args[i])
    case Redir(r) => FaithfulRedirect(sh, r)
    case Word(a) => Faithful(sh, a)
    case Then(first, second) => FaithfulPart(sh, first) && FaithfulPart(sh, second)
    case _ => true
  }
}
