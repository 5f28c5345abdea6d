// The mutual induction: words, elements and nested commands are read back as what they mean.
module ReadTree {
  import opened Text
  import opened Escape
  import opened ReadBack
  import Shell

  // ---- Environment names ----

  lemma AllowedBytes(b: Byte)
    ensures FirstAllowed(b) <==> NameStart(b)
    ensures RestAllowed(b) <==> NameChar(b)
    ensures FirstAllowed(b) <==> 'a' <= b <= 'z' || 'A' <= b <= 'Z' || b == '_'
    ensures RestAllowed(b) <==> 'a' <= b <= 'z' || 'A' <= b <= 'Z' || b == '_' || '0' <= b <= '9'
  {
  }

  lemma {:induction false} RestLengthIs(s: seq<Byte>)
    ensures forall i :: 0 <= i < RestLength(s) ==> NameChar(s[i])
    ensures RestLength(s) == |s| || !NameChar(s[RestLength(s)])
  {
    if s != [] {
      AllowedBytes(s[0]);
      RestLengthIs(s[1..]);
    }
  }

  /** An assignment is dropped iff its key does not start like a name; otherwise the key is cut to
      its longest prefix that is a name. */
  lemma KeyPrefixIsLongestName(key: Key)
    ensures KeyPrefix(key).None? <==> key == [] || !NameStart(key[0])
    ensures KeyPrefix(key).Some? ==>
      var name := KeyPrefix(key).value;
      && name != "" && name <= key && NameStart(name[0])
      && (forall i :: 0 <= i < |name| ==> NameChar(name[i]))
      && (name == key || !NameChar(key[|name|]))
  {
    if key != [] {
      AllowedBytes(key[0]);
    }
    if key != [] && NameStart(key[0]) {
      RestLengthIs(key[1..]);
      var n := RestLength(key[1..]) + 1;
      if n > 1 {
        assert NameChar(key[n - 1]) by {
          assert key[n - 1] == key[1..][n - 2];
        }
      }
      assert n == |key| || !IsContinuation(key[n]);
      assert FloorCharBoundary(key, n) == n;
      assert forall i :: 0 < i < n ==> key[i] == key[1..][i - 1];
      assert n < |key| ==> key[n] == key[1..][n - 1];
    }
  }

  // ---- Facts about the printed text ----

  lemma {:induction false} MeaningIsQuoted(a: Arg)
    ensures AllQuoted(Meaning(a))
    decreases a, 0
  {
    match a
    case Tuple(components) => MeaningAllIsQuoted(components);
    case Concat(_, items) => MeaningAllIsQuoted(items);
    case _ =>
  }

  lemma {:induction false} MeaningAllIsQuoted(args: seq<Arg>)
    ensures AllQuoted(MeaningAll(args))
    decreases args, 0
  {
    if args != [] {
      MeaningIsQuoted(args[0]);
      MeaningAllIsQuoted(args[1..]);
    }
  }

  predicate AllLiteral(w: Shell.Word) {
    forall i :: 0 <= i < |w| ==> w[i].Lit?
  }

  /** Single quotes are picked only for values without expansions. */
  lemma {:induction false} SingleQuotesMeanLiteral(a: Arg)
    requires WellTyped(a) && !NeedDouble(a)
    ensures AllLiteral(Meaning(a))
    decreases a, 0
  {
    match a
    case Tuple(components) => AllSingleMeanLiteral(components);
    case Concat(_, items) => AllSingleMeanLiteral(items);
    case _ =>
  }

  lemma {:induction false} AllSingleMeanLiteral(args: seq<Arg>)
    requires forall i :: 0 <= i < |args| ==> WellTyped(args[i]) && !NeedDouble(args[i])
    ensures AllLiteral(MeaningAll(args))
    decreases args, 0
  {
    if args != [] {
      SingleQuotesMeanLiteral(args[0]);
      AllSingleMeanLiteral(args[1..]);
    }
  }

  /** No concatenation of expansions is empty. */
  predicate Inhabited(a: Arg) {
    match a
    case Tuple(components) => forall i :: 0 <= i < |components| ==> Inhabited(components[i])
    case Concat(double, items) =>
      (double ==> items != []) && forall i :: 0 <= i < |items| ==> Inhabited(items[i])
    case _ => true
  }

  /** Double quotes are picked only for values with expansions, apart from empty concatenations. */
  lemma {:induction false} DoubleQuotesMeanExpansion(a: Arg)
    requires WellTyped(a) && Inhabited(a) && NeedDouble(a)
    ensures !AllLiteral(Meaning(a))
    decreases a, 0
  {
    match a
    case Env(_) => assert !Meaning(a)[0].Lit?;
    case Expand(_) => assert !Meaning(a)[0].Lit?;
    case Tuple(components) =>
      var i :| 0 <= i < |components| && NeedDouble(components[i]);
      DoubleQuotesMeanExpansion(components[i]);
      MeaningHolds(components, i);
    case Concat(_, items) =>
      DoubleQuotesMeanExpansion(items[0]);
      MeaningHolds(items, 0);
  }

  lemma {:induction false} MeaningHolds(args: seq<Arg>, i: nat)
    requires i < |args| && !AllLiteral(Meaning(args[i]))
    ensures !AllLiteral(MeaningAll(args))
    decreases i
  {
    hide Meaning;
    var first, rest := Meaning(args[0]), MeaningAll(args[1..]);
    if i == 0 {
      var j :| 0 <= j < |first| && !first[j].Lit?;
      assert (first + rest)[j] == first[j];
    } else {
      MeaningHolds(args[1..], i - 1);
      var j :| 0 <= j < |rest| && !rest[j].Lit?;
      assert (first + rest)[|first| + j] == rest[j];
    }
  }

  predicate Starts(s: Text) {
    s == "" || (s[0] != '(' && s[0] != ')')
  }

  /** The text after `$(` is not taken for arithmetic: no part starts with a parenthesis. */
  lemma {:induction false} PartStarts(p: Part)
    ensures Starts(PrintPart(p))
    decreases p
  {
    match p
    case Assignment(key, _) => KeyPrefixIsLongestName(key);
    case Envs(envs) => EnvsStart(envs);
    case Word(a) => assert PrintPart(p)[0] == QuoteChar(Surround(a));
    case Args(args) => assert args == [] || PrintWords(args)[0] == QuoteChar(Surround(args[0]));
    case Redir(r) => assert Starts(DescriptorText(r) + OperatorText(r));
    case Then(first, second) => PartStarts(first); PartStarts(second);
    case _ =>
  }

  lemma {:induction false} EnvsStart(envs: seq<Binding>)
    ensures Starts(PrintEnvs(envs))
  {
    if envs != [] {
      KeyPrefixIsLongestName(envs[0].key);
      EnvsStart(envs[1..]);
    }
  }

  /** A part that moves the typestate on prints something. */
  lemma {:induction false} PartPrints(p: Part, st: Stage)
    requires After(p, st).Some? && After(p, st) != Some(st)
    ensures PrintPart(p) != ""
    decreases p
  {
    match p
    case Then(first, second) =>
      var st' := After(first, st).value;
      if st' != st {
        PartPrints(first, st);
      } else {
        PartPrints(second, st);
      }
    case _ =>
  }

  // ---- The induction ----

  /** What the reader has seen when the builder is in a given state. */
  predicate At(p: Shell.Progress, st: Stage) {
    match st
    case NeedProg => !p.named
    case NeedTerm => p.named && p.current != []
    case Completed => !p.named && p.current == [] && p.Finish() == Some(p.done)
  }

  lemma {:induction false} RunAt(part: Part, st: Stage, p: Shell.Progress)
    requires At(p, st) && After(part, st).Some?
    ensures At(Run(part, p), After(part, st).value)
    decreases part, 0
  {
    match part
    case Envs(envs) => RunEnvsAt(envs, p);
    case Args(args) => RunWordsAt(args, p);
    case Then(first, second) =>
      RunAt(first, st, p);
      RunAt(second, After(first, st).value, Run(first, p));
    case _ =>
  }

  lemma {:induction false} RunEnvsAt(envs: seq<Binding>, p: Shell.Progress)
    requires !p.named
    ensures !RunEnvs(envs, p).named
    decreases |envs|
  {
    if envs != [] {
      RunEnvsAt(envs[1..], RunEnv(envs[0].key, envs[0].value, p));
    }
  }

  lemma {:induction false} RunWordsAt(args: seq<Arg>, p: Shell.Progress)
    requires At(p, NeedTerm)
    ensures At(RunWords(args, p), NeedTerm)
    decreases |args|
  {
    if args != [] {
      RunWordsAt(args[1..], RunWord(args[0], p));
    }
  }

  predicate Fits(sh: Shell.Dialect, a: Arg, q: SurroundBy) {
    WellTyped(a) && Faithful(sh, a) && (q.Single? ==> !NeedDouble(a))
  }

  /** Every argument starts and ends in the same quotes, and adds exactly its meaning. */
  lemma {:induction false} ReadArg(sh: Shell.Dialect, a: Arg, q: SurroundBy, tail: Text, acc: Shell.Word)
    requires Fits(sh, a, q)
    ensures Shell.ReadIn(sh, QuoteOf(q), PrintArg(a, q) + tail, acc)
         == Shell.ReadIn(sh, QuoteOf(q), tail, acc + Meaning(a))
    decreases a, 0
  {
    match a
    case Str(s) => ReadText(sh, s, q, tail, acc);
    case Display(pieces) =>
      PiecesAreOneText(pieces, q);
      ReadText(sh, Flatten(pieces), q, tail, acc);
    case RawBytes(bs) => ReadRaw(sh, bs, q, false, tail, acc);
    case Env(expr) => ReadEnvExpansion(sh, expr, tail, acc);
    case Tuple(components) => ReadAll(sh, components, q, tail, acc);
    case Concat(_, items) => ReadAll(sh, items, q, tail, acc);
    case Expand(part) => ReadExpand(sh, part, tail, acc);
  }

  lemma {:induction false} ReadAll(sh: Shell.Dialect, args: seq<Arg>, q: SurroundBy, tail: Text, acc: Shell.Word)
    requires forall i :: 0 <= i < |args| ==> Fits(sh, args[i], q)
    ensures Shell.ReadIn(sh, QuoteOf(q), PrintAll(args, q) + tail, acc)
         == Shell.ReadIn(sh, QuoteOf(q), tail, acc + MeaningAll(args))
    decreases args, 0
  {
    hide Shell.ReadIn, Fits;
    if args == [] {
      assert acc + MeaningAll(args) == acc && PrintAll(args, q) + tail == tail;
    } else {
      var rest := PrintAll(args[1..], q);
      Assoc(PrintArg(args[0], q), rest, tail);
      ReadArg(sh, args[0], q, rest + tail, acc);
      ReadAll(sh, args[1..], q, tail, acc + Meaning(args[0]));
      Assoc(acc, Meaning(args[0]), MeaningAll(args[1..]));
    }
  }

  lemma {:induction false} ReadExpand(sh: Shell.Dialect, part: Part, tail: Text, acc: Shell.Word)
    requires WellTyped(Expand(part)) && FaithfulPart(sh, part)
    ensures Shell.ReadDouble(sh, "$(" + PrintPart(part) + ")" + tail, acc)
         == Shell.ReadDouble(sh, tail, acc + Meaning(Expand(part)))
    decreases part, 1
  {
    var s := "$(" + PrintPart(part) + ")" + tail;
    var t := s[1..];
    var rest := ")" + tail;
    assert s[0] == '$' && t[0] == '(' && t[1..] == PrintPart(part) + rest;
    PartStarts(part);
    PartPrints(part, NeedProg);
    assert t[1] == PrintPart(part)[0];
    ReadPart(sh, part, NeedProg, rest, Shell.START);
    assert rest[1..] == tail;
    var p := Run(part, Shell.START);
    RunAt(part, NeedProg, Shell.START);
    assert Shell.ReadScript(sh, rest, p) == Some((p, rest));
    assert Shell.ReadExpansion(sh, t, true) == Some((Shell.Subst(p.done, true), tail));
  }

  /** A whole word, up to the space after it. */
  lemma {:induction false} ReadQuoted(sh: Shell.Dialect, a: Arg, tail: Text, acc: Shell.Word)
    requires WellTyped(a) && Faithful(sh, a)
    ensures Shell.ReadUnquoted(sh, PrintQuoted(a) + (" " + tail), acc) == Some((acc + Meaning(a), " " + tail))
    decreases a, 1
  {
    var q, c := Surround(a), [QuoteChar(Surround(a))];
    var body, rest := PrintArg(a, q), c + (" " + tail);
    var s := c + (body + rest);
    Assoc(c + body, c, " " + tail);
    Assoc(c, body, rest);
    hide PrintArg, Meaning, Shell.ReadSingle, Shell.ReadDouble;
    ReadArg(sh, a, q, rest, acc);
    assert s[1..] == body + rest;
    assert Shell.ReadUnquoted(sh, s, acc) == Shell.ReadIn(sh, QuoteOf(q), body + rest, acc);
    CloseQuote(sh, q, " " + tail, acc + Meaning(a));
  }

  lemma CloseQuote(sh: Shell.Dialect, q: SurroundBy, tail: Text, acc: Shell.Word)
    ensures Shell.ReadIn(sh, QuoteOf(q), [QuoteChar(q)] + tail, acc) == Shell.ReadUnquoted(sh, tail, acc)
  {
    assert ([QuoteChar(q)] + tail)[1..] == tail;
  }

  lemma {:induction false} ReadWord(sh: Shell.Dialect, a: Arg, tail: Text, p: Shell.Progress)
    requires WellTyped(a) && Faithful(sh, a)
    ensures Shell.ReadScript(sh, PrintQuoted(a) + " " + tail, p) == Shell.ReadScript(sh, tail, RunWord(a, p))
    decreases a, 2
  {
    var s := PrintQuoted(a) + (" " + tail);
    Assoc(PrintQuoted(a), " ", tail);
    ReadQuoted(sh, a, tail, []);
    MeaningIsQuoted(a);
    ClassifyQuoted(sh, Meaning(a), p.named);
    assert [] + Meaning(a) == Meaning(a);
    assert s[0] == QuoteChar(Surround(a));
    assert DigitRun(s) == 0;
    ReadStep(sh, s, tail, p, Shell.Argument(Meaning(a)));
  }

  lemma {:induction false} ReadWords(sh: Shell.Dialect, args: seq<Arg>, tail: Text, p: Shell.Progress)
    requires forall i :: 0 <= i < |args| ==> WellTyped(args[i]) && Faithful(sh, args[i])
    ensures Shell.ReadScript(sh, PrintWords(args) + tail, p) == Shell.ReadScript(sh, tail, RunWords(args, p))
    decreases args, 0
  {
    hide Shell.ReadScript, PrintQuoted;
    if args == [] {
      assert PrintWords(args) + tail == tail;
    } else {
      Assoc(PrintQuoted(args[0]) + " ", PrintWords(args[1..]), tail);
      ReadWord(sh, args[0], PrintWords(args[1..]) + tail, p);
      ReadWords(sh, args[1..], tail, RunWord(args[0], p));
    }
  }

  lemma {:induction false} ReadEnv(sh: Shell.Dialect, key: Key, value: Arg, tail: Text, p: Shell.Progress)
    requires WellTyped(value) && FaithfulEnv(sh, key, value) && !p.named
    ensures Shell.ReadScript(sh, PrintEnv(key, value) + tail, p) == Shell.ReadScript(sh, tail, RunEnv(key, value, p))
    decreases value, 2
  {
    match KeyPrefix(key)
    case None => assert "" + tail == tail;
    case Some(name) =>
      KeyPrefixIsLongestName(key);
      hide Shell.ReadUnquoted, Shell.ReadScript, Shell.Classify, KeyPrefix, PrintQuoted, Meaning;
      var lead, word := name + "=", PrintQuoted(value);
      var s := lead + (word + (" " + tail));
      Assoc(lead + word, " ", tail);
      Assoc(lead, word, " " + tail);
      ReadPlain(sh, lead, word + (" " + tail), []);
      assert [] + Shell.Literals(lead, false) == Shell.Literals(lead, false);
      ReadQuoted(sh, value, tail, Shell.Literals(lead, false));
      ClassifyAssignment(sh, name, Meaning(value));
      assert s[0] == name[0];
      assert DigitRun(s) == 0;
      ReadStep(sh, s, tail, p, Shell.Assign(name, Meaning(value)));
  }

  lemma {:induction false} ReadEnvs(sh: Shell.Dialect, envs: seq<Binding>, tail: Text, p: Shell.Progress)
    requires !p.named
    requires forall i :: 0 <= i < |envs| ==> WellTyped(envs[i].value) && FaithfulEnv(sh, envs[i].key, envs[i].value)
    ensures Shell.ReadScript(sh, PrintEnvs(envs) + tail, p) == Shell.ReadScript(sh, tail, RunEnvs(envs, p))
    decreases envs, 0
  {
    hide Shell.ReadScript, PrintEnv;
    if envs == [] {
      assert PrintEnvs(envs) + tail == tail;
    } else {
      Assoc(PrintEnv(envs[0].key, envs[0].value), PrintEnvs(envs[1..]), tail);
      ReadEnv(sh, envs[0].key, envs[0].value, PrintEnvs(envs[1..]) + tail, p);
      ReadEnvs(sh, envs[1..], tail, RunEnv(envs[0].key, envs[0].value, p));
    }
  }

  lemma ReadConnector(sh: Shell.Dialect, op: Text, conn: Shell.Connector, tail: Text, p: Shell.Progress)
    requires p.current != []
    requires op != "" && Shell.IsControl(op[0]) && |op| <= 2 && (|op| == 2 ==> op[1] == op[0])
    requires Shell.ControlOperator(op + " ") == Some((conn, |op|))
    ensures Shell.ReadScript(sh, op + " " + tail, p) == Shell.ReadScript(sh, tail, p.Close(conn))
  {
    var s := op + " " + tail;
    assert Shell.ControlOperator(s) == Some((conn, |op|));
    var t := s[|op|..];
    assert t == " " + tail && t[1..] == tail;
    assert Shell.ReadScript(sh, s, p) == Shell.ReadScript(sh, t, p.Close(conn));
  }

  lemma {:induction false} ReadPart(sh: Shell.Dialect, part: Part, st: Stage, tail: Text, p: Shell.Progress)
    requires At(p, st) && After(part, st).Some? && WellTypedPart(part) && FaithfulPart(sh, part)
    ensures Shell.ReadScript(sh, PrintPart(part) + tail, p) == Shell.ReadScript(sh, tail, Run(part, p))
    decreases part, 0
  {
    hide Shell.ReadScript;
    match part
    case Assignment(key, value) => ReadEnv(sh, key, value, tail, p);
    case Envs(envs) => ReadEnvs(sh, envs, tail, p);
    case Args(args) => ReadWords(sh, args, tail, p);
    case And => assert "&&" + " " == "&& "; ReadConnector(sh, "&&", Shell.AndIf, tail, p);
    case Or => assert "||" + " " == "|| "; ReadConnector(sh, "||", Shell.OrIf, tail, p);
    case Pipe => assert "|" + " " == "| "; ReadConnector(sh, "|", Shell.Pipe, tail, p);
    case Term => assert ";" + " " == "; "; ReadConnector(sh, ";", Shell.Semi, tail, p);
    case Redir(r) => ReadRedir(sh, r, tail, p);
    case Word(a) => ReadWord(sh, a, tail, p);
    case Then(first, second) =>
      Assoc(PrintPart(first), PrintPart(second), tail);
      ReadPart(sh, first, st, PrintPart(second) + tail, p);
      RunAt(first, st, p);
      ReadPart(sh, second, After(first, st).value, tail, Run(first, p));
  }

  // ---- Redirects ----

  function OperatorOf(op: Text): Shell.Operator {
    if op == "<" then Shell.Less else if op == ">" then Shell.Great
    else if op == ">>" then Shell.DGreat else Shell.LessGreat
  }

  lemma OperatorIs(r: Redirect)
    ensures var op := OperatorText(r); op == "<" || op == ">" || op == ">>" || op == "<>"
    ensures RedirectKind(r).1 == OperatorOf(OperatorText(r))
  {
  }

  lemma ReadFileTarget(sh: Shell.Dialect, op: Text, target: Text, w: Shell.Word, rest: Text)
    requires op == "<" || op == ">" || op == ">>" || op == "<>"
    requires target != "" && (target[0] == '"' || target[0] == '\'')
    requires |rest| < |target| && Shell.ReadUnquoted(sh, target, []) == Some((w, rest))
    ensures Shell.ReadRedirect(sh, op + target) == Some((OperatorOf(op), Shell.File(w), rest))
  {
    hide Shell.ReadUnquoted;
    var s := op + target;
    assert s[|op|] == target[0] && s[|op|..] == target;
  }

  lemma ReadDescriptor(sh: Shell.Dialect, fd: nat, tail: Text)
    requires sh.TakesDescriptor(|Decimal(fd)|)
    ensures var w := Shell.Literals(Decimal(fd), false);
      && Shell.ReadUnquoted(sh, Decimal(fd) + (" " + tail), []) == Some((w, " " + tail))
      && Shell.DescriptorNumber(sh, w) == Some(fd)
  {
    var digits := Decimal(fd);
    var w := Shell.Literals(digits, false);
    ReadPlain(sh, digits, " " + tail, []);
    assert [] + w == w && Shell.Letters(w) == digits;
    DecimalRoundTrip(fd);
  }

  lemma ReadDupTarget(sh: Shell.Dialect, op: Text, fd: nat, tail: Text)
    requires (op == "<" || op == ">") && sh.TakesDescriptor(|Decimal(fd)|)
    ensures Shell.ReadRedirect(sh, op + ("&" + Decimal(fd) + (" " + tail)))
         == Some((OperatorOf(op), Shell.Descriptor(fd), " " + tail))
  {
    ReadDescriptor(sh, fd, tail);
    hide Shell.ReadUnquoted, Shell.DescriptorNumber;
    var s := op + ("&" + Decimal(fd) + (" " + tail));
    assert s[1] == '&' && s[2..] == Decimal(fd) + (" " + tail);
  }

  /** Operator and target, after the descriptor. */
  lemma {:induction false} ReadTarget(sh: Shell.Dialect, r: Redirect, tail: Text)
    requires WellTypedRedirect(r) && FaithfulRedirect(sh, r)
    ensures Shell.ReadRedirect(sh, OperatorText(r) + (PrintRedirectTo(r.to) + (" " + tail)))
         == Some((RedirectKind(r).1, RedirectTarget(r.to), " " + tail))
    decreases r, 1
  {
    hide Shell.ReadRedirect, Shell.ReadUnquoted;
    OperatorIs(r);
    match r.to {
      case Path(a) =>
        var target := PrintQuoted(a) + (" " + tail);
        assert target[0] == QuoteChar(Surround(a));
        ReadQuoted(sh, a, tail, []);
        assert [] + Meaning(a) == Meaning(a);
        ReadFileTarget(sh, OperatorText(r), target, Meaning(a), " " + tail);
      case Dup(fd) =>
        ReadDupTarget(sh, OperatorText(r), fd, tail);
    }
  }

  lemma {:induction false} ReadRedir(sh: Shell.Dialect, r: Redirect, tail: Text, p: Shell.Progress)
    requires WellTypedRedirect(r) && FaithfulRedirect(sh, r)
    ensures Shell.ReadScript(sh, PrintRedirect(r) + tail, p) == Shell.ReadScript(sh, tail, RunRedirect(r, p))
    decreases r, 2
  {
    hide Shell.ReadScript, Shell.ReadRedirect, Shell.ReadUnquoted, PrintRedirectTo, RedirectTarget;
    var fd, op, to := DescriptorText(r), OperatorText(r), PrintRedirectTo(r.to);
    var rest := op + (to + (" " + tail));
    var s := fd + rest;
    Assoc(fd + op + to, " ", tail);
    Assoc(fd + op, to, " " + tail);
    Assoc(fd, op, to + (" " + tail));
    OperatorIs(r);
    ReadTarget(sh, r, tail);
    DigitRunStops(fd, rest);
    assert s[..|fd|] == fd && s[|fd|..] == rest;
    DescriptorIs(r);
    ReadStep(sh, s, tail, p, RunRedirect(r, Shell.START).current[0]);
  }

  lemma DescriptorIs(r: Redirect)
    ensures forall i :: 0 <= i < |DescriptorText(r)| ==> IsDigit(DescriptorText(r)[i])
    ensures RedirectKind(r).0 == if DescriptorText(r) != "" then DecimalValue(DescriptorText(r))
                                 else if OperatorText(r)[0] == '<' then 0 else 1
  {
    DecimalRoundTrip(2);
    assert Decimal(2) == "2";
    if r.Custom? {
      DecimalRoundTrip(r.fd);
    }
  }

  // ---- The converse: only faithful values have a readable meaning ----

  lemma FormedConcat(sh: Shell.Dialect, v: Shell.Word, w: Shell.Word)
    ensures Shell.FormedWord(sh, v + w) <==> Shell.FormedWord(sh, v) && Shell.FormedWord(sh, w)
  {
    assert forall i :: 0 <= i < |w| ==> w[i] == (v + w)[|v| + i];
    assert forall i :: 0 <= i < |v| ==> v[i] == (v + w)[i];
  }

  lemma FormedAdd(sh: Shell.Dialect, p: Shell.Progress, e: Shell.Element)
    requires Shell.FormedProgress(sh, p.Add(e))
    ensures Shell.FormedProgress(sh, p) && Shell.FormedElement(sh, e)
  {
    var es := p.Add(e).current;
    assert es[|p.current|] == e;
    assert forall i :: 0 <= i < |p.current| ==> p.current[i] == es[i];
  }

  lemma FormedClose(sh: Shell.Dialect, p: Shell.Progress, conn: Shell.Connector)
    requires Shell.FormedProgress(sh, p.Close(conn))
    ensures Shell.FormedProgress(sh, p)
  {
    var cs := p.Close(conn).done;
    assert cs[|p.done|].elements == p.current;
    assert forall i :: 0 <= i < |p.done| ==> p.done[i] == cs[i];
  }

  lemma FormedLiterals(sh: Shell.Dialect, s: Text)
    requires Shell.FormedWord(sh, Shell.Literals(s, true))
    ensures NoNul(s)
  {
    assert forall i :: 0 <= i < |s| ==> Shell.FormedUnit(sh, Shell.Literals(s, true)[i]);
  }

  lemma {:induction false} FormedArg(sh: Shell.Dialect, a: Arg)
    requires WellTyped(a) && Shell.FormedWord(sh, Meaning(a))
    ensures Faithful(sh, a)
    decreases a, 0
  {
    match a
    case Str(s) => FormedLiterals(sh, s);
    case Display(pieces) => FormedLiterals(sh, Flatten(pieces));
    case Env(expr) => assert Shell.FormedUnit(sh, Meaning(a)[0]);
    case Tuple(components) => FormedAll(sh, components);
    case Concat(_, items) => FormedAll(sh, items);
    case Expand(part) =>
      assert Shell.FormedUnit(sh, Meaning(a)[0]);
      RunAt(part, NeedProg, Shell.START);
      FormedPart(sh, part, Shell.START);
    case _ =>
  }

  lemma {:induction false} FormedAll(sh: Shell.Dialect, args: seq<Arg>)
    requires forall i :: 0 <= i < |args| ==> WellTyped(args[i])
    requires Shell.FormedWord(sh, MeaningAll(args))
    ensures forall i :: 0 <= i < |args| ==> Faithful(sh, args[i])
    decreases args, 0
  {
    if args != [] {
      FormedConcat(sh, Meaning(args[0]), MeaningAll(args[1..]));
      FormedArg(sh, args[0]);
      FormedAll(sh, args[1..]);
    }
  }

  lemma {:induction false} FormedEnv(sh: Shell.Dialect, key: Key, value: Arg, p: Shell.Progress)
    requires WellTyped(value) && Shell.FormedProgress(sh, RunEnv(key, value, p))
    ensures Shell.FormedProgress(sh, p) && FaithfulEnv(sh, key, value)
    decreases value, 1
  {
    if KeyPrefix(key).Some? {
      FormedAdd(sh, p, Shell.Assign(KeyPrefix(key).value, Meaning(value)));
      FormedArg(sh, value);
    }
  }

  lemma {:induction false} FormedEnvs(sh: Shell.Dialect, envs: seq<Binding>, p: Shell.Progress)
    requires forall i :: 0 <= i < |envs| ==> WellTyped(envs[i].value)
    requires Shell.FormedProgress(sh, RunEnvs(envs, p))
    ensures Shell.FormedProgress(sh, p)
    ensures forall i :: 0 <= i < |envs| ==> FaithfulEnv(sh, envs[i].key, envs[i].value)
    decreases envs, 0
  {
    if envs != [] {
      FormedEnvs(sh, envs[1..], RunEnv(envs[0].key, envs[0].value, p));
      FormedEnv(sh, envs[0].key, envs[0].value, p);
    }
  }

  lemma {:induction false} FormedSingle(sh: Shell.Dialect, a: Arg, p: Shell.Progress)
    requires WellTyped(a) && Shell.FormedProgress(sh, RunWord(a, p))
    ensures Shell.FormedProgress(sh, p) && Faithful(sh, a)
    decreases a, 1
  {
    FormedAdd(sh, p, Shell.Argument(Meaning(a)));
    FormedArg(sh, a);
  }

  lemma {:induction false} FormedWords(sh: Shell.Dialect, args: seq<Arg>, p: Shell.Progress)
    requires forall i :: 0 <= i < |args| ==> WellTyped(args[i])
    requires Shell.FormedProgress(sh, RunWords(args, p))
    ensures Shell.FormedProgress(sh, p)
    ensures forall i :: 0 <= i < |args| ==> Faithful(sh, args[i])
    decreases args, 0
  {
    if args != [] {
      FormedWords(sh, args[1..], RunWord(args[0], p));
      FormedSingle(sh, args[0], p);
    }
  }

  lemma {:induction false} FormedPart(sh: Shell.Dialect, part: Part, p: Shell.Progress)
    requires WellTypedPart(part) && Shell.FormedProgress(sh, Run(part, p))
    ensures Shell.FormedProgress(sh, p) && FaithfulPart(sh, part)
    decreases part, 0
  {
    match part
    case Assignment(key, value) => FormedEnv(sh, key, value, p);
    case Envs(envs) => FormedEnvs(sh, envs, p);
    case Args(args) => FormedWords(sh, args, p);
    case And => FormedClose(sh, p, Shell.AndIf);
    case Or => FormedClose(sh, p, Shell.OrIf);
    case Pipe => FormedClose(sh, p, Shell.Pipe);
    case Term => FormedClose(sh, p, Shell.Semi);
    case Redir(r) => FormedRedirect(sh, r, p);
    case Word(a) => FormedSingle(sh, a, p);
    case Then(first, second) => FormedPart(sh, second, Run(first, p)); FormedPart(sh, first, p);
  }

  lemma {:induction false} FormedRedirect(sh: Shell.Dialect, r: Redirect, p: Shell.Progress)
    requires WellTypedRedirect(r) && Shell.FormedProgress(sh, RunRedirect(r, p))
    ensures Shell.FormedProgress(sh, p) && FaithfulRedirect(sh, r)
    decreases r, 1
  {
    FormedAdd(sh, p, Shell.Redirect(RedirectKind(r).0, RedirectKind(r).1, RedirectTarget(r.to)));
    if r.to.Path? {
      FormedArg(sh, r.to.path);
    }
  }
}
