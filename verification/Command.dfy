// The two command builders (src/process/cmd.rs, src/process/escape/cmd.rs): what a run prints is
// read back as what the calls mean, and both builders print the same text.
module CommandRun {
  import opened Text
  import opened Escape
  import opened Printer
  import opened ReadTree
  import Braces
  import Shell

  /** The builder calls of `Command`. */
  datatype Call =
    | EnvCall(key: Key, value: Arg)
    | EnvsCall(envs: seq<Binding>)
    | RedirectCall(redirect: Redirect)
    | ProgCall(prog: Arg)
    | ArgCall(arg: Arg)
    | ArgsCall(args: seq<Arg>)
    | AndCall
    | OrCall
    | PipeCall
    | Complete(bg: bool)
    | Chain

  /** What a call pushes onto the buffer. */
  function PrintCall(c: Call): Text {
    match c
    case EnvCall(key, value) => PrintEnv(key, value)
    case EnvsCall(envs) => PrintEnvs(envs)
    case RedirectCall(r) => PrintRedirect(r)
    case ProgCall(a) => PrintQuoted(a) + " "
    case ArgCall(a) => PrintQuoted(a) + " "
    case ArgsCall(args) => PrintWords(args)
    case AndCall => "&& "
    case OrCall => "|| "
    case PipeCall => "| "
    case Complete(bg) => if bg then "& " else "; "
    case Chain => ""
  }

  function PrintCalls(calls: seq<Call>): Text {
    if calls == [] then "" else PrintCalls(calls[..|calls| - 1]) + PrintCall(calls[|calls| - 1])
  }

  /** The typestate after a call; `None` if the type has no such method. */
  function StepStage(c: Call, st: Stage): Option<Stage> {
    match st
    case NeedProg =>
      if c.EnvCall? || c.EnvsCall? || c.RedirectCall? then Some(NeedProg)
      else if c.ProgCall? then Some(NeedTerm) else None
    case NeedTerm =>
      if c.ArgCall? || c.ArgsCall? || c.RedirectCall? then Some(NeedTerm)
      else if c.AndCall? || c.OrCall? || c.PipeCall? then Some(NeedProg)
      else if c.Complete? then Some(Completed) else None
    case Completed => if c.Chain? then Some(NeedProg) else None
  }

  function StageOf(calls: seq<Call>): Option<Stage> {
    if calls == [] then Some(NeedProg)
    else
      match StageOf(calls[..|calls| - 1])
      case None => None
      case Some(st) => StepStage(calls[|calls| - 1], st)
  }

  /** The `ExpandCommand` part for the same call; `chain` and a background end have none. */
  function AsPart(c: Call): Option<Part> {
    match c
    case EnvCall(key, value) => Some(Assignment(key, value))
    case EnvsCall(envs) => Some(Envs(envs))
    case RedirectCall(r) => Some(Redir(r))
    case ProgCall(a) => Some(Word(a))
    case ArgCall(a) => Some(Word(a))
    case ArgsCall(args) => Some(Args(args))
    case AndCall => Some(And)
    case OrCall => Some(Or)
    case PipeCall => Some(Pipe)
    case Complete(bg) => if bg then None else Some(Term)
    case Chain => None
  }

  predicate WellTypedCall(c: Call) {
    AsPart(c).Some? ==> WellTypedPart(AsPart(c).value)
  }

  predicate FaithfulCall(sh: Shell.Dialect, c: Call) {
    AsPart(c).Some? ==> FaithfulPart(sh, AsPart(c).value)
  }

  predicate WellTypedCalls(calls: seq<Call>) {
    forall i :: 0 <= i < |calls| ==> WellTypedCall(calls[i])
  }

  predicate FaithfulCalls(sh: Shell.Dialect, calls: seq<Call>) {
    forall i :: 0 <= i < |calls| ==> FaithfulCall(sh, calls[i])
  }

  // ---- What a run means ----

  function RunCall(c: Call, p: Shell.Progress): Shell.Progress {
    match c
    case Complete(bg) => p.Close(if bg then Shell.Amp else Shell.Semi)
    case Chain => p
    case _ => Run(AsPart(c).value, p)
  }

  function RunCalls(calls: seq<Call>): Shell.Progress {
    if calls == [] then Shell.START else RunCall(calls[|calls| - 1], RunCalls(calls[..|calls| - 1]))
  }

  /** The script a completed run stands for. */
  function Script(calls: seq<Call>): seq<Shell.SimpleCommand> {
    RunCalls(calls).done
  }

  function Programs(calls: seq<Call>): nat {
    if calls == [] then 0
    else Programs(calls[..|calls| - 1]) + if calls[|calls| - 1].ProgCall? then 1 else 0
  }

  lemma PartDone(part: Part, p: Shell.Progress)
    requires !part.Then?
    ensures |Run(part, p).done| == |p.done| + if part.And? || part.Or? || part.Pipe? || part.Term? then 1 else 0
  {
    match part
    case Envs(envs) => EnvsDone(envs, p);
    case Args(args) => WordsDone(args, p);
    case _ =>
  }

  lemma {:induction false} EnvsDone(envs: seq<Binding>, p: Shell.Progress)
    ensures RunEnvs(envs, p).done == p.done
    decreases |envs|
  {
    if envs != [] {
      EnvsDone(envs[1..], RunEnv(envs[0].key, envs[0].value, p));
    }
  }

  lemma {:induction false} WordsDone(args: seq<Arg>, p: Shell.Progress)
    ensures RunWords(args, p).done == p.done
    decreases |args|
  {
    if args != [] {
      WordsDone(args[1..], RunWord(args[0], p));
    }
  }

  /** The typestate allows one program for each command. */
  lemma {:induction false} OneProgramPerCommand(calls: seq<Call>)
    requires StageOf(calls).Some?
    ensures Programs(calls) == |RunCalls(calls).done| + if StageOf(calls) == Some(NeedTerm) then 1 else 0
  {
    if calls != [] {
      var init, c := calls[..|calls| - 1], calls[|calls| - 1];
      OneProgramPerCommand(init);
      if AsPart(c).Some? {
        PartDone(AsPart(c).value, RunCalls(init));
      }
    }
  }

  // ---- Printing and reading ----

  lemma {:induction false} RunCallsAt(calls: seq<Call>)
    requires StageOf(calls).Some?
    ensures At(RunCalls(calls), StageOf(calls).value)
  {
    if calls != [] {
      var init, c := calls[..|calls| - 1], calls[|calls| - 1];
      RunCallsAt(init);
      if AsPart(c).Some? {
        RunAt(AsPart(c).value, StageOf(init).value, RunCalls(init));
      }
    }
  }

  lemma CallIsPart(c: Call, st: Stage, p: Shell.Progress)
    requires AsPart(c).Some? && StepStage(c, st).Some?
    ensures After(AsPart(c).value, st) == StepStage(c, st)
    ensures PrintPart(AsPart(c).value) == PrintCall(c)
    ensures Run(AsPart(c).value, p) == RunCall(c, p)
  {
  }

  lemma ReadCall(sh: Shell.Dialect, c: Call, st: Stage, tail: Text, p: Shell.Progress)
    requires At(p, st) && StepStage(c, st).Some? && WellTypedCall(c) && FaithfulCall(sh, c)
    ensures Shell.ReadScript(sh, PrintCall(c) + tail, p) == Shell.ReadScript(sh, tail, RunCall(c, p))
  {
    hide Shell.ReadScript;
    if c == Complete(true) {
      assert "&" + " " == "& ";
      ReadConnector(sh, "&", Shell.Amp, tail, p);
    } else if c.Chain? {
      assert "" + tail == tail;
    } else {
      CallIsPart(c, st, p);
      hide Run, PrintPart, PrintCall, RunCall, FaithfulPart, WellTypedPart, StepStage, After;
      ReadPart(sh, AsPart(c).value, st, tail, p);
    }
  }

  lemma {:induction false} ReadCalls(sh: Shell.Dialect, calls: seq<Call>, tail: Text)
    requires StageOf(calls).Some? && WellTypedCalls(calls) && FaithfulCalls(sh, calls)
    ensures Shell.ReadScript(sh, PrintCalls(calls) + tail, Shell.START) == Shell.ReadScript(sh, tail, RunCalls(calls))
  {
    hide Shell.ReadScript, PrintCall, RunCall, WellTypedCall, FaithfulCall;
    if calls == [] {
      assert "" + tail == tail;
    } else {
      var init, c := calls[..|calls| - 1], calls[|calls| - 1];
      Assoc(PrintCalls(init), PrintCall(c), tail);
      ReadCalls(sh, init, PrintCall(c) + tail);
      RunCallsAt(init);
      ReadCall(sh, c, StageOf(init).value, tail, RunCalls(init));
    }
  }

  lemma {:induction false} FormedCalls(sh: Shell.Dialect, calls: seq<Call>)
    requires WellTypedCalls(calls) && Shell.FormedProgress(sh, RunCalls(calls))
    ensures FaithfulCalls(sh, calls)
  {
    if calls != [] {
      var init, c := calls[..|calls| - 1], calls[|calls| - 1];
      var p := RunCalls(init);
      match c {
        case Complete(bg) => FormedClose(sh, p, if bg then Shell.Amp else Shell.Semi);
        case Chain =>
        case _ => FormedPart(sh, AsPart(c).value, p);
      }
      FormedCalls(sh, init);
    }
  }

  /** The main theorem. Whatever the standard leaves to it, a shell reads the buffer of a completed run
      as exactly the script the calls stand for, if and only if the run is faithful. */
  lemma CommandReadsBack(sh: Shell.Dialect, calls: seq<Call>)
    requires StageOf(calls) == Some(Completed) && WellTypedCalls(calls)
    ensures Shell.Read(sh, PrintCalls(calls)) == Some(Script(calls)) <==> FaithfulCalls(sh, calls)
  {
    RunCallsAt(calls);
    if FaithfulCalls(sh, calls) {
      ReadCalls(sh, calls, "");
      assert PrintCalls(calls) + "" == PrintCalls(calls);
    }
    if Shell.Read(sh, PrintCalls(calls)) == Some(Script(calls)) {
      FormedCalls(sh, calls);
    }
  }

  /** A run the documentation allows whose text a shell does not read as meant: appending to a
      duplicated descriptor. */
  lemma AppendToDescriptorIsUnreadable(sh: Shell.Dialect)
    ensures var calls := [ProgCall(Str("a")), RedirectCall(Stdout(Dup(2), true)), Complete(false)];
      StageOf(calls) == Some(Completed) && Shell.Read(sh, PrintCalls(calls)) != Some(Script(calls))
  {
    hide Shell.Read, PrintCalls, RunCalls;
    var prog, redirect := ProgCall(Str("a")), RedirectCall(Stdout(Dup(2), true));
    var calls := [prog, redirect, Complete(false)];
    assert calls[..2] == [prog, redirect] && [prog, redirect][..1] == [prog] && [prog][..0] == [];
    assert StageOf([prog]) == Some(NeedTerm);
    assert StageOf([prog, redirect]) == Some(NeedTerm);
    assert !FaithfulCall(sh, calls[1]);
    CommandReadsBack(sh, calls);
  }

  /** Another one: an expansion text that closes its own brace. */
  lemma ClosingBraceIsMisread(sh: Shell.Dialect)
    ensures var calls := [ProgCall(Env("a}b")), Complete(false)];
      StageOf(calls) == Some(Completed) && Shell.Read(sh, PrintCalls(calls)) != Some(Script(calls))
  {
    hide Shell.Read, PrintCalls, RunCalls;
    var prog := ProgCall(Env("a}b"));
    var calls := [prog, Complete(false)];
    assert calls[..1] == [prog] && [prog][..0] == [];
    assert StageOf([prog]) == Some(NeedTerm);
    assert !FaithfulCall(sh, calls[0]) by {
      Braces.PlainIsClosed("a");
      assert "a}b"[1] == '}' && "a}b"[..1] == "a";
    }
    CommandReadsBack(sh, calls);
  }

  /** Expressions with operators, nested to any depth, are faithful: what matters is where they end. */
  lemma ExpressionsAreFaithful(sh: Shell.Dialect, name: Text, e: Text)
    requires name != "" && (forall i :: 0 <= i < |name| ==> NameChar(name[i])) && Braces.IsClosed(e)
    ensures Faithful(sh, Env(name)) && Faithful(sh, Env(name + ":-${" + e + "}"))
    ensures e != "" ==> Faithful(sh, Env(e))
  {
    hide Braces.Follow, Shell.Encloses;
    Braces.PlainIsClosed(name);
    Braces.NestedDefaultIsClosed(name, e);
    Shell.EnclosesIsClosed(sh, name);
    Shell.EnclosesIsClosed(sh, name + ":-${" + e + "}");
    Shell.EnclosesIsClosed(sh, e);
  }

  /** A third one: a string holding a NUL byte. */
  lemma NulIsUnreadable(sh: Shell.Dialect)
    ensures var calls := [ProgCall(Str("a\0b")), Complete(false)];
      StageOf(calls) == Some(Completed) && Shell.Read(sh, PrintCalls(calls)) != Some(Script(calls))
  {
    hide Shell.Read, PrintCalls, RunCalls;
    var prog := ProgCall(Str("a\0b"));
    var calls := [prog, Complete(false)];
    assert calls[..1] == [prog] && [prog][..0] == [];
    assert StageOf([prog]) == Some(NeedTerm);
    assert "a\0b"[1] == '\0' && !FaithfulCall(sh, calls[0]);
    CommandReadsBack(sh, calls);
  }

  /** The same bytes as `RawBytes` are always faithful: they are printed without the NUL. */
  lemma {:induction false} RawBytesAreFaithful(sh: Shell.Dialect, bytes: seq<Byte>)
    ensures Faithful(sh, RawBytes(bytes)) && NoNul(DropNul(bytes))
  {
    if bytes != [] {
      RawBytesAreFaithful(sh, bytes[1..]);
    }
  }

  // ---- The other builder ----

  /** `ExpandCommand` holds nothing at first, then the part, then a `Then` of what it had and the
      new part. */
  function AddPart(held: Option<Part>, part: Part): Option<Part> {
    match held
    case None => Some(part)
    case Some(first) => Some(Then(first, part))
  }

  predicate SharedCalls(calls: seq<Call>) {
    forall i :: 0 <= i < |calls| ==> AsPart(calls[i]).Some?
  }

  function Build(calls: seq<Call>): (held: Option<Part>)
    requires SharedCalls(calls)
    ensures held.None? <==> calls == []
  {
    if calls == [] then None
    else AddPart(Build(calls[..|calls| - 1]), AsPart(calls[|calls| - 1]).value)
  }

  lemma ThenIs(first: Part, second: Part)
    ensures PrintPart(Then(first, second)) == PrintPart(first) + PrintPart(second)
    ensures Run(Then(first, second), Shell.START) == Run(second, Run(first, Shell.START))
    ensures After(first, NeedProg).Some? ==>
      After(Then(first, second), NeedProg) == After(second, After(first, NeedProg).value)
  {
  }

  lemma ThenConditions(sh: Shell.Dialect, first: Part, second: Part)
    ensures WellTypedPart(Then(first, second)) <==> WellTypedPart(first) && WellTypedPart(second)
    ensures FaithfulPart(sh, Then(first, second)) <==> FaithfulPart(sh, first) && FaithfulPart(sh, second)
  {
  }

  /** For the calls both builders have, and any sequence of them that `Command` accepts, the tree that
      `ExpandCommand` holds is in the same typestate, prints the same text and means the same script. */
  lemma {:induction false} BuildersAgree(calls: seq<Call>)
    requires SharedCalls(calls) && calls != [] && StageOf(calls).Some?
    ensures After(Build(calls).value, NeedProg) == StageOf(calls)
    ensures PrintPart(Build(calls).value) == PrintCalls(calls)
    ensures Run(Build(calls).value, Shell.START) == RunCalls(calls)
  {
    var init, c := calls[..|calls| - 1], calls[|calls| - 1];
    CallIsPart(c, StageOf(init).value, RunCalls(init));
    hide PrintPart, PrintCall, Run, RunCall, After, StepStage, AsPart;
    if init == [] {
      assert "" + PrintCall(c) == PrintCall(c);
    } else {
      BuildersAgree(init);
      ThenIs(Build(init).value, AsPart(c).value);
    }
  }

  lemma {:induction false} BuildersShareConditions(sh: Shell.Dialect, calls: seq<Call>)
    requires SharedCalls(calls) && calls != []
    ensures WellTypedPart(Build(calls).value) <==> WellTypedCalls(calls)
    ensures FaithfulPart(sh, Build(calls).value) <==> FaithfulCalls(sh, calls)
  {
    hide AsPart, WellTypedPart, FaithfulPart;
    var init, c := calls[..|calls| - 1], calls[|calls| - 1];
    assert calls == init + [c];
    if init != [] {
      BuildersShareConditions(sh, init);
      ThenConditions(sh, Build(init).value, AsPart(c).value);
    }
  }

  /** A completed `ExpandCommand` inside an argument: `$(`, what `Command` would have built, `)`. */
  lemma ExpandPrintsCommand(calls: seq<Call>, q: SurroundBy)
    requires SharedCalls(calls) && StageOf(calls) == Some(Completed)
    ensures PrintArg(Expand(Build(calls).value), q) == "$(" + PrintCalls(calls) + ")"
    ensures Meaning(Expand(Build(calls).value)) == [Shell.Subst(Script(calls), true)]
  {
    BuildersAgree(calls);
    hide PrintPart, PrintCalls, Run, RunCalls;
  }

  // ---- The builder itself ----

  class Command {
    const buf: Buffer
    ghost var calls: seq<Call>

    ghost predicate Valid()
      reads this, buf
    {
      StageOf(calls).Some? && buf.text == PrintCalls(calls)
    }

    ghost function State(): Stage
      reads this, buf
      requires Valid()
    {
      StageOf(calls).value
    }

    ghost method Record(c: Call)
      requires StageOf(calls).Some? && StepStage(c, StageOf(calls).value).Some?
      requires buf.text == PrintCalls(calls) + PrintCall(c)
      modifies this
      ensures Valid() && calls == old(calls) + [c]
    {
      calls := calls + [c];
      assert calls[..|calls| - 1] == old(calls);
    }

    constructor ()
      ensures Valid() && calls == [] && fresh(buf)
    {
      buf := new Buffer();
      calls := [];
    }

    method Env(key: Key, value: Arg)
      requires Valid() && State() == NeedProg
      modifies this, buf
      ensures Valid() && calls == old(calls) + [EnvCall(key, value)]
    {
      WriteEnv(buf, key, value);
      Record(EnvCall(key, value));
    }

    method Envs(envs: seq<Binding>)
      requires Valid() && State() == NeedProg
      modifies this, buf
      ensures Valid() && calls == old(calls) + [EnvsCall(envs)]
    {
      WriteEnvs(buf, envs);
      Record(EnvsCall(envs));
    }

    method Redirect(r: Redirect)
      requires Valid() && State() != Completed
      modifies this, buf
      ensures Valid() && calls == old(calls) + [RedirectCall(r)]
    {
      WriteRedirect(buf, r);
      Record(RedirectCall(r));
    }

    method Prog(prog: Arg)
      requires Valid() && State() == NeedProg
      modifies this, buf
      ensures Valid() && calls == old(calls) + [ProgCall(prog)]
    {
      WriteArg(buf, prog);
      Record(ProgCall(prog));
    }

    method Arg(arg: Arg)
      requires Valid() && State() == NeedTerm
      modifies this, buf
      ensures Valid() && calls == old(calls) + [ArgCall(arg)]
    {
      WriteArg(buf, arg);
      Record(ArgCall(arg));
    }

    method Args(args: seq<Arg>)
      requires Valid() && State() == NeedTerm
      modifies this, buf
      ensures Valid() && calls == old(calls) + [ArgsCall(args)]
    {
      WriteArgs(buf, args);
      Record(ArgsCall(args));
    }

    method And()
      requires Valid() && State() == NeedTerm
      modifies this, buf
      ensures Valid() && calls == old(calls) + [AndCall]
    {
      buf.PushStr("&& ");
      Record(AndCall);
    }

    method Or()
      requires Valid() && State() == NeedTerm
      modifies this, buf
      ensures Valid() && calls == old(calls) + [OrCall]
    {
      buf.PushStr("|| ");
      Record(OrCall);
    }

    method Pipe()
      requires Valid() && State() == NeedTerm
      modifies this, buf
      ensures Valid() && calls == old(calls) + [PipeCall]
    {
      buf.PushStr("| ");
      Record(PipeCall);
    }

    method Complete(bg: bool)
      requires Valid() && State() == NeedTerm
      modifies this, buf
      ensures Valid() && calls == old(calls) + [Call.Complete(bg)]
    {
      if bg {
        buf.PushStr("& ");
      } else {
        buf.PushStr("; ");
      }
      Record(Call.Complete(bg));
    }

    method Chain()
      requires Valid() && State() == Completed
      modifies this, buf
      ensures Valid() && calls == old(calls) + [Call.Chain]
    {
      assert buf.text + "" == buf.text;
      Record(Call.Chain);
    }

    /** The command string of a completed builder means exactly its calls, if they are faithful and
        only then. */
    method AsStr() returns (s: Text)
      requires Valid() && State() == Completed && WellTypedCalls(calls)
      ensures s == PrintCalls(calls)
      ensures forall sh: Shell.Dialect :: Shell.Read(sh, s) == Some(Script(calls)) <==> FaithfulCalls(sh, calls)
    {
      s := buf.text;
      forall sh: Shell.Dialect
        ensures Shell.Read(sh, s) == Some(Script(calls)) <==> FaithfulCalls(sh, calls)
      {
        CommandReadsBack(sh, calls);
      }
    }
  }
}
