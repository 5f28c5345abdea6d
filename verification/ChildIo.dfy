// Reading a child's channel (src/process/child.rs).
module ChildIo {
  import opened Text

  type Bytes = seq<Byte>

  type u32 = n: nat | n < 0x1_0000_0000

  /** Received messages. `Other` stands for all kinds that are discarded. */
  datatype Msg =
    | Data(data: Bytes)
    | ExtendedData(data: Bytes, ext: nat)
    | ExitStatus(status: u32)
    | Failure
    | Other

  datatype Chunk = Stdout(bytes: Bytes) | Stderr(bytes: Bytes)

  datatype Output = Output(status: int, stdout: Bytes, stderr: Bytes)

  /** `(status & 0xff) << 8` */
  function CastStatus(status: u32): int {
    status % 0x100 * 0x100
  }

  // ---- What the messages say ----

  function StdoutBytes(m: Msg): Bytes {
    if m.Data? then m.data else []
  }

  /** Only extended data of kind 1 is stderr. */
  function StderrBytes(m: Msg): Bytes {
    if m.ExtendedData? && m.ext == 1 then m.data else []
  }

  function StdoutOf(msgs: seq<Msg>): Bytes {
    if msgs == [] then [] else StdoutBytes(msgs[0]) + StdoutOf(msgs[1..])
  }

  function StderrOf(msgs: seq<Msg>): Bytes {
    if msgs == [] then [] else StderrBytes(msgs[0]) + StderrOf(msgs[1..])
  }

  /** The last exit status, if any message carries one. */
  function LastStatus(msgs: seq<Msg>, before: u32): u32 {
    if msgs == [] then before
    else if msgs[|msgs| - 1].ExitStatus? then msgs[|msgs| - 1].status
    else LastStatus(msgs[..|msgs| - 1], before)
  }

  /** The messages up to the first `Failure`, included. */
  function UntilFailure(msgs: seq<Msg>): (n: nat)
    ensures n <= |msgs|
  {
    if msgs == [] then 0 else if msgs[0].Failure? then 1 else 1 + UntilFailure(msgs[1..])
  }

  lemma {:induction false} StreamsConcat(a: seq<Msg>, b: seq<Msg>)
    ensures StdoutOf(a + b) == StdoutOf(a) + StdoutOf(b)
    ensures StderrOf(a + b) == StderrOf(a) + StderrOf(b)
  {
    hide StdoutBytes, StderrBytes;
    if a == [] {
      assert a + b == b;
    } else {
      StreamsConcat(a[1..], b);
      assert (a + b)[0] == a[0] && (a + b)[1..] == a[1..] + b;
      Assoc(StdoutBytes(a[0]), StdoutOf(a[1..]), StdoutOf(b));
      Assoc(StderrBytes(a[0]), StderrOf(a[1..]), StderrOf(b));
    }
  }

  /** What one message is worth: data is stdout, extended data of kind 1 is stderr, the rest is neither. */
  lemma OneMessage(data: Bytes, ext: nat, status: u32)
    ensures StdoutOf([Data(data)]) == data && StderrOf([Data(data)]) == []
    ensures StderrOf([ExtendedData(data, 1)]) == data && (ext != 1 ==> StderrOf([ExtendedData(data, ext)]) == [])
    ensures StdoutOf([ExtendedData(data, ext)]) == []
    ensures forall m :: m in {ExitStatus(status), Failure, Other} ==> StdoutOf([m]) == [] && StderrOf([m]) == []
  {
    assert forall m: Msg :: [m][1..] == [];
  }

  /** The status is that of message `i` if no later one carries any, and zero if none does. */
  lemma {:induction false} LastStatusIs(msgs: seq<Msg>, i: nat)
    requires i < |msgs| && msgs[i].ExitStatus? && forall j :: i < j < |msgs| ==> !msgs[j].ExitStatus?
    ensures LastStatus(msgs, 0) == msgs[i].status
    decreases |msgs|
  {
    if i < |msgs| - 1 {
      LastStatusIs(msgs[..|msgs| - 1], i);
    }
  }

  lemma {:induction false} NoStatus(msgs: seq<Msg>)
    requires forall j :: 0 <= j < |msgs| ==> !msgs[j].ExitStatus?
    ensures LastStatus(msgs, 0) == 0
    decreases |msgs|
  {
    if msgs != [] {
      NoStatus(msgs[..|msgs| - 1]);
    }
  }

  /** Reading stops right after the first failure, or at the end. */
  lemma {:induction false} UntilFailureIs(msgs: seq<Msg>)
    ensures var n := UntilFailure(msgs);
      && (forall j :: 0 <= j < n - 1 ==> !msgs[j].Failure?)
      && (n < |msgs| ==> n > 0 && msgs[n - 1].Failure?)
  {
    if msgs != [] {
      UntilFailureIs(msgs[1..]);
    }
  }

  // How a Unix wait status is taken apart: the signal in the low seven bits, the exit code above eight.

  function Signal(waitStatus: int): int {
    waitStatus % 0x80
  }

  function ExitCode(waitStatus: int): int {
    waitStatus / 0x100 % 0x100
  }

  /** The child exited without a signal, with the low eight bits of the status as its code. */
  lemma ExitedWithLowBits(status: u32)
    ensures Signal(CastStatus(status)) == 0 && 0 <= CastStatus(status) < 0x1_0000
    ensures exists k: nat :: status == 0x100 * k + ExitCode(CastStatus(status))
  {
    var k := status / 0x100;
    assert status == 0x100 * k + status % 0x100;
    assert CastStatus(status) / 0x100 == status % 0x100;
  }

  // ---- The child ----

  class Child {
    /** All messages the channel will deliver, how many were consumed, and the close requests sent. */
    const inbox: seq<Msg>
    var consumed: nat
    var status: u32
    var closes: nat
    /** What was yielded so far. */
    ghost var yielded: seq<Chunk>
    /** How many times `None` was returned. */
    ghost var nones: nat

    constructor (inbox: seq<Msg>)
      ensures Valid() && this.inbox == inbox && consumed == 0 && yielded == [] && nones == 0
    {
      this.inbox := inbox;
      consumed, status, closes, yielded, nones := 0, 0, 0, [], 0;
    }

    /** Every byte consumed was yielded on its stream, in order; the status is the last one consumed;
        and one close was sent for each `None`. */
    ghost predicate Valid()
      reads this
    {
      && consumed <= |inbox|
      && YieldedStdout(yielded) == StdoutOf(inbox[..consumed])
      && YieldedStderr(yielded) == StderrOf(inbox[..consumed])
      && status == LastStatus(inbox[..consumed], 0)
      && closes == nones
    }

    method ReadNext() returns (r: Option<Chunk>)
      requires Valid()
      modifies this
      ensures Valid() && consumed >= old(consumed)
      ensures yielded == old(yielded) + (if r.Some? then [r.value] else [])
      ensures nones == old(nones) + if r.None? then 1 else 0
      ensures r.Some? ==> old(consumed) < consumed <= |inbox|
      ensures r.Some? ==>
        UntilFailure(inbox[old(consumed)..]) == (consumed - old(consumed)) + UntilFailure(inbox[consumed..])
      ensures r.None? ==> consumed == old(consumed) + UntilFailure(inbox[old(consumed)..])
    {
      hide StdoutOf, StderrOf, LastStatus, UntilFailure, YieldedStdout, YieldedStderr;
      ghost var failed := false;
      while consumed < |inbox|
        invariant !failed && Valid() && yielded == old(yielded) && nones == old(nones)
        invariant old(consumed) <= consumed <= |inbox|
        invariant UntilFailure(inbox[old(consumed)..]) == (consumed - old(consumed)) + UntilFailure(inbox[consumed..])
        decreases |inbox| - consumed
      {
        var msg := inbox[consumed];
        Consume(consumed);
        consumed := consumed + 1;
        match msg {
          case Data(data) =>
            YieldStep(yielded, Stdout(data));
            yielded := yielded + [Stdout(data)];
            return Some(Stdout(data));
          case ExtendedData(data, ext) =>
            if ext == 1 {
              YieldStep(yielded, Stderr(data));
              yielded := yielded + [Stderr(data)];
              return Some(Stderr(data));
            }
          case ExitStatus(exitStatus) => status := exitStatus;
          case Failure =>
            failed := true;
            break;
          case Other =>
        }
      }
      if !failed {
        EndOfInbox();
      }
      closes := closes + 1;
      nones := nones + 1;
      return None;
    }

    lemma EndOfInbox()
      ensures UntilFailure(inbox[|inbox|..]) == 0
    {
    }

    lemma Consume(at: nat)
      requires at < |inbox|
      ensures var m := inbox[at];
        && inbox[..at + 1] == inbox[..at] + [m]
        && StdoutOf(inbox[..at + 1]) == StdoutOf(inbox[..at]) + StdoutBytes(m)
        && StderrOf(inbox[..at + 1]) == StderrOf(inbox[..at]) + StderrBytes(m)
        && LastStatus(inbox[..at + 1], 0) == (if m.ExitStatus? then m.status else LastStatus(inbox[..at], 0))
        && UntilFailure(inbox[at..]) == if m.Failure? then 1 else 1 + UntilFailure(inbox[at + 1..])
    {
      var m := inbox[at];
      assert inbox[..at + 1] == inbox[..at] + [m];
      StreamsConcat(inbox[..at], [m]);
      assert [m][1..] == [] && inbox[..at + 1][..at] == inbox[..at] && inbox[at..][1..] == inbox[at + 1..];
    }

    method Wait() returns (r: int)
      requires Valid()
      modifies this
      ensures Valid() && nones == old(nones) + 1
      ensures consumed == old(consumed) + UntilFailure(inbox[old(consumed)..])
      ensures r == CastStatus(LastStatus(inbox[..consumed], 0))
    {
      while true
        invariant Valid() && nones == old(nones) && old(consumed) <= consumed <= |inbox|
        invariant UntilFailure(inbox[old(consumed)..]) == (consumed - old(consumed)) + UntilFailure(inbox[consumed..])
        decreases |inbox| - consumed
      {
        var next := ReadNext();
        if next.None? {
          break;
        }
      }
      r := CastStatus(status);
    }

    /** The remaining output up to the next `Failure` or the end, after any number of earlier reads. */
    method WaitWithOutput() returns (out: Output)
      requires Valid()
      modifies this
      ensures Valid() && nones == old(nones) + 1
      ensures consumed == old(consumed) + UntilFailure(inbox[old(consumed)..])
      ensures out.stdout == StdoutOf(inbox[old(consumed)..consumed])
      ensures out.stderr == StderrOf(inbox[old(consumed)..consumed])
      ensures out.status == CastStatus(LastStatus(inbox[..consumed], 0))
    {
      hide StdoutOf, StderrOf, LastStatus, UntilFailure, CastStatus;
      var stdout: Bytes, stderr: Bytes := [], [];
      while true
        invariant Valid() && nones == old(nones) && old(consumed) <= consumed <= |inbox|
        invariant YieldedStdout(yielded) == YieldedStdout(old(yielded)) + stdout
        invariant YieldedStderr(yielded) == YieldedStderr(old(yielded)) + stderr
        invariant UntilFailure(inbox[old(consumed)..]) == (consumed - old(consumed)) + UntilFailure(inbox[consumed..])
        decreases |inbox| - consumed
      {
        ghost var before := yielded;
        var next := ReadNext();
        if next.None? {
          assert before + [] == before;
          break;
        }
        YieldStep(before, next.value);
        match next.value {
          case Stdout(bytes) =>
            Assoc(YieldedStdout(old(yielded)), stdout, bytes);
            stdout := stdout + bytes;
          case Stderr(bytes) =>
            Assoc(YieldedStderr(old(yielded)), stderr, bytes);
            stderr := stderr + bytes;
        }
      }
      ghost var from := old(consumed);
      assert inbox[..consumed] == inbox[..from] + inbox[from..consumed];
      StreamsConcat(inbox[..from], inbox[from..consumed]);
      assert YieldedStdout(old(yielded)) + stdout == StdoutOf(inbox[..from]) + StdoutOf(inbox[from..consumed]);
      assert YieldedStderr(old(yielded)) + stderr == StderrOf(inbox[..from]) + StderrOf(inbox[from..consumed]);
      SamePrefix(StdoutOf(inbox[..from]), stdout, StdoutOf(inbox[from..consumed]));
      SamePrefix(StderrOf(inbox[..from]), stderr, StderrOf(inbox[from..consumed]));
      out := Output(CastStatus(status), stdout, stderr);
    }
  }

  lemma SamePrefix(p: Bytes, a: Bytes, b: Bytes)
    requires p + a == p + b
    ensures a == b
  {
    assert a == (p + a)[|p|..] && b == (p + b)[|p|..];
  }

  function YieldedStdout(chunks: seq<Chunk>): Bytes {
    if chunks == [] then []
    else YieldedStdout(chunks[..|chunks| - 1]) + if chunks[|chunks| - 1].Stdout? then chunks[|chunks| - 1].bytes else []
  }

  function YieldedStderr(chunks: seq<Chunk>): Bytes {
    if chunks == [] then []
    else YieldedStderr(chunks[..|chunks| - 1]) + if chunks[|chunks| - 1].Stderr? then chunks[|chunks| - 1].bytes else []
  }

  lemma YieldStep(chunks: seq<Chunk>, c: Chunk)
    ensures YieldedStdout(chunks + [c]) == YieldedStdout(chunks) + if c.Stdout? then c.bytes else []
    ensures YieldedStderr(chunks + [c]) == YieldedStderr(chunks) + if c.Stderr? then c.bytes else []
  {
    assert (chunks + [c])[..|chunks|] == chunks;
  }
}
