/** The command-line deployer: `deploy_firmware` followed by the wait and exit code of
    the main block. The MQTT callback thread is modelled by `Deliver` steps that may
    come between any two steps of the main thread, the wait's timeout by an `Expire`
    step, and a publish that raises by `Drive(false)`. */
module Deploy {
  import opened Chunking
  import opened Wire
  import opened Monitor
  import opened Text

  /** What opening and reading the firmware file yields. */
  datatype FirmwareFile = Missing | Unreadable | Contents(data: seq<byte>)

  /** Where the main thread is. */
  datatype Phase =
    | Begin(file: FirmwareFile)              // deploy_firmware not yet entered
    | Sending(data: seq<byte>, offset: nat)  // at the loop test; START already published
    | Waiting                                // deploy_firmware returned; blocked in wait()
    | Expired                                // wait() returned False; "timeout" not yet written
    | Draining                               // status settled; callbacks run until loop_stop
    | Stopped                                // callbacks stopped; the exit code is fixed

  datatype Sys = Sys(host: Host, phase: Phase, out: seq<Publish>)

  /** One step of the whole system. */
  datatype Step =
    | Drive(publishOk: bool)   // the main thread moves on; a publish it makes raises if false
    | Deliver(m: Message)      // the callback thread runs on one received message
    | Expire                   // the 600-second wait runs out

  function Init(file: FirmwareFile): Sys
  {
    Sys(Initial, Begin(file), [])
  }

  /** The `except` branch of deploy_firmware: status "failed", event set, return. */
  function Raise(s: Sys): Sys
  {
    Sys(Host(Failed, true), Waiting, s.out)
  }

  /** One step of the system. A step publishes at most one message and never takes
      one back, never clears the event, and changes nothing once the callbacks are
      stopped; "timeout" is written only by the main thread after the wait expired. */
  function Next(logTopic: string, s: Sys, e: Step): (r: Sys)
    ensures s.out <= r.out && |r.out| <= |s.out| + 1
    ensures r.out != s.out ==> e.Drive? && e.publishOk && (s.phase.Begin? || s.phase.Sending?)
    ensures s.host.finished ==> r.host.finished
    ensures s.phase.Stopped? ==> r == s
    ensures r.host.status == TimedOut && s.host.status != TimedOut ==> s.phase.Expired? && e.Drive?
  {
    match e
    case Deliver(m) =>
      if s.phase.Stopped? then s else s.(host := OnMessage(s.host, logTopic, m))
    case Expire =>
      if s.phase.Waiting? && !s.host.finished then s.(phase := Expired) else s
    case Drive(ok) =>
      match s.phase
      case Begin(file) =>
        (match file
         case Missing => Sys(Host(FileNotFound, true), Waiting, s.out)
         case Unreadable => Raise(s)
         case Contents(d) =>
           if ok then Sys(s.host, Sending(d, 0), s.out + [ControlPub(Start(|d|))]) else Raise(s))
      case Sending(d, offset) =>
        if offset < |d| && !s.host.finished then
          var chunk := Slice(d, offset, offset + CHUNK_SIZE);
          if ok then s.(phase := Sending(d, offset + |chunk|), out := s.out + [ChunkPub(chunk)])
          else Raise(s)
        else if s.host.status == InProgress then
          if ok then s.(phase := Waiting, out := s.out + [ControlPub(End)]) else Raise(s)
        else s.(phase := Waiting)
      case Waiting => if s.host.finished then s.(phase := Draining) else s
      case Expired => s.(host := s.host.(status := TimedOut), phase := Draining)
      case Draining => s.(phase := Stopped)
      case Stopped => s
  }

  function Run(logTopic: string, s: Sys, es: seq<Step>): Sys
    decreases |es|
  {
    if es == [] then s else Run(logTopic, Next(logTopic, s, es[0]), es[1..])
  }

  /** The process exit status of the main block once the callbacks are stopped. */
  function ExitCode(s: Sys): (code: nat)
    requires s.phase.Stopped?
    ensures code == 0 <==> s.host.status == Success
    ensures code <= 1
  {
    if s.host.status == Success then 0 else 1
  }

  /** What holds in every state reachable from `Init(file)`. */
  ghost predicate Inv(file: FirmwareFile, s: Sys)
  {
    && (if file.Contents? then s.out <= Plan(file.data) else s.out == [])
    && (s.phase.Begin? ==> s.phase.file == file && s.out == [])
    && (s.phase.Sending? ==>
          && file.Contents? && s.phase.data == file.data
          && 1 <= |s.out| <= |Chunks(file.data)| + 1
          && ChunksFrom(file.data, s.phase.offset) == Chunks(file.data)[|s.out| - 1..])
    // Until deploy_firmware returns, the event is set exactly when the status has
    // left "in_progress".
    && (s.phase.Begin? || s.phase.Sending? ==> (s.host.finished <==> s.host.status != InProgress))
  }

  /** A chunk publish keeps the invariant: the next planned message is the chunk. */
  lemma ChunkStepInv(logTopic: string, file: FirmwareFile, s: Sys)
    requires Inv(file, s) && s.phase.Sending?
    requires s.phase.offset < |s.phase.data| && !s.host.finished
    ensures Inv(file, Next(logTopic, s, Drive(true)))
  {
    var d, offset := s.phase.data, s.phase.offset;
    var k := |s.out| - 1;
    assert s.out == Plan(d)[..k + 1];
    NextChunk(d, offset, k);
    var chunk := Slice(d, offset, offset + CHUNK_SIZE);
    var t := Next(logTopic, s, Drive(true));
    assert t == s.(phase := Sending(d, offset + |chunk|), out := s.out + [ChunkPub(chunk)]);
    assert t.out == Plan(d)[..k + 2] <= Plan(d);
  }

  /** Leaving the send loop keeps the invariant: END, when sent, is the next planned
      message, and an early stop publishes nothing. */
  lemma CloseStepInv(logTopic: string, file: FirmwareFile, s: Sys)
    requires Inv(file, s) && s.phase.Sending?
    requires !(s.phase.offset < |s.phase.data| && !s.host.finished)
    ensures Inv(file, Next(logTopic, s, Drive(true)))
  {
    var d, offset := s.phase.data, s.phase.offset;
    var k := |s.out| - 1;
    assert s.out == Plan(d)[..k + 1];
    if s.host.status == InProgress {
      NoChunkLeft(d, offset, k);
    }
  }

  lemma DeliverInv(logTopic: string, file: FirmwareFile, s: Sys, m: Message)
    requires Inv(file, s)
    ensures Inv(file, Next(logTopic, s, Deliver(m)))
  {
  }

  lemma NextInv(logTopic: string, file: FirmwareFile, s: Sys, e: Step)
    requires Inv(file, s)
    ensures Inv(file, Next(logTopic, s, e))
  {
    match e
    case Deliver(m) => DeliverInv(logTopic, file, s, m);
    case Expire =>
    case Drive(ok) =>
      if ok && s.phase.Sending? {
        if s.phase.offset < |s.phase.data| && !s.host.finished {
          ChunkStepInv(logTopic, file, s);
        } else {
          CloseStepInv(logTopic, file, s);
        }
      } else if ok && s.phase.Begin? && file.Contents? {
        assert Next(logTopic, s, e).out == Plan(file.data)[..1];
      }
  }

  lemma {:induction false} RunInv(logTopic: string, file: FirmwareFile, s: Sys, es: seq<Step>)
    requires Inv(file, s)
    ensures Inv(file, Run(logTopic, s, es))
    decreases |es|
  {
    if es != [] {
      NextInv(logTopic, file, s, es[0]);
      RunInv(logTopic, file, Next(logTopic, s, es[0]), es[1..]);
    }
  }

  /** Whatever the interleaving of log lines, publish failures and timeouts: a missing
      or unreadable file leads to no publish at all, and otherwise what is published
      is a prefix of START(size), the chunks in order, END. */
  lemma PublishesFollowPlan(logTopic: string, file: FirmwareFile, es: seq<Step>)
    ensures file.Contents? ==> Run(logTopic, Init(file), es).out <= Plan(file.data)
    ensures !file.Contents? ==> Run(logTopic, Init(file), es).out == []
  {
    RunInv(logTopic, file, Init(file), es);
  }

  /** A missing file: status "file_not_found", the event set, nothing published. */
  lemma MissingFile(logTopic: string, ok: bool)
    ensures Next(logTopic, Init(Missing), Drive(ok)) == Sys(Host(FileNotFound, true), Waiting, [])
  {
  }

  /** Once the event is set it stays set, whatever happens next. */
  lemma {:induction false} EventStaysSetInRun(logTopic: string, s: Sys, es: seq<Step>)
    requires s.host.finished
    ensures Run(logTopic, s, es).host.finished
    decreases |es|
  {
    if es != [] {
      EventStaysSetInRun(logTopic, Next(logTopic, s, es[0]), es[1..]);
    }
  }

  /** After the event is set no chunk and no END is published. The only publish
      still possible is the START of a transfer not yet begun, because the code
      tests the event only in the loop. */
  lemma {:induction false} QuietAfterEvent(logTopic: string, file: FirmwareFile, s: Sys, es: seq<Step>)
    requires Inv(file, s) && s.host.finished
    ensures var r := Run(logTopic, s, es);
      r.out == s.out
      || (s.phase.Begin? && file.Contents? && r.out == s.out + [ControlPub(Start(|file.data|))])
    decreases |es|
  {
    if es != [] {
      var s' := Next(logTopic, s, es[0]);
      NextInv(logTopic, file, s, es[0]);
      QuietAfterEvent(logTopic, file, s', es[1..]);
    }
  }

  /** Once deploy_firmware has returned, nothing more is published. */
  lemma {:induction false} NothingAfterReturn(logTopic: string, s: Sys, es: seq<Step>)
    requires s.phase.Waiting? || s.phase.Expired? || s.phase.Draining? || s.phase.Stopped?
    ensures Run(logTopic, s, es).out == s.out
    decreases |es|
  {
    if es != [] {
      NothingAfterReturn(logTopic, Next(logTopic, s, es[0]), es[1..]);
    }
  }

  /** At the loop exit END is published exactly when the status is still "in_progress". */
  lemma EndOnlyIfInProgress(logTopic: string, s: Sys)
    requires s.phase.Sending?
    requires !(s.phase.offset < |s.phase.data| && !s.host.finished)
    ensures Next(logTopic, s, Drive(true)) ==
      s.(phase := Waiting, out := s.out + if s.host.status == InProgress then [ControlPub(End)] else [])
  {
  }

  /** The wait running out while the event is unset makes `wait` return False; the
      main thread then writes "timeout" whatever the status is by then. */
  lemma WaitExpires(logTopic: string, s: Sys, ok: bool)
    requires s.phase.Waiting? && !s.host.finished
    ensures Next(logTopic, s, Expire) == s.(phase := Expired)
    ensures forall t: Sys :: t.phase.Expired? ==>
      Next(logTopic, t, Drive(ok)) == Sys(Host(TimedOut, t.host.finished), Draining, t.out)
  {
  }

  /** A wait whose event is already set returns True: it never expires, "timeout" is
      never written, and the status the callback settled on decides the exit code. */
  lemma ResolvedWaitKeepsStatus(logTopic: string, s: Sys)
    requires s.phase.Waiting? && s.host.finished
    ensures Next(logTopic, s, Expire) == s
    ensures var r := Run(logTopic, s, [Drive(true), Drive(true)]);
      && r == s.(phase := Stopped)
      && (ExitCode(r) == 0 <==> s.host.status == Success)
  {
    assert [Drive(true), Drive(true)][1..] == [Drive(true)];
  }

  /** A success line that arrives between the wait's timeout and the assignment of
      "timeout" sets the event, but the status ends as "timeout" and the exit code is 1. */
  lemma LateSuccessOverwritten(logTopic: string, s: Sys)
    requires s.phase.Waiting? && !s.host.finished
    ensures var r := Run(logTopic, s,
        [Expire, Deliver(Message(logTopic, SUCCESS_TOKEN)), Drive(true), Drive(true)]);
      r.phase.Stopped? && r.host == Host(TimedOut, true) && ExitCode(r) == 1
  {
    PrefixOccurs(SUCCESS_TOKEN, SUCCESS_TOKEN);
    var s1 := Next(logTopic, s, Expire);
    var s2 := Next(logTopic, s1, Deliver(Message(logTopic, SUCCESS_TOKEN)));
    assert s2 == Sys(Host(Success, true), Expired, s.out);
    var s3 := Next(logTopic, s2, Drive(true));
    assert s3 == Sys(Host(TimedOut, true), Draining, s.out);
    var m := Deliver(Message(logTopic, SUCCESS_TOKEN));
    assert [Expire, m, Drive(true), Drive(true)][1..] == [m, Drive(true), Drive(true)];
    assert [m, Drive(true), Drive(true)][1..] == [Drive(true), Drive(true)];
    assert [Drive(true), Drive(true)][1..] == [Drive(true)];
    assert Run(logTopic, s3, [Drive(true)]) == Sys(Host(TimedOut, true), Stopped, s.out);
    assert Run(logTopic, s2, [Drive(true), Drive(true)]) == Run(logTopic, s3, [Drive(true)]);
    assert Run(logTopic, s1, [m, Drive(true), Drive(true)]) == Run(logTopic, s2, [Drive(true), Drive(true)]);
  }

  function Drives(n: nat): (r: seq<Step>)
    ensures |r| == n && forall i :: 0 <= i < n ==> r[i] == Drive(true)
  {
    seq(n, _ => Drive(true))
  }

  lemma {:induction false} SendRest(logTopic: string, d: seq<byte>, offset: nat, k: nat)
    requires offset <= |d|
    requires k <= |Chunks(d)| && ChunksFrom(d, offset) == Chunks(d)[k..]
    ensures Run(logTopic, Sys(Initial, Sending(d, offset), Plan(d)[..k + 1]), Drives(|Chunks(d)| - k + 1))
      == Sys(Initial, Waiting, Plan(d))
    decreases |d| - offset
  {
    var n := |Chunks(d)| - k;
    var s := Sys(Initial, Sending(d, offset), Plan(d)[..k + 1]);
    assert Drives(n + 1)[1..] == Drives(n);
    if offset < |d| {
      var chunk := Slice(d, offset, offset + CHUNK_SIZE);
      var next := offset + |chunk|;
      NextChunk(d, offset, k);
      assert Next(logTopic, s, Drive(true)) == Sys(Initial, Sending(d, next), Plan(d)[..k + 2]);
      SendRest(logTopic, d, next, k + 1);
    } else {
      NoChunkLeft(d, offset, k);
      assert n == 0;
      assert Next(logTopic, s, Drive(true)) == Sys(Initial, Waiting, Plan(d));
    }
  }

  /** With no log line and no failing publish, the deployer publishes the whole plan
      and then waits. */
  lemma FullTransfer(logTopic: string, d: seq<byte>)
    ensures Run(logTopic, Init(Contents(d)), Drives(|Chunks(d)| + 2)) == Sys(Initial, Waiting, Plan(d))
  {
    var s1 := Next(logTopic, Init(Contents(d)), Drive(true));
    assert s1 == Sys(Initial, Sending(d, 0), Plan(d)[..1]);
    assert Drives(|Chunks(d)| + 2)[1..] == Drives(|Chunks(d)| + 1);
    SendRest(logTopic, d, 0, 0);
  }

  /** If the device never answers, the deployer publishes everything, times out and
      exits with status 1. */
  lemma SilentDeviceTimesOut(logTopic: string, d: seq<byte>)
    ensures var r := Run(logTopic, Init(Contents(d)), Drives(|Chunks(d)| + 2) + [Expire, Drive(true), Drive(true)]);
      r == Sys(Host(TimedOut, false), Stopped, Plan(d)) && ExitCode(r) == 1
  {
    var es := Drives(|Chunks(d)| + 2);
    RunAppend(logTopic, Init(Contents(d)), es, [Expire, Drive(true), Drive(true)]);
    FullTransfer(logTopic, d);
  }

  lemma {:induction false} RunAppend(logTopic: string, s: Sys, a: seq<Step>, b: seq<Step>)
    ensures Run(logTopic, s, a + b) == Run(logTopic, Run(logTopic, s, a), b)
    decreases |a|
  {
    if a == [] {
      assert a + b == b;
    } else {
      assert (a + b)[1..] == a[1..] + b;
      RunAppend(logTopic, Next(logTopic, s, a[0]), a[1..], b);
    }
  }
}
