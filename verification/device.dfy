/** The device's MQTT handler `updateCode`: a state machine over `ota_in_progress`,
    `total_size` and `bytes_received`, driven by control messages and data chunks.
    The results of `Update.begin` and `Update.end` are inputs; the calls into the
    Update library, the log publishes and the restart are recorded as effects. */
module Device {
  import opened Options
  import opened Chunking
  import opened Wire

  /** The firmware's 32-bit `int`. */
  type int32 = x: int | -0x8000_0000 <= x < 0x8000_0000

  /** The value an unsigned 32-bit sum stored back into an `int` holds. */
  function ToInt32(x: int): int32
  {
    var m := x % 0x1_0000_0000;
    if m >= 0x8000_0000 then m - 0x1_0000_0000 else m
  }

  datatype Device = Device(inProgress: bool, totalSize: int32, bytesReceived: int32)

  /** A control message as the JSON library hands it over: the `type` string (absent
      means a null pointer) and `size` converted to `int`. */
  datatype Doc = Doc(kind: Option<string>, size: int32)

  /** One received MQTT message, sorted by topic. */
  datatype Inbound =
    | OnControl(doc: Doc)          // on CONTROL_TOPIC
    | OnFirmware(payload: seq<byte>) // on FIRMWARE_TOPIC
    | OnOther                      // on any other topic

  /** What the handler does besides changing its state. */
  datatype Effect =
    | Log(line: Line)              // publishLog
    | BeginUpdate(size: int32)     // Update.begin(total_size)
    | WriteChunk(bytes: seq<byte>) // Update.write(payload, length)
    | EndUpdate                    // Update.end(true)
    | AbortUpdate                  // Update.abort()
    | Restart                      // ESP.restart()

  datatype Reaction = Reaction(dev: Device, effects: seq<Effect>)

  /** The results the Update library reports for this message. */
  datatype Oracle = Oracle(beginOk: bool, endOk: bool)

  // The longer lines are spelled as short pieces so the verifier can index into them.
  const ERR_BUSY := "Error: OTA already in progress."
  const ERR_SIZE := "Error: Invalid firmware " + "size (0)."
  const LOG_STARTED := "OTA started. " + "Waiting for firmware..."
  const ERR_SPACE := "Error: Not enough space " + "for OTA. Check " + "partition scheme."
  const LOG_DONE := "Update successful! " + "Rebooting..."
  const ERR_VERIFY := "Error during Update.end(). " + "HASH/verification failed."
  const LOG_ABORTED := "OTA aborted by server."

  /** The line published after each (re)connection, with firmware version 3.0 printed as "%.2f". */
  const LOG_READY := "ESP32 Ready. Firmware v3.00"

  /** The lines the device publishes when it refuses or fails an update. */
  const ErrorLines: set<string> := {ERR_BUSY, ERR_SIZE, ERR_SPACE, ERR_VERIFY}

  /** The device's other lines: progress, outcome and readiness reports. */
  const ReportLines: set<string> := {LOG_STARTED, LOG_DONE, LOG_ABORTED, LOG_READY}

  /** Every line the device publishes on its log topic. */
  const DeviceLines: set<string> := ErrorLines + ReportLines

  /** The lines the handler publishes with `publishLog`. */
  datatype Line = Busy | BadSize | Started | NoSpace | Done | VerifyFailed | Aborted

  /** The text of a published line; each is one of the device's fixed lines. */
  function LineText(l: Line): (t: string)
    ensures t in DeviceLines
    ensures l in {Busy, BadSize, NoSpace, VerifyFailed} ==> t in ErrorLines
    ensures l in {Started, Done, Aborted} ==> t in ReportLines
  {
    match l
    case Busy => ERR_BUSY
    case BadSize => ERR_SIZE
    case Started => LOG_STARTED
    case NoSpace => ERR_SPACE
    case Done => LOG_DONE
    case VerifyFailed => ERR_VERIFY
    case Aborted => LOG_ABORTED
  }

  /** What the handler can receive: a control message always has a `type` (a missing
      one is a null pointer passed to `strcmp`), and a payload length fits `unsigned int`. */
  predicate WellFormed(m: Inbound)
  {
    && (m.OnControl? ==> m.doc.kind.Some?)
    && (m.OnFirmware? ==> |m.payload| < 0x1_0000_0000)
  }

  predicate IsKind(m: Inbound, kind: string)
  {
    m.OnControl? && m.doc.kind == Some(kind)
  }

  function Handle(d: Device, m: Inbound, o: Oracle): (r: Reaction)
    requires WellFormed(m)
    // start while a transfer runs: refused, nothing changes
    ensures IsKind(m, "start") && d.inProgress ==> r == Reaction(d, [Log(Busy)])
    // start while idle: total_size is overwritten first; the transfer begins only
    // for a non-zero size that Update.begin accepts, with bytes_received reset
    ensures IsKind(m, "start") && !d.inProgress ==>
      && r.dev.totalSize == m.doc.size
      && (r.dev.inProgress <==> m.doc.size != 0 && o.beginOk)
      && r.dev.bytesReceived == (if r.dev.inProgress then 0 else d.bytesReceived)
      && (m.doc.size == 0 ==> r.effects == [Log(BadSize)])
      && (m.doc.size != 0 ==>
            r.effects == [BeginUpdate(m.doc.size), Log(if o.beginOk then Started else NoSpace)])
    // data while idle is dropped; while a transfer runs it is written and counted
    ensures m.OnFirmware? && (!d.inProgress || |m.payload| == 0) ==> r == Reaction(d, [])
    ensures m.OnFirmware? && d.inProgress && |m.payload| > 0 ==>
      r == Reaction(d.(bytesReceived := ToInt32(d.bytesReceived + |m.payload|)), [WriteChunk(m.payload)])
    // end and abort do nothing while idle
    ensures (IsKind(m, "end") || IsKind(m, "abort")) && !d.inProgress ==> r == Reaction(d, [])
    // a failed verification or an abort returns the device to idle, counters kept
    ensures IsKind(m, "end") && d.inProgress && !o.endOk ==>
      r == Reaction(d.(inProgress := false), [EndUpdate, Log(VerifyFailed)])
    ensures IsKind(m, "abort") && d.inProgress ==>
      r == Reaction(d.(inProgress := false), [AbortUpdate, Log(Aborted)])
    // a verified end reports success and restarts
    ensures IsKind(m, "end") && d.inProgress && o.endOk ==>
      r == Reaction(d, [EndUpdate, Log(Done), Restart])
    // other topics and unknown types change nothing
    ensures m.OnOther? ==> r == Reaction(d, [])
    ensures m.OnControl? && !IsKind(m, "start") && !IsKind(m, "end") && !IsKind(m, "abort") ==>
      r == Reaction(d, [])
  {
    match m
    case OnOther => Reaction(d, [])
    case OnControl(doc) =>
      var kind := doc.kind.value;
      if kind == "start" then
        if d.inProgress then Reaction(d, [Log(Busy)])
        else if doc.size == 0 then Reaction(d.(totalSize := 0), [Log(BadSize)])
        else if o.beginOk then
          Reaction(Device(true, doc.size, 0), [BeginUpdate(doc.size), Log(Started)])
        else Reaction(d.(totalSize := doc.size), [BeginUpdate(doc.size), Log(NoSpace)])
      else if kind == "end" then
        if !d.inProgress then Reaction(d, [])
        else if o.endOk then Reaction(d, [EndUpdate, Log(Done), Restart])
        else Reaction(d.(inProgress := false), [EndUpdate, Log(VerifyFailed)])
      else if kind == "abort" then
        if !d.inProgress then Reaction(d, [])
        else Reaction(d.(inProgress := false), [AbortUpdate, Log(Aborted)])
      else Reaction(d, [])
    case OnFirmware(p) =>
      if !d.inProgress then Reaction(d, [])
      else if |p| > 0 then
        Reaction(d.(bytesReceived := ToInt32(d.bytesReceived + |p|)), [WriteChunk(p)])
      else Reaction(d, [])
  }

  /** Any data message received during a transfer, empty or not, advances
      `bytes_received` by its length with 32-bit wrap-around and changes nothing else. */
  lemma CountsOneChunk(d: Device, m: Inbound, o: Oracle)
    requires WellFormed(m) && m.OnFirmware? && d.inProgress
    ensures Handle(d, m, o).dev == d.(bytesReceived := ToInt32(d.bytesReceived + |m.payload|))
  {
  }

  /** One message other than end or abort, during a transfer: the count advances by
      the data it carries, and exactly that data is written. */
  lemma CountsStep(d: Device, m: Inbound, o: Oracle)
    requires WellFormed(m) && d.inProgress && !IsKind(m, "end") && !IsKind(m, "abort")
    ensures Handle(d, m, o).dev ==
      d.(bytesReceived := ToInt32(d.bytesReceived + (if m.OnFirmware? then |m.payload| else 0)))
    ensures Written(Handle(d, m, o).effects) == (if m.OnFirmware? then m.payload else [])
  {
    if m.OnFirmware? {
      CountsOneChunk(d, m, o);
    }
  }

  /** Every message of `ms` is one the handler can receive. */
  predicate AllWellFormed(ms: seq<Inbound>)
    decreases |ms|
  {
    ms == [] || (WellFormed(ms[0]) && AllWellFormed(ms[1..]))
  }

  lemma {:induction false} AllWellFormedAt(ms: seq<Inbound>)
    ensures AllWellFormed(ms) <==> forall i :: 0 <= i < |ms| ==> WellFormed(ms[i])
    decreases |ms|
  {
    if ms != [] {
      AllWellFormedAt(ms[1..]);
      assert forall i :: 1 <= i < |ms| ==> ms[i] == ms[1..][i - 1];
    }
  }

  lemma {:induction false} AllWellFormedAppend(a: seq<Inbound>, b: seq<Inbound>)
    requires AllWellFormed(a) && AllWellFormed(b)
    ensures AllWellFormed(a + b)
    decreases |a|
  {
    if a == [] {
      assert a + b == b;
    } else {
      assert (a + b)[0] == a[0] && (a + b)[1..] == a[1..] + b;
      AllWellFormedAppend(a[1..], b);
    }
  }

  /** The handler run on a sequence of messages, each with its library results. */
  function Process(d: Device, ms: seq<Inbound>, os: seq<Oracle>): Reaction
    requires |os| == |ms|
    requires AllWellFormed(ms)
    decreases |ms|
  {
    if ms == [] then Reaction(d, [])
    else
      var first := Handle(d, ms[0], os[0]);
      var rest := Process(first.dev, ms[1..], os[1..]);
      Reaction(rest.dev, first.effects + rest.effects)
  }

  /** Total length of the data chunks among `ms`. */
  function DataLength(ms: seq<Inbound>): nat
  {
    if ms == [] then 0
    else (if ms[0].OnFirmware? then |ms[0].payload| else 0) + DataLength(ms[1..])
  }

  /** The data chunks among `ms`, concatenated. */
  function DataBytes(ms: seq<Inbound>): seq<byte>
  {
    if ms == [] then []
    else (if ms[0].OnFirmware? then ms[0].payload else []) + DataBytes(ms[1..])
  }

  /** The bytes handed to Update.write, concatenated. */
  function Written(effects: seq<Effect>): seq<byte>
  {
    if effects == [] then []
    else (if effects[0].WriteChunk? then effects[0].bytes else []) + Written(effects[1..])
  }

  lemma {:induction false} WrittenAppend(a: seq<Effect>, b: seq<Effect>)
    ensures Written(a + b) == Written(a) + Written(b)
    decreases |a|
  {
    if a == [] {
      assert a + b == b;
    } else {
      assert (a + b)[1..] == a[1..] + b;
      WrittenAppend(a[1..], b);
    }
  }

  /** Wrapping an intermediate sum does not change the wrapped total. */
  lemma ToInt32Add(a: int32, x: nat, y: nat)
    ensures ToInt32(ToInt32(a + x) + y) == ToInt32(a + x + y)
  {
    var b := ToInt32(a + x);
    var k := (a + x) / 0x1_0000_0000;
    assert a + x == k * 0x1_0000_0000 + (a + x) % 0x1_0000_0000;
    assert b + y == a + x + y - k * 0x1_0000_0000 || b + y == a + x + y - (k + 1) * 0x1_0000_0000;
  }

  /** A sum that never left the 32-bit `int` range is stored exactly. */
  lemma ToInt32Small(x: int)
    requires -0x8000_0000 <= x < 0x8000_0000
    ensures ToInt32(x) == x
  {
    if x < 0 {
      assert x % 0x1_0000_0000 == x + 0x1_0000_0000;
    }
  }

  /** `bytes_received` after adding the length of each data chunk of `ms` in turn,
      each sum stored back into the 32-bit counter. */
  function Counted(b: int32, ms: seq<Inbound>): int32
    decreases |ms|
  {
    if ms == [] then b
    else Counted(ToInt32(b + (if ms[0].OnFirmware? then |ms[0].payload| else 0)), ms[1..])
  }

  /** Wrapping after every chunk is wrapping the total once. */
  lemma {:induction false} CountedWraps(b: int32, ms: seq<Inbound>)
    ensures Counted(b, ms) == ToInt32(b + DataLength(ms))
    decreases |ms|
  {
    if ms == [] {
      ToInt32Small(b);
    } else {
      var len := if ms[0].OnFirmware? then |ms[0].payload| else 0;
      CountedWraps(ToInt32(b + len), ms[1..]);
      ToInt32Add(b, len, DataLength(ms[1..]));
    }
  }

  /** During a transfer with no end or abort, each data chunk is counted and written
      in order, and nothing else changes. */
  lemma {:induction false} TracksChunks(d: Device, ms: seq<Inbound>, os: seq<Oracle>)
    requires d.inProgress
    requires |os| == |ms|
    requires AllWellFormed(ms)
    requires forall i :: 0 <= i < |ms| ==> !IsKind(ms[i], "end") && !IsKind(ms[i], "abort")
    ensures Process(d, ms, os).dev == d.(bytesReceived := Counted(d.bytesReceived, ms))
    ensures Written(Process(d, ms, os).effects) == DataBytes(ms)
    decreases |ms|
  {
    if ms != [] {
      var first := Handle(d, ms[0], os[0]);
      CountsStep(d, ms[0], os[0]);
      assert forall i :: 0 <= i < |ms[1..]| ==> ms[1..][i] == ms[i + 1];
      TracksChunks(first.dev, ms[1..], os[1..]);
      var rest := Process(first.dev, ms[1..], os[1..]);
      assert Process(d, ms, os) == Reaction(rest.dev, first.effects + rest.effects);
      WrittenAppend(first.effects, rest.effects);
    }
  }

  /** While a transfer runs and no end or abort arrives, `bytes_received` grows by the
      total length of the data chunks (with 32-bit wrap-around), every chunk is written
      in order, and `ota_in_progress` and `total_size` do not change. */
  lemma {:induction false} CountsChunks(d: Device, ms: seq<Inbound>, os: seq<Oracle>)
    requires d.inProgress
    requires |os| == |ms|
    requires AllWellFormed(ms)
    requires forall i :: 0 <= i < |ms| ==> !IsKind(ms[i], "end") && !IsKind(ms[i], "abort")
    ensures Process(d, ms, os).dev == d.(bytesReceived := ToInt32(d.bytesReceived + DataLength(ms)))
    ensures Written(Process(d, ms, os).effects) == DataBytes(ms)
  {
    TracksChunks(d, ms, os);
    CountedWraps(d.bytesReceived, ms);
    var counted := Counted(d.bytesReceived, ms);
    assert Process(d, ms, os).dev == d.(bytesReceived := counted);
  }

  /** `bytes_received` is the total length of the chunks received since the last
      accepted start, as long as no end or abort has come since. */
  lemma ReceivedSinceStart(d: Device, ms: seq<Inbound>, os: seq<Oracle>)
    requires |ms| > 0 && IsKind(ms[0], "start") && ms[0].doc.size != 0
    requires |os| == |ms|
    requires !d.inProgress && os[0].beginOk
    requires AllWellFormed(ms)
    requires forall i :: 1 <= i < |ms| ==> !IsKind(ms[i], "end") && !IsKind(ms[i], "abort")
    ensures Process(d, ms, os).dev == Device(true, ms[0].doc.size, ToInt32(DataLength(ms[1..])))
    ensures Written(Process(d, ms, os).effects) == DataBytes(ms[1..])
  {
    var first := Handle(d, ms[0], os[0]);
    assert first.effects == [BeginUpdate(ms[0].doc.size), Log(Started)];
    CountsChunks(first.dev, ms[1..], os[1..]);
    WrittenAppend(first.effects, Process(first.dev, ms[1..], os[1..]).effects);
  }
}
