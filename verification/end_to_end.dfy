/** Host and device put together: what the host drivers publish, as the device handles
    it, and what the device logs, as the command-line deployer classifies it. */
module EndToEnd {
  import opened Options
  import opened Text
  import opened Chunking
  import opened Wire
  import opened Monitor
  import opened Deploy
  import opened Device

  // ----- Device log lines through the host's classifier -----

  /** Any line that starts with "Error" and lacks the success token is a failure. */
  lemma ErrorPrefixFails(line: string)
    requires |line| >= 5 && line[..5] == "Error"
    requires !Occurs(SUCCESS_TOKEN, line)
    ensures Classify(line) == Faulted
  {
    assert Lower(line)[..5] == "error";
    PrefixOccurs("error", Lower(line));
  }

  /** Each error line the device publishes makes the deployer record "failed". */
  lemma BusyLineFails()
    ensures Classify(ERR_BUSY) == Faulted
  {
    OccursHasChar(SUCCESS_TOKEN, ERR_BUSY, 4);
    ErrorPrefixFails(ERR_BUSY);
  }

  lemma SizeLineFails()
    ensures Classify(ERR_SIZE) == Faulted
  {
    OccursHasChar(SUCCESS_TOKEN, ERR_SIZE, 4);
    ErrorPrefixFails(ERR_SIZE);
  }

  lemma SpaceLineFails()
    ensures Classify(ERR_SPACE) == Faulted
  {
    OccursHasChar(SUCCESS_TOKEN, ERR_SPACE, 4);
    ErrorPrefixFails(ERR_SPACE);
  }

  lemma VerifyLineFails()
    ensures Classify(ERR_VERIFY) == Faulted
  {
    OccursHasChar(SUCCESS_TOKEN, ERR_VERIFY, 0);
    ErrorPrefixFails(ERR_VERIFY);
  }

  /** No `a` in `s` is directly followed by `b`. */
  ghost predicate NoPair(s: string, a: char, b: char)
  {
    forall k :: 0 <= k < |s| - 1 ==> !(s[k] == a && s[k + 1] == b)
  }

  /** A line that lacks one character of the success token, and whose lower-cased form
      has neither "fa" nor "rr" in it, resolves nothing. */
  lemma QuietLine(line: string, missing: nat)
    requires missing < |SUCCESS_TOKEN| && SUCCESS_TOKEN[missing] !in line
    requires NoPair(Lower(line), 'f', 'a') && NoPair(Lower(line), 'r', 'r')
    ensures Classify(line) == Informational
  {
    OccursHasChar(SUCCESS_TOKEN, line, missing);
    OccursHasPair("failed", Lower(line), 0);
    OccursHasPair("error", Lower(line), 1);
  }

  lemma LoweredDone()
    ensures Lower(LOG_DONE) == "update successful! rebooting..."
  {
    var a, b := "Update successful! ", "Rebooting...";
    var la, lb := "update successful! ", "rebooting...";
    assert Lower(a) == la;
    assert Lower(b) == lb;
    LowerAppend(a, b);
    assert la + lb == "update successful! rebooting...";
  }

  lemma QuietPairsDone()
    ensures NoPair("update successful! rebooting...", 'f', 'a')
    ensures NoPair("update successful! rebooting...", 'r', 'r')
  {
  }

  /** The device's success line does not contain "OTA Success", so it leaves the
      deployer's status and event unchanged. */
  lemma SuccessLineUnrecognised()
    ensures Classify(LOG_DONE) == Informational
  {
    LoweredDone();
    QuietPairsDone();
    QuietLine(LOG_DONE, 0);
  }

  lemma LoweredStarted()
    ensures Lower(LOG_STARTED) == "ota started. " + "waiting for firmware..."
  {
    var a, b := "OTA started. ", "Waiting for firmware...";
    assert Lower(a) == "ota started. ";
    assert Lower(b) == "waiting for firmware...";
    LowerAppend(a, b);
  }

  lemma QuietPairsStarted()
    ensures NoPair("ota started. " + "waiting for firmware...", 'f', 'a')
    ensures NoPair("ota started. " + "waiting for firmware...", 'r', 'r')
  {
  }

  lemma StartedLineQuiet()
    ensures Classify(LOG_STARTED) == Informational
  {
    LoweredStarted();
    QuietPairsStarted();
    QuietLine(LOG_STARTED, 4);
  }

  lemma LoweredAborted()
    ensures Lower(LOG_ABORTED) == "ota aborted by server."
  {
    var a, b := "OTA aborted ", "by server.";
    var la, lb := "ota aborted ", "by server.";
    assert a + b == LOG_ABORTED;
    assert Lower(a) == la;
    assert Lower(b) == lb;
    LowerAppend(a, b);
    assert la + lb == "ota aborted by server.";
  }

  lemma QuietPairsAborted()
    ensures NoPair("ota aborted by server.", 'f', 'a')
    ensures NoPair("ota aborted by server.", 'r', 'r')
  {
  }

  lemma AbortedLineQuiet()
    ensures Classify(LOG_ABORTED) == Informational
  {
    LoweredAborted();
    QuietPairsAborted();
    QuietLine(LOG_ABORTED, 4);
  }

  lemma LoweredReady()
    ensures Lower(LOG_READY) == "esp32 ready. firmware v3.00"
  {
  }

  lemma QuietPairsReady()
    ensures NoPair("esp32 ready. firmware v3.00", 'f', 'a')
    ensures NoPair("esp32 ready. firmware v3.00", 'r', 'r')
  {
  }

  lemma ReadyLineQuiet()
    ensures Classify(LOG_READY) == Informational
  {
    LoweredReady();
    QuietPairsReady();
    QuietLine(LOG_READY, 0);
  }

  /** Each of the device's error lines reads as failure to the deployer. */
  lemma ErrorLinesFail(line: string)
    requires line in ErrorLines
    ensures Classify(line) == Faulted
  {
    if line == ERR_BUSY { BusyLineFails(); }
    if line == ERR_SIZE { SizeLineFails(); }
    if line == ERR_SPACE { SpaceLineFails(); }
    if line == ERR_VERIFY { VerifyLineFails(); }
  }

  /** None of the device's other lines, its success line included, resolves anything. */
  lemma ReportLinesQuiet(line: string)
    requires line in ReportLines
    ensures Classify(line) == Informational
  {
    if line == LOG_DONE { SuccessLineUnrecognised(); }
    if line == LOG_STARTED { StartedLineQuiet(); }
    if line == LOG_ABORTED { AbortedLineQuiet(); }
    if line == LOG_READY { ReadyLineQuiet(); }
  }

  /** No line the device publishes reads as success to the deployer. */
  lemma DeviceNeverReportsSuccess(line: string)
    requires line in DeviceLines
    ensures Classify(line) != Reported
  {
    if line in ErrorLines {
      ErrorLinesFail(line);
    } else {
      ReportLinesQuiet(line);
    }
  }

  /** A delivery step carrying one of the device's lines, or any message off the log topic. */
  predicate FromDevice(logTopic: string, e: Step)
  {
    e.Deliver? ==> e.m.topic != logTopic || e.m.payload in DeviceLines
  }

  /** Against this device the deployer never records success, whatever the
      interleaving: it ends in "failed", "file_not_found" or "timeout", and exits 1. */
  lemma {:induction false} DeployerNeverSucceeds(logTopic: string, s: Sys, es: seq<Step>)
    requires s.host.status != Success
    requires forall i :: 0 <= i < |es| ==> FromDevice(logTopic, es[i])
    ensures Run(logTopic, s, es).host.status != Success
    ensures Run(logTopic, s, es).phase.Stopped? ==> ExitCode(Run(logTopic, s, es)) == 1
    decreases |es|
  {
    if es != [] {
      var e := es[0];
      if e.Deliver? && e.m.topic == logTopic {
        DeviceNeverReportsSuccess(e.m.payload);
      }
      DeployerNeverSucceeds(logTopic, Next(logTopic, s, e), es[1..]);
    }
  }

  // ----- Host publishes through the device's handler -----

  /** The fields the JSON library hands the handler for a control message. */
  function ToDoc(c: Control): Doc
    requires c.Start? ==> c.size < 0x8000_0000
  {
    match c
    case Start(n) => Doc(Some("start"), n)
    case End => Doc(Some("end"), 0)
    case Abort => Doc(Some("abort"), 0)
  }

  /** A publish `Receive` can route: a START size the JSON library stores exactly in
      the firmware's `int`, and a chunk no longer than the hosts cut. */
  predicate Receivable(p: Publish)
  {
    && (p.ControlPub? && p.msg.Start? ==> p.msg.size < 0x8000_0000)
    && (p.ChunkPub? ==> |p.bytes| <= CHUNK_SIZE)
  }

  /** How a host publish reaches the device's handler: the broker routes it to the
      topic the handler tests, and a control payload is read back from the text the
      host rendered. The text decodes to the message that was sent. */
  function Receive(style: Style, p: Publish): (m: Inbound)
    requires Receivable(p)
    ensures WellFormed(m)
    ensures p.ControlPub? ==> m == OnControl(ToDoc(p.msg))
    ensures p.ChunkPub? ==> m == OnFirmware(p.bytes)
  {
    match p
    case ChunkPub(b) => OnFirmware(b)
    case ControlPub(c) => OnControl(ToDoc(ReadBack(style, c)))
  }

  /** The control message the receiver reads from the text a host rendered for `c`. */
  function ReadBack(style: Style, c: Control): (r: Control)
    ensures r == c
  {
    DecodeRender(style, c);
    Decode(style, Render(style, c)).value
  }

  /** The messages the handler receives for a host's publishes, in publish order. */
  function ReceiveAll(style: Style, ps: seq<Publish>): (ms: seq<Inbound>)
    requires forall i :: 0 <= i < |ps| ==> Receivable(ps[i])
    ensures |ms| == |ps| && forall i :: 0 <= i < |ps| ==> ms[i] == Receive(style, ps[i])
    ensures AllWellFormed(ms)
  {
    var ms := seq(|ps|, i requires 0 <= i < |ps| && Receivable(ps[i]) => Receive(style, ps[i]));
    AllWellFormedAt(ms);
    ms
  }

  function ReceiveChunks(cs: seq<seq<byte>>): (ms: seq<Inbound>)
    requires forall i :: 0 <= i < |cs| ==> |cs[i]| <= CHUNK_SIZE
    ensures |ms| == |cs|
    ensures forall i :: 0 <= i < |cs| ==> ms[i] == OnFirmware(cs[i])
    ensures AllWellFormed(ms)
  {
    var ms := seq(|cs|, i requires 0 <= i < |cs| => OnFirmware(cs[i]));
    AllWellFormedAt(ms);
    ms
  }

  function AllOk(n: nat): (os: seq<Oracle>)
    ensures |os| == n && forall i :: 0 <= i < n ==> os[i] == Oracle(true, true)
  {
    seq(n, _ => Oracle(true, true))
  }

  lemma {:induction false} ReceivedChunkData(cs: seq<seq<byte>>)
    requires forall i :: 0 <= i < |cs| ==> |cs[i]| <= CHUNK_SIZE
    ensures DataBytes(ReceiveChunks(cs)) == Flatten(cs)
    ensures DataLength(ReceiveChunks(cs)) == |Flatten(cs)|
    decreases |cs|
  {
    if cs != [] {
      assert ReceiveChunks(cs)[1..] == ReceiveChunks(cs[1..]);
      ReceivedChunkData(cs[1..]);
    }
  }

  /** The handler as a total step: a message it cannot receive changes nothing. */
  function Respond(d: Device, m: Inbound, o: Oracle): Reaction
  {
    if WellFormed(m) then Handle(d, m, o) else Reaction(d, [])
  }

  /** Any per-message step run over a sequence of messages. */
  function Fold(step: (Device, Inbound, Oracle) -> Reaction, d: Device, ms: seq<Inbound>, os: seq<Oracle>): Reaction
    requires |os| == |ms|
    decreases |ms|
  {
    if ms == [] then Reaction(d, [])
    else
      var first := step(d, ms[0], os[0]);
      var rest := Fold(step, first.dev, ms[1..], os[1..]);
      Reaction(rest.dev, first.effects + rest.effects)
  }

  lemma {:induction false} FoldAppend(step: (Device, Inbound, Oracle) -> Reaction, d: Device,
                                      a: seq<Inbound>, b: seq<Inbound>, oa: seq<Oracle>, ob: seq<Oracle>)
    requires |oa| == |a| && |ob| == |b|
    ensures var ra := Fold(step, d, a, oa);
      var rb := Fold(step, ra.dev, b, ob);
      Fold(step, d, a + b, oa + ob) == Reaction(rb.dev, ra.effects + rb.effects)
    decreases |a|
  {
    if a == [] {
      assert a + b == b && oa + ob == ob;
    } else {
      var h := step(d, a[0], oa[0]);
      assert (a + b)[0] == a[0] && (a + b)[1..] == a[1..] + b;
      assert (oa + ob)[0] == oa[0] && (oa + ob)[1..] == oa[1..] + ob;
      FoldAppend(step, h.dev, a[1..], b, oa[1..], ob);
      var ra := Fold(step, h.dev, a[1..], oa[1..]);
      var rb := Fold(step, ra.dev, b, ob);
      assert h.effects + (ra.effects + rb.effects) == (h.effects + ra.effects) + rb.effects;
    }
  }

  lemma {:induction false} ProcessIsFold(d: Device, ms: seq<Inbound>, os: seq<Oracle>)
    requires |os| == |ms| && AllWellFormed(ms)
    ensures Process(d, ms, os) == Fold(Respond, d, ms, os)
    decreases |ms|
  {
    if ms != [] {
      var h := Handle(d, ms[0], os[0]);
      assert Respond(d, ms[0], os[0]) == h;
      ProcessIsFold(h.dev, ms[1..], os[1..]);
    }
  }

  /** Running the handler on `a + b` is running it on `a`, then on `b` from there. */
  lemma {:induction false} ProcessAppend(d: Device, a: seq<Inbound>, b: seq<Inbound>, oa: seq<Oracle>, ob: seq<Oracle>)
    requires |oa| == |a| && |ob| == |b|
    requires AllWellFormed(a) && AllWellFormed(b) && AllWellFormed(a + b)
    ensures var ra := Process(d, a, oa);
      var rb := Process(ra.dev, b, ob);
      Process(d, a + b, oa + ob) == Reaction(rb.dev, ra.effects + rb.effects)
  {
    ProcessIsFold(d, a + b, oa + ob);
    ProcessIsFold(d, a, oa);
    ProcessIsFold(Process(d, a, oa).dev, b, ob);
    FoldAppend(Respond, d, a, b, oa, ob);
  }

  /** The device's side of a whole upload of `data`, as the handler receives it. */
  function UploadMessages(data: seq<byte>): (ms: seq<Inbound>)
    requires |data| < 0x8000_0000
    ensures AllWellFormed(ms)
  {
    var cs := Chunks(data);
    var start, end := [OnControl(Doc(Some("start"), |data|))], [OnControl(Doc(Some("end"), 0))];
    AllWellFormedAppend(start, ReceiveChunks(cs));
    AllWellFormedAppend(start + ReceiveChunks(cs), end);
    start + ReceiveChunks(cs) + end
  }

  /** A verified END during a transfer writes nothing, logs success and restarts. */
  lemma VerifiedEnd(dev: Device)
    requires dev.inProgress
    ensures var r := Process(dev, [OnControl(Doc(Some("end"), 0))], AllOk(1));
      && r == Reaction(dev, [EndUpdate, Log(Done), Restart])
      && Written(r.effects) == []
  {
    var tail := [EndUpdate, Log(Done), Restart];
    assert Written(tail[2..]) == [];
    assert Written(tail[1..]) == [];
  }

  /** START and every chunk of a non-empty image, from idle: the transfer runs, counts
      every byte and writes exactly the image. */
  lemma {:induction false} BodyApplied(dev: Device, data: seq<byte>)
    requires !dev.inProgress
    requires 0 < |data| < 0x8000_0000
    ensures var body := [OnControl(Doc(Some("start"), |data|))] + ReceiveChunks(Chunks(data));
      && AllWellFormed(body)
      && Process(dev, body, AllOk(|body|)).dev == Device(true, |data|, |data|)
      && Written(Process(dev, body, AllOk(|body|)).effects) == data
  {
    var cs := Chunks(data);
    var start := [OnControl(Doc(Some("start"), |data|))];
    var body := start + ReceiveChunks(cs);
    ChunksFromFlatten(data, 0);
    assert data[0..] == data;
    assert body[1..] == ReceiveChunks(cs);
    AllWellFormedAppend(start, ReceiveChunks(cs));
    ReceivedSinceStart(dev, body, AllOk(|body|));
    ReceivedChunkData(cs);
    ToInt32Small(|data|);
  }

  /** Any well-formed prefix that leaves a transfer open, followed by a verified END,
      keeps the prefix's count and bytes and ends by logging success and restarting. */
  lemma {:induction false} ThenVerifiedEnd(dev: Device, body: seq<Inbound>, os: seq<Oracle>)
    requires |os| == |body| && AllWellFormed(body)
    requires Process(dev, body, os).dev.inProgress
    ensures AllWellFormed(body + [OnControl(Doc(Some("end"), 0))])
    ensures var rb := Process(dev, body, os);
      var r := Process(dev, body + [OnControl(Doc(Some("end"), 0))], os + AllOk(1));
      && r.dev == rb.dev
      && Written(r.effects) == Written(rb.effects)
      && |r.effects| >= 3
      && r.effects[|r.effects| - 3..] == [EndUpdate, Log(Done), Restart]
  {
    var end := [OnControl(Doc(Some("end"), 0))];
    var rb := Process(dev, body, os);
    VerifiedEnd(rb.dev);
    var re := Process(rb.dev, end, AllOk(1));
    AllWellFormedAppend(body, end);
    ProcessAppend(dev, body, end, os, AllOk(1));
    WrittenAppend(rb.effects, re.effects);
    var effects := rb.effects + re.effects;
    assert effects[|effects| - 3..] == re.effects;
  }

  lemma {:induction false} AppliesImage(dev: Device, data: seq<byte>)
    requires !dev.inProgress
    requires 0 < |data| < 0x8000_0000
    ensures var ms := UploadMessages(data);
      var r := Process(dev, ms, AllOk(|ms|));
      && r.dev == Device(true, |data|, |data|)
      && Written(r.effects) == data
      && |r.effects| >= 3
      && r.effects[|r.effects| - 3..] == [EndUpdate, Log(Done), Restart]
  {
    var body := [OnControl(Doc(Some("start"), |data|))] + ReceiveChunks(Chunks(data));
    BodyApplied(dev, data);
    ThenVerifiedEnd(dev, body, AllOk(|body|));
    assert AllOk(|body| + 1) == AllOk(|body|) + AllOk(1);
    assert UploadMessages(data) == body + [OnControl(Doc(Some("end"), 0))];
  }

  /** An idle device that receives a whole upload of a non-empty image, rendered by
      either host, with Update.begin and Update.end succeeding, writes exactly the
      image, counts every byte, logs its success line and restarts. */
  lemma DeviceAppliesUpload(style: Style, dev: Device, data: seq<byte>)
    requires !dev.inProgress
    requires 0 < |data| < 0x8000_0000
    ensures forall i :: 0 <= i < |Plan(data)| ==> Receivable(Plan(data)[i])
    ensures var ms := ReceiveAll(style, Plan(data));
      var r := Process(dev, ms, AllOk(|ms|));
      && r.dev == Device(true, |data|, |data|)
      && Written(r.effects) == data
      && |r.effects| >= 3
      && r.effects[|r.effects| - 3..] == [EndUpdate, Log(Done), Restart]
  {
    PlanReceived(style, data);
    AppliesImage(dev, data);
  }

  /** Every publish of a transfer's plan can be received, and the handler receives
      exactly START, each chunk in order, and END. */
  lemma {:induction false} PlanReceived(style: Style, data: seq<byte>)
    requires |data| < 0x8000_0000
    ensures forall i :: 0 <= i < |Plan(data)| ==> Receivable(Plan(data)[i])
    ensures ReceiveAll(style, Plan(data)) == UploadMessages(data)
  {
    var cs := Chunks(data);
    var p := Plan(data);
    var ms := UploadMessages(data);
    var body := ReceiveChunks(cs);
    assert |p| == |cs| + 2 == |ms|;
    forall i | 0 <= i < |p|
      ensures Receivable(p[i]) && Receive(style, p[i]) == ms[i]
    {
      if i == 0 {
        assert p[i] == ControlPub(Start(|data|));
      } else if i == |p| - 1 {
        assert p[i] == ControlPub(End);
      } else {
        assert p[i] == ChunkPub(cs[i - 1]);
        assert ms[i] == body[i - 1];
      }
    }
  }

  /** A zero-byte upload, which the upload server reports as a success, is refused by
      an idle device: it logs the size error, keeps idle and ignores the END. */
  lemma DeviceRefusesEmptyUpload(style: Style, dev: Device, os: seq<Oracle>)
    requires !dev.inProgress && |os| == 2
    ensures forall i :: 0 <= i < |Plan([])| ==> Receivable(Plan([])[i])
    ensures Process(dev, ReceiveAll(style, Plan([])), os) == Reaction(dev.(totalSize := 0), [Log(BadSize)])
    ensures Classify(ERR_SIZE) == Faulted
  {
    EmptyPlanReceived(style);
    RefusesEmpty(dev, os);
    SizeLineFails();
  }

  /** The handler receives a zero-byte upload as START with size 0, then END. */
  lemma EmptyPlanReceived(style: Style)
    ensures forall i :: 0 <= i < |Plan([])| ==> Receivable(Plan([])[i])
    ensures ReceiveAll(style, Plan([])) == [OnControl(Doc(Some("start"), 0)), OnControl(Doc(Some("end"), 0))]
  {
    EmptyUploadPlan();
    var ps := [ControlPub(Start(0)), ControlPub(End)];
    assert Receivable(ps[0]) && Receivable(ps[1]);
    var ms := ReceiveAll(style, ps);
    assert ms[0] == OnControl(ToDoc(Start(0)));
    assert ms[1] == OnControl(ToDoc(End));
  }

  lemma RefusesEmpty(dev: Device, os: seq<Oracle>)
    requires !dev.inProgress && |os| == 2
    ensures var ms := [OnControl(Doc(Some("start"), 0)), OnControl(Doc(Some("end"), 0))];
      Process(dev, ms, os) == Reaction(dev.(totalSize := 0), [Log(BadSize)])
  {
    var ms := [OnControl(Doc(Some("start"), 0)), OnControl(Doc(Some("end"), 0))];
    assert ms[1..] == [OnControl(Doc(Some("end"), 0))];
    assert os[1..][1..] == [];
  }
}
