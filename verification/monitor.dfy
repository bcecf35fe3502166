/** The command-line deployer's log callback: each line on the device's log topic
    may resolve the transfer, recorded in a status string and a threading event. */
module Monitor {
  import opened Text
  import opened Options

  /** The values `ota_status` takes. */
  datatype Status = InProgress | Success | Failed | FileNotFound | TimedOut

  /** `ota_status` together with whether `ota_finished_event` is set. */
  datatype Host = Host(status: Status, finished: bool)

  const Initial := Host(InProgress, false)

  /** An MQTT message as the callback receives it, payload already decoded to text. */
  datatype Message = Message(topic: string, payload: string)

  /** What one log line says about the transfer. */
  datatype Verdict = Reported | Faulted | Informational

  const SUCCESS_TOKEN := "OTA Success"

  /** The callback's test: the success token is matched case-sensitively and first;
      "failed" and "error" are matched in the lower-cased line. */
  function Classify(line: string): (v: Verdict)
    ensures v == Reported <==> Occurs(SUCCESS_TOKEN, line)
    ensures v == Faulted <==>
      !Occurs(SUCCESS_TOKEN, line) && (Occurs("failed", Lower(line)) || Occurs("error", Lower(line)))
  {
    if Contains(line, SUCCESS_TOKEN) then Reported
    else if Contains(Lower(line), "failed") || Contains(Lower(line), "error") then Faulted
    else Informational
  }

  /** `on_message`: a resolving line on the log topic overwrites the status and sets
      the event; any other message changes nothing. There is no guard against a
      later line overwriting an earlier outcome. */
  function OnMessage(h: Host, logTopic: string, m: Message): (r: Host)
    ensures m.topic == logTopic && Occurs(SUCCESS_TOKEN, m.payload) ==> r == Host(Success, true)
    ensures m.topic == logTopic && !Occurs(SUCCESS_TOKEN, m.payload)
      && (Occurs("failed", Lower(m.payload)) || Occurs("error", Lower(m.payload)))
      ==> r == Host(Failed, true)
    ensures m.topic != logTopic || Classify(m.payload) == Informational ==> r == h
  {
    if m.topic != logTopic then h
    else
      match Classify(m.payload)
      case Reported => Host(Success, true)
      case Faulted => Host(Failed, true)
      case Informational => h
  }

  /** The host after the callback has run on `msgs`, in order. */
  function Feed(h: Host, logTopic: string, msgs: seq<Message>): Host
  {
    if msgs == [] then h
    else OnMessage(Feed(h, logTopic, msgs[..|msgs| - 1]), logTopic, msgs[|msgs| - 1])
  }

  /** Whether a message resolves the transfer, and to which status. */
  function Resolution(logTopic: string, m: Message): Option<Status>
  {
    if m.topic != logTopic then None
    else
      match Classify(m.payload)
      case Reported => Some(Success)
      case Faulted => Some(Failed)
      case Informational => None
  }

  /** Once set, the event is never cleared by the callback. */
  lemma {:induction false} EventStaysSet(h: Host, logTopic: string, msgs: seq<Message>)
    requires h.finished
    ensures Feed(h, logTopic, msgs).finished
    decreases |msgs|
  {
    if msgs != [] {
      EventStaysSet(h, logTopic, msgs[..|msgs| - 1]);
    }
  }

  /** The callback never sets the event without also moving the status away from
      "in_progress", and never moves it back. */
  lemma {:induction false} EventMeansResolved(h: Host, logTopic: string, msgs: seq<Message>)
    requires h.finished ==> h.status != InProgress
    ensures Feed(h, logTopic, msgs).finished ==> Feed(h, logTopic, msgs).status != InProgress
    ensures h.status != InProgress ==> Feed(h, logTopic, msgs).status != InProgress
    decreases |msgs|
  {
    if msgs != [] {
      EventMeansResolved(h, logTopic, msgs[..|msgs| - 1]);
    }
  }

  /** Last writer wins: the status is the one named by the last resolving line, or the
      starting status if no line resolves. */
  lemma {:induction false} LastResolutionWins(h: Host, logTopic: string, msgs: seq<Message>, i: nat)
    requires i < |msgs| && Resolution(logTopic, msgs[i]).Some?
    requires forall j :: i < j < |msgs| ==> Resolution(logTopic, msgs[j]).None?
    ensures Feed(h, logTopic, msgs) == Host(Resolution(logTopic, msgs[i]).value, true)
    decreases |msgs|
  {
    var last := |msgs| - 1;
    if i < last {
      assert msgs[..last][i] == msgs[i];
      LastResolutionWins(h, logTopic, msgs[..last], i);
    }
  }

  /** With no resolving line, the callback leaves the host as it was. */
  lemma {:induction false} NoResolutionNoChange(h: Host, logTopic: string, msgs: seq<Message>)
    requires forall j :: 0 <= j < |msgs| ==> Resolution(logTopic, msgs[j]).None?
    ensures Feed(h, logTopic, msgs) == h
    decreases |msgs|
  {
    if msgs != [] {
      NoResolutionNoChange(h, logTopic, msgs[..|msgs| - 1]);
    }
  }

  /** A success line followed by an error line ends in "failed": the later line
      overwrites the earlier outcome. */
  lemma SuccessThenErrorEndsFailed(logTopic: string)
    ensures Feed(Initial, logTopic,
      [Message(logTopic, "OTA Success"), Message(logTopic, "error")]) == Host(Failed, true)
  {
    var msgs := [Message(logTopic, "OTA Success"), Message(logTopic, "error")];
    PrefixOccurs(SUCCESS_TOKEN, "OTA Success");
    OccursHasChar(SUCCESS_TOKEN, "error", 0);
    assert Lower("error") == "error";
    PrefixOccurs("error", "error");
    assert Resolution(logTopic, msgs[1]) == Some(Failed);
    LastResolutionWins(Initial, logTopic, msgs, 1);
  }

  /** A line with both the success token and "error" counts as success: the success
      test comes first. */
  lemma SuccessCheckedFirst(line: string)
    requires Occurs(SUCCESS_TOKEN, line) && Occurs("error", Lower(line))
    ensures Classify(line) == Reported
  {
  }
}
