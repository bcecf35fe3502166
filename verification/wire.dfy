/** What the hosts put on the broker: control messages on the control topic and raw
    chunks on the firmware topic, plus the exact text of the control payloads. */
module Wire {
  import opened Chunking
  import opened Options

  type byte = x: int | 0 <= x < 256

  /** The control messages of the transfer protocol. */
  datatype Control = Start(size: nat) | End | Abort

  /** One publish: a control message, or a raw chunk on the firmware topic. */
  datatype Publish = ControlPub(msg: Control) | ChunkPub(bytes: seq<byte>)

  function ChunkPubs(cs: seq<seq<byte>>): (r: seq<Publish>)
    ensures |r| == |cs|
    ensures forall i :: 0 <= i < |cs| ==> r[i] == ChunkPub(cs[i])
  {
    seq(|cs|, i requires 0 <= i < |cs| => ChunkPub(cs[i]))
  }

  /** The complete publish sequence of an uninterrupted transfer of `data`:
      START carrying the size, every chunk in order, then END. */
  function Plan(data: seq<byte>): seq<Publish>
  {
    [ControlPub(Start(|data|))] + ChunkPubs(Chunks(data)) + [ControlPub(End)]
  }

  /** A zero-byte image is published as START with size 0 and then END, with no chunk. */
  lemma EmptyUploadPlan()
    ensures Plan([]) == [ControlPub(Start(0)), ControlPub(End)]
  {
    assert Chunks<byte>([]) == [];
  }

  /** One turn of a driver loop at `offset`, having sent `k` chunks: the slice it cuts
      is the plan's next chunk, and publishing it extends the sent prefix of the plan. */
  lemma NextChunk(d: seq<byte>, offset: nat, k: nat)
    requires offset < |d|
    requires k <= |Chunks(d)| && ChunksFrom(d, offset) == Chunks(d)[k..]
    ensures var chunk := Slice(d, offset, offset + CHUNK_SIZE);
      && k < |Chunks(d)|
      && Chunks(d)[k] == chunk
      && ChunksFrom(d, offset + |chunk|) == Chunks(d)[k + 1..]
      && Plan(d)[..k + 1] + [ChunkPub(chunk)] == Plan(d)[..k + 2]
  {
    var chunk := Slice(d, offset, offset + CHUNK_SIZE);
    assert ChunksFrom(d, offset) == [chunk] + ChunksFrom(d, offset + |chunk|);
    assert Chunks(d)[k + 1..] == Chunks(d)[k..][1..];
    var p := Plan(d);
    assert p[k + 1] == ChunkPub(Chunks(d)[k]);
    assert p[..k + 2] == p[..k + 1] + [p[k + 1]];
  }

  /** When a driver loop finds nothing left to send, every chunk is out and END completes the plan. */
  lemma NoChunkLeft(d: seq<byte>, offset: nat, k: nat)
    requires offset >= |d|
    requires k <= |Chunks(d)| && ChunksFrom(d, offset) == Chunks(d)[k..]
    ensures k == |Chunks(d)|
    ensures Plan(d)[..k + 1] + [ControlPub(End)] == Plan(d)
  {
    var p := Plan(d);
    assert p == p[..k + 1] + [p[k + 1]];
  }

  /** The chunk payloads of a publish sequence, in order. */
  function Payloads(out: seq<Publish>): seq<seq<byte>>
  {
    if out == [] then []
    else (if out[0].ChunkPub? then [out[0].bytes] else []) + Payloads(out[1..])
  }

  lemma {:induction false} PayloadsAppend(a: seq<Publish>, b: seq<Publish>)
    ensures Payloads(a + b) == Payloads(a) + Payloads(b)
    decreases |a|
  {
    if a == [] {
      assert a + b == b;
    } else {
      assert (a + b)[1..] == a[1..] + b;
      PayloadsAppend(a[1..], b);
    }
  }

  lemma {:induction false} PayloadsOfChunks(cs: seq<seq<byte>>)
    ensures Payloads(ChunkPubs(cs)) == cs
    decreases |cs|
  {
    if cs != [] {
      assert ChunkPubs(cs)[1..] == ChunkPubs(cs[1..]);
      PayloadsOfChunks(cs[1..]);
    }
  }

  /** The chunk payloads of the complete plan rebuild the image. */
  lemma PlanPayloads(data: seq<byte>)
    ensures Flatten(Payloads(Plan(data))) == data
  {
    var cs := Chunks(data);
    PayloadsAppend([ControlPub(Start(|data|))] + ChunkPubs(cs), [ControlPub(End)]);
    PayloadsAppend([ControlPub(Start(|data|))], ChunkPubs(cs));
    PayloadsOfChunks(cs);
    assert [ControlPub(End)][1..] == [] && [ControlPub(Start(|data|))][1..] == [];
    assert Payloads([ControlPub(End)]) == [];
    assert Payloads([ControlPub(Start(|data|))]) == [];
    assert Payloads(Plan(data)) == cs;
    ChunksShape(data);
  }

  /** END is the plan's last publish and appears nowhere else, so a prefix that holds
      it is the whole plan. */
  lemma EndClosesPlan(data: seq<byte>, out: seq<Publish>)
    requires out <= Plan(data)
    requires ControlPub(End) in out
    ensures out == Plan(data)
  {
    var p := Plan(data);
    var j :| 0 <= j < |out| && out[j] == ControlPub(End);
    assert p[j] == ControlPub(End);
    assert j == |p| - 1;
  }

  /** A transfer cut short anywhere (by a raised exception or an early stop) has
      published a prefix of the plan: START first, chunks in order without gaps. An
      END present means every chunk went out, and the chunks then rebuild the image. */
  lemma PlanPrefix(data: seq<byte>, out: seq<Publish>)
    requires out <= Plan(data)
    requires out != []
    ensures out[0] == ControlPub(Start(|data|))
    ensures forall i :: 1 <= i < |out| && i <= |Chunks(data)| ==> out[i] == ChunkPub(Chunks(data)[i - 1])
    ensures ControlPub(End) in out ==> out == Plan(data) && Flatten(Payloads(out)) == data
  {
    var cs := Chunks(data);
    var p := Plan(data);
    assert p[0] == ControlPub(Start(|data|));
    forall i | 1 <= i < |out| && i <= |cs|
      ensures out[i] == ChunkPub(cs[i - 1])
    {
      assert out[i] == p[i];
    }
    if ControlPub(End) in out {
      EndClosesPlan(data, out);
      PlanPayloads(data);
    }
  }

  // ----- Control payload text -----

  /** The two renderings in the repository: `json.dumps` in the command-line deployer
      (a space after each separator) and a hand-written literal in the upload server. */
  datatype Style = PythonJson | Handwritten

  function StartPrefix(style: Style): string
  {
    match style
    case PythonJson => "{\"type\": \"start\", \"size\": "
    case Handwritten => "{\"type\":\"start\", \"size\":"
  }

  function DigitChar(d: nat): char
    requires d < 10
  {
    ('0' as int + d) as char
  }

  predicate IsDigits(s: string)
  {
    forall i :: 0 <= i < |s| ==> '0' <= s[i] <= '9'
  }

  /** Decimal text of a natural number, without leading zeros. */
  function Decimal(n: nat): (r: string)
    ensures |r| > 0 && IsDigits(r)
  {
    if n < 10 then [DigitChar(n)] else Decimal(n / 10) + [DigitChar(n % 10)]
  }

  /** Value of a string of decimal digits. */
  function DigitsValue(s: string): nat
    requires IsDigits(s)
  {
    if s == [] then 0 else DigitsValue(s[..|s| - 1]) * 10 + (s[|s| - 1] as int - '0' as int)
  }

  lemma {:induction false} DecimalValue(n: nat)
    ensures DigitsValue(Decimal(n)) == n
  {
    if n >= 10 {
      var s := Decimal(n);
      assert s[..|s| - 1] == Decimal(n / 10);
      DecimalValue(n / 10);
    }
  }

  /** Where the first letter of the message kind sits in a rendering. */
  function KindAt(style: Style): nat
  {
    if style == PythonJson then 10 else 9
  }

  /** The first letter of a message kind: "start", "end" or "abort". */
  function KindLetter(m: Control): char
  {
    match m
    case Start(_) => 's'
    case End => 'e'
    case Abort => 'a'
  }

  lemma PrefixShape(style: Style)
    ensures |StartPrefix(style)| > KindAt(style)
    ensures StartPrefix(style)[0] == '{' && StartPrefix(style)[KindAt(style)] == 's'
  {
  }

  /** The START payload: the kind, then the size in decimal as the last field. */
  function RenderStart(style: Style, n: nat): (r: string)
    ensures var pre := StartPrefix(style);
      && |r| > |pre| + 1 && r[..|pre|] == pre && r[|r| - 1] == '}'
      && IsDigits(r[|pre|..|r| - 1]) && DigitsValue(r[|pre|..|r| - 1]) == n
  {
    var pre := StartPrefix(style);
    var digits := Decimal(n);
    var r := pre + digits + "}";
    assert r[..|pre|] == pre && r[|pre|..|r| - 1] == digits;
    DecimalValue(n);
    r
  }

  function RenderEnd(style: Style): (r: string)
    ensures |r| > KindAt(style) && r[0] == '{' && r[|r| - 1] == '}' && r[KindAt(style)] == 'e'
  {
    if style == PythonJson then "{\"type\": \"end\"}" else "{\"type\":\"end\"}"
  }

  function RenderAbort(style: Style): (r: string)
    ensures |r| > KindAt(style) && r[0] == '{' && r[|r| - 1] == '}' && r[KindAt(style)] == 'a'
  {
    if style == PythonJson then "{\"type\": \"abort\"}" else "{\"type\":\"abort\"}"
  }

  /** The payload text a host publishes for a control message: a JSON object whose
      `type` names the kind, and whose START form ends in the size in decimal. */
  function Render(style: Style, m: Control): (r: string)
    ensures |r| > KindAt(style) && r[0] == '{' && r[|r| - 1] == '}'
    ensures r[KindAt(style)] == KindLetter(m)
    ensures m.Start? ==>
      var pre := StartPrefix(style);
      && |r| > |pre| + 1 && r[..|pre|] == pre
      && IsDigits(r[|pre|..|r| - 1]) && DigitsValue(r[|pre|..|r| - 1]) == m.size
  {
    match m
    case Start(n) =>
      var r := RenderStart(style, n);
      var pre := StartPrefix(style);
      PrefixShape(style);
      assert r[KindAt(style)] == r[..|pre|][KindAt(style)] && r[0] == r[..|pre|][0];
      r
    case End => RenderEnd(style)
    case Abort => RenderAbort(style)
  }

  /** Reads back a control payload of the given rendering; `None` for any other text. */
  function Decode(style: Style, payload: string): Option<Control>
  {
    var pre := StartPrefix(style);
    if payload == Render(style, End) then Some(End)
    else if payload == Render(style, Abort) then Some(Abort)
    else if |payload| > |pre| + 1 && payload[..|pre|] == pre && payload[|payload| - 1] == '}'
      && IsDigits(payload[|pre|..|payload| - 1])
    then Some(Start(DigitsValue(payload[|pre|..|payload| - 1])))
    else None
  }

  /** Every control payload either host publishes reads back as the message it encodes;
      in particular START carries the image size. */
  lemma DecodeRender(style: Style, m: Control)
    ensures Decode(style, Render(style, m)) == Some(m)
  {
    if m.Start? {
      var pre := StartPrefix(style);
      var digits := Decimal(m.size);
      var p := Render(style, m);
      assert p == pre + digits + "}";
      assert p[..|pre|] == pre;
      assert p[|pre|..|p| - 1] == digits;
      assert p[|pre|] != '}';
      // The message kind is spelled at this index in every rendering.
      var k := if style == PythonJson then 10 else 9;
      assert p[k] == pre[k] == 's';
      assert Render(style, End)[k] == 'e';
      assert Render(style, Abort)[k] == 'a';
      DecimalValue(m.size);
    }
  }
}
