/** The upload server's `upload_file` handler: validate the uploaded part, then publish
    START, every chunk and END on one connection; on an exception flash an error and
    try to publish ABORT on a fresh connection. */
module Upload {
  import opened Options
  import opened Text
  import opened Chunking
  import opened Wire

  /** The `firmware` part of the multipart request. */
  datatype FilePart = FilePart(filename: string, content: seq<byte>)

  /** The message flashed to the user. */
  datatype Notice =
    | NoFilePart                            // "No file part in the request."
    | NoFileSelected                        // "No file selected."
    | InvalidType                           // "Invalid file type. Please upload a .bin file."
    | Uploaded(filename: string, size: nat) // "Successfully uploaded {filename} ({size} bytes). ..."
    | TransferError                         // "An error occurred: {e}"

  /** The flash category the page styles the notice with. */
  function Category(n: Notice): (c: string)
    ensures c == "success" <==> n.Uploaded?
    ensures !n.Uploaded? ==> c == "error"
  {
    if n.Uploaded? then "success" else "error"
  }

  /** A part the handler goes on to transfer: a non-empty name ending in ".bin". */
  predicate Accepted(part: Option<FilePart>)
  {
    part.Some? && part.value.filename != "" && EndsWith(part.value.filename, ".bin")
  }

  /** One transport call. `fault == Some(k)` means the transport raises once `k`
      publishes have gone out (`k == 0`: the connection itself fails). */
  method TryPublish(sent: seq<Publish>, fault: Option<nat>, p: Publish)
    returns (sent': seq<Publish>, raised: bool)
    ensures raised <==> fault == Some(|sent|)
    ensures sent' == if raised then sent else sent + [p]
  {
    raised := fault == Some(|sent|);
    sent' := if raised then sent else sent + [p];
  }

  /** The chunk loop: from the first chunk, publish chunks until none is left or the
      transport raises; `k` counts the chunk publishes attempted. */
  method SendChunks(data: seq<byte>, fault: Option<nat>, start: seq<Publish>)
    returns (sent: seq<Publish>, raised: bool, k: nat)
    requires start == Plan(data)[..1]
    requires fault.Some? ==> fault.value > 0
    ensures k <= |Chunks(data)|
    ensures sent == Plan(data)[..if raised then k else k + 1]
    ensures raised ==> fault == Some(k)
    ensures !raised ==> k == |Chunks(data)| && (fault.Some? ==> fault.value > k)
  {
    ghost var plan := Plan(data);
    assert |plan| == |Chunks(data)| + 2;
    sent, raised, k := start, false, 0;
    var offset := 0;
    while offset < |data| && !raised
      invariant offset <= |data|
      invariant k <= |Chunks(data)| && |plan| == |Chunks(data)| + 2
      invariant ChunksFrom(data, offset) == Chunks(data)[k..]
      invariant sent == plan[..if raised then k else k + 1]
      invariant raised ==> fault == Some(k)
      invariant !raised && fault.Some? ==> fault.value > k
      decreases |data| - offset
    {
      var chunk := Slice(data, offset, offset + CHUNK_SIZE);
      SliceAdvances(data, offset);
      NextChunk(data, offset, k);
      sent, raised := TryPublish(sent, fault, ChunkPub(chunk));
      offset := offset + |chunk|;
      k := k + 1;
    }
    if !raised {
      NoChunkLeft(data, offset, k);
    }
  }

  /** The publishing part of the handler, on one connection: START, the chunk loop,
      END. It stops at the first transport call that raises. */
  method Transfer(data: seq<byte>, fault: Option<nat>) returns (sent: seq<Publish>, raised: bool)
    ensures !raised ==> sent == Plan(data)
    ensures raised ==> fault.Some? && sent == Plan(data)[..Min(fault.value, |Plan(data)|)]
    ensures fault.None? ==> !raised
    ensures !raised && fault.Some? ==> fault.value >= |Plan(data)|
  {
    ghost var plan := Plan(data);
    assert |plan| == |Chunks(data)| + 2;
    sent, raised := TryPublish([], fault, ControlPub(Start(|data|)));
    if raised {
      return;
    }
    var k;
    sent, raised, k := SendChunks(data, fault, sent);
    if !raised {
      assert plan == plan[..k + 1] + [ControlPub(End)];
      sent, raised := TryPublish(sent, fault, ControlPub(End));
    }
  }

  /** The handler. `fault` says where, if anywhere, the transport raises (a value past
      the last publish stands for a failure while disconnecting); `abortOk` says
      whether the best-effort ABORT on a fresh connection gets out. */
  method UploadFile(part: Option<FilePart>, fault: Option<nat>, abortOk: bool)
    returns (notice: Notice, sent: seq<Publish>)
    ensures part.None? ==> notice == NoFilePart && sent == []
    ensures part.Some? && part.value.filename == "" ==> notice == NoFileSelected && sent == []
    ensures part.Some? && part.value.filename != "" && !EndsWith(part.value.filename, ".bin")
      ==> notice == InvalidType && sent == []
    ensures Accepted(part) && fault.None?
      ==> notice == Uploaded(part.value.filename, |part.value.content|)
          && sent == Plan(part.value.content)
    ensures Accepted(part) && fault.Some?
      ==> notice == TransferError
          && sent == Plan(part.value.content)[..Min(fault.value, |Plan(part.value.content)|)]
                     + (if abortOk then [ControlPub(Abort)] else [])
    // the page shows a success notice exactly for an accepted file with no fault
    ensures Category(notice) == "success" <==> Accepted(part) && fault.None?
    ensures Category(notice) == "error" <==> !(Accepted(part) && fault.None?)
  {
    if part.None? {
      return NoFilePart, [];
    }
    var file := part.value;
    if file.filename == "" {
      return NoFileSelected, [];
    }
    if !EndsWith(file.filename, ".bin") {
      return InvalidType, [];
    }

    var raised;
    sent, raised := Transfer(file.content, fault);
    if !raised && fault.Some? {
      // Every publish went out; the failure is in loop_stop or disconnect.
      raised := true;
    }

    if raised {
      if abortOk {
        sent := sent + [ControlPub(Abort)];
      }
      notice := TransferError;
    } else {
      notice := Uploaded(file.filename, |file.content|);
    }
  }
}
