# Over-the-air firmware update over MQTT: a Dafny model

The repository updates an ESP32 over MQTT. Two host drivers send the update, and a
handler on the device applies it:

- the command-line deployer `deploy_firmware.py`;
- the Flask upload server `webserver/server.py`;
- the device's handler `updateCode` in `src/update_code.cpp`.

Both drivers follow the same protocol. They publish a `start` control message that
carries the image size, then the raw image in 8192-byte chunks on the firmware
topic, then an `end` control message. The upload server publishes an `abort` when
something raises. The device writes the chunks into its update partition and
publishes human-readable lines on a log topic. The deployer reads those lines to
decide whether the update succeeded.

This project models these three parts and proves properties of them. The modules:

| module | file | models |
|---|---|---|
| `Text` | text.dfy | Python's substring test `in`, ASCII `str.lower()` and `str.endswith` |
| `Chunking` | chunking.dfy | the clamped slice `data[offset:offset + CHUNK_SIZE]` and the chunk loop both drivers use |
| `Wire` | wire.dfy | the control messages and publishes, the complete publish plan of a transfer, and the exact text of the control payloads |
| `Monitor` | monitor.dfy | the deployer's `on_message` callback: line classification, status and completion event |
| `Deploy` | deploy.dfy | `deploy_firmware` together with the wait, timeout and exit code of the main block |
| `Upload` | upload.dfy | the server's `upload_file` handler: validation, START/chunks/END, the abort on error |
| `Device` | device.dfy | `updateCode`: a state machine over `ota_in_progress`, `total_size` and `bytes_received` |
| `EndToEnd` | end_to_end.dfy | what happens when the host drivers run against this device |

## How the model is built

**Concurrency.** The deployer has a main thread and an MQTT callback thread. They are
modelled as a system of steps, and the steps may interleave arbitrarily:

- `Drive(ok)` is one step of the main thread. A publish made in that step raises
  when `ok` is false.
- `Deliver(m)` is one run of the callback on a received message.
- `Expire` is the 600-second wait running out.

When the wait runs out, `wait` has returned False but "timeout" is not yet written.
The model keeps this as an `Expired` phase, and a callback may run in it. Whatever
status that callback sets is then overwritten by "timeout" (`Deploy.LateSuccessOverwritten`). Callbacks keep
running after that, until `loop_stop`. The model allows this with a `Draining` phase
before `Stopped`, so a late log line can still overwrite a "timeout" status.

**Faults on the upload server.** The server's transport failures are a parameter.
`fault == Some(k)` means the transport raises once `k` publishes have gone out.
`abortOk` says whether the best-effort ABORT gets out.

**The device.** The device's calls into the Update library are modelled in two ways:

- the results of `Update.begin` and `Update.end` are inputs, given by `Oracle`;
- the writes, the log lines and the restart are recorded as `Effect`s.

**Integer width.** `total_size` and `bytes_received` are the firmware's 32-bit `int`.
`bytes_received += length` wraps modulo 2^32, which `ToInt32` models.

**Two details of the deployer's callback.** The model keeps both exactly as the
callback is written:

- The callback has no first-writer-wins guard: every resolving line overwrites the
  status, whatever an earlier line set. `Monitor.LastResolutionWins` and
  `Monitor.SuccessThenErrorEndsFailed` state this.
- Only part of the classification ignores case. `"OTA Success"` is tested
  case-sensitively against the raw line. `"failed"` and `"error"` are tested against
  the line after `.lower()`.

**A cross-file consequence.** The device reports success with the line
`Update successful! Rebooting...`, which does not contain `OTA Success`. Against
this firmware, the deployer therefore never records success and never exits 0
(`EndToEnd.DeployerNeverSucceeds`). The deployer may be meant for firmware that
prints the token, so this is stated as a property and not claimed as a defect.

## Model

| member | source | states |
|---|---|---|
| Text.Contains | deploy_firmware.py:43 | The substring test is true exactly when the needle occurs at some index of the line (the reference definition `Occurs`). |
| Text.Lower | deploy_firmware.py:46 | Lower-casing keeps the length, and maps each character through ASCII lower-casing at the same index. |
| Monitor.Classify | deploy_firmware.py:43-48 | A line reads as success exactly when it contains "OTA Success", case-sensitively. It reads as failure exactly when it does not, and its lower-cased form contains "failed" or "error". |
| Monitor.OnMessage | deploy_firmware.py:37-48 | On the log topic, a success line sets status "success" and the event, and a failure line sets "failed" and the event. Any other line, and any message on another topic, leaves status and event as they were. |
| Monitor.EventStaysSet | deploy_firmware.py:42-48 | No sequence of callbacks ever clears the completion event once it is set. |
| Monitor.EventMeansResolved | deploy_firmware.py:42-48 | The callback never sets the event without moving the status away from "in_progress", and never moves it back. |
| Monitor.LastResolutionWins | deploy_firmware.py:42-48 | After any sequence of messages, the status is the one named by the last resolving line, and the event is set. |
| Monitor.NoResolutionNoChange | deploy_firmware.py:42-48 | Messages none of which resolves leave status and event unchanged. |
| Monitor.SuccessThenErrorEndsFailed | deploy_firmware.py:43-48 | "OTA Success" followed by an "error" line ends in "failed": a later line overwrites an earlier outcome. |
| Monitor.SuccessCheckedFirst | deploy_firmware.py:43-46 | A line that holds both the success token and "error" counts as success. |
| Chunking.Slice | deploy_firmware.py:79 | A Python slice with non-negative bounds has length `min(hi, len) - lo` (0 when reversed or past the end) and holds the elements from `lo` on. |
| Chunking.ChunksFrom | webserver/server.py:141-147 | Every slice the chunk loop emits is non-empty and at most 8192 bytes long. |
| Chunking.ChunksShape | webserver/server.py:141-147 | The loop emits `ceil(S / 8192)` slices. Slice `i` is `data[8192*i : min(8192*i + 8192, S)]`, and together the slices rebuild the image. |
| Chunking.SliceAdvances | webserver/server.py:142-145 | While bytes remain, the slice cut is non-empty, at most 8192 bytes, and does not pass the end, so `offset` advances and stays in range. |
| Chunking.TwentyThousandBytes | deploy_firmware.py:23 | A 20000-byte image goes out as slices of 8192, 8192 and 3616 bytes. |
| Wire.NextChunk | deploy_firmware.py:77-82 | While bytes remain, a loop turn cuts exactly the plan's next chunk, and publishing it extends the published prefix of the plan by one. |
| Wire.NoChunkLeft | deploy_firmware.py:78-86 | When the loop finds nothing left, every chunk has been published, and END completes the plan. |
| Wire.PlanPrefix | webserver/server.py:134-151 | A transfer cut short anywhere has published START first, then the chunks in order without gaps. If END is among them, the whole plan went out and the chunks rebuild the image. |
| Wire.EmptyUploadPlan | webserver/server.py:126-151 | A zero-byte file publishes START with size 0 and END, and no chunk. |
| Wire.Render | deploy_firmware.py:73-85 | The control payload text is a JSON object whose `type` value names the kind. The START text is a fixed prefix (`{"type": "start", "size": ` from the deployer, `{"type":"start", "size":` from the server) followed by the size in decimal digits and a closing brace. |
| Wire.DecodeRender | webserver/server.py:135-166 | Each control payload either driver writes (`json.dumps` with spaces, or the server's hand-written literal) reads back as the message it encodes. START reads back with the exact size. |
| Deploy.Next | deploy_firmware.py:57-131 | One step of the deployer's two threads. It publishes at most one message and never takes one back. Only a successful main-thread step in the file or send phase publishes. It never clears the event, and it changes nothing once the callbacks are stopped. "timeout" is written only by the main thread, after the wait ran out. |
| Deploy.ChunkStepInv | deploy_firmware.py:78-82 | A loop turn with bytes left and the event unset publishes exactly the next planned chunk, so the published messages stay a prefix of the plan. |
| Deploy.CloseStepInv | deploy_firmware.py:84-87 | Leaving the loop keeps the published messages a prefix of the plan. END is published only when every chunk is out. |
| Deploy.NextInv | deploy_firmware.py:57-131 | Every step keeps the run invariant: the published messages are a prefix of the plan, and until the function returns the event is set exactly when the status has left "in_progress". |
| Deploy.ExitCode | deploy_firmware.py:126-131 | Once the callbacks are stopped, the process exits 0 exactly when the status is "success", and 1 otherwise. |
| Deploy.PublishesFollowPlan | deploy_firmware.py:57-92 | Under any interleaving of log lines, publish failures and timeouts, the deployer publishes a prefix of START, the chunks in order, END. It publishes nothing when the file is missing or unreadable. |
| Deploy.MissingFile | deploy_firmware.py:60-64 | A missing file sets status "file_not_found" and the event, and publishes nothing. |
| Deploy.EventStaysSetInRun | deploy_firmware.py:25-48 | Once the event is set, no step of the system clears it. |
| Deploy.QuietAfterEvent | deploy_firmware.py:78-87 | After the event is set, no chunk and no END is published. The only publish still possible is the START of a transfer not yet begun. |
| Deploy.NothingAfterReturn | deploy_firmware.py:115-131 | Once `deploy_firmware` has returned, nothing more is published. |
| Deploy.EndOnlyIfInProgress | deploy_firmware.py:84-87 | At the loop exit, END is published exactly when the status is still "in_progress", and then the function returns. |
| Deploy.WaitExpires | deploy_firmware.py:119-121 | A wait that runs out with the event unset returns False, and the main thread's next step writes "timeout" over whatever the status is by then, in two separate steps. |
| Deploy.ResolvedWaitKeepsStatus | deploy_firmware.py:119-131 | A wait whose event is already set returns True. The wait never expires and "timeout" is never written, so the status the callback set (for example "failed") survives, and the exit code is 0 exactly when that status is "success". |
| Deploy.LateSuccessOverwritten | deploy_firmware.py:119-131 | A success line arriving after the wait returned False but before "timeout" is written sets the event, yet the status ends as "timeout" and the exit code is 1. |
| Deploy.FullTransfer | deploy_firmware.py:66-87 | With no log line and no failing publish, the deployer publishes exactly START(size), every chunk and END, and then waits. |
| Deploy.SilentDeviceTimesOut | deploy_firmware.py:115-131 | If the device never answers, the whole plan goes out, the wait times out, and the exit code is 1. |
| Upload.Category | webserver/server.py:115-172 | Only a completed upload is flashed in the "success" category; every other outcome is an "error". |
| Upload.SendChunks | webserver/server.py:141-147 | The chunk loop publishes the plan's chunks in order after START. It stops at the first publish that raises, and otherwise has published every chunk. |
| Upload.Transfer | webserver/server.py:134-151 | Without a fault the handler publishes exactly START(size), every chunk, END. A fault after `k` publishes leaves exactly the first `k` publishes of that plan. |
| Upload.UploadFile | webserver/server.py:111-174 | A request without the part, with an empty name, or with a name not ending in ".bin" publishes nothing and flashes its own error. An accepted file with no fault publishes the whole plan and reports its name and size. Any fault leaves the prefix of the plan sent before it, then ABORT if that publish gets out, and flashes an error. The notice is in the "success" category exactly for an accepted file with no fault, and in "error" otherwise. |
| Device.Handle | src/update_code.cpp:6-64 | Covers every branch of the handler:<br>• START while busy is refused with its log line;<br>• START while idle overwrites `total_size`, and begins only for a non-zero size that `Update.begin` accepts, with `bytes_received` reset;<br>• data is dropped while idle and written and counted (with 32-bit wrap-around) while in progress;<br>• END and ABORT do nothing while idle;<br>• a failed END or an ABORT returns to idle, and a verified END logs success and restarts;<br>• other topics and types change nothing.<br>Each branch states its effects exactly: the bytes handed to `Update.write`, the calls to `begin`, `end` and `abort`, the log line and the restart. |
| Device.LineText | src/update_code.cpp:14-49 | Every line the handler publishes is one of the device's fixed lines. The busy, size, space and verification lines are its error lines, and the started, success and aborted lines are its report lines. |
| Device.CountsOneChunk | src/update_code.cpp:55-62 | A data message during a transfer, even an empty one, advances `bytes_received` by its length with 32-bit wrap-around, and changes no other field. |
| Device.CountsStep | src/update_code.cpp:12-62 | During a transfer, any message other than END or ABORT advances the count by the data it carries and writes exactly that data. |
| Device.ToInt32Add | src/update_code.cpp:60 | Adding lengths one at a time into a 32-bit `int` gives the same value as wrapping their total once. |
| Device.CountedWraps | src/update_code.cpp:60 | Storing each chunk's sum back into the 32-bit counter in turn gives the same value as wrapping the total length once. |
| Device.TracksChunks | src/update_code.cpp:55-62 | During a transfer with no END or ABORT, each chunk is counted in turn into the 32-bit counter and written in order, and nothing else changes. |
| Device.CountsChunks | src/update_code.cpp:55-62 | During a transfer, `bytes_received` grows by the total chunk length (wrapping at 32 bits), and the chunks are written in order. |
| Device.ReceivedSinceStart | src/update_code.cpp:12-62 | After an accepted START and no END or ABORT since, the device is in progress with the announced size. `bytes_received` is the (wrapped) total length of the chunks since, and exactly those bytes were written. |
| EndToEnd.Receive | src/update_code.cpp:6-12 | A host publish reaches the handler as the message it encodes. The control text either host renders decodes to the same kind and size, and a chunk arrives as its bytes. |
| EndToEnd.PlanReceived | webserver/server.py:134-151 | Every publish of a transfer's plan can be received, and the handler receives the plan as START with the size, each chunk in order, then END. |
| EndToEnd.ProcessAppend | src/update_code.cpp:6-64 | The handler's globals carry over between calls. Handling `a + b` is handling `a`, then `b` from the resulting state, with the effects concatenated. |
| EndToEnd.BodyApplied | src/update_code.cpp:12-62 | From idle, START and every chunk of a non-empty image leave the device in progress with the announced size and every byte counted, and exactly the image written. |
| EndToEnd.ThenVerifiedEnd | src/update_code.cpp:32-39 | After any messages that leave a transfer open, a verified END keeps the count and the written bytes, and ends with `Update.end`, the success line and a restart. |
| EndToEnd.ErrorLinesFail | src/update_code.cpp:12-44 | Each of the device's four error lines reads as failure to the deployer. |
| EndToEnd.ReportLinesQuiet | src/update_code.cpp:23-49 | The device's started, success, aborted and ready lines all leave the deployer's status and event unchanged. |
| EndToEnd.SuccessLineUnrecognised | src/update_code.cpp:35-39 | The device's success line does not resolve the deployer's wait. |
| EndToEnd.ReadyLineQuiet | src/mqtt_tasks.cpp:24-26 | The ready line, with the firmware version printed as "3.00", resolves nothing. |
| EndToEnd.DeviceNeverReportsSuccess | deploy_firmware.py:43-45 | No line this device publishes reads as success. |
| EndToEnd.DeployerNeverSucceeds | deploy_firmware.py:119-131 | Whatever the interleaving, if the log topic carries only this device's lines, the status never becomes "success" and the exit code is 1. |
| EndToEnd.DeviceAppliesUpload | src/update_code.cpp:23-39 | An idle device that receives every publish of a non-empty image's plan, rendered by either host, with `begin` and `end` succeeding, writes exactly the image, counts every byte, logs success and restarts. |
| EndToEnd.DeviceRefusesEmptyUpload | src/update_code.cpp:17-21 | Whichever host renders it, the plan of the zero-byte upload the server reports as a success is refused: the device logs the size error (which reads as failure), stays idle and ignores the END. |

## Left out

- Connection setup is not modelled: MQTT connect, TLS, credentials, the retry loop, and the `exit(1)` after five failed attempts. These are network I/O with no state that the transfer logic depends on.
- `time.sleep`, `delay` and the real 600-second clock are left out. Time is an `Expire` step.
- Thread scheduling is modelled as arbitrary interleaving of steps. Memory visibility between threads is not modelled.
- The outer `except` of the deployer's main block is left out. It only prints and exits 1.
- The Flask application, its routing, the HTML page and the redirects are left out. Only the flashed outcome and its category are modelled.
- The exception text inside the error flash is left out.
- Printing and `Serial` output are left out.
- `ESP.restart()` is recorded as an effect. The re-initialisation of the device's globals after the restart is not modelled.
- `Update.begin`, `Update.write`, `Update.end` and `Update.abort` are effects plus oracle results. Flash contents, partition sizes and hash checking are outside the model.
- ArduinoJson parsing is abstracted into `Doc`: the `type` string and `size` already converted to `int`.
- A control message without a `type` is excluded by `WellFormed`. The handler passes a null pointer to `strcmp`, which has undefined behaviour.
- A START size of 2^31 or more is excluded by the `Receive` function that routes host publishes to the device. The JSON library's conversion of such a number to `int` is not modelled.
- `strcmp` on topics is modelled as topic equality. Embedded NUL bytes in topics or payloads are not modelled.
- Text.Lower: lower-cases the ASCII letters only. Python's `str.lower()` also maps non-ASCII letters. None of the tokens tested contains any.
- Decoding log payloads as UTF-8 is not modelled, and neither is the `UnicodeDecodeError` a malformed payload would raise in the callback. A log line is a string.
- Upload.UploadFile: a `fault` value past the last publish stands for a failure in `loop_stop` or `disconnect`. Failures in `file.read()` and `get_mqtt_client()` are the same as `fault == Some(0)`.
- The device firmware's `main.cpp`, its task set-up and `mqtt_callback` dispatch are not part of this model.
- The firmware's `CHUNK_SIZE` of 32768 in `config.h` only sizes the MQTT buffer, and is not modelled.
