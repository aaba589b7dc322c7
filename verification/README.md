# AI voice assistant: a Dafny model of its text and state logic

The assistant records speech while a hotkey session is active. It transcribes the growing audio buffer about once a second and shows the newest transcript in a floating window. When the session stops, it sends the final transcript to a chat model. The answer is then pasted into the focused application.

This project models the sequential logic inside that glue and proves properties of it:

- `pytext.dfy` (module `PyText`): the Python `str` operations the code uses. These are `isspace`, `lower`, `lstrip`, `rstrip`, `startswith`, `endswith`, `in` and `split("\n", 1)`.
- `llm.dfy` (module `Llm`, for `llm_module.py`):
  - the append-only conversation history;
  - `clean_code_block`, including its `IndexError` case;
  - `get_response`, with the chat client passed in as a function from request to reply.
- `assistant.dfy` (module `Assistant`, for `main.py`):
  - `add_buffer`, with the clipboard passed in as a value;
  - the cancel and length guard of `llm_answer`, and the order of its calls;
  - the reset to a single system message when memory is off.
- `stt_module.py` is modelled in `stt.dfy` (module `Stt`):
  - the audio-instance bookkeeping;
  - the recording flags;
  - `transcribe_and_queue`, with the speech engine passed in as a function from samples to segment texts;
  - the capture loop of `start_recording`, as a fold over the events it observes;
  - its `finally` block;
  - the queue drain and time-limit check of the UI timer;
  - start and stop of a session.
- `common.dfy` (module `Common`): `Option` and `Result`.

The capture loop runs on its own thread in the program. The model takes it as a sequential fold over four kinds of event, in the order they happen between two tests of `continue_recording`:

- `Read(chunk, at)`: the stream was active, and one chunk was read at clock time `at`.
- `Inactive`: the stream was inactive, and the loop slept.
- `Tick`: the 100 ms UI timer ran `update_transcription`.
- `StopRequest`: the first two statements of `stop_record_and_transcription` ran.

The fold stops in one of two cases. Either the flag is found lowered, or the events run out. Running out stands for an exception from the stream itself (`is_active` or `read`), which is raised before anything of that iteration is stored. The `finally` block then runs as `Finish`. Times are real numbers of seconds. The speech engine is a total function; its failures are listed under "Left out".

Some behaviour of the source is modelled as written, even where it looks unintended:

- `add_buffer` returns the left-trimmed transcript when there is no keyword, not the transcript unchanged as its docstring says (`AddBufferWithoutKeyword`).
- The keyword test has no word boundary (`AddBufferNoWordBoundary`).
- An answer that opens with a fence but has no newline raises inside `clean_code_block`. `get_response` catches that error like a network failure (`MalformedFenceDegradesToApology`).
- When the stream cannot be opened, `start_recording` returns with `continue_recording` still raised (`StartRecording`).
- `final_transcription_text` is never cleared. A session that reads no audio leaves the previous session's transcript in place, and `stop_listen` would dispatch it again (`SilentSessionKeepsPreviousTranscript`).

`str.lower()` is modelled on ASCII letters only. For the two words the code looks for, "buffer" and "cancel", this decides the same as Python's full lowering. Only two non-ASCII characters lower to ASCII letters: the Kelvin sign becomes `k`, and U+0130 becomes `i` plus a combining dot. Neither letter occurs in those words.

## Model

| member | source | states |
|---|---|---|
| PyText.LStrip | main.py:213 | the result is a suffix of the input; what was dropped is all whitespace; the result does not start with whitespace |
| PyText.RStrip | llm_module.py:33 | the result is a prefix of the input; what was dropped is all whitespace; the result does not end with whitespace |
| PyText.LStripUnique | main.py:213 | a whitespace run followed by text that does not start with whitespace left-strips to exactly that text |
| PyText.RStripUnique | llm_module.py:33 | text that does not end with whitespace, followed by a whitespace run, right-strips to exactly that text |
| PyText.LStripIdempotent | main.py:221 | a second `lstrip` removes nothing more |
| PyText.RStripIdempotent | llm_module.py:33 | a second `rstrip` removes nothing more |
| PyText.IndexOf | llm_module.py:26 | finds the first occurrence of a character, and reports none exactly when the character is absent |
| PyText.IndexOfFirst | llm_module.py:26 | a position holding the character, with none before it, is what the search finds |
| PyText.LStripShortens | main.py:213 | `lstrip` shortens a string exactly when it opens with whitespace |
| PyText.IsSpace | main.py:213 | definition of `str.isspace()`: the 29 code points (tab through carriage return, the four separators 0x1C-0x1F, space, 0x85, no-break space, ogham space, the 0x2000-0x200A spaces, line and paragraph separators, narrow no-break, medium mathematical and ideographic space) that `lstrip()` and `rstrip()` remove |
| PyText.Lower | main.py:215 | `lower()` keeps the length of the string |
| PyText.LowerFoldsCapitals | main.py:241 | after `lower()` no ASCII capital is left; each capital moves 32 code points down to its small letter; every other character is unchanged |
| PyText.StartsWith | llm_module.py:24 | definition of `startswith`: the string's first characters are the prefix |
| PyText.EndsWith | llm_module.py:29 | definition of `endswith`: the string's last characters are the suffix |
| PyText.Contains | main.py:241 | definition of `in` on strings: the string starts with `sub`, or its tail contains it |
| PyText.ContainsInfix | main.py:241 | `sub in s` holds wherever `sub` occurs in `s` |
| PyText.ContainsHasPosition | main.py:241 | `sub in s` only when `sub` occurs at some position of `s` |
| Llm.AddMessage | llm_module.py:18-20 | exactly one `{role, content}` entry is appended at the end; all earlier entries are unchanged |
| Llm.CloseAndTrim | llm_module.py:28-33 | the result is a prefix of the text. What is cut off is whitespace, preceded by nothing else, or followed by the three backticks when the text ends with them. The result does not end in whitespace |
| Llm.CleanCodeBlock | llm_module.py:22-33 | fails exactly when the text opens with three backticks and has no newline; otherwise the result is no longer than the input and does not end in whitespace, and unfenced text keeps a prefix of itself |
| Llm.CleanDropsHeaderLine | llm_module.py:24-26 | an opening fence loses everything up to and including the first newline: the result is a prefix of the text after it |
| Llm.CleanFailsWithoutNewline | llm_module.py:26 | an opening fence with no newline is the `IndexError` case |
| Llm.CleanPlainText | llm_module.py:22-33 | text that neither opens nor closes with a fence maps to its right-trimmed form |
| Llm.CleanDropsClosingFence | llm_module.py:29-30 | the closing-fence test runs on the text left after the header strip, and removes exactly three characters before the trim |
| Llm.CleanFencedBlock | llm_module.py:22-33 | "```lang\ncode\n```" cleans to exactly `code` when the code does not end in whitespace |
| Llm.CleanRemovesOneFenceOnly | llm_module.py:29-30 | only one closing fence is removed: "x``````" becomes "x```" |
| Llm.ChatRequest | llm_module.py:39-45 | the request carries the whole history given to it |
| Llm.GetResponse | llm_module.py:36-53 | the user turn is appended first and is what the client receives. A completed call whose answer cleans adds one assistant turn holding the cleaned answer, and returns that answer. Any failure returns the apology and adds no assistant turn |
| Llm.GetResponseAppendOnly | llm_module.py:37-48 | an exchange keeps every earlier history entry in place and adds the user turn right after them |
| Llm.MalformedFenceDegradesToApology | llm_module.py:36-53 | a completed reply that opens with a fence and has no newline still yields the apology, with only the user turn recorded |
| Assistant.SetInitialConversationHistory | main.py:130-136 | the new history is exactly one system message carrying the prompt |
| Assistant.OpensWithKeyword | main.py:215 | definition of the test: the first six characters, lowered, are "buffer" |
| Assistant.AfterKeyword | main.py:221 | the text after the six keyword characters, with the whitespace after them dropped: a suffix of the input that does not start with whitespace |
| Assistant.AddBufferKeywordCase | main.py:213-224 | whitespace, the keyword in any case, whitespace and a query become the clipboard, a blank line and the query |
| Assistant.AddBuffer | main.py:206-229 | definition of add_buffer: left-trim, then the clipboard, a blank line and AfterKeyword when the rest opens with the keyword; the result is described by AddBufferShape |
| Assistant.AddBufferShape | main.py:206-229 | the leading whitespace of the transcript is always dropped. If the rest opens with "buffer" in any case, the result is the clipboard verbatim, a blank line, then a suffix of the transcript: the transcript reads as whitespace, the six keyword characters, whitespace, and that suffix, which does not start with whitespace. Otherwise the result is a suffix of the transcript, preceded only by whitespace in it, and does not start with whitespace |
| Assistant.AddBufferExample | main.py:215-224 | "buffer, explain this error" with clipboard "NullPointerException at line 5" becomes "NullPointerException at line 5\n\n, explain this error" |
| Assistant.AddBufferBareKeyword | main.py:215-224 | the keyword in any case directly followed by a query that does not start with whitespace becomes the clipboard, a blank line and that query |
| Assistant.AddBufferNoWordBoundary | main.py:215-221 | "Buffering the logs" also triggers the clipboard, and leaves "ing the logs" |
| Assistant.AddBufferWithoutKeyword | main.py:213-229 | without the keyword the result is the left-trimmed transcript, which is shorter than the input exactly when the input starts with whitespace |
| Assistant.Decide | main.py:241-261 | cancelled exactly when "cancel" occurs in the lowered transcript. Otherwise the transcript is too short exactly when it has fewer than 10 characters. Otherwise the text sent is `add_buffer` of the transcript |
| Assistant.CancelAnywhere | main.py:241-242 | "cancel" in any mix of case, anywhere in the transcript, cancels whatever the length |
| Assistant.CancelledHasWord | main.py:241 | a cancelled transcript holds "cancel", in some case, at some position |
| Assistant.LengthBoundary | main.py:243-261 | a 9-character transcript is not sent; a 10-character one is sent even when 9 of its characters are spaces |
| Assistant.WithoutFirstLetter | main.py:241 | text that never holds the first letter of a word does not contain the word |
| Assistant.StartingHistory | main.py:237-238 | with memory off the exchange starts from the single system message; with memory on, from the kept history |
| Assistant.LlmAnswer | main.py:232-263 | exactly one paste exactly when the query is dispatched. A dispatched query becomes its `add_buffer` form, and the answer of `get_response` lands on the clipboard. Otherwise only the history reset happens |
| Assistant.MemoryOffSendsFreshConversation | main.py:237-246 | with memory off the conversation sent starts with the system prompt and then the shaped query |
| Assistant.MemoryOnAppendsOnly | main.py:237-246 | with memory on every earlier turn is kept in place |
| Assistant.CancelledNeverSent | main.py:241-242 | a cancelled query changes neither the clipboard nor the query, and synthesises no paste |
| Stt.InitializeAudio | stt_module.py:39-42 | an instance exists afterwards; an existing one is kept; one is created only when none exists; created/terminated balance is kept |
| Stt.CloseAudio | stt_module.py:44-48 | no instance afterwards; one is terminated only when one exists; the balance is kept |
| Stt.InitializeAudioIdempotent | stt_module.py:39-42 | initialising twice is initialising once |
| Stt.CloseAudioIdempotent | stt_module.py:44-48 | closing twice is closing once |
| Stt.SetRecordingState | stt_module.py:82-86 | the flag is raised, the start time is now and the elapsed time is zero; nothing else changes |
| Stt.ResetRecordingState | stt_module.py:93-97 | the flag is lowered and both times are zero; nothing else changes |
| Stt.ResetAfterSet | stt_module.py:82-97 | a reset undoes whatever a set did |
| Stt.Concat | stt_module.py:64-73 | the joined text ends with the last segment |
| Stt.ConcatAppend | stt_module.py:72-73 | joining two runs of segments is joining their joins, with no separator |
| Stt.ConcatSplit | stt_module.py:72-73 | every segment occurs verbatim, in order, between the joins of the segments before and after it |
| Stt.TranscribeAndQueue | stt_module.py:57-77 | an empty buffer queues the sentinel, returns "" and keeps the final transcript. Otherwise the joined segments are returned, queued and stored as the final transcript. Nothing else changes |
| Stt.Transcript | stt_module.py:65-73 | definition: the engine's segment texts for the buffer, joined with no separator |
| Stt.Flatten | stt_module.py:207 | the concatenated buffer is empty exactly when every chunk read is empty |
| Stt.FlattenSnoc | stt_module.py:202-207 | the buffer after one more chunk is the buffer before it followed by that chunk's samples |
| Stt.FlattenAppend | stt_module.py:207 | concatenating two runs of chunks is concatenating their buffers |
| Stt.FlattenPrefix | stt_module.py:204-209 | a buffer taken after fewer chunks is a prefix of one taken after more |
| Stt.DrainQueue | stt_module.py:151-156 | the queue ends empty; the label shows the last item, or is unchanged when the queue was empty |
| Stt.UpdateTranscription | stt_module.py:147-156 | the flag is cleared when elapsed time is at least 30.0; the queue is emptied into the label; nothing else changes |
| Stt.DrainShowsNewest | stt_module.py:152-154 | after pushing snapshots, one drain shows only the newest |
| Stt.ReadStep | stt_module.py:199-209 | the chunk is appended and elapsed time becomes now minus the start. A transcription of the whole buffer runs, and the last-transcription time moves to now, exactly when at least 1.0 second has passed since the last one |
| Stt.Step | stt_module.py:197-211 | only a read adds a chunk, at the end, and only a read can start a transcription. An inactive stream changes nothing. A timer tick clears the flag once 30 seconds have elapsed. A stop request clears the flag and sets the stop event. No event touches the audio instance |
| Stt.Loop | stt_module.py:197-211 | the loop takes no more events than there are; it stops early only with the flag lowered; it never takes an event once the flag is lowered; the buffer and the transcriptions only grow |
| Stt.LoopKeepsEveryChunk | stt_module.py:190-202 | the buffer at loop exit is the buffer at entry followed by every chunk read, in read order: none lost, duplicated or reordered |
| Stt.LoopPassesGrow | stt_module.py:204-209 | transcriptions during capture cover a strictly growing, non-empty part of the buffer, and earlier ones are kept |
| Stt.LoopFinalTextFromAudio | stt_module.py:204-209 | the loop changes the final transcript only when the buffer holds samples |
| Stt.AutoStopLikeExplicitStop | stt_module.py:147-150 | once 30 seconds have elapsed, the next UI tick ends the loop as a stop request would: same buffer, same transcriptions, same final transcript |
| Stt.Finish | stt_module.py:214-226 | the audio instance is released and the stop event set. The whole buffer is transcribed exactly once when some chunk was read, and not at all otherwise |
| Stt.StartRecording | stt_module.py:170-226 | when the stream cannot be opened, the instance is closed, nothing is transcribed and the flag stays raised. Otherwise the loop's end leaves the instance released and the stop event set |
| Stt.RecordingTranscribesWholeBuffer | stt_module.py:170-226 | the final buffer is exactly the chunks read; capture-time transcriptions grow; the last transcription covers the whole buffer exactly when a chunk was read; the final transcript is that of the whole buffer when it holds a sample, and the previous one otherwise |
| Stt.StartRecordAndTranscription | stt_module.py:229-234 | the stop event is cleared, an instance exists, the flag is raised and the clock restarted; queue, transcript and label unchanged |
| Stt.StopRecordAndTranscription | stt_module.py:240-247 | the flag is lowered, times are zero, the stop event is set and no instance is left; the balance is kept |
| Stt.StopIdempotent | stt_module.py:240-247 | stopping twice is stopping once |
| Stt.SessionReleasesAudio | stt_module.py:229-247 | a whole session, start to joined stop, terminates every audio instance it created, and none twice |
| Stt.LoopKeepsAudio | stt_module.py:196-211 | the capture loop neither creates nor terminates an audio instance |
| Stt.SilentSessionKeepsPreviousTranscript | stt_module.py:214-222 | a session that reads no chunk leaves the previous final transcript in place |
| Stt.NoReadsNoChunks | stt_module.py:199-202 | events without reads add no chunk |

## Left out

- `gather_system_info` and `create_system_prompt` are left out. They read the operating system, the environment, files and GPU libraries, and only format strings around those values. The system prompt is a parameter.
- The hotkey listener, the Qt window and tray, the border colours, `closeEvent`, `listen`, `stop_listen`, `quit_app`, `signal_handler`, `memory_toggled` and `main` are UI and event plumbing. `memory_toggled` only sets the flag that `LlmAnswer` reads.
- Reading the clipboard (`pyperclip.paste`) and the paste keystrokes are foreign I/O. The clipboard is a value in the application state. The paste keystroke combination is counted, not performed.
- The 0.1 s wait before the paste is left out.
- `int2float` is floating-point scaling in numpy. A sample is the 16-bit PCM value it is derived from.
- The speech engine, the PyAudio stream and the chat-completion HTTP call are foreign libraries, and are function parameters or event kinds.
- A chunk may have any length. In the program, a read of 0 samples raises inside `int2float`, since the maximum of an empty array is undefined. A read of 1 sample becomes a 0-d array after `squeeze`, and `np.concatenate` rejects it. Neither error is modelled. Reads are not assumed to return exactly `SAMPLE_SIZE` (512) samples.
- The stream's `stop_stream`/`close` calls are left out.
- Threads, `join` and the races on `continue_recording` are left out. Events from the UI thread enter the fold only between loop iterations.
- The UI timer keeps running after the loop exits. Those ticks are not part of a session's fold.
- Wall-clock time is a real number with no rounding.
- `Stamps.entry` is the start time only when the stream fails to open. Otherwise it is overwritten before use, as in the source.
- Printing and logging are left out.
- PyText.Lower: lowers ASCII letters only, because the keywords tested are ASCII (see above). Python's full Unicode `lower()` can also change the length of a string, and that is not modelled.
- Exceptions raised by the clipboard or keyboard calls in `llm_answer` are left out. Those calls are not modelled.
- An exception inside `update_transcription`'s drain is also left out, since setting the label cannot fail in the model.
- An exception from `np.concatenate` or the engine inside the loop is not modelled. In the program it comes after the chunk was appended and the elapsed time updated. The loop then ends with that chunk stored and no transcription queued. No event sequence of the model reaches that state: a read whose cadence is due always transcribes (`ReadStep`).
- Stt.Finish: takes the engine as total. In the program, a final pass that raises escapes the `finally` block before `stop_event.set()`. The stop event then stays unset, and the previous final transcript is kept. `Finish` does not model that case.
- Stt.Concat: its own contract states only that the joined text ends with the last segment. Order and the absence of separators are stated by `ConcatAppend` and `ConcatSplit`.
