/**
 * The transcription bookkeeping of the assistant (stt_module.py): the
 * audio-library instance, the recording flags, transcription of the
 * accumulated buffer into the queue, the capture loop, and the UI timer
 * that drains the queue into the label.
 *
 * The capture loop runs on its own thread in the program. Here it is a
 * sequential fold over the events it observes: a chunk read at some wall
 * clock time, an inactive stream, a tick of the UI timer, or a stop request
 * from the hotkey; events are taken in the order they happen between loop
 * iterations. The speech engine is a parameter, a function from the
 * samples of a buffer to the texts of its segments; time is a real number
 * of seconds.
 */
module Stt {
  import opened PyText

  /** One captured sample. The program stores the float that `int2float`
      derives from the 16-bit PCM value; that conversion is a fixed scaling,
      so the PCM value stands for it here. */
  type Sample = int

  /** The samples of one read from the stream. */
  type Chunk = seq<Sample>

  /** The speech engine: the texts of the segments it finds in a buffer. */
  type Engine = seq<Sample> -> seq<string>

  /** What an empty buffer puts on the queue instead of a transcript. */
  const Sentinel := "No audio data to transcribe."

  /** Seconds of recording after which the UI timer stops the loop. */
  const RecordingTimeLimit: real := 30.0

  /** Minimum seconds between two transcriptions during capture. */
  const Cadence: real := 1.0

  // ---------------------------------------------------------------------
  // initialize_audio / close_audio

  /** The module's PyAudio instance: whether one exists, and how many were
      created and terminated so far. */
  datatype Audio = Audio(live: bool, created: nat, terminated: nat)

  /** Every instance ever created is terminated, except the live one. */
  predicate Balanced(a: Audio) {
    a.created == a.terminated + (if a.live then 1 else 0)
  }

  /** `initialize_audio`: creates an instance only when there is none. */
  function InitializeAudio(a: Audio): (r: Audio)
    ensures r.live
    ensures a.live ==> r == a
    ensures !a.live ==> r.created == a.created + 1 && r.terminated == a.terminated
    ensures Balanced(a) ==> Balanced(r)
  {
    if a.live then a else Audio(true, a.created + 1, a.terminated)
  }

  /** `close_audio`: terminates the instance only when there is one. */
  function CloseAudio(a: Audio): (r: Audio)
    ensures !r.live
    ensures !a.live ==> r == a
    ensures a.live ==> r.terminated == a.terminated + 1 && r.created == a.created
    ensures Balanced(a) ==> Balanced(r)
  {
    if a.live then Audio(false, a.created, a.terminated + 1) else a
  }

  lemma InitializeAudioIdempotent(a: Audio)
    ensures InitializeAudio(InitializeAudio(a)) == InitializeAudio(a)
  {
  }

  lemma CloseAudioIdempotent(a: Audio)
    ensures CloseAudio(CloseAudio(a)) == CloseAudio(a)
  {
  }

  // ---------------------------------------------------------------------
  // Module state

  /** The module-level variables of stt_module.py, and the label of the
      floating window. */
  datatype Globals = Globals(
    queue: seq<string>,        // transcription_queue, oldest first
    continueRecording: bool,   // continue_recording
    audio: Audio,              // audio
    finalText: string,         // final_transcription_text
    startTime: real,           // start_transcription_time
    cumulative: real,          // cumulative_transcription_time
    stopEvent: bool,           // stop_event is set
    labelText: string)         // the text the window shows

  /** `set_recording_state`: the flag raised, the clock restarted at `now`. */
  function SetRecordingState(g: Globals, now: real): (r: Globals)
    ensures r.continueRecording && r.startTime == now && r.cumulative == 0.0
    ensures r.(continueRecording := g.continueRecording, startTime := g.startTime, cumulative := g.cumulative) == g
  {
    g.(continueRecording := true, startTime := now, cumulative := 0.0)
  }

  /** `reset_recording_state`: the flag lowered, both times zero. */
  function ResetRecordingState(g: Globals): (r: Globals)
    ensures !r.continueRecording && r.startTime == 0.0 && r.cumulative == 0.0
    ensures r.(continueRecording := g.continueRecording, startTime := g.startTime, cumulative := g.cumulative) == g
  {
    g.(continueRecording := false, startTime := 0.0, cumulative := 0.0)
  }

  /** Resetting forgets whatever setting did. */
  lemma ResetAfterSet(g: Globals, now: real)
    ensures ResetRecordingState(SetRecordingState(g, now)) == ResetRecordingState(g)
  {
  }

  // ---------------------------------------------------------------------
  // transcribe_and_queue

  /** The segment texts joined in order with no separator, as the loop
      `transcription += segment.text` builds them. */
  function Concat(segments: seq<string>): (r: string)
    ensures |segments| > 0 ==> EndsWith(r, segments[|segments| - 1])
    decreases |segments|
  {
    if |segments| == 0 then ""
    else Concat(segments[..|segments| - 1]) + segments[|segments| - 1]
  }

  /** Joining two runs of segments is joining their joins. */
  lemma {:induction false} ConcatAppend(a: seq<string>, b: seq<string>)
    ensures Concat(a + b) == Concat(a) + Concat(b)
    decreases |b|
  {
    if |b| == 0 {
      assert a + b == a;
    } else {
      var front := b[..|b| - 1];
      var last := b[|b| - 1];
      assert (a + b)[..|a + b| - 1] == a + front;
      assert (a + b)[|a + b| - 1] == last;
      assert Concat(a + b) == Concat(a + front) + last;
      ConcatAppend(a, front);
      assert Concat(b) == Concat(front) + last;
      assert Concat(a + b) == Concat(a) + (Concat(front) + last);
    }
  }

  /** Every segment appears verbatim, in order, between the texts of the
      segments before and after it. */
  lemma ConcatSplit(segments: seq<string>, i: nat)
    requires i < |segments|
    ensures Concat(segments) == Concat(segments[..i]) + segments[i] + Concat(segments[i + 1..])
  {
    var front, back := segments[..i + 1], segments[i + 1..];
    assert segments == front + back;
    ConcatAppend(front, back);
    assert front[..|front| - 1] == segments[..i];
    assert Concat(front) == Concat(segments[..i]) + segments[i];
  }

  /** The transcript of a non-empty buffer. */
  function Transcript(engine: Engine, buffer: seq<Sample>): string {
    Concat(engine(buffer))
  }

  /** The text returned by `transcribe_and_queue`, and the state after it. */
  datatype Transcribed = Transcribed(text: string, g: Globals)

  /** `transcribe_and_queue`. An empty buffer queues the sentinel, returns
      the empty string and keeps the previous final transcript; otherwise
      the joined segments are returned, queued, and become the final
      transcript. Nothing else changes. */
  function TranscribeAndQueue(engine: Engine, buffer: seq<Sample>, g: Globals): (r: Transcribed)
    ensures |buffer| == 0 ==> r.text == "" && r.g == g.(queue := g.queue + [Sentinel])
    ensures |buffer| > 0 ==> r.text == Transcript(engine, buffer)
    ensures |buffer| > 0 ==> r.g == g.(queue := g.queue + [r.text], finalText := r.text)
  {
    if |buffer| == 0 then Transcribed("", g.(queue := g.queue + [Sentinel]))
    else
      var text := Transcript(engine, buffer);
      Transcribed(text, g.(queue := g.queue + [text], finalText := text))
  }

  // ---------------------------------------------------------------------
  // The audio buffer

  /** `np.concatenate(audio_data)`: the chunks' samples in read order. */
  function Flatten(chunks: seq<Chunk>): (r: seq<Sample>)
    ensures |r| == 0 <==> forall i :: 0 <= i < |chunks| ==> |chunks[i]| == 0
    decreases |chunks|
  {
    if |chunks| == 0 then []
    else Flatten(chunks[..|chunks| - 1]) + chunks[|chunks| - 1]
  }

  lemma FlattenSnoc(chunks: seq<Chunk>, chunk: Chunk)
    ensures Flatten(chunks + [chunk]) == Flatten(chunks) + chunk
  {
    assert (chunks + [chunk])[..|chunks|] == chunks;
  }

  lemma {:induction false} FlattenAppend(a: seq<Chunk>, b: seq<Chunk>)
    ensures Flatten(a + b) == Flatten(a) + Flatten(b)
    decreases |b|
  {
    if |b| == 0 {
      assert a + b == a;
    } else {
      var front, last := b[..|b| - 1], b[|b| - 1];
      assert (a + b)[..|a + b| - 1] == a + front;
      assert (a + b)[|a + b| - 1] == last;
      assert Flatten(a + b) == Flatten(a + front) + last;
      FlattenAppend(a, front);
      assert Flatten(b) == Flatten(front) + last;
    }
  }

  /** A buffer taken earlier is a prefix of one taken later. */
  lemma FlattenPrefix(chunks: seq<Chunk>, i: nat, j: nat)
    requires i <= j <= |chunks|
    ensures |Flatten(chunks[..i])| <= |Flatten(chunks[..j])|
    ensures Flatten(chunks[..i]) == Flatten(chunks[..j])[..|Flatten(chunks[..i])|]
  {
    assert chunks[..j] == chunks[..i] + chunks[i..j];
    FlattenAppend(chunks[..i], chunks[i..j]);
  }

  // ---------------------------------------------------------------------
  // FloatingWindow.update_transcription

  /** What the label shows once the queue has been drained: the newest item,
      or the old text when the queue was empty. */
  function Displayed(queue: seq<string>, current: string): string {
    if |queue| == 0 then current else queue[|queue| - 1]
  }

  /** The drain loop of `update_transcription`: `get_nowait` until the queue
      is empty, setting the label to each item in turn. */
  method DrainQueue(queue: seq<string>, current: string) returns (shown: string, left: seq<string>)
    ensures left == []
    ensures shown == Displayed(queue, current)
    ensures |queue| > 0 ==> shown == queue[|queue| - 1]
    ensures |queue| == 0 ==> shown == current
  {
    shown, left := current, queue;
    while |left| > 0
      invariant left == queue[|queue| - |left|..]
      invariant shown == Displayed(queue[..|queue| - |left|], current)
      decreases |left|
    {
      shown := left[0];
      left := left[1..];
    }
  }

  /** `update_transcription`, one tick of the 100 ms UI timer: the time limit
      clears the recording flag, then the queue is drained into the label. */
  function UpdateTranscription(g: Globals): (r: Globals)
    ensures r.queue == []
    ensures r.labelText == Displayed(g.queue, g.labelText)
    ensures r.continueRecording == (g.continueRecording && g.cumulative < RecordingTimeLimit)
    ensures r.(queue := g.queue, labelText := g.labelText, continueRecording := g.continueRecording) == g
  {
    var flag := if g.cumulative >= RecordingTimeLimit then false else g.continueRecording;
    g.(continueRecording := flag, queue := [], labelText := Displayed(g.queue, g.labelText))
  }

  /** Pushing snapshots and draining once shows only the newest. */
  lemma DrainShowsNewest(g: Globals, pushed: seq<string>)
    requires |pushed| > 0
    ensures UpdateTranscription(g.(queue := g.queue + pushed)).labelText == pushed[|pushed| - 1]
  {
  }

  // ---------------------------------------------------------------------
  // The capture loop of start_recording

  /** What the capture loop sees between two tests of its flag. */
  datatype Event =
    | Read(chunk: Chunk, at: real)   // the stream was active; one chunk read at time `at`
    | Inactive                       // the stream was inactive; the loop slept
    | Tick                           // the UI timer ran `update_transcription`
    | StopRequest                    // `stop_record_and_transcription` reset the state and set the event

  /** The loop's state: the module state, `audio_data`,
      `last_transcription_time`, and the number of chunks each transcription
      so far covered (an observation of the model, not a program variable). */
  datatype Capture = Capture(g: Globals, chunks: seq<Chunk>, last: real, passes: seq<nat>)

  /** One iteration with an active stream (lines 199-209): the chunk is
      appended and the elapsed time updated; when at least one second has
      passed since the last transcription, the whole buffer is transcribed
      and the clock of the last transcription moves to now. */
  function ReadStep(engine: Engine, c: Capture, chunk: Chunk, at: real): (r: Capture)
    ensures r.chunks == c.chunks + [chunk]
    ensures r.g.cumulative == at - c.g.startTime
    ensures at - c.last >= Cadence ==>
      && r.last == at
      && r.passes == c.passes + [|r.chunks|]
      && r.g == TranscribeAndQueue(engine, Flatten(r.chunks), c.g.(cumulative := at - c.g.startTime)).g
    ensures at - c.last < Cadence ==>
      r.last == c.last && r.passes == c.passes && r.g == c.g.(cumulative := at - c.g.startTime)
  {
    var chunks := c.chunks + [chunk];
    var g := c.g.(cumulative := at - c.g.startTime);
    if at - c.last >= Cadence then
      Capture(TranscribeAndQueue(engine, Flatten(chunks), g).g, chunks, at, c.passes + [|chunks|])
    else
      Capture(g, chunks, c.last, c.passes)
  }

  /** One event, applied while the loop runs. Only a read adds a chunk, and
      only a read can start a transcription; the timer clears the flag once
      the time limit is reached, and a stop request clears it and sets the
      stop event. No event touches the audio instance. */
  function Step(engine: Engine, c: Capture, e: Event): (r: Capture)
    ensures r.g.audio == c.g.audio
    ensures e.Read? ==> r.chunks == c.chunks + [e.chunk]
    ensures !e.Read? ==> r.chunks == c.chunks && r.passes == c.passes && r.last == c.last
    ensures e.Inactive? ==> r == c
    ensures e.Tick? ==> r.g.continueRecording == (c.g.continueRecording && c.g.cumulative < RecordingTimeLimit)
    ensures e.StopRequest? ==> !r.g.continueRecording && r.g.stopEvent
  {
    match e
    case Read(chunk, at) => ReadStep(engine, c, chunk, at)
    case Inactive => c
    case Tick => c.(g := UpdateTranscription(c.g))
    case StopRequest => c.(g := ResetRecordingState(c.g).(stopEvent := true))
  }

  /** Where the loop stopped: its last state and how many events it took. */
  datatype Exit = Exit(c: Capture, consumed: nat)

  /** `while continue_recording: ...`. The loop takes events while the flag
      is raised; it leaves when the flag is found lowered, or when the
      events run out (the loop was ended by an exception). */
  function Loop(engine: Engine, c: Capture, events: seq<Event>): (r: Exit)
    ensures r.consumed <= |events|
    ensures r.consumed < |events| ==> !r.c.g.continueRecording
    ensures !c.g.continueRecording ==> r == Exit(c, 0)
    ensures |c.chunks| <= |r.c.chunks| && |c.passes| <= |r.c.passes|
    decreases |events|
  {
    if |events| == 0 || !c.g.continueRecording then Exit(c, 0)
    else
      var r := Loop(engine, Step(engine, c, events[0]), events[1..]);
      Exit(r.c, r.consumed + 1)
  }

  /** The chunks of the reads among some events, in order. */
  function ReadChunks(events: seq<Event>): seq<Chunk>
    decreases |events|
  {
    if |events| == 0 then []
    else (if events[0].Read? then [events[0].chunk] else []) + ReadChunks(events[1..])
  }

  /** No chunk is lost, duplicated or reordered: the buffer at loop exit is
      the buffer at entry followed by every chunk read, in read order. */
  lemma {:induction false} LoopKeepsEveryChunk(engine: Engine, c: Capture, events: seq<Event>)
    ensures var r := Loop(engine, c, events);
      r.c.chunks == c.chunks + ReadChunks(events[..r.consumed])
    decreases |events|
  {
    var r := Loop(engine, c, events);
    if |events| == 0 || !c.g.continueRecording {
      assert events[..0] == [];
      assert c.chunks + [] == c.chunks;
    } else {
      var c' := Step(engine, c, events[0]);
      LoopKeepsEveryChunk(engine, c', events[1..]);
      var r' := Loop(engine, c', events[1..]);
      assert events[..r.consumed][1..] == events[1..][..r'.consumed];
      assert c'.chunks == c.chunks + (if events[0].Read? then [events[0].chunk] else []);
    }
  }

  /** Transcriptions covered a strictly growing number of chunks, never
      more than the buffer holds. */
  predicate PassesGrow(passes: seq<nat>, chunks: nat) {
    && |passes| <= chunks
    && (forall i, j :: 0 <= i < j < |passes| ==> passes[i] < passes[j])
    && (forall i :: 0 <= i < |passes| ==> 0 < passes[i] <= chunks)
  }

  /** Each transcription during capture covers more of the buffer than the
      one before it. */
  lemma {:induction false} LoopPassesGrow(engine: Engine, c: Capture, events: seq<Event>)
    requires PassesGrow(c.passes, |c.chunks|)
    ensures var r := Loop(engine, c, events);
      PassesGrow(r.c.passes, |r.c.chunks|) && c.passes == r.c.passes[..|c.passes|]
    decreases |events|
  {
    if |events| > 0 && c.g.continueRecording {
      var c' := Step(engine, c, events[0]);
      assert PassesGrow(c'.passes, |c'.chunks|) && c.passes == c'.passes[..|c.passes|];
      LoopPassesGrow(engine, c', events[1..]);
      var r := Loop(engine, c', events[1..]);
      assert c.passes == r.c.passes[..|c'.passes|][..|c.passes|];
    }
  }

  /** The final transcript only ever changes to the transcript of a buffer
      holding samples: an empty buffer queues the sentinel instead. */
  lemma {:induction false} LoopFinalTextFromAudio(engine: Engine, c: Capture, events: seq<Event>)
    ensures var r := Loop(engine, c, events);
      r.c.g.finalText == c.g.finalText || |Flatten(r.c.chunks)| > 0
    ensures var r := Loop(engine, c, events);
      |Flatten(c.chunks)| > 0 ==> |Flatten(r.c.chunks)| > 0
    decreases |events|
  {
    if |events| > 0 && c.g.continueRecording {
      var c' := Step(engine, c, events[0]);
      if events[0].Read? {
        FlattenSnoc(c.chunks, events[0].chunk);
      }
      LoopFinalTextFromAudio(engine, c', events[1..]);
    }
  }

  /** Auto-stop: once the elapsed time has reached the limit, the next UI
      tick ends the loop exactly as a stop request at that instant would,
      with the same buffer and the same transcriptions. */
  lemma AutoStopLikeExplicitStop(engine: Engine, c: Capture, rest: seq<Event>)
    requires c.g.continueRecording && c.g.cumulative >= RecordingTimeLimit
    ensures var auto := Loop(engine, c, [Tick] + rest);
      var explicit := Loop(engine, c, [StopRequest] + rest);
      && auto.consumed == 1 && explicit.consumed == 1
      && !auto.c.g.continueRecording && !explicit.c.g.continueRecording
      && auto.c.chunks == explicit.c.chunks == c.chunks
      && auto.c.passes == explicit.c.passes == c.passes
      && auto.c.g.finalText == explicit.c.g.finalText == c.g.finalText
  {
    assert ([Tick] + rest)[1..] == rest;
    assert ([StopRequest] + rest)[1..] == rest;
  }

  // ---------------------------------------------------------------------
  // start_recording, start_record_and_transcription, stop_record_and_transcription

  /** The `finally` block of `start_recording` (lines 214-226): the stream
      and the audio instance are released, the whole buffer is transcribed
      once if any chunk was read, and the stop event is set. */
  function Finish(engine: Engine, c: Capture): (r: Capture)
    ensures r.chunks == c.chunks && !r.g.audio.live && r.g.stopEvent
    ensures |c.chunks| > 0 ==> r.passes == c.passes + [|c.chunks|]
    ensures |c.chunks| == 0 ==> r.passes == c.passes && r.g.queue == c.g.queue
    ensures r.g.finalText == (if |Flatten(c.chunks)| > 0 then Transcript(engine, Flatten(c.chunks)) else c.g.finalText)
    ensures r.g.continueRecording == c.g.continueRecording
  {
    var g := c.g.(audio := CloseAudio(c.g.audio));
    if |c.chunks| > 0 then
      var t := TranscribeAndQueue(engine, Flatten(c.chunks), g);
      Capture(t.g.(stopEvent := true), c.chunks, c.last, c.passes + [|c.chunks|])
    else
      Capture(g.(stopEvent := true), c.chunks, c.last, c.passes)
  }

  /** The three clock readings of `start_recording`: on entry, when the
      buffer is created, and just before the loop. */
  datatype Stamps = Stamps(entry: real, buffered: real, started: real)

  /** `start_recording`, the body of the capture thread. When the stream
      cannot be opened, the instance is closed and nothing is transcribed
      (and the recording flag stays raised). Otherwise the loop runs over
      the events it takes and `Finish` follows. */
  function StartRecording(engine: Engine, g: Globals, streamOpens: bool, clock: Stamps, events: seq<Event>): (r: Exit)
    ensures r.consumed <= |events|
    ensures !streamOpens ==>
      && r.consumed == 0 && r.c.chunks == [] && r.c.passes == []
      && r.c.g == g.(startTime := clock.entry, audio := CloseAudio(InitializeAudio(g.audio)), continueRecording := true)
    ensures streamOpens ==> !r.c.g.audio.live && r.c.g.stopEvent
  {
    var g1 := g.(startTime := clock.entry, audio := InitializeAudio(g.audio), continueRecording := true);
    if !streamOpens then
      Exit(Capture(g1.(audio := CloseAudio(g1.audio)), [], 0.0, []), 0)
    else
      var c0 := Capture(g1.(startTime := clock.started), [], clock.buffered, []);
      var loop := Loop(engine, c0, events);
      Exit(Finish(engine, loop.c), loop.consumed)
  }

  /** Of a recording whose stream opened: the final buffer is exactly the
      chunks read, in order; transcriptions during capture covered strictly
      growing parts of it; one more, after capture, covered all of it,
      exactly when some chunk was read. The final transcript is that of the
      whole buffer when it holds a sample, and otherwise the one from before
      the recording. */
  lemma RecordingTranscribesWholeBuffer(engine: Engine, g: Globals, clock: Stamps, events: seq<Event>)
    ensures var r := StartRecording(engine, g, true, clock, events);
      && r.c.chunks == ReadChunks(events[..r.consumed])
      && (|r.c.chunks| == 0 ==> r.c.passes == [])
      && (|r.c.chunks| > 0 ==>
            && |r.c.passes| > 0
            && r.c.passes[|r.c.passes| - 1] == |r.c.chunks|
            && PassesGrow(r.c.passes[..|r.c.passes| - 1], |r.c.chunks|))
      && r.c.g.finalText == (if |Flatten(r.c.chunks)| > 0 then Transcript(engine, Flatten(r.c.chunks)) else g.finalText)
  {
    var g1 := g.(startTime := clock.entry, audio := InitializeAudio(g.audio), continueRecording := true);
    var c0 := Capture(g1.(startTime := clock.started), [], clock.buffered, []);
    LoopKeepsEveryChunk(engine, c0, events);
    LoopPassesGrow(engine, c0, events);
    LoopFinalTextFromAudio(engine, c0, events);
    var loop := Loop(engine, c0, events);
    assert [] + ReadChunks(events[..loop.consumed]) == ReadChunks(events[..loop.consumed]);
    if |loop.c.chunks| == 0 {
    } else {
      var r := Finish(engine, loop.c);
      assert r.passes[..|r.passes| - 1] == loop.c.passes;
    }
  }

  /** `start_record_and_transcription` before it spawns the thread: the
      stop event cleared, an audio instance ensured, recording state set. */
  function StartRecordAndTranscription(g: Globals, now: real): (r: Globals)
    ensures !r.stopEvent && r.audio.live && r.continueRecording
    ensures r.startTime == now && r.cumulative == 0.0
    ensures r.queue == g.queue && r.finalText == g.finalText && r.labelText == g.labelText
  {
    SetRecordingState(g.(stopEvent := false, audio := InitializeAudio(g.audio)), now)
  }

  /** `stop_record_and_transcription` once the capture thread has been
      joined: state reset, stop event set, audio instance closed. */
  function StopRecordAndTranscription(g: Globals): (r: Globals)
    ensures !r.continueRecording && r.stopEvent && !r.audio.live
    ensures r.startTime == 0.0 && r.cumulative == 0.0
    ensures r.queue == g.queue && r.finalText == g.finalText && r.labelText == g.labelText
    ensures Balanced(g.audio) ==> Balanced(r.audio)
  {
    ResetRecordingState(g).(stopEvent := true, audio := CloseAudio(g.audio))
  }

  /** Stopping twice is stopping once. */
  lemma StopIdempotent(g: Globals)
    ensures StopRecordAndTranscription(StopRecordAndTranscription(g)) == StopRecordAndTranscription(g)
  {
  }

  /** A whole session, start to joined stop, releases every audio instance
      it created: no instance is leaked or terminated twice. */
  lemma SessionReleasesAudio(engine: Engine, g: Globals, now: real, streamOpens: bool, clock: Stamps, events: seq<Event>)
    requires Balanced(g.audio)
    ensures var started := StartRecordAndTranscription(g, now);
      var run := StartRecording(engine, started, streamOpens, clock, events);
      var stopped := StopRecordAndTranscription(run.c.g);
      !stopped.audio.live && stopped.audio.created == stopped.audio.terminated
  {
    var started := StartRecordAndTranscription(g, now);
    if streamOpens {
      var g1 := started.(startTime := clock.entry, audio := InitializeAudio(started.audio), continueRecording := true);
      var c0 := Capture(g1.(startTime := clock.started), [], clock.buffered, []);
      LoopKeepsAudio(engine, c0, events);
    }
  }

  /** The loop itself neither creates nor terminates an audio instance. */
  lemma {:induction false} LoopKeepsAudio(engine: Engine, c: Capture, events: seq<Event>)
    ensures Loop(engine, c, events).c.g.audio == c.g.audio
    decreases |events|
  {
    if |events| > 0 && c.g.continueRecording {
      LoopKeepsAudio(engine, Step(engine, c, events[0]), events[1..]);
    }
  }

  /** A session that reads no audio leaves the previous session's final
      transcript in place: `final_transcription_text` is never cleared. */
  lemma SilentSessionKeepsPreviousTranscript(engine: Engine, g: Globals, now: real, clock: Stamps, events: seq<Event>)
    requires forall i :: 0 <= i < |events| ==> !events[i].Read?
    ensures var started := StartRecordAndTranscription(g, now);
      StartRecording(engine, started, true, clock, events).c.g.finalText == g.finalText
  {
    var started := StartRecordAndTranscription(g, now);
    RecordingTranscribesWholeBuffer(engine, started, clock, events);
    var r := StartRecording(engine, started, true, clock, events);
    NoReadsNoChunks(events[..r.consumed]);
  }

  lemma {:induction false} NoReadsNoChunks(events: seq<Event>)
    requires forall i :: 0 <= i < |events| ==> !events[i].Read?
    ensures ReadChunks(events) == []
    decreases |events|
  {
    if |events| > 0 {
      NoReadsNoChunks(events[1..]);
    }
  }
}
