/** The live voice session of the voice component as a state machine: the
    `isActive`/`isConnecting` flags, the browser resources held in refs, the
    microphone path, `onmessage`, `stopSession`, and the two buttons. */
module VoiceSession {
  import opened Basics
  import Codec
  import opened AudioData
  import opened Playback
  import opened Transcript
  import opened Capture

  /** What `stopSession` does to a held resource, by handle. */
  datatype Release = StopTracks(stream: nat) | Disconnect(processor: nat) | Close(context: nat)

  /** The component's state and refs. `inputCtx`, `outputCtx`, `stream` and
      `processor` are the refs' handles (they are set, never cleared);
      `capturing` says whether the script processor still delivers blocks;
      `releases` and `sent` record the effects on the browser and the socket. */
  datatype Session = Session(
    active: bool,
    connecting: bool,
    inputCtx: Option<nat>,
    outputCtx: Option<nat>,
    stream: Option<nat>,
    processor: Option<nat>,
    capturing: bool,
    nextHandle: nat,
    playback: Scheduler,
    transcript: seq<Entry>,
    releases: seq<Release>,
    sent: seq<Blob>)

  /** The component as mounted. */
  const Initial: Session := Session(false, false, None, None, None, None, false, 0, Playback.Initial, [], [], [])

  /** `startSession`. Nothing happens when already active. Otherwise it sets
      connecting, creates both audio contexts, then asks for the microphone: a
      refusal is caught and clears connecting, leaving the contexts open; a grant
      stores the stream and opens the socket, whose callbacks finish the start. */
  function StartSession(s: Session, micGranted: bool): (r: Session)
    ensures s.active ==> r == s
    ensures !s.active ==> !r.active && r.connecting == micGranted
    ensures !s.active ==> r.inputCtx.Some? && r.outputCtx.Some? && r.inputCtx != r.outputCtx
    ensures !s.active ==> (r.stream.Some? <==> micGranted || s.stream.Some?)
    ensures r.playback == s.playback && r.transcript == s.transcript && r.releases == s.releases
    ensures r.capturing == s.capturing && r.sent == s.sent
  {
    if s.active then s
    else
      var h := s.nextHandle;
      var withContexts := s.(connecting := true, inputCtx := Some(h), outputCtx := Some(h + 1), nextHandle := h + 2);
      if micGranted then withContexts.(stream := Some(h + 2), nextHandle := h + 3)
      else withContexts.(connecting := false)
  }

  /** `onopen`: connected, active, and the script processor starts delivering blocks. */
  function Open(s: Session): (r: Session)
    ensures r.active && !r.connecting && r.capturing
    ensures r.processor.Some?
    ensures r == s.(connecting := false, active := true, capturing := true,
                    processor := r.processor, nextHandle := r.nextHandle)
  {
    s.(connecting := false, active := true, processor := Some(s.nextHandle), capturing := true,
       nextHandle := s.nextHandle + 1)
  }

  /** `onaudioprocess`: while the processor is connected, each block is converted
      and sent. */
  function CaptureBlock(s: Session, input: seq<real>): (r: Session)
    ensures s.capturing ==> r.sent == s.sent + [CaptureChunk(input)]
    ensures !s.capturing ==> r == s
    ensures r.(sent := s.sent) == s
  {
    if s.capturing then s.(sent := s.sent + [CaptureChunk(input)]) else s
  }

  /** `if (base64Audio && outputContextRef.current)`: a message without audio, with
      an empty payload (falsy), or arriving before an output context exists
      schedules nothing; without an interruption the queue is untouched. */
  lemma FalsyAudioIsSkipped(s: Session, m: Message, now: real, ms: nat)
    requires m.audio.None? || m.audio == Some("") || s.outputCtx.None?
    ensures OnMessage(s, m, now, ms).1.None?
    ensures !m.interrupted ==> OnMessage(s, m, now, ms).0.playback == s.playback
    ensures m.interrupted ==> OnMessage(s, m, now, ms).0.playback == Interrupt(s.playback)
  {
    assert !HasAudio(s, m);
  }

  /** The parts of a `LiveServerMessage` that `onmessage` reads. A transcription
      is present when its object is, and is then taken to carry its text. */
  datatype Message = Message(
    input: Option<string>,       // serverContent.inputTranscription.text
    output: Option<string>,      // serverContent.outputTranscription.text
    audio: Option<string>,       // serverContent.modelTurn.parts[0].inlineData.data
    interrupted: bool)           // serverContent.interrupted

  /** The outcome of the playback part of `onmessage`: the new queue, or the
      exception that ended the handler before the cursor moved. `atob` throws on
      a malformed payload, the `Int16Array` view on an odd byte count, and
      `createBuffer` on an empty one; otherwise one node starts at the later of
      the cursor and `now`, for as long as the payload's samples last at 24 kHz. */
  function PlayAudio(p: Scheduler, base64: string, now: real): (r: Result<Scheduler>)
    ensures Codec.Decode(base64).Err? ==> r == Err(InvalidCharacterError)
    ensures Codec.Decode(base64).Ok? && |Codec.Decode(base64).value| % 2 == 1 ==> r == Err(RangeError)
    ensures Codec.Decode(base64).Ok? && |Codec.Decode(base64).value| == 0 ==> r == Err(NotSupportedError)
    ensures r.Ok? <==> (Codec.Decode(base64).Ok? &&
      |Codec.Decode(base64).value| % 2 == 0 && |Codec.Decode(base64).value| >= 2)
    ensures r.Ok? ==>
      var start := if p.cursor >= now then p.cursor else now;
      var duration := (|Codec.Decode(base64).value| / 2) as real / 24000.0;
      |r.value.sources| == |p.sources| + 1 && r.value.sources[..|p.sources|] == p.sources &&
      r.value.sources[|p.sources|] == Source(p.nextId, start, duration) &&
      r.value.cursor == start + duration && r.value.nextId == p.nextId + 1 &&
      r.value.log == p.log + [Started(p.nextId, start)]
  {
    match Codec.Decode(base64)
    case Err(e) => Err(e)
    case Ok(bytes) =>
      match DecodeAudioData(bytes, OutputSampleRate, 1)
      case Err(e) => Err(e)
      case Ok(buffer) => Ok(Schedule(p, now, buffer))
  }

  /** `onmessage` at output-context time `now` and wall-clock `ms`. The transcript
      is updated first; audio is scheduled when present, non-empty and an output
      context exists; then an interruption flushes the queue. A throw while
      decoding ends the handler: the cursor does not move and the interruption
      in the same message is not applied. */
  function OnMessage(s: Session, m: Message, now: real, ms: nat): (r: (Session, Option<JsError>))
    ensures r.0.transcript == OnTranscription(s.transcript, m.input, m.output, ms)
    ensures r.0.(transcript := s.transcript, playback := s.playback) == s
    ensures r.1.Some? ==> r.0.playback == s.playback
    ensures r.1.Some? <==> HasAudio(s, m) && PlayAudio(s.playback, m.audio.value, now).Err?
    ensures r.1.None? && m.interrupted ==> r.0.playback.sources == [] && r.0.playback.cursor == 0.0
    ensures r.1.None? && !m.interrupted && HasAudio(s, m) ==>
      r.0.playback == PlayAudio(s.playback, m.audio.value, now).value
    ensures !HasAudio(s, m) && !m.interrupted ==> r.0.playback == s.playback
  {
    var withText := s.(transcript := OnTranscription(s.transcript, m.input, m.output, ms));
    if HasAudio(s, m) && PlayAudio(s.playback, m.audio.value, now).Err? then
      (withText, Some(PlayAudio(s.playback, m.audio.value, now).error))
    else
      var queued := if HasAudio(s, m) then PlayAudio(s.playback, m.audio.value, now).value else s.playback;
      (withText.(playback := if m.interrupted then Interrupt(queued) else queued), None)
  }

  /** `if (base64Audio && outputContextRef.current)`: an empty string is falsy. */
  predicate HasAudio(s: Session, m: Message) {
    m.audio.Some? && m.audio.value != "" && s.outputCtx.Some?
  }

  /** The releases `stopSession` issues for whatever the refs hold. */
  function ReleasesOf(s: Session): (rs: seq<Release>)
    ensures |rs| <= 4
    ensures forall x: nat :: StopTracks(x) in rs <==> s.stream == Some(x)
    ensures forall x: nat :: Disconnect(x) in rs <==> s.processor == Some(x)
    ensures forall x: nat :: Close(x) in rs <==> s.inputCtx == Some(x) || s.outputCtx == Some(x)
  {
    (if s.stream.Some? then [StopTracks(s.stream.value)] else []) +
    (if s.processor.Some? then [Disconnect(s.processor.value)] else []) +
    (if s.inputCtx.Some? then [Close(s.inputCtx.value)] else []) +
    (if s.outputCtx.Some? then [Close(s.outputCtx.value)] else [])
  }

  /** `stopSession`: both flags off, every held resource released, every queued
      node stopped and forgotten. The refs keep their values and the cursor is
      not reset. */
  function Stop(s: Session): (r: Session)
    ensures !r.active && !r.connecting && !r.capturing
    ensures r.playback == StopAll(s.playback) && r.playback.cursor == s.playback.cursor
    ensures r.releases == s.releases + ReleasesOf(s)
    ensures r.inputCtx == s.inputCtx && r.outputCtx == s.outputCtx && r.stream == s.stream && r.processor == s.processor
    ensures r.transcript == s.transcript && r.sent == s.sent
  {
    s.(active := false, connecting := false, capturing := false,
       releases := s.releases + ReleasesOf(s), playback := StopAll(s.playback))
  }

  /** Because the refs are never cleared, a second stop releases the same
      resources again. */
  lemma StopTwiceRepeatsReleases(s: Session)
    ensures Stop(Stop(s)).releases == s.releases + ReleasesOf(s) + ReleasesOf(s)
  {
  }

  /** What the user and the browser can do. */
  datatype Event =
    | MicButton(micGranted: bool)          // the round button; the grant is the user's answer
    | Opened                               // `onopen`
    | Closed                               // `onclose`
    | Failed                               // `onerror`
    | AudioBlock(input: seq<real>)         // `onaudioprocess`
    | Received(m: Message, now: real, ms: nat)  // `onmessage`
    | ClearButton                          // the trash button

  /** One event. The round button is disabled while connecting and otherwise
      stops an active session or starts one. */
  function Next(s: Session, e: Event): (r: Session)
    ensures e.MicButton? && s.connecting ==> r == s
    ensures e.MicButton? && !s.connecting && s.active ==> r == Stop(s)
    ensures e.ClearButton? && s.active ==> r == s.(transcript := [])
    ensures e.ClearButton? && !s.active ==> r == s
  {
    match e
    case MicButton(granted) =>
      if s.connecting then s else if s.active then Stop(s) else StartSession(s, granted)
    case Opened => Open(s)
    case Closed => Stop(s)
    case Failed => Stop(s)
    case AudioBlock(input) => CaptureBlock(s, input)
    case Received(m, now, ms) => OnMessage(s, m, now, ms).0
    case ClearButton => if s.active then s.(transcript := []) else s
  }

  /** Never both active and connecting; capture runs exactly while active; the
      playback queue is chained and tracked; agent speech is never split. */
  predicate Inv(s: Session) {
    !(s.active && s.connecting) &&
    s.capturing == s.active &&
    Valid(s.playback) &&
    NoAdjacentAi(s.transcript)
  }

  /** The output context's clock never runs backwards past zero. */
  predicate ClockOk(e: Event) {
    e.Received? ==> e.now >= 0.0
  }

  lemma InitialInv()
    ensures Inv(Initial)
  {
    InitialValid();
  }

  lemma OnMessagePreservesInv(s: Session, m: Message, now: real, ms: nat)
    requires Inv(s) && now >= 0.0
    ensures Inv(OnMessage(s, m, now, ms).0)
  {
    OnTranscriptionPreservesNoAdjacentAi(s.transcript, m.input, m.output, ms);
    var r := OnMessage(s, m, now, ms);
    if r.1.None? {
      var queued := if HasAudio(s, m) then PlayAudio(s.playback, m.audio.value, now).value else s.playback;
      if HasAudio(s, m) {
        var buffer := DecodeAudioData(Codec.Decode(m.audio.value).value, OutputSampleRate, 1).value;
        ScheduleValid(s.playback, now, buffer);
      }
      assert Valid(queued);
      if m.interrupted {
        InterruptSilences(queued);
      }
    }
  }

  lemma NextPreservesInv(s: Session, e: Event)
    requires Inv(s) && ClockOk(e)
    ensures Inv(Next(s, e))
  {
    match e
    case MicButton(granted) =>
      if !s.connecting && s.active {
        StopPreservesInv(s);
      }
    case Opened =>
    case Closed => StopPreservesInv(s);
    case Failed => StopPreservesInv(s);
    case AudioBlock(_) =>
    case Received(m, now, ms) => OnMessagePreservesInv(s, m, now, ms);
    case ClearButton =>
  }

  lemma StopPreservesInv(s: Session)
    requires Inv(s)
    ensures Inv(Stop(s))
  {
    StopAllSilences(s.playback);
  }

  /** After a stop, by the button or by the socket closing, nothing the session
      scheduled is still playing. */
  lemma StopSilences(s: Session)
    requires Inv(s)
    ensures Live(Stop(s).playback.log) == {}
  {
    StopAllSilences(s.playback);
  }

  /** A payload that decodes to an odd number of bytes throws in `new Int16Array`:
      the cursor and the queue stay as they were, even if the same message says
      the model was interrupted. */
  lemma OddPayloadChangesNoPlayback(s: Session, m: Message, now: real, ms: nat)
    requires HasAudio(s, m) && Codec.Decode(m.audio.value).Ok? && |Codec.Decode(m.audio.value).value| % 2 == 1
    ensures OnMessage(s, m, now, ms).1 == Some(RangeError)
    ensures OnMessage(s, m, now, ms).0.playback == s.playback
  {
  }

  /** Audio and an interruption in the same message: the chunk is started, then
      stopped with everything else, and nothing is left playing. */
  lemma OwnAudioIsInterrupted(s: Session, m: Message, now: real, ms: nat)
    requires Inv(s) && now >= 0.0 && HasAudio(s, m) && m.interrupted
    requires PlayAudio(s.playback, m.audio.value, now).Ok?
    ensures var r := OnMessage(s, m, now, ms).0;
      Started(s.playback.nextId, PlayAudio(s.playback, m.audio.value, now).value.sources[|s.playback.sources|].start) in r.playback.log &&
      Stopped(s.playback.nextId) in r.playback.log &&
      Live(r.playback.log) == {}
  {
    var queued := PlayAudio(s.playback, m.audio.value, now).value;
    var buffer := DecodeAudioData(Codec.Decode(m.audio.value).value, OutputSampleRate, 1).value;
    ScheduleValid(s.playback, now, buffer);
    InterruptSilences(queued);
    var r := OnMessage(s, m, now, ms).0;
    var k := |s.playback.sources|;
    assert queued.log[|queued.log| - 1] == Started(s.playback.nextId, queued.sources[k].start);
    assert r.playback.log == queued.log + StopEffects(queued.sources);
    assert r.playback.log[|queued.log| + k] == Stopped(s.playback.nextId);
  }

  /** Starting with the microphone granted, then connecting: connecting first,
      active after `onopen`, with both contexts and the stream held. */
  lemma StartThenOpen()
    ensures var s1 := Next(Initial, MicButton(true));
      var s2 := Next(s1, Opened);
      s1.connecting && !s1.active && s2.active && !s2.connecting && s2.capturing &&
      s2.outputCtx.Some? && s2.stream.Some? && s2.playback == Playback.Initial && Inv(s2)
  {
    InitialInv();
    NextPreservesInv(Initial, MicButton(true));
    NextPreservesInv(Next(Initial, MicButton(true)), Opened);
  }

  /** In an active session with an empty queue, one chunk of model audio whose
      payload decodes to an even, non-empty byte sequence starts at once; the
      button then stops the session: flags off, nothing playing, and the cursor
      still past the chunk. */
  lemma ChunkThenStop(s: Session, audio: string, bytes: seq<Byte>, now: real, ms: nat)
    requires Inv(s) && s.active && s.outputCtx.Some? && s.playback.sources == [] && s.playback.cursor <= now
    requires Codec.Decode(audio) == Ok(bytes) && |bytes| % 2 == 0 && |bytes| >= 2
    ensures var s3 := Next(s, Received(Message(None, None, Some(audio), false), now, ms));
      var s4 := Next(s3, MicButton(true));
      |s3.playback.sources| == 1 && s3.playback.sources[0].start == now &&
      !s4.active && !s4.connecting && s4.playback.sources == [] &&
      s4.playback.cursor == s3.playback.cursor > now &&
      Live(s4.playback.log) == {}
  {
    var m := Message(None, None, Some(audio), false);
    assert HasAudio(s, m);
    var buffer := DecodeAudioData(bytes, OutputSampleRate, 1).value;
    var s3 := Next(s, Received(m, now, ms));
    assert s3.playback == Schedule(s.playback, now, buffer);
    NextPreservesInv(s, Received(m, now, ms));
    StopSilences(s3);
  }

  /** The payloads the server sends are what `encode` makes of the samples, so the
      chunk above exists for every even, non-empty byte sequence. */
  lemma EncodedPayloadDecodes(bytes: seq<Byte>)
    ensures Codec.Decode(Codec.Encode(bytes)) == Ok(bytes)
    ensures Codec.Encode(bytes) != [] <==> bytes != []
  {
    assert Codec.Decode(Codec.Encode(bytes)) == Ok(bytes) by {
      Codec.DecodeEncode(bytes);
    }
    assert |Codec.Encode(bytes)| == 4 * ((|bytes| + 2) / 3) by {
      Codec.EncodeLength(bytes);
    }
    if bytes != [] {
      assert (|bytes| + 2) / 3 >= 1;
    }
  }
}
