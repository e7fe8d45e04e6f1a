/** The result view's `playPcm`: a module-level current source and audio context,
    each new clip stopping the one before it. */
module OneShot {
  import opened Basics
  import opened BinaryString
  import Base64
  import opened AudioData
  import opened Playback

  /** `currentAudioSource` and `audioCtxInstance` (whether it exists yet), the
      buffer the current source plays, a supply of node identities and the
      effects issued so far. */
  datatype Player = Player(current: Option<nat>, currentBuffer: Option<AudioBuffer>, hasContext: bool,
                           nextId: nat, log: seq<Effect>)

  const Initial: Player := Player(None, None, false, 0, [])

  /** The bytes `playPcm` builds from its argument: `atob`, then one byte per character. */
  function PcmBytes(base64: string): (r: Result<seq<Byte>>)
    ensures r.Ok? <==> Base64.Atob(base64).Ok?
    ensures r.Err? ==> r.error == InvalidCharacterError
    ensures r.Ok? ==> |r.value| == |Base64.Atob(base64).value|
    ensures r.Ok? ==> forall i :: 0 <= i < |r.value| ==> r.value[i] == Base64.Atob(base64).value[i] as int
    ensures r.Ok? ==> r.value == Base64.Decode(base64).value
  {
    match Base64.Atob(base64)
    case Ok(binary) =>
      ToBytesFromBytes(Base64.Decode(base64).value);
      Ok(ToBytes(binary))
    case Err(e) => Err(e)
  }

  /** `if (currentAudioSource) currentAudioSource.stop()`: the first thing
      `playPcm` does. The source stays recorded as current. */
  function StopCurrent(p: Player): (r: Player)
    ensures p.log <= r.log && r.(log := p.log) == p
    ensures p.current.Some? ==> r.log == p.log + [Stopped(p.current.value)]
    ensures p.current.None? ==> r == p
  {
    if p.current.Some? then p.(log := p.log + [Stopped(p.current.value)]) else p
  }

  /** The rest of `playPcm`: `atob` may throw; the context is then created if
      missing; `createBuffer` throws when there is no whole sample; otherwise a new
      source starts at once and becomes the current one. */
  function StartClip(p: Player, base64: string, now: real): (r: (Player, Option<JsError>))
    ensures r.1.None? <==> (PcmBytes(base64).Ok? && |PcmBytes(base64).value| >= 2)
    ensures r.1 == Some(InvalidCharacterError) <==> PcmBytes(base64).Err?
    ensures r.1.Some? ==> r.0 == p.(hasContext := r.0.hasContext)
    ensures r.1.None? ==> (r.0.current == Some(p.nextId) && r.0.nextId == p.nextId + 1 &&
      r.0.log == p.log + [Started(p.nextId, now)] &&
      r.0.currentBuffer == Some(MonoBuffer(PcmBytes(base64).value).value))
    ensures r.0.hasContext <==> (p.hasContext || PcmBytes(base64).Ok?)
  {
    match PcmBytes(base64)
    case Err(e) => (p, Some(e))
    case Ok(bytes) =>
      var withContext := p.(hasContext := true);
      match MonoBuffer(bytes)
      case Err(e) => (withContext, Some(e))
      case Ok(buffer) =>
        (withContext.(current := Some(p.nextId), currentBuffer := Some(buffer), nextId := p.nextId + 1,
                      log := p.log + [Started(p.nextId, now)]), None)
  }

  /** `playPcm(base64)` at context time `now`: stop the current source, then start
      the new clip. A throw leaves the stopped source recorded as current. */
  function PlayPcm(p: Player, base64: string, now: real): (r: (Player, Option<JsError>))
    ensures p.current.Some? ==> |r.0.log| > |p.log| && r.0.log[|p.log|] == Stopped(p.current.value)
    ensures r.1.None? ==> r.0.current == Some(p.nextId) && r.0.log != [] && r.0.log[|r.0.log| - 1] == Started(p.nextId, now)
    ensures r.1.Some? ==> r.0.current == p.current
  {
    StartClip(StopCurrent(p), base64, now)
  }

  /** At most one one-shot source plays, and it is the current one. */
  predicate OneCurrent(p: Player) {
    Live(p.log) <= (if p.current.Some? then {p.current.value} else {}) &&
    (forall e :: e in p.log ==> (e.Started? ==> e.id < p.nextId)) &&
    (p.current.Some? ==> p.current.value < p.nextId)
  }

  lemma InitialOneCurrent()
    ensures OneCurrent(Initial)
  {
  }

  lemma StopCurrentSilences(p: Player)
    requires OneCurrent(p)
    ensures Live(StopCurrent(p).log) == {}
    ensures OneCurrent(StopCurrent(p))
  {
    var q := StopCurrent(p);
    if p.current.Some? {
      assert q.log[..|q.log| - 1] == p.log;
    }
  }

  lemma StartClipKeepsOneCurrent(q: Player, base64: string, now: real)
    requires OneCurrent(q) && Live(q.log) == {}
    ensures OneCurrent(StartClip(q, base64, now).0)
    ensures StartClip(q, base64, now).1.None? ==> Live(StartClip(q, base64, now).0.log) == {q.nextId}
    ensures StartClip(q, base64, now).1.Some? ==> Live(StartClip(q, base64, now).0.log) == {}
  {
    var r := StartClip(q, base64, now);
    if r.1.None? {
      assert r.0.log[..|r.0.log| - 1] == q.log;
    }
  }

  /** Every call keeps at most one source playing; after a successful call the new
      source is the only one, and after a throw none is. */
  lemma PlayPcmKeepsOneCurrent(p: Player, base64: string, now: real)
    requires OneCurrent(p)
    ensures OneCurrent(PlayPcm(p, base64, now).0)
    ensures PlayPcm(p, base64, now).1.None? ==> Live(PlayPcm(p, base64, now).0.log) == {p.nextId}
    ensures PlayPcm(p, base64, now).1.Some? ==> Live(PlayPcm(p, base64, now).0.log) == {}
  {
    StopCurrentSilences(p);
    StartClipKeepsOneCurrent(StopCurrent(p), base64, now);
  }

  /** A payload of one byte (or none) still stops the previous clip, then throws
      NotSupportedError; nothing is left playing. */
  lemma ShortClipSilences(p: Player, base64: string, now: real)
    requires OneCurrent(p)
    requires PcmBytes(base64).Ok? && |PcmBytes(base64).value| < 2
    ensures PlayPcm(p, base64, now).1 == Some(NotSupportedError)
    ensures Live(PlayPcm(p, base64, now).0.log) == {}
  {
    PlayPcmKeepsOneCurrent(p, base64, now);
  }

  /** Sample i of the clip now playing is the little-endian pair at bytes 2i and
      2i+1 of the decoded payload, divided by 32768; a trailing odd byte is not
      played. */
  lemma PlayedSamples(p: Player, base64: string, now: real, i: nat)
    requires PlayPcm(p, base64, now).1.None?
    requires i < |PcmBytes(base64).value| / 2
    ensures PlayPcm(p, base64, now).0.currentBuffer.value.length == |PcmBytes(base64).value| / 2
    ensures var bytes := PcmBytes(base64).value;
      PlayPcm(p, base64, now).0.currentBuffer.value.channels[0][i] ==
      Pcm.ToFloat(Pcm.Int16LE(bytes[2 * i], bytes[2 * i + 1]))
  {
    MonoSample(PcmBytes(base64).value, i);
  }
}
