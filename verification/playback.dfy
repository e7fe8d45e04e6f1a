/** The voice component's gapless playback queue: a `nextStartTime` cursor on the
    output context's clock and the set of `AudioBufferSourceNode`s it has started,
    which an interruption or the end of the session stops and forgets. */
module Playback {
  import opened AudioData

  /** A started source node: its identity, its start time and its buffer's duration. */
  datatype Source = Source(id: nat, start: real, duration: real)

  /** What the audio graph sees, in order: `source.start(at)` and `source.stop()`. */
  datatype Effect = Started(id: nat, at: real) | Stopped(id: nat)

  /** `nextStartTimeRef`, `sourcesRef` (in insertion order, as a `Set` iterates),
      a supply of fresh node identities, and the effects issued so far. */
  datatype Scheduler = Scheduler(cursor: real, sources: seq<Source>, nextId: nat, log: seq<Effect>)

  /** The refs as the component mounts: cursor 0, no sources. */
  const Initial: Scheduler := Scheduler(0.0, [], 0, [])

  /** The nodes the effects leave playing: started and not stopped since. */
  function Live(log: seq<Effect>): (ids: set<nat>)
    decreases |log|
  {
    if log == [] then {}
    else
      match log[|log| - 1]
      case Started(id, _) => Live(log[..|log| - 1]) + {id}
      case Stopped(id) => Live(log[..|log| - 1]) - {id}
  }

  function Ids(sources: seq<Source>): set<nat> {
    set k | 0 <= k < |sources| :: sources[k].id
  }

  /** Stopping every source, in the order the set holds them. */
  function StopEffects(sources: seq<Source>): (effects: seq<Effect>)
    ensures |effects| == |sources|
    ensures forall k :: 0 <= k < |sources| ==> effects[k] == Stopped(sources[k].id)
  {
    seq(|sources|, k requires 0 <= k < |sources| => Stopped(sources[k].id))
  }

  /** No two tracked sources overlap, each starts when or after its predecessor
      ends, and the last one ends no later than the cursor. */
  predicate Chained(s: Scheduler) {
    (forall k :: 0 <= k < |s.sources| ==> s.sources[k].duration > 0.0) &&
    (forall k :: 0 <= k < |s.sources| - 1 ==>
      s.sources[k].start + s.sources[k].duration <= s.sources[k + 1].start) &&
    (s.sources != [] ==> s.sources[|s.sources| - 1].start + s.sources[|s.sources| - 1].duration <= s.cursor)
  }

  /** The tracked set is exactly what is playing, and every identity is used once. */
  predicate Tracked(s: Scheduler) {
    Live(s.log) == Ids(s.sources) &&
    (forall k :: 0 <= k < |s.sources| ==> s.sources[k].id < s.nextId) &&
    (forall e :: e in s.log ==> (e.Started? ==> e.id < s.nextId))
  }

  predicate Valid(s: Scheduler) {
    s.cursor >= 0.0 && Chained(s) && Tracked(s)
  }

  lemma InitialValid()
    ensures Valid(Initial) && Live(Initial.log) == {}
  {
  }

  /** Scheduling one decoded chunk at context time `now`: the cursor is first
      raised to `now`, the node starts there, the cursor moves past the chunk and
      the node joins the set. */
  function Schedule(s: Scheduler, now: real, buffer: AudioBuffer): (r: Scheduler)
    requires WellFormed(buffer)
    ensures |r.sources| == |s.sources| + 1 && r.sources[..|s.sources|] == s.sources
    ensures var src := r.sources[|s.sources|];
      src.id == s.nextId && src.duration == Duration(buffer) &&
      src.start >= now && src.start >= s.cursor && (src.start == now || src.start == s.cursor) &&
      r.cursor == src.start + Duration(buffer) &&
      r.log == s.log + [Started(s.nextId, src.start)]
    ensures r.nextId == s.nextId + 1
  {
    var start := if s.cursor >= now then s.cursor else now;
    Scheduler(start + Duration(buffer), s.sources + [Source(s.nextId, start, Duration(buffer))],
              s.nextId + 1, s.log + [Started(s.nextId, start)])
  }

  /** The interruption branch of `onmessage`: stop every tracked node, clear the
      set, and put the cursor back to 0. */
  function Interrupt(s: Scheduler): (r: Scheduler)
    ensures r.sources == [] && r.cursor == 0.0 && r.nextId == s.nextId
    ensures s.log <= r.log && Live(r.log) == Live(s.log) - Ids(s.sources)
  {
    LiveAfterStops(s.log, s.sources);
    Scheduler(0.0, [], s.nextId, s.log + StopEffects(s.sources))
  }

  /** The playback part of `stopSession`: stop every tracked node and clear the
      set; the cursor keeps its value. */
  function StopAll(s: Scheduler): (r: Scheduler)
    ensures r.sources == [] && r.cursor == s.cursor && r.nextId == s.nextId
    ensures s.log <= r.log && Live(r.log) == Live(s.log) - Ids(s.sources)
  {
    LiveAfterStops(s.log, s.sources);
    Scheduler(s.cursor, [], s.nextId, s.log + StopEffects(s.sources))
  }

  lemma {:induction false} LiveAfterStops(log: seq<Effect>, sources: seq<Source>)
    ensures Live(log + StopEffects(sources)) == Live(log) - Ids(sources)
    decreases |sources|
  {
    if sources != [] {
      var init := sources[..|sources| - 1];
      var last := sources[|sources| - 1];
      assert StopEffects(sources) == StopEffects(init) + [Stopped(last.id)];
      assert log + StopEffects(sources) == (log + StopEffects(init)) + [Stopped(last.id)];
      LiveAfterStops(log, init);
      assert Ids(sources) == Ids(init) + {last.id} by {
        forall x | x in Ids(sources) ensures x in Ids(init) + {last.id} {
          var k :| 0 <= k < |sources| && sources[k].id == x;
          if k < |init| {
            assert init[k].id == x;
          }
        }
        forall x | x in Ids(init) ensures x in Ids(sources) {
          var k :| 0 <= k < |init| && init[k].id == x;
          assert sources[k].id == x;
        }
      }
    } else {
      assert log + StopEffects(sources) == log;
    }
  }

  /** After an interruption nothing the queue started is still playing. */
  lemma InterruptSilences(s: Scheduler)
    requires Valid(s)
    ensures Valid(Interrupt(s)) && Live(Interrupt(s).log) == {}
  {
    LiveAfterStops(s.log, s.sources);
  }

  /** After stopping the session nothing the queue started is still playing. */
  lemma StopAllSilences(s: Scheduler)
    requires Valid(s)
    ensures Valid(StopAll(s)) && Live(StopAll(s).log) == {}
  {
    LiveAfterStops(s.log, s.sources);
  }

  lemma ScheduleValid(s: Scheduler, now: real, buffer: AudioBuffer)
    requires Valid(s) && now >= 0.0 && WellFormed(buffer)
    ensures Valid(Schedule(s, now, buffer))
    ensures Live(Schedule(s, now, buffer).log) == Live(s.log) + {s.nextId}
  {
    var r := Schedule(s, now, buffer);
    assert r.log[..|r.log| - 1] == s.log;
    assert Ids(r.sources) == Ids(s.sources) + {s.nextId} by {
      forall x | x in Ids(r.sources) ensures x in Ids(s.sources) + {s.nextId} {
        var k :| 0 <= k < |r.sources| && r.sources[k].id == x;
        if k < |s.sources| {
          assert s.sources[k].id == x;
        }
      }
      forall x | x in Ids(s.sources) ensures x in Ids(r.sources) {
        var k :| 0 <= k < |s.sources| && s.sources[k].id == x;
        assert r.sources[k].id == x;
      }
    }
  }

  /** Interrupting twice is interrupting once. */
  lemma InterruptIdempotent(s: Scheduler)
    ensures Interrupt(Interrupt(s)) == Interrupt(s)
  {
    assert Interrupt(s).log + StopEffects([]) == Interrupt(s).log;
  }

  /** After an interruption the next chunk starts at once: `max(0, now) == now`. */
  lemma ScheduleAfterInterrupt(s: Scheduler, now: real, buffer: AudioBuffer)
    requires now >= 0.0 && WellFormed(buffer)
    ensures Schedule(Interrupt(s), now, buffer).sources[0].start == now
  {
  }

  /** Stopping the session leaves the cursor where it was, so a chunk scheduled
      later still waits for it. */
  lemma ScheduleAfterStopAll(s: Scheduler, now: real, buffer: AudioBuffer)
    requires WellFormed(buffer) && now <= s.cursor
    ensures Schedule(StopAll(s), now, buffer).sources[0].start == s.cursor
  {
  }

  /** Two chunks in a row: the second never starts before the first ends, and if
      it arrives before the first ends it starts exactly there, with no gap. */
  lemma ConsecutiveChunks(s: Scheduler, now1: real, b1: AudioBuffer, now2: real, b2: AudioBuffer)
    requires WellFormed(b1) && WellFormed(b2)
    ensures var s1 := Schedule(s, now1, b1);
      var s2 := Schedule(s1, now2, b2);
      var first := s1.sources[|s.sources|];
      var second := s2.sources[|s.sources| + 1];
      first.start + first.duration <= second.start &&
      first.start < second.start &&
      (now2 <= first.start + first.duration ==> second.start == first.start + first.duration)
  {
    var s1 := Schedule(s, now1, b1);
    assert s1.cursor == s1.sources[|s.sources|].start + Duration(b1);
  }

  /** A chunk delivered by `onmessage`: the context time and the decoded buffer. */
  datatype Arrival = Arrival(now: real, buffer: AudioBuffer)

  predicate AllWellFormed(arrivals: seq<Arrival>) {
    forall k :: 0 <= k < |arrivals| ==> WellFormed(arrivals[k].buffer)
  }

  /** Scheduling the chunks one after the other. */
  function Run(s: Scheduler, arrivals: seq<Arrival>): (r: Scheduler)
    requires AllWellFormed(arrivals)
    ensures |r.sources| == |s.sources| + |arrivals| && r.sources[..|s.sources|] == s.sources
    decreases |arrivals|
  {
    if arrivals == [] then s
    else Run(Schedule(s, arrivals[0].now, arrivals[0].buffer), arrivals[1..])
  }

  function TotalDuration(arrivals: seq<Arrival>): real
    requires AllWellFormed(arrivals)
    decreases |arrivals|
  {
    if arrivals == [] then 0.0 else Duration(arrivals[0].buffer) + TotalDuration(arrivals[1..])
  }

  /** A burst of chunks each of which arrives before its own slot (the queue's end
      when it was sent, plus the chunks before it) plays back to back: chunk k
      starts at the old cursor plus the durations of the chunks before it, and the
      cursor ends up past all of them. */
  lemma {:induction false} BurstIsGapless(s: Scheduler, arrivals: seq<Arrival>)
    requires AllWellFormed(arrivals)
    requires forall k :: 0 <= k < |arrivals| ==> arrivals[k].now <= s.cursor + TotalDuration(arrivals[..k])
    ensures Run(s, arrivals).cursor == s.cursor + TotalDuration(arrivals)
    ensures forall k :: 0 <= k < |arrivals| ==>
      Run(s, arrivals).sources[|s.sources| + k].start == s.cursor + TotalDuration(arrivals[..k])
    decreases |arrivals|
  {
    if arrivals != [] {
      var a := arrivals[0];
      assert arrivals[..0] == [];
      var s1 := Schedule(s, a.now, a.buffer);
      var rest := arrivals[1..];
      assert AllWellFormed(rest);
      assert s1.cursor == s.cursor + Duration(a.buffer);
      forall k | 0 <= k < |rest|
        ensures rest[k].now <= s1.cursor + TotalDuration(rest[..k])
      {
        assert arrivals[..k + 1][1..] == rest[..k];
        assert rest[k] == arrivals[k + 1];
      }
      BurstIsGapless(s1, rest);
      var r := Run(s1, rest);
      assert r == Run(s, arrivals);
      assert r.sources[..|s1.sources|] == s1.sources;
      forall k | 0 <= k < |arrivals|
        ensures r.sources[|s.sources| + k].start == s.cursor + TotalDuration(arrivals[..k])
      {
        if k == 0 {
          assert r.sources[|s.sources|] == r.sources[..|s1.sources|][|s.sources|];
        } else {
          assert arrivals[..k][1..] == rest[..k - 1];
          assert r.sources[|s.sources| + k] == r.sources[|s1.sources| + (k - 1)];
        }
      }
    }
  }

  /** After an interruption a burst plays from the moment its first chunk arrives:
      the reset cursor lets chunk 0 start at once, and every later chunk that
      arrives before its slot follows back to back. */
  lemma {:induction false} BurstAfterInterrupt(s: Scheduler, arrivals: seq<Arrival>)
    requires AllWellFormed(arrivals) && arrivals != [] && arrivals[0].now >= 0.0
    requires forall k :: 0 <= k < |arrivals| ==> arrivals[k].now <= arrivals[0].now + TotalDuration(arrivals[..k])
    ensures Run(Interrupt(s), arrivals).cursor == arrivals[0].now + TotalDuration(arrivals)
    ensures forall k :: 0 <= k < |arrivals| ==>
      Run(Interrupt(s), arrivals).sources[k].start == arrivals[0].now + TotalDuration(arrivals[..k])
  {
    var a := arrivals[0];
    var s1 := Schedule(Interrupt(s), a.now, a.buffer);
    var rest := arrivals[1..];
    assert AllWellFormed(rest);
    assert s1.cursor == a.now + Duration(a.buffer);
    forall k | 0 <= k < |rest|
      ensures rest[k].now <= s1.cursor + TotalDuration(rest[..k])
    {
      assert arrivals[..k + 1][1..] == rest[..k];
      assert rest[k] == arrivals[k + 1];
    }
    BurstIsGapless(s1, rest);
    var r := Run(s1, rest);
    assert r == Run(Interrupt(s), arrivals);
    assert r.sources[..1] == s1.sources;
    forall k | 0 <= k < |arrivals|
      ensures r.sources[k].start == a.now + TotalDuration(arrivals[..k])
    {
      if k == 0 {
        assert arrivals[..0] == [];
        assert r.sources[0] == r.sources[..1][0];
      } else {
        assert arrivals[..k][1..] == rest[..k - 1];
      }
    }
  }
}
