/** The voice component's chat history: input transcriptions become user entries,
    output transcriptions are appended to the agent's entry in progress. */
module Transcript {
  import opened Basics

  datatype Sender = User | Ai

  /** An entry's key: `Date.now().toString()` for a user entry and the same with
      "-ai" appended for an agent entry, kept here as the millisecond stamp and the
      kind of key it was written into. */
  datatype EntryId = UserStamp(ms: nat) | AiStamp(ms: nat)

  /** A `ChatMessage`. */
  datatype Entry = Entry(id: EntryId, sender: Sender, text: string)

  /** An input transcription: a new user entry at the end. */
  function AppendUser(log: seq<Entry>, text: string, now: nat): (r: seq<Entry>)
    ensures |r| == |log| + 1 && r[..|log|] == log
    ensures r[|log|].sender == User && r[|log|].text == text
  {
    log + [Entry(UserStamp(now), User, text)]
  }

  /** An output transcription: when the last entry is the agent's, its text is
      extended (its key kept); otherwise a new agent entry is appended. */
  function AppendAgent(log: seq<Entry>, text: string, now: nat): (r: seq<Entry>)
    ensures |log| <= |r| <= |log| + 1
    ensures r != [] && r[|r| - 1].sender == Ai
    ensures r[..|log| - (if |r| == |log| then 1 else 0)] == log[..|log| - (if |r| == |log| then 1 else 0)]
    ensures |r| == |log| <==> log != [] && log[|log| - 1].sender == Ai
    ensures |r| == |log| ==> r[|r| - 1] == log[|log| - 1].(text := log[|log| - 1].text + text)
    ensures |r| == |log| + 1 ==> r[|log|] == Entry(AiStamp(now), Ai, text)
  {
    if |log| > 0 && log[|log| - 1].sender == Ai then
      var last := log[|log| - 1];
      log[..|log| - 1] + [last.(text := last.text + text)]
    else
      log + [Entry(AiStamp(now), Ai, text)]
  }

  /** The transcript part of `onmessage`: an input transcription wins over an output
      transcription in the same message. */
  function OnTranscription(log: seq<Entry>, input: Option<string>, output: Option<string>, now: nat): (r: seq<Entry>)
    ensures |log| <= |r| <= |log| + 1
    ensures AllText(r) == AllText(log) + (if input.Some? then input.value else if output.Some? then output.value else "")
  {
    if input.Some? then
      AppendKeepsText(log, input.value, now);
      AppendUser(log, input.value, now)
    else if output.Some? then
      AppendKeepsText(log, output.value, now);
      AppendAgent(log, output.value, now)
    else log
  }

  /** Agent speech is never split across two adjacent entries. */
  predicate NoAdjacentAi(log: seq<Entry>) {
    forall k :: 0 <= k < |log| - 1 ==> !(log[k].sender == Ai && log[k + 1].sender == Ai)
  }

  /** Everything said, in order: the entries' texts concatenated. */
  function AllText(log: seq<Entry>): string
    decreases |log|
  {
    if log == [] then "" else AllText(log[..|log| - 1]) + log[|log| - 1].text
  }

  /** Appending a fragment of either kind adds exactly that fragment's text to the
      conversation: nothing is lost, duplicated or reordered. */
  lemma AppendKeepsText(log: seq<Entry>, text: string, now: nat)
    ensures AllText(AppendUser(log, text, now)) == AllText(log) + text
    ensures AllText(AppendAgent(log, text, now)) == AllText(log) + text
  {
    var u := AppendUser(log, text, now);
    assert u[..|u| - 1] == log;
    var a := AppendAgent(log, text, now);
    if |a| == |log| {
      var init := log[..|log| - 1];
      assert a[..|a| - 1] == init;
      assert AllText(log) == AllText(init) + log[|log| - 1].text;
    } else {
      assert a[..|a| - 1] == log;
    }
  }

  lemma AppendPreservesNoAdjacentAi(log: seq<Entry>, text: string, now: nat)
    requires NoAdjacentAi(log)
    ensures NoAdjacentAi(AppendUser(log, text, now))
    ensures NoAdjacentAi(AppendAgent(log, text, now))
  {
  }

  lemma OnTranscriptionPreservesNoAdjacentAi(log: seq<Entry>, input: Option<string>, output: Option<string>, now: nat)
    requires NoAdjacentAi(log)
    ensures NoAdjacentAi(OnTranscription(log, input, output, now))
  {
    if input.Some? {
      AppendPreservesNoAdjacentAi(log, input.value, now);
    } else if output.Some? {
      AppendPreservesNoAdjacentAi(log, output.value, now);
    }
  }

  function Concat(fragments: seq<string>): string
    decreases |fragments|
  {
    if fragments == [] then "" else Concat(fragments[..|fragments| - 1]) + fragments[|fragments| - 1]
  }

  /** Feeding agent fragments one after another. */
  function AgentRun(log: seq<Entry>, fragments: seq<string>, now: nat): seq<Entry>
    decreases |fragments|
  {
    if fragments == [] then log
    else AppendAgent(AgentRun(log, fragments[..|fragments| - 1], now), fragments[|fragments| - 1], now)
  }

  /** A run of agent fragments after a user entry (or at the start) becomes one
      agent entry holding their concatenation, keyed by the first fragment's stamp;
      everything before it is untouched. */
  lemma {:induction false} AgentRunIsOneEntry(log: seq<Entry>, fragments: seq<string>, now: nat)
    requires log == [] || log[|log| - 1].sender == User
    requires fragments != []
    ensures AgentRun(log, fragments, now) == log + [Entry(AiStamp(now), Ai, Concat(fragments))]
    decreases |fragments|
  {
    var init := fragments[..|fragments| - 1];
    if init == [] {
      assert AgentRun(log, fragments, now) == AppendAgent(log, fragments[0], now);
      assert Concat(fragments) == "" + fragments[0] == fragments[0];
    } else {
      AgentRunIsOneEntry(log, init, now);
    }
  }

  /** "hi" from the user, then "hello" and " there" from the agent, gives one user
      entry and one agent entry holding "hello there". */
  lemma ExampleConversation()
    ensures var log := OnTranscription([], Some("hi"), None, 1);
      var log2 := OnTranscription(log, None, Some("hello"), 2);
      var log3 := OnTranscription(log2, None, Some(" there"), 3);
      log3 == [Entry(UserStamp(1), User, "hi"), Entry(AiStamp(2), Ai, "hello there")]
  {
    var log := OnTranscription([], Some("hi"), None, 1);
    assert log == [Entry(UserStamp(1), User, "hi")];
    var log2 := OnTranscription(log, None, Some("hello"), 2);
    assert log2 == [Entry(UserStamp(1), User, "hi"), Entry(AiStamp(2), Ai, "hello")];
    assert "hello" + " there" == "hello there";
  }

  /** An input transcription is recorded even when the same message also carries
      an output transcription, which is then dropped. */
  lemma InputWins(log: seq<Entry>, input: string, output: string, now: nat)
    ensures OnTranscription(log, Some(input), Some(output), now) == log + [Entry(UserStamp(now), User, input)]
  {
  }
}
