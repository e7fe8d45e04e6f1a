/** The logic of the result view: the records of an analysis, the colour and label
    of the sinner score, the score gauge, the marker popover and the "Hear
    Roasting" button. */
module AnalysisView {
  import opened Basics
  import opened OneShot

  /** `healthImpact`: 'GOOD' | 'NEUTRAL' | 'BAD'. */
  datatype HealthImpact = Good | Neutral | Bad

  /** `DetectedItem`; `x` and `y` place the marker, as percentages of the image. */
  datatype DetectedItem = DetectedItem(
    name: string, category: string, healthImpact: HealthImpact, freshness: real,
    roast: string, x: real, y: real, isExpiryBomb: bool)

  /** `rescueRecipe`. */
  datatype Recipe = Recipe(title: string, description: string, ingredients: seq<string>, steps: seq<string>)

  /** `AnalysisResponse`; the score is declared to lie between 0 and 100. */
  datatype AnalysisResponse = AnalysisResponse(
    sinnerScore: real, personaDialogue: string, personaName: string,
    items: seq<DetectedItem>, rescueRecipe: Recipe)

  /** The three severities the score is shown in. */
  datatype Tone = Rose | Amber | Emerald

  /** Severity: above 70 is rose, above 30 amber, anything else emerald. */
  function ScoreTone(score: real): (t: Tone)
    ensures t == Rose <==> score > 70.0
    ensures t == Amber <==> 30.0 < score <= 70.0
    ensures t == Emerald <==> score <= 30.0
  {
    if score > 70.0 then Rose else if score > 30.0 then Amber else Emerald
  }

  function Rank(t: Tone): nat {
    match t
    case Emerald => 0
    case Amber => 1
    case Rose => 2
  }

  /** A higher score is never shown in a milder tone. */
  lemma ToneMonotone(a: real, b: real)
    requires a <= b
    ensures Rank(ScoreTone(a)) <= Rank(ScoreTone(b))
  {
  }

  /** `scoreColor`. */
  function ScoreColor(score: real): (c: string)
    ensures ScoreTone(score) == Rose ==> c == "text-rose-400"
    ensures ScoreTone(score) == Amber ==> c == "text-amber-400"
    ensures ScoreTone(score) == Emerald ==> c == "text-emerald-400"
  {
    if score > 70.0 then "text-rose-400" else if score > 30.0 then "text-amber-400" else "text-emerald-400"
  }

  /** `scoreBg`. */
  function ScoreBg(score: real): (c: string)
    ensures ScoreTone(score) == Rose ==> c == "bg-rose-500/10"
    ensures ScoreTone(score) == Amber ==> c == "bg-amber-500/10"
    ensures ScoreTone(score) == Emerald ==> c == "bg-emerald-500/10"
  {
    if score > 70.0 then "bg-rose-500/10" else if score > 30.0 then "bg-amber-500/10" else "bg-emerald-500/10"
  }

  /** The text and the background of the badge always show the same tone. */
  lemma ColorAndBgAgree(score: real)
    ensures ScoreColor(score) == "text-rose-400" <==> ScoreBg(score) == "bg-rose-500/10"
    ensures ScoreColor(score) == "text-amber-400" <==> ScoreBg(score) == "bg-amber-500/10"
    ensures ScoreColor(score) == "text-emerald-400" <==> ScoreBg(score) == "bg-emerald-500/10"
  {
  }

  /** The left border of the persona card: rose above 70, sky otherwise. */
  function BorderClass(score: real): (c: string)
    ensures c == "border-rose-500" <==> ScoreTone(score) == Rose
    ensures c == "border-sky-500" <==> ScoreTone(score) != Rose
  {
    if score > 70.0 then "border-rose-500" else "border-sky-500"
  }

  /** The badge text under the gauge. */
  function StatusLabel(score: real): (text: string)
    ensures text == "Requires Attention" <==> score > 70.0
    ensures text == "Pristine State" <==> score < 30.0
    ensures text == "Balanced Stock" <==> 30.0 <= score <= 70.0
  {
    if score > 70.0 then "Requires Attention" else if score < 30.0 then "Pristine State" else "Balanced Stock"
  }

  /** The label and the colour use different comparisons at the low end: they
      agree on every score except exactly 30, which is coloured emerald but
      labelled "Balanced Stock". */
  lemma LabelMatchesToneExceptAt30(score: real)
    ensures StatusLabel(score) == "Requires Attention" <==> ScoreTone(score) == Rose
    ensures (StatusLabel(score) == "Pristine State" <==> ScoreTone(score) == Emerald) <==> score != 30.0
    ensures score == 30.0 ==> ScoreColor(score) == "text-emerald-400" && StatusLabel(score) == "Balanced Stock"
  {
  }

  /** The circumference the gauge's dash pattern uses. */
  const GaugeLength: real := 502.0

  /** `strokeDashoffset`: the part of the ring left undrawn. */
  function DashOffset(score: real): (offset: real)
    ensures 0.0 <= score <= 100.0 ==> 0.0 <= offset <= GaugeLength
    ensures GaugeLength - offset == GaugeLength * score / 100.0
  {
    GaugeLength - (GaugeLength * score) / 100.0
  }

  /** A higher score draws more of the ring. */
  lemma DashOffsetAntitone(a: real, b: real)
    requires a <= b
    ensures DashOffset(b) <= DashOffset(a)
  {
  }

  /** The score can be read back off the gauge. */
  lemma ScoreFromDashOffset(score: real)
    ensures score == (GaugeLength - DashOffset(score)) * 100.0 / GaugeLength
  {
  }

  /** A marker click: select the marker, or deselect it when it is the selected one. */
  function Toggle(active: Option<nat>, idx: nat): (r: Option<nat>)
    ensures r == Some(idx) <==> active != Some(idx)
    ensures r == None <==> active == Some(idx)
  {
    if active == Some(idx) then None else Some(idx)
  }

  /** Clicking the same marker twice restores the selection exactly when nothing
      or that marker was selected; when another marker was open, two clicks
      leave nothing selected. */
  lemma ToggleTwice(active: Option<nat>, idx: nat)
    ensures Toggle(Toggle(active, idx), idx) == active <==> active == None || active == Some(idx)
    ensures Toggle(Toggle(active, idx), idx) == None <==> active != Some(idx)
  {
  }

  /** The effect on new results, once its one-second timer fires: the first item
      is selected when there is one; otherwise the selection is left alone. */
  function AutoSelect(results: Option<AnalysisResponse>, active: Option<nat>): (r: Option<nat>)
    ensures r == Some(0) || r == active
    ensures (results.Some? && |results.value.items| > 0) ==> r == Some(0)
    ensures r != active ==> results.Some? && |results.value.items| > 0
  {
    if results.Some? && |results.value.items| > 0 then Some(0) else active
  }

  /** The timer firing again changes nothing, and a click on the first marker
      after it has opened closes it again. */
  lemma AutoSelectThenToggle(results: Option<AnalysisResponse>, active: Option<nat>)
    ensures AutoSelect(results, AutoSelect(results, active)) == AutoSelect(results, active)
    ensures results.Some? && |results.value.items| > 0 ==> Toggle(AutoSelect(results, active), 0) == None
    ensures results.None? ==> Toggle(AutoSelect(results, active), 0) == Toggle(active, 0)
  {
  }

  /** The view's state: the open marker, the item being voiced, and the one-shot player. */
  datatype View = View(activeItem: Option<nat>, speaking: Option<nat>, player: Player)

  /** `handleSpeakItem(idx)` up to its `await`: ignored without results or while
      another item is being voiced; otherwise the item is marked as speaking and
      its roast goes to speech synthesis. An index with no item throws before the
      `await`, and the `finally` clears the mark again. */
  function HandleSpeakItem(v: View, results: Option<AnalysisResponse>, idx: nat): (r: (View, Option<string>))
    ensures results.None? || v.speaking.Some? ==> r == (v, None)
    ensures r.1.Some? <==> results.Some? && v.speaking.None? && idx < |results.value.items|
    ensures r.1.Some? ==> r.0 == v.(speaking := Some(idx)) && r.1.value == results.value.items[idx].roast
    ensures r.1.None? ==> r.0 == v
  {
    if results.None? || v.speaking.Some? then (v, None)
    else if idx < |results.value.items| then (v.(speaking := Some(idx)), Some(results.value.items[idx].roast))
    else (v, None)
  }

  /** The end of `handleSpeakItem`: when synthesis returned audio it is played (a
      throw there is swallowed), and in every case the mark is cleared. */
  function SpeechSettled(v: View, speech: Option<string>, now: real): (r: View)
    ensures r.speaking.None? && r.activeItem == v.activeItem
    ensures speech.None? ==> r.player == v.player
    ensures speech.Some? ==> r.player == PlayPcm(v.player, speech.value, now).0
  {
    var player := if speech.Some? then PlayPcm(v.player, speech.value, now).0 else v.player;
    v.(speaking := None, player := player)
  }

  /** While an item is being voiced a second request changes nothing and sends
      nothing: one request at a time. */
  lemma OneSpeechAtATime(v: View, results: Option<AnalysisResponse>, i: nat, j: nat)
    requires results.Some? && i < |results.value.items| && v.speaking.None?
    ensures var first := HandleSpeakItem(v, results, i);
      first.0.speaking == Some(i) &&
      HandleSpeakItem(first.0, results, j) == (first.0, None)
  {
  }

  /** Once the request settles, another one can start. */
  lemma SettledAllowsNext(v: View, speech: Option<string>, now: real, results: Option<AnalysisResponse>, j: nat)
    requires results.Some? && j < |results.value.items|
    ensures HandleSpeakItem(SpeechSettled(v, speech, now), results, j).1.Some?
  {
  }

  /** The view keeps the player's invariant: whatever the outcome, at most one
      one-shot clip is playing. */
  lemma SpeechSettledKeepsOneCurrent(v: View, speech: Option<string>, now: real)
    requires OneCurrent(v.player)
    ensures OneCurrent(SpeechSettled(v, speech, now).player)
  {
    if speech.Some? {
      PlayPcmKeepsOneCurrent(v.player, speech.value, now);
    }
  }
}
