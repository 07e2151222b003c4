/**
 * The stage-ladder strategy. Every item sits on a rung (`stage`); a correct
 * first-pass answer moves it one rung up (never past `stages`), a wrong one
 * back to the first rung or one rung down, and the delay until the next
 * review is the rung's timing in days. Retry passes never move the item.
 */
module Leitner {
  import opened Wrappers
  import opened Utils
  import opened Algorithms

  /** Per-item state: the rung the item is on, 0 before its first review. */
  datatype LeitnerData = LeitnerData(stage: int)

  /** What one call of `onSelection` yields: its result and the item state it leaves. */
  datatype Outcome = Outcome(result: ReviewResult, data: LeitnerData)

  /** The settings carry the three properties the strategy reads, with their types. */
  predicate WellTyped(s: Record)
  {
    && "stages" in s && s["stages"].Num?
    && "resetOnIncorrect" in s && s["resetOnIncorrect"].Flag?
    && "timings" in s && s["timings"].Nums?
  }

  /** Every property of `s` that the strategy knows has the type it expects. */
  predicate KnownKeysWellTyped(s: Record)
  {
    && ("stages" in s ==> s["stages"].Num?)
    && ("resetOnIncorrect" in s ==> s["resetOnIncorrect"].Flag?)
    && ("timings" in s ==> s["timings"].Nums?)
  }

  function Stages(s: Record): int
    requires WellTyped(s)
  {
    s["stages"].n
  }

  function ResetOnIncorrect(s: Record): bool
    requires WellTyped(s)
  {
    s["resetOnIncorrect"].b
  }

  function Timings(s: Record): seq<int>
    requires WellTyped(s)
  {
    s["timings"].ns
  }

  /** The shape the settings tab maintains: at least one stage, and a timing for each. */
  predicate ValidLadder(s: Record)
  {
    WellTyped(s) && 1 <= Stages(s) <= |Timings(s)|
  }

  /** `defaultSettings`: six stages, reset on a wrong answer, one timing per stage. */
  function DefaultSettings(): (r: Record)
    ensures r.Keys == {"stages", "resetOnIncorrect", "timings"}
    ensures ValidLadder(r) && |Timings(r)| == Stages(r) == 6
    ensures ResetOnIncorrect(r) && Timings(r) == [1, 3, 7, 14, 30, 180]
  {
    map["stages" := Num(6), "resetOnIncorrect" := Flag(true), "timings" := Nums([1, 3, 7, 14, 30, 180])]
  }

  /** `defaultData`: a new item starts below the first rung. */
  function DefaultData(): (d: LeitnerData)
    ensures d.stage == 0
  {
    LeitnerData(0)
  }

  /** `srsOptions`: the answer buttons, most negative first. */
  function SrsOptions(): (r: seq<string>)
    ensures |r| == 2 && r[0] == "Wrong" && r[1] == "Correct"
  {
    ["Wrong", "Correct"]
  }

  /**
   * `timings[stage - 1] * DAYS_TO_MILLIS`. Indexing outside the list reads
   * `undefined`, and the product is NaN.
   */
  function Delay(timings: seq<int>, stage: int): (r: Millis)
    ensures r.Finite? <==> 1 <= stage <= |timings|
    ensures r.Finite? ==> r.ms == timings[stage - 1] * DaysToMillis
  {
    if 1 <= stage <= |timings| then Finite(timings[stage - 1] * DaysToMillis) else NaN
  }

  /**
   * The timings list after the stage count changes from `oldStages` to
   * `stages` in the settings tab: zeros are appended when growing, the list is
   * cut to its first `stages` entries when shrinking.
   */
  function ResizeTimings(timings: seq<int>, oldStages: int, stages: int): (r: seq<int>)
    requires stages >= 1
    ensures forall i :: 0 <= i < |r| && i < |timings| ==> r[i] == timings[i]
    ensures forall i :: |timings| <= i < |r| ==> r[i] == 0
    ensures |timings| == oldStages ==> |r| == stages
    ensures oldStages <= |timings| ==> stages <= |r|
  {
    if oldStages < stages then timings + seq(stages - oldStages, _ => 0)
    else if oldStages > stages then timings[..Min(stages, |timings|)]
    else timings
  }

  class LeitnerAlgorithm {
    var settings: Record

    /**
     * `updateSettings`: the defaults, overlaid with the values `s` has for
     * the properties the defaults know; other properties of `s` are dropped.
     */
    method UpdateSettings(s: Option<Record>)
      modifies this
      ensures settings.Keys == DefaultSettings().Keys
      ensures forall k :: k in settings && s.Some? && k in s.value ==> settings[k] == s.value[k]
      ensures forall k :: k in settings && (s.None? || k !in s.value) ==> settings[k] == DefaultSettings()[k]
      ensures s.None? ==> settings == DefaultSettings()
      ensures s.None? || KnownKeysWellTyped(s.value) ==> WellTyped(settings)
    {
      var defaults := new Obj(DefaultSettings());
      var merged := AssignOnly(defaults, s);
      settings := merged.fields;
    }

    /**
     * `onSelection`: judges `option` and moves the item along the ladder.
     * A retry pass (`repeat`) only judges, and reports the delay -1.
     */
    function OnSelection(data: LeitnerData, option: string, repeat: bool): (r: Outcome)
      reads this
      requires WellTyped(settings)
      ensures r.result.correct <==> option == "Correct"
      ensures repeat ==> r.result.nextReview == Finite(-1) && r.data == data
      ensures !repeat && option == "Correct" ==> r.data.stage == Min(data.stage + 1, Stages(settings))
      ensures !repeat && option != "Correct" && ResetOnIncorrect(settings) ==> r.data.stage == 1
      ensures !repeat && option != "Correct" && !ResetOnIncorrect(settings) ==> r.data.stage == Max(1, data.stage - 1)
      ensures !repeat ==> r.result.nextReview == Delay(Timings(settings), r.data.stage)
    {
      if option == "Correct" then
        if repeat then Outcome(ReviewResult(true, Finite(-1)), data)
        else
          var stage := if data.stage + 1 > Stages(settings) then Stages(settings) else data.stage + 1;
          Outcome(ReviewResult(true, Delay(Timings(settings), stage)), LeitnerData(stage))
      else
        if repeat then Outcome(ReviewResult(false, Finite(-1)), data)
        else
          var stage := if ResetOnIncorrect(settings) then 1 else Max(1, data.stage - 1);
          Outcome(ReviewResult(false, Delay(Timings(settings), stage)), LeitnerData(stage))
    }

    /**
     * The "Stages" field of the settings tab: a count below 1 is refused;
     * otherwise the count is stored and the timings list is grown with zeros
     * or cut to match.
     */
    method SetStages(stages: int)
      requires WellTyped(settings)
      modifies this
      ensures stages < 1 ==> settings == old(settings)
      ensures stages >= 1 ==> settings == old(settings)["stages" := Num(stages)]["timings" := Nums(ResizeTimings(old(Timings(settings)), old(Stages(settings)), stages))]
      ensures WellTyped(settings)
      ensures old(ValidLadder(settings)) ==> ValidLadder(settings)
      ensures stages >= 1 && old(|Timings(settings)| == Stages(settings)) ==> |Timings(settings)| == Stages(settings) == stages
    {
      if stages < 1 {
        return;
      }
      var oldStages := Stages(settings);
      var timings := Timings(settings);
      settings := settings["stages" := Num(stages)];
      if oldStages < stages {
        settings := settings["timings" := Nums(timings + seq(stages - oldStages, _ => 0))];
      } else if oldStages > stages {
        settings := settings["timings" := Nums(timings[..Min(stages, |timings|)])];
      } else {
        settings := settings["timings" := Nums(timings)];
      }
    }
  }

  /**
   * On a well-formed ladder, a first-pass answer leaves the item on a rung
   * between 1 and `stages`, so the timing it reads exists and the delay is a
   * number.
   */
  lemma StageStaysOnLadder(alg: LeitnerAlgorithm, data: LeitnerData, option: string)
    requires ValidLadder(alg.settings)
    requires 0 <= data.stage <= Stages(alg.settings)
    ensures var r := alg.OnSelection(data, option, false);
      && 1 <= r.data.stage <= Stages(alg.settings)
      && r.result.nextReview == Finite(Timings(alg.settings)[r.data.stage - 1] * DaysToMillis)
  {
  }

  /** Of the offered answers exactly the second, "Correct", counts as correct. */
  lemma OptionsJudged(alg: LeitnerAlgorithm, data: LeitnerData, repeat: bool, i: int)
    requires WellTyped(alg.settings)
    requires 0 <= i < |SrsOptions()|
    ensures alg.OnSelection(data, SrsOptions()[i], repeat).result.correct <==> i == 1
  {
  }

  /**
   * Three stages timed 1, 2 and 5 days, reset on a wrong answer: from a new
   * item, Correct gives stage 1 and one day, Correct again stage 2 and two
   * days, then Wrong back to stage 1 and one day.
   */
  lemma LadderScenario(alg: LeitnerAlgorithm)
    requires alg.settings == map["stages" := Num(3), "resetOnIncorrect" := Flag(true), "timings" := Nums([1, 2, 5])]
    ensures var r1 := alg.OnSelection(DefaultData(), "Correct", false);
      && r1 == Outcome(ReviewResult(true, Finite(DaysToMillis)), LeitnerData(1))
      && var r2 := alg.OnSelection(r1.data, "Correct", false);
      && r2 == Outcome(ReviewResult(true, Finite(2 * DaysToMillis)), LeitnerData(2))
      && var r3 := alg.OnSelection(r2.data, "Wrong", false);
      && r3 == Outcome(ReviewResult(false, Finite(DaysToMillis)), LeitnerData(1))
  {
  }

  /**
   * An item that climbed to stage 6 on the default ladder, after the ladder
   * was cut to three stages (timings [1, 2, 5]) with `resetOnIncorrect` off:
   * a wrong answer moves it to stage 5, whose timing does not exist, so the
   * delay is NaN.
   */
  lemma ShrunkLadderDelayIsNaN(alg: LeitnerAlgorithm)
    requires alg.settings == map["stages" := Num(3), "resetOnIncorrect" := Flag(false), "timings" := Nums([1, 2, 5])]
    ensures alg.OnSelection(LeitnerData(6), "Wrong", false) == Outcome(ReviewResult(false, NaN), LeitnerData(5))
  {
  }
}
