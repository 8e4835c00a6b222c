/**
  The video page's watch-completion gate. A flag, false when the page opens,
  is set by a progress sample that shows fifteen seconds watched or half of
  a known duration, and by the end of playback; nothing clears it. The
  Continue button leads to the survey only once the flag is set.

  Times are real numbers here, not IEEE doubles.
 */
module VideoGate {
  import opened Wrappers

  const MinWatchSeconds: real := 15.0
  const SurveyUrl := "survey.html"

  /** A media element's `duration`: NaN while unknown, positive infinity for
      an unbounded stream, otherwise a number of seconds. */
  datatype Duration = NotANumber | Seconds(value: real) | Unbounded

  /** `if (video.duration)`: NaN and zero are false, anything else is true. */
  predicate HasDuration(d: Duration) {
    d.Unbounded? || (d.Seconds? && d.value != 0.0)
  }

  /** `(currentTime / duration) * 100`; a finite time over an infinite
      duration is 0. */
  function WatchedPercent(currentTime: real, d: Duration): real
    requires HasDuration(d)
  {
    if d.Seconds? then currentTime / d.value * 100.0 else 0.0
  }

  /** Half of a positive duration is a watched percentage of 50 or more. */
  lemma HalfWatchedPercent(currentTime: real, seconds: real)
    requires seconds > 0.0 && 2.0 * currentTime >= seconds
    ensures WatchedPercent(currentTime, Seconds(seconds)) >= 50.0
  {
    var q := currentTime / seconds;
    assert q * seconds == currentTime;
  }

  /** Whether one `timeupdate` sample meets the requirement. Fifteen seconds
      always do; short of that only a watched fraction of one half or more of
      a non-zero, non-NaN duration does. */
  function SampleUnlocks(currentTime: real, d: Duration): (met: bool)
    ensures currentTime >= MinWatchSeconds ==> met
    ensures d.Seconds? && d.value > 0.0 && 2.0 * currentTime >= d.value ==> met
    ensures met && currentTime < MinWatchSeconds ==> d.Seconds? && d.value != 0.0 && currentTime / d.value >= 0.5
    ensures !HasDuration(d) ==> (met <==> currentTime >= MinWatchSeconds)
  {
    if HasDuration(d) then
      (if d.Seconds? && d.value > 0.0 && 2.0 * currentTime >= d.value then
         HalfWatchedPercent(currentTime, d.value); true
       else currentTime >= MinWatchSeconds || WatchedPercent(currentTime, d) >= 50.0)
    else currentTime >= MinWatchSeconds
  }

  /** For a positive duration, "half watched" is `2 * currentTime >= duration`. */
  lemma HalfOfPositiveDuration(currentTime: real, seconds: real)
    requires seconds > 0.0
    ensures SampleUnlocks(currentTime, Seconds(seconds))
            <==> currentTime >= MinWatchSeconds || 2.0 * currentTime >= seconds
  {
    var q := currentTime / seconds;
    assert WatchedPercent(currentTime, Seconds(seconds)) == q * 100.0;
    assert q * seconds == currentTime;
    if q >= 0.5 {
      assert (q - 0.5) * seconds >= 0.0;
    } else {
      assert (0.5 - q) * seconds > 0.0;
    }
  }

  /** The events the gate listens to. */
  datatype MediaEvent = TimeUpdate(currentTime: real, duration: Duration) | Ended

  /** Whether an event, on its own, meets the requirement. */
  predicate Unlocks(e: MediaEvent) {
    e.Ended? || SampleUnlocks(e.currentTime, e.duration)
  }

  /** The flag after one event: `ended` sets it, a sample sets it when it
      meets the requirement, and a set flag stays set. */
  function Step(met: bool, e: MediaEvent): (met': bool)
    ensures met' <==> met || Unlocks(e)
  {
    match e
    case Ended => true
    case TimeUpdate(t, d) => met || SampleUnlocks(t, d)
  }

  /** The flag after a sequence of events. */
  function Run(met: bool, events: seq<MediaEvent>): (met': bool)
    ensures met ==> met'
    ensures events != [] && events[|events| - 1].Ended? ==> met'
    decreases |events|
  {
    if events == [] then met else Run(Step(met, events[0]), events[1..])
  }

  /** After any events the flag is set exactly when it was set before or one
      of the events meets the requirement on its own. */
  lemma {:induction false} RunSpec(met: bool, events: seq<MediaEvent>)
    ensures Run(met, events) <==> met || exists i | 0 <= i < |events| :: Unlocks(events[i])
    decreases |events|
  {
    if events != [] {
      RunSpec(Step(met, events[0]), events[1..]);
      if exists i | 0 <= i < |events| :: Unlocks(events[i]) {
        var i :| 0 <= i < |events| && Unlocks(events[i]);
        if i > 0 { assert events[1..][i - 1] == events[i]; }
      }
      forall i | 0 <= i < |events| - 1 ensures events[1..][i] == events[i + 1] { }
    }
  }

  /** The flag never goes from set back to unset, however many events follow. */
  lemma RunMonotone(events: seq<MediaEvent>, more: seq<MediaEvent>)
    ensures Run(false, events) ==> Run(false, events + more)
  {
    RunSpec(false, events);
    RunSpec(false, events + more);
    if Run(false, events) {
      var i :| 0 <= i < |events| && Unlocks(events[i]);
      assert (events + more)[i] == events[i];
    }
  }

  /** Once playback ends the flag is set, whatever came before. */
  lemma EndedUnlocks(events: seq<MediaEvent>)
    ensures Run(false, events + [Ended])
  {
    RunSpec(false, events + [Ended]);
    assert (events + [Ended])[|events|] == Ended;
  }

  /** With a 20-second video, 16 seconds watched is enough; so is 10 (half).
      With a 40-second video, 18 seconds is enough because it exceeds the
      fifteen-second minimum, while 14 seconds (35%) is not. Without a usable
      duration (NaN or zero) only the fifteen seconds count. */
  lemma SampleExamples()
    ensures SampleUnlocks(16.0, Seconds(20.0))
    ensures SampleUnlocks(10.0, Seconds(20.0))
    ensures SampleUnlocks(18.0, Seconds(40.0))
    ensures !SampleUnlocks(14.0, Seconds(40.0))
    ensures !SampleUnlocks(14.9, NotANumber)
    ensures !SampleUnlocks(10.0, Seconds(0.0))
    ensures !SampleUnlocks(14.0, Unbounded)
  {
    HalfOfPositiveDuration(10.0, 20.0);
    HalfOfPositiveDuration(14.0, 40.0);
  }

  /** The gate of one video page. */
  class Gate {
    var requirementMet: bool

    constructor ()
      ensures !requirementMet
    {
      requirementMet := false;
    }

    /** The `timeupdate` handler. */
    method OnTimeUpdate(currentTime: real, duration: Duration)
      modifies this
      ensures requirementMet == Step(old(requirementMet), TimeUpdate(currentTime, duration))
      ensures old(requirementMet) ==> requirementMet
    {
      if HasDuration(duration) {
        var percent := WatchedPercent(currentTime, duration);
        if !requirementMet && (currentTime >= MinWatchSeconds || percent >= 50.0) {
          requirementMet := true;
        }
      } else {
        if currentTime >= MinWatchSeconds && !requirementMet {
          requirementMet := true;
        }
      }
    }

    /** The `ended` handler. */
    method OnEnded()
      modifies this
      ensures requirementMet
    {
      requirementMet := true;
    }

    /** The Continue button: the survey page once the requirement is met,
        no navigation before. */
    method OnContinueClick() returns (target: Option<string>)
      ensures target.Some? <==> requirementMet
      ensures target.Some? ==> target.value == SurveyUrl
    {
      if !requirementMet {
        return None;
      }
      target := Some(SurveyUrl);
    }
  }
}
