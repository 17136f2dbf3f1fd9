// The presence rotation of src/lib/structures/ActivityRotation.ts: at each
// poll, the first activity set whose window holds the current time is
// chosen, and its activities are shown in turn. The clock
// (`LocalTime.now`) is the parameter `now`, a millisecond of the day; the
// interval timer is the flag `timer`; the call that shows the activity on
// Discord is the value a poll returns.
module ActivityRotation {
  import opened Monads
  import opened Schemas
  import TimeConstants

  /** The milliseconds in a minute: the endpoint `HH:MM` is the instant `HH:MM:00.000`. */
  const MinuteMillis: int := TimeConstants.Milliseconds(TimeConstants.Minute)

  /**
   * `now.compareTo(startTime) >= 0 && now.compareTo(endTime) <= 0`: inclusive
   * at both ends, so a time past the first instant of the end minute is out.
   */
  predicate InWindow(s: ActivitySet, now: int)
  {
    s.startTime * MinuteMillis <= now <= s.endTime * MinuteMillis
  }

  /** `findIndex` from position `k`: the first set at or after `k` whose window holds `now`, or -1. */
  function FindSetFrom(sets: seq<ActivitySet>, now: int, k: nat): (i: int)
    requires k <= |sets|
    ensures i == -1 || (k <= i < |sets| && InWindow(sets[i], now))
    ensures forall j :: k <= j < |sets| && (i == -1 || j < i) ==> !InWindow(sets[j], now)
    decreases |sets| - k
  {
    if k == |sets| then -1
    else if InWindow(sets[k], now) then k
    else FindSetFrom(sets, now, k + 1)
  }

  /** The index of the first set whose window holds `now`, or -1 when there is none. */
  function FindSet(sets: seq<ActivitySet>, now: int): (i: int)
    ensures i == -1 || (0 <= i < |sets| && InWindow(sets[i], now))
    ensures forall j :: 0 <= j < |sets| && (i == -1 || j < i) ==> !InWindow(sets[j], now)
  {
    FindSetFrom(sets, now, 0)
  }

  /** `activities[k]`; `None` stands for `undefined` out of range. */
  function ActivityAt(activities: seq<ActivityOptions>, k: int): (a: Maybe<ActivityOptions>)
    ensures a.Some? <==> 0 <= k < |activities|
  {
    if 0 <= k < |activities| then Some(activities[k]) else None
  }

  /** The indices of the last set used and of the last activity shown from it. */
  datatype Rotation = Rotation(lastSetIndex: int, rotationIndex: int)

  /** The rotation before the first poll. */
  const Initial := Rotation(-1, -1)

  /**
   * `getNextActivity`: with no set matching, nothing changes and the
   * activity is cleared; a set other than the last one starts at its first
   * activity; the same set again moves to its next activity, wrapping to
   * the first after the last.
   */
  function Next(sets: seq<ActivitySet>, r: Rotation, now: int): (res: (Rotation, Maybe<ActivityOptions>))
    ensures FindSet(sets, now) == -1 ==> res == (r, None)
    ensures FindSet(sets, now) != -1 ==>
      (res.0.lastSetIndex == FindSet(sets, now)
       && res.1 == ActivityAt(sets[FindSet(sets, now)].activities, res.0.rotationIndex))
    ensures FindSet(sets, now) != -1 && FindSet(sets, now) != r.lastSetIndex ==> res.0.rotationIndex == 0
    ensures FindSet(sets, now) != -1 && FindSet(sets, now) == r.lastSetIndex ==>
      (res.0.rotationIndex == if r.rotationIndex + 1 == |sets[r.lastSetIndex].activities| then 0 else r.rotationIndex + 1)
  {
    var setIndex := FindSet(sets, now);
    if setIndex == -1 then (r, None)
    else
      var activitySet := sets[setIndex];
      if setIndex == r.lastSetIndex then
        var rotationIndex := r.rotationIndex + 1;
        var rotationIndex := if rotationIndex == |activitySet.activities| then 0 else rotationIndex;
        (Rotation(setIndex, rotationIndex), ActivityAt(activitySet.activities, rotationIndex))
      else
        (Rotation(setIndex, 0), ActivityAt(activitySet.activities, 0))
  }

  /** Every set has an activity, as the configuration schema demands. */
  predicate NonEmptySets(sets: seq<ActivitySet>)
  {
    forall i :: 0 <= i < |sets| ==> |sets[i].activities| >= 1
  }

  /** The rotation is the initial one, or points at an activity of a set. */
  predicate InRange(sets: seq<ActivitySet>, r: Rotation)
  {
    r == Initial
    || (0 <= r.lastSetIndex < |sets| && 0 <= r.rotationIndex < |sets[r.lastSetIndex].activities|)
  }

  /** With non-empty sets, a poll keeps the rotation in range, and shows an activity whenever a set matches. */
  lemma NextInRange(sets: seq<ActivitySet>, r: Rotation, now: int)
    requires NonEmptySets(sets) && InRange(sets, r)
    ensures InRange(sets, Next(sets, r, now).0)
    ensures Next(sets, r, now).1.Some? <==> FindSet(sets, now) != -1
  {
  }

  /** `n` polls at the same time of day. */
  function Polls(sets: seq<ActivitySet>, r: Rotation, now: int, n: nat): (Rotation, Maybe<ActivityOptions>)
  {
    if n == 0 then (r, None) else Next(sets, Polls(sets, r, now, n - 1).0, now)
  }

  /**
   * Within one window, the first round of polls shows the set's activities
   * in order: starting away from the set, the `n`-th poll shows activity
   * `n - 1`.
   */
  lemma {:induction false} PollsFirstRound(sets: seq<ActivitySet>, r: Rotation, now: int, n: nat)
    requires FindSet(sets, now) != -1 && r.lastSetIndex != FindSet(sets, now)
    requires 1 <= n <= |sets[FindSet(sets, now)].activities|
    ensures Polls(sets, r, now, n) == (Rotation(FindSet(sets, now), n - 1), Some(sets[FindSet(sets, now)].activities[n - 1]))
  {
    if n > 1 {
      PollsFirstRound(sets, r, now, n - 1);
      assert Polls(sets, r, now, n) == Next(sets, Rotation(FindSet(sets, now), n - 2), now);
    }
  }

  /** Within one window, the polls repeat with a period of the set's size. */
  lemma {:induction false} PollsPeriod(sets: seq<ActivitySet>, r: Rotation, now: int, n: nat)
    requires FindSet(sets, now) != -1 && r.lastSetIndex != FindSet(sets, now)
    requires |sets[FindSet(sets, now)].activities| >= 1 && n >= 1
    ensures Polls(sets, r, now, n + |sets[FindSet(sets, now)].activities|) == Polls(sets, r, now, n)
  {
    var l := |sets[FindSet(sets, now)].activities|;
    if n == 1 {
      PollsFirstRound(sets, r, now, l);
      assert Polls(sets, r, now, 1) == Next(sets, r, now);
    } else {
      PollsPeriod(sets, r, now, n - 1);
      assert Polls(sets, r, now, n + l) == Next(sets, Polls(sets, r, now, n - 1 + l).0, now);
    }
  }

  /** The activity sets of the unit tests: 00:00-02:00, 02:01-03:00 and 04:31-23:59, two activities each. */
  function TestSets(): seq<ActivitySet>
  {
    [ ActivitySet(0, 120, [ActivityOptions("v1.2.3", Playing, None), ActivityOptions("the world", Watching, None)]),
      ActivitySet(121, 180, [ActivityOptions("Netflix", Watching, None), ActivityOptions("Spotify", Listening, None)]),
      ActivitySet(271, 1439, [ActivityOptions("you", Watching, None), ActivityOptions("with reality", Playing, None)]) ]
  }

  /** The scenarios of the unit tests, and a time just past the end of the first window. */
  lemma TestScenarios()
    ensures Next(TestSets(), Initial, (5 * 60 + 38) * MinuteMillis).1 == Some(TestSets()[2].activities[0])
    ensures Next(TestSets(), Initial, (3 * 60 + 51) * MinuteMillis).1 == None
    ensures Next(TestSets(), Initial, 0).1 == Some(TestSets()[0].activities[0])
    ensures Next(TestSets(), Initial, (23 * 60 + 59) * MinuteMillis).1 == Some(TestSets()[2].activities[0])
    ensures Polls(TestSets(), Initial, (2 * 60 + 1) * MinuteMillis, 2).1 == Some(TestSets()[1].activities[1])
    ensures Polls(TestSets(), Initial, (2 * 60 + 1) * MinuteMillis, 3).1 == Some(TestSets()[1].activities[0])
    ensures Next(TestSets(), Initial, 2 * 60 * MinuteMillis + 30_000).1 == None
  {
    var sets := TestSets();
    assert MinuteMillis == 60_000;
    assert FindSet(sets, (5 * 60 + 38) * MinuteMillis) == 2;
    assert FindSet(sets, (3 * 60 + 51) * MinuteMillis) == -1;
    assert FindSet(sets, 0) == 0;
    assert FindSet(sets, (23 * 60 + 59) * MinuteMillis) == 2;
    assert FindSet(sets, (2 * 60 + 1) * MinuteMillis) == 1;
    assert FindSet(sets, 2 * 60 * MinuteMillis + 30_000) == -1;
    PollsFirstRound(sets, Initial, (2 * 60 + 1) * MinuteMillis, 2);
    PollsFirstRound(sets, Initial, (2 * 60 + 1) * MinuteMillis, 1);
    PollsPeriod(sets, Initial, (2 * 60 + 1) * MinuteMillis, 1);
  }

  /** What a start does: nothing when already running, otherwise one poll and its activity. */
  datatype Poll = NotPolled | Polled(activity: Maybe<ActivityOptions>)

  class ActivityRotation {
    const activitySets: seq<ActivitySet>
    /** The time between two polls, in milliseconds. */
    const activityRotationInterval: int
    /** Whether an interval timer is registered. */
    var timer: bool
    var lastSetIndex: int
    var rotationIndex: int
    /** `_isRunning`, read through the `isRunning` getter. */
    var isRunning: bool

    /** The rotation indices as a value. */
    function State(): Rotation
      reads this
    {
      Rotation(lastSetIndex, rotationIndex)
    }

    /** A timer is registered exactly while the rotation runs. */
    predicate Valid()
      reads this
    {
      timer == isRunning
    }

    /** A new rotation is paused; the interval defaults to five minutes. */
    constructor (activitySets: seq<ActivitySet>, activityRotationInterval: Maybe<int>)
      ensures this.activitySets == activitySets
      ensures this.activityRotationInterval
        == if activityRotationInterval.Some? then activityRotationInterval.value else 5 * TimeConstants.Milliseconds(TimeConstants.Minute)
      ensures State() == Initial && !isRunning && Valid()
    {
      this.activitySets := activitySets;
      this.activityRotationInterval :=
        if activityRotationInterval.Some? then activityRotationInterval.value else 5 * TimeConstants.Milliseconds(TimeConstants.Minute);
      timer := false;
      lastSetIndex := -1;
      rotationIndex := -1;
      isRunning := false;
    }

    /** `start`: when paused, runs, polls once at `now` and registers the timer; when running, does nothing. */
    method Start(now: int) returns (p: Poll)
      requires Valid()
      modifies this
      ensures Valid() && isRunning
      ensures old(isRunning) ==> p == NotPolled && State() == old(State())
      ensures !old(isRunning) ==> p.Polled? && (State(), p.activity) == Next(activitySets, old(State()), now)
    {
      if isRunning {
        return NotPolled;
      }
      isRunning := true;
      var activity := SetNextActivity(now);
      timer := true;
      return Polled(activity);
    }

    /** `stop`: when running, pauses and clears the timer; when paused, does nothing. */
    method Stop()
      requires Valid()
      modifies this
      ensures Valid() && !isRunning && State() == old(State())
    {
      if !isRunning {
        return;
      }
      isRunning := false;
      timer := false;
    }

    /** `setNextActivity`, the timer's callback: the activity it shows. */
    method SetNextActivity(now: int) returns (activity: Maybe<ActivityOptions>)
      modifies this
      ensures (State(), activity) == Next(activitySets, old(State()), now)
      ensures isRunning == old(isRunning) && timer == old(timer)
    {
      activity := GetNextActivity(now);
    }

    /** `getNextActivity` at the millisecond of the day `now`. */
    method GetNextActivity(now: int) returns (activity: Maybe<ActivityOptions>)
      modifies this
      ensures (State(), activity) == Next(activitySets, old(State()), now)
      ensures isRunning == old(isRunning) && timer == old(timer)
    {
      var setIndex := FindSet(activitySets, now);
      if setIndex == -1 {
        return None;
      }
      var activitySet := activitySets[setIndex];
      if setIndex == lastSetIndex {
        rotationIndex := rotationIndex + 1;
        if rotationIndex == |activitySet.activities| {
          rotationIndex := 0;
        }
        return ActivityAt(activitySet.activities, rotationIndex);
      }
      lastSetIndex := setIndex;
      rotationIndex := 0;
      return ActivityAt(activitySet.activities, 0);
    }
  }
}
