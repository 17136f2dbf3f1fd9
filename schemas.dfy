// The validation rules of src/lib/setup/config/schemas.ts that the activity
// rotation relies on: the time-of-day format, the activity URL pattern and
// the non-empty activity list. A time of day is represented by its minute of
// the day.
module Schemas {
  import opened Monads

  /** `\d` of a regular expression without the `u` flag. */
  predicate IsDigit(c: char)
  {
    '0' <= c <= '9'
  }

  function DigitValue(c: char): (d: nat)
    requires IsDigit(c)
    ensures d < 10
  {
    (c as int) - ('0' as int)
  }

  function DigitChar(d: nat): (c: char)
    requires d < 10
    ensures IsDigit(c) && DigitValue(c) == d
  {
    (('0' as int) + d) as char
  }

  /** The match of `/^(\d{2}):(\d{2})$/`. */
  predicate MatchesTimePattern(s: string)
  {
    |s| == 5 && IsDigit(s[0]) && IsDigit(s[1]) && s[2] == ':' && IsDigit(s[3]) && IsDigit(s[4])
  }

  /**
   * `timeOfDaySchema`: a string of two digits, `:`, two digits, with an hour
   * below 24 and a minute below 60, parsed to its minute of the day.
   */
  function ParseTimeOfDay(s: string): (r: Maybe<nat>)
    ensures r.Some? <==> (MatchesTimePattern(s)
      && 10 * DigitValue(s[0]) + DigitValue(s[1]) < 24 && 10 * DigitValue(s[3]) + DigitValue(s[4]) < 60)
    ensures r.Some? ==> r.value < 24 * 60
  {
    if !MatchesTimePattern(s) then None
    else
      var hour := 10 * DigitValue(s[0]) + DigitValue(s[1]);
      var minute := 10 * DigitValue(s[3]) + DigitValue(s[4]);
      if hour < 24 && minute < 60 then Some(hour * 60 + minute) else None
  }

  /** The `HH:MM` spelling of a minute of the day. */
  function FormatTimeOfDay(t: nat): (s: string)
    requires t < 24 * 60
    ensures MatchesTimePattern(s)
  {
    var hour, minute := t / 60, t % 60;
    [DigitChar(hour / 10), DigitChar(hour % 10), ':', DigitChar(minute / 10), DigitChar(minute % 10)]
  }

  /** Every minute of the day is spelled in a way the schema accepts, and parses back to itself. */
  lemma ParseFormat(t: nat)
    requires t < 24 * 60
    ensures ParseTimeOfDay(FormatTimeOfDay(t)) == Some(t)
  {
    var s := FormatTimeOfDay(t);
    var hour, minute := t / 60, t % 60;
    assert 10 * DigitValue(s[0]) + DigitValue(s[1]) == hour;
    assert 10 * DigitValue(s[3]) + DigitValue(s[4]) == minute;
  }

  /** Every accepted string is the spelling of the minute it parses to. */
  lemma FormatParse(s: string)
    requires ParseTimeOfDay(s).Some?
    ensures FormatTimeOfDay(ParseTimeOfDay(s).value) == s
  {
    var hour := 10 * DigitValue(s[0]) + DigitValue(s[1]);
    var minute := 10 * DigitValue(s[3]) + DigitValue(s[4]);
    var t := hour * 60 + minute;
    assert t / 60 == hour && t % 60 == minute;
    var f := FormatTimeOfDay(t);
    assert f[0] == s[0] && f[1] == s[1] && f[3] == s[3] && f[4] == s[4];
  }

  /** Accepted and rejected times of day. */
  lemma TimeOfDayExamples()
    ensures ParseTimeOfDay("00:00") == Some(0)
    ensures ParseTimeOfDay("23:59") == Some(23 * 60 + 59)
    ensures ParseTimeOfDay("24:00") == None
    ensures ParseTimeOfDay("12:60") == None
    ensures ParseTimeOfDay("1:00") == None
  {
  }

  /** `\w`: an ASCII letter or digit, or `_`. */
  predicate IsWordChar(c: char)
  {
    'a' <= c <= 'z' || 'A' <= c <= 'Z' || '0' <= c <= '9' || c == '_'
  }

  /** The characters `.` does not match. */
  predicate IsLineTerminator(c: char)
  {
    c == '\n' || c == '\r' || c == '\U{2028}' || c == '\U{2029}'
  }

  /**
   * The match of `/^https:\/\/twitch.tv\/\w{4,25}$/`. The `.` is not escaped,
   * so any character but a line terminator may stand between `twitch` and `tv`.
   */
  predicate MatchesTwitchUrl(s: string)
  {
    && 18 <= |s|
    && s[..14] == "https://twitch"
    && !IsLineTerminator(s[14])
    && s[15..18] == "tv/"
    && 4 <= |s| - 18 <= 25
    && forall i :: 18 <= i < |s| ==> IsWordChar(s[i])
  }

  /** A Twitch channel URL matches exactly when the channel name has 4 to 25 word characters. */
  lemma TwitchChannel(name: string)
    ensures MatchesTwitchUrl("https://twitch.tv/" + name)
      <==> 4 <= |name| <= 25 && forall i :: 0 <= i < |name| ==> IsWordChar(name[i])
  {
    var s := "https://twitch.tv/" + name;
    assert s[..14] == "https://twitch" && s[14] == '.' && s[15..18] == "tv/";
    assert forall i :: 0 <= i < |name| ==> s[18 + i] == name[i];
  }

  /** The unescaped `.` also lets through a host that is not twitch.tv. */
  lemma TwitchLookalike()
    ensures MatchesTwitchUrl("https://twitchxtv/abcd")
  {
    var s := "https://twitchxtv/abcd";
    assert s[..14] == "https://twitch" && s[15..18] == "tv/";
  }

  /** The `type` literals of an activity. */
  datatype ActivityType = Playing | Watching | Listening | Streaming

  /** `activityOptionsSchema`. */
  datatype ActivityOptions = ActivityOptions(name: string, activityType: ActivityType, url: Maybe<string>)

  predicate ValidActivityOptions(a: ActivityOptions)
  {
    a.url.Some? ==> MatchesTwitchUrl(a.url.value)
  }

  /** `activitySetSchema` after parsing: a window of the day and the activities shown in it. */
  datatype ActivitySet = ActivitySet(startTime: nat, endTime: nat, activities: seq<ActivityOptions>)

  predicate ValidActivitySet(s: ActivitySet)
  {
    s.startTime < 24 * 60 && s.endTime < 24 * 60 && |s.activities| >= 1
    && forall i :: 0 <= i < |s.activities| ==> ValidActivityOptions(s.activities[i])
  }

  /**
   * `activitySetSchema.parse`: both times must be valid times of day, and
   * there must be at least one activity, each with a valid URL if any.
   */
  function ParseActivitySet(startTime: string, endTime: string, activities: seq<ActivityOptions>): (r: Maybe<ActivitySet>)
    ensures r.Some? <==> (ParseTimeOfDay(startTime).Some? && ParseTimeOfDay(endTime).Some? && |activities| >= 1
      && forall i :: 0 <= i < |activities| ==> ValidActivityOptions(activities[i]))
    ensures r.Some? ==> ValidActivitySet(r.value) && r.value.activities == activities
  {
    var start := ParseTimeOfDay(startTime);
    var end := ParseTimeOfDay(endTime);
    if start.None? || end.None? || |activities| < 1 then None
    else if exists i :: 0 <= i < |activities| && !ValidActivityOptions(activities[i]) then None
    else Some(ActivitySet(start.value, end.value, activities))
  }
}
