/**
 * The timeline of the weather stream: merging the times of the temperature and
 * power series into one sorted, repetition-free sequence, and choosing the
 * position from which playback starts.
 */
module Timeline {
  import opened WeatherModel

  /** Each time comes strictly after the one before it (sorted, no repeats). */
  predicate StrictlyIncreasing(s: seq<Time>) {
    forall i, j :: 0 <= i < j < |s| ==> s[i] < s[j]
  }

  /** No time occurs twice (the contents of a JavaScript `Set`). */
  predicate Distinct(s: seq<Time>) {
    forall i, j :: 0 <= i < j < |s| ==> s[i] != s[j]
  }

  /** The times at which a series has a sample. */
  function TimesOf(series: seq<Sample>): set<Time> {
    set k | 0 <= k < |series| :: series[k].time
  }

  /** Inserts a new time into a sorted timeline. */
  function Insert(x: Time, s: seq<Time>): (r: seq<Time>)
    requires StrictlyIncreasing(s) && x !in s
    ensures StrictlyIncreasing(r)
    ensures |r| == |s| + 1
    ensures forall t :: t in r <==> t == x || t in s
  {
    if s == [] then [x]
    else if x < s[0] then [x] + s
    else
      var rest := Insert(x, s[1..]);
      TailTimes(s);
      assert s[0] < x by { assert s[0] in s; }
      ConsInOrder(s[0], rest);
      [s[0]] + rest
  }

  /**
   * Chronological sort of a repetition-free sequence of times, as
   * `Array.prototype.sort` with a comparator on the times' dates does it.
   */
  function SortTimes(s: seq<Time>): (r: seq<Time>)
    requires Distinct(s)
    ensures StrictlyIncreasing(r)
    ensures |r| == |s|
    ensures forall t :: t in r <==> t in s
  {
    if s == [] then []
    else
      var init := s[..|s| - 1];
      assert forall t :: t in init ==> t in s;
      Insert(s[|s| - 1], SortTimes(init))
  }

  /**
   * The timeline built by `load`: every time of either series is added to a set,
   * and the set is sorted chronologically.
   */
  method MergeTimeline(temperature: seq<Sample>, power: seq<Sample>) returns (times: seq<Time>)
    ensures StrictlyIncreasing(times)
    ensures forall t :: t in times <==> t in TimesOf(temperature) || t in TimesOf(power)
    ensures temperature == [] && power == [] ==> times == []
  {
    // the JavaScript Set, in insertion order
    var timesSet: seq<Time> := [];
    for k := 0 to |temperature|
      invariant Distinct(timesSet)
      invariant forall t :: t in timesSet <==> t in TimesOf(temperature[..k])
    {
      var t := temperature[k].time;
      assert forall u :: u in TimesOf(temperature[..k + 1]) <==> u in TimesOf(temperature[..k]) || u == t;
      if t !in timesSet {
        timesSet := timesSet + [t];
      }
    }
    assert temperature[..|temperature|] == temperature;
    for k := 0 to |power|
      invariant Distinct(timesSet)
      invariant forall t :: t in timesSet <==> t in TimesOf(temperature) || t in TimesOf(power[..k])
    {
      var t := power[k].time;
      assert forall u :: u in TimesOf(power[..k + 1]) <==> u in TimesOf(power[..k]) || u == t;
      if t !in timesSet {
        timesSet := timesSet + [t];
      }
    }
    assert power[..|power|] == power;
    times := SortTimes(timesSet);
    assert times != [] ==> times[0] in TimesOf(temperature) || times[0] in TimesOf(power);
  }

  /** A time earlier than every time of a sorted timeline can be put in front of it. */
  lemma ConsInOrder(h: Time, rest: seq<Time>)
    requires StrictlyIncreasing(rest)
    requires forall t :: t in rest ==> h < t
    ensures StrictlyIncreasing([h] + rest)
  {
    assert forall j :: 0 <= j < |rest| ==> rest[j] in rest;
  }

  /** The times after the head of a sorted timeline are exactly its other times, all later than the head. */
  lemma TailTimes(s: seq<Time>)
    requires StrictlyIncreasing(s) && s != []
    ensures forall t :: t in s[1..] <==> t in s && t != s[0]
    ensures forall t :: t in s[1..] ==> s[0] < t
  {
    forall t | t in s[1..]
      ensures s[0] < t
    {
      var k :| 0 <= k < |s[1..]| && s[1..][k] == t;
      assert s[k + 1] == t;
    }
    forall t | t in s && t != s[0]
      ensures t in s[1..]
    {
      var k :| 0 <= k < |s| && s[k] == t;
      assert s[1..][k - 1] == t;
    }
  }

  /** The head of a sorted timeline is its earliest time. */
  lemma HeadIsLeast(s: seq<Time>, t: Time)
    requires StrictlyIncreasing(s) && t in s
    ensures s[0] <= t
  {
    var k :| 0 <= k < |s| && s[k] == t;
    if k > 0 {
      assert s[0] < s[k];
    }
  }

  /**
   * Two sorted, repetition-free timelines holding the same times are equal: the
   * merged timeline depends only on the union of the two series' times, not on
   * which series is which nor on the order of their samples.
   */
  lemma {:induction false} TimelineDeterminedByTimes(a: seq<Time>, b: seq<Time>)
    requires StrictlyIncreasing(a) && StrictlyIncreasing(b)
    requires forall t :: t in a <==> t in b
    ensures a == b
  {
    if a == [] {
      assert multiset(b) == multiset{} by {
        forall t ensures multiset(b)[t] == 0 { assert t !in a; }
      }
      assert |b| == |multiset(b)| == 0;
    } else {
      assert a[0] in b;
      // the heads are both the least time
      HeadIsLeast(a, b[0]);
      HeadIsLeast(b, a[0]);
      TailTimes(a);
      TailTimes(b);
      TimelineDeterminedByTimes(a[1..], b[1..]);
      assert a == [a[0]] + a[1..];
      assert b == [b[0]] + b[1..];
    }
  }

  /**
   * `findIndex(t => t >= now)`: the first position whose time is at or after
   * `now`, or -1 when every time is earlier.
   */
  function FindIndexAtLeast(times: seq<Time>, now: Time): (r: int)
    ensures -1 <= r < |times|
    ensures 0 <= r ==> now <= times[r] && forall j :: 0 <= j < r ==> times[j] < now
    ensures r == -1 <==> forall j :: 0 <= j < |times| ==> times[j] < now
  {
    if times == [] then -1
    else if now <= times[0] then 0
    else
      var r := FindIndexAtLeast(times[1..], now);
      if r == -1 then -1 else r + 1
  }

  /**
   * `getCurrentIndex`: where playback starts for the wall-clock time `now`.
   * The first time at or after `now`; the last position when `now` is later
   * than every time; 0 on an empty timeline.
   */
  function StartIndex(times: seq<Time>, now: Time): (i: nat)
    ensures times == [] ==> i == 0
    ensures times != [] ==> i < |times|
    ensures (exists j :: 0 <= j < |times| && now <= times[j]) ==>
              now <= times[i] && forall j :: 0 <= j < i ==> times[j] < now
    ensures times != [] && (forall j :: 0 <= j < |times| ==> times[j] < now) ==> i == |times| - 1
  {
    var idx := FindIndexAtLeast(times, now);
    if idx >= 0 then idx
    else if |times| > 0 then |times| - 1
    else 0
  }

  /**
   * On a sorted timeline the start index is a lower bound: every earlier time is
   * before `now`, and it and every later time are at or after `now`.
   */
  lemma StartIndexIsLowerBound(times: seq<Time>, now: Time)
    requires StrictlyIncreasing(times)
    requires exists j :: 0 <= j < |times| && now <= times[j]
    ensures forall j :: 0 <= j < |times| ==> (j < StartIndex(times, now) <==> times[j] < now)
  {
    var i := StartIndex(times, now);
    forall j | i < j < |times| ensures now <= times[j] {
      assert times[i] < times[j];
    }
  }
}
