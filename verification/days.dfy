/**
 * `partition_into_days`: splits a run of timestamps into days, a new day
 * opening at each midnight timestamp that does not open the run.
 */
module Days {
  import opened Timestamp

  /** The groups' elements, group after group. */
  function Flatten(days: seq<seq<DateTime>>): seq<DateTime>
  {
    if days == [] then [] else Flatten(days[..|days| - 1]) + days[|days| - 1]
  }

  /** How many timestamps of `times` are at midnight. */
  function CountMidnights(times: seq<DateTime>): nat
  {
    if times == [] then 0
    else CountMidnights(times[..|times| - 1]) + (if IsMidnight(times[|times| - 1]) then 1 else 0)
  }

  lemma CountMidnightsSnoc(times: seq<DateTime>, t: DateTime)
    ensures CountMidnights(times + [t]) == CountMidnights(times) + (if IsMidnight(t) then 1 else 0)
  {
    assert (times + [t])[..|times|] == times;
  }

  /**
   * `days` splits `times` into days: the groups read in order give `times`
   * back, every group but the first opens with a midnight and holds no other,
   * the first holds no midnight after its head, and it is empty only when
   * `times` is.
   */
  ghost predicate IsDayPartition(times: seq<DateTime>, days: seq<seq<DateTime>>)
  {
    |days| >= 1 && Flatten(days) == times
    && (times != [] ==> days[0] != [])
    && (forall g :: 1 <= g < |days| ==> days[g] != [] && IsMidnight(days[g][0]))
    && (forall g, j :: 0 <= g < |days| && 1 <= j < |days[g]| ==> !IsMidnight(days[g][j]))
  }

  lemma FlattenAppendGroup(days: seq<seq<DateTime>>, group: seq<DateTime>)
    ensures Flatten(days + [group]) == Flatten(days) + group
  {
    assert (days + [group])[..|days|] == days;
  }

  lemma FlattenExtendLast(days: seq<seq<DateTime>>, t: DateTime)
    requires |days| >= 1
    ensures Flatten(days[|days| - 1 := days[|days| - 1] + [t]]) == Flatten(days) + [t]
  {
    var n := |days|;
    assert days[n - 1 := days[n - 1] + [t]][..n - 1] == days[..n - 1];
  }

  /** The loop's step: `time` opens a new day or joins the last one. */
  function Extend(days: seq<seq<DateTime>>, t: DateTime): seq<seq<DateTime>>
    requires |days| >= 1
  {
    var n := |days|;
    if IsMidnight(t) && days[n - 1] != [] then days + [[t]]
    else days[n - 1 := days[n - 1] + [t]]
  }

  /** Takes the last timestamp off a partition. */
  ghost function Strip(days: seq<seq<DateTime>>): seq<seq<DateTime>>
    requires |days| >= 1 && days[|days| - 1] != []
  {
    var n := |days|;
    var last := days[n - 1];
    if |last| == 1 && n > 1 then days[..n - 1]
    else days[n - 1 := last[..|last| - 1]]
  }

  /** The last day of a partition of a non-empty run is non-empty and ends with its last timestamp. */
  lemma LastDay(times: seq<DateTime>, t: DateTime, days: seq<seq<DateTime>>)
    requires IsDayPartition(times + [t], days)
    ensures days[|days| - 1] != []
    ensures Flatten(days[..|days| - 1]) + days[|days| - 1] == times + [t]
    ensures days[|days| - 1][|days[|days| - 1]| - 1] == t
  {
    var n := |days|;
    var last := days[n - 1];
    assert Flatten(days) == Flatten(days[..n - 1]) + last;
    assert last != [] by {
      if n == 1 {
        assert days[0] != [];
      }
    }
    var prefix := Flatten(days[..n - 1]);
    assert (prefix + last)[|prefix + last| - 1] == last[|last| - 1];
  }

  /** A partition of a non-empty run is one step on from a partition of the run without its last timestamp. */
  lemma StripExtend(times: seq<DateTime>, t: DateTime, days: seq<seq<DateTime>>)
    requires IsDayPartition(times + [t], days)
    ensures days[|days| - 1] != []
    ensures IsDayPartition(times, Strip(days))
    ensures days == Extend(Strip(days), t)
  {
    LastDay(times, t, days);
    var n := |days|;
    if |days[n - 1]| == 1 && n > 1 {
      StripAloneDay(times, t, days);
    } else {
      StripShorterDay(times, t, days);
    }
  }

  /** Case of `StripExtend`: the last timestamp is alone in a later day, so it opened that day. */
  lemma StripAloneDay(times: seq<DateTime>, t: DateTime, days: seq<seq<DateTime>>)
    requires IsDayPartition(times + [t], days)
    requires |days| > 1 && days[|days| - 1] == [t]
    requires Flatten(days[..|days| - 1]) + days[|days| - 1] == times + [t]
    ensures IsDayPartition(times, days[..|days| - 1])
    ensures days == Extend(days[..|days| - 1], t)
  {
    var n := |days|;
    var prefix := Flatten(days[..n - 1]);
    assert prefix == times by {
      assert prefix == (prefix + [t])[..|prefix|];
      assert (times + [t])[..|times|] == times;
    }
    assert IsMidnight(t) by {
      assert days[n - 1][0] == t;
    }
    assert days[n - 2] != [];
    assert days[..n - 1] + [[t]] == days;
  }

  /** Case of `StripExtend`: the last timestamp follows others in its day, or is the first day's only one. */
  lemma StripShorterDay(times: seq<DateTime>, t: DateTime, days: seq<seq<DateTime>>)
    requires IsDayPartition(times + [t], days)
    requires days[|days| - 1] != [] && days[|days| - 1][|days[|days| - 1]| - 1] == t
    requires !(|days[|days| - 1]| == 1 && |days| > 1)
    requires Flatten(days[..|days| - 1]) + days[|days| - 1] == times + [t]
    ensures IsDayPartition(times, days[|days| - 1 := days[|days| - 1][..|days[|days| - 1]| - 1]])
    ensures days == Extend(days[|days| - 1 := days[|days| - 1][..|days[|days| - 1]| - 1]], t)
  {
    ShorterDayPartition(times, t, days);
    var n := |days|;
    var last := days[n - 1];
    var init := last[..|last| - 1];
    assert last == init + [t];
    assert init != [] ==> !IsMidnight(t) by {
      if init != [] {
        assert last[|last| - 1] == t;
      }
    }
    assert days[n - 1 := init][n - 1 := init + [t]] == days;
  }

  /** The partition half of `StripShorterDay`: without its last timestamp, the last day still fits. */
  lemma ShorterDayPartition(times: seq<DateTime>, t: DateTime, days: seq<seq<DateTime>>)
    requires IsDayPartition(times + [t], days)
    requires days[|days| - 1] != [] && days[|days| - 1][|days[|days| - 1]| - 1] == t
    requires !(|days[|days| - 1]| == 1 && |days| > 1)
    requires Flatten(days[..|days| - 1]) + days[|days| - 1] == times + [t]
    ensures IsDayPartition(times, days[|days| - 1 := days[|days| - 1][..|days[|days| - 1]| - 1]])
  {
    var n := |days|;
    var last := days[n - 1];
    var init := last[..|last| - 1];
    var s := days[n - 1 := init];
    var prefix := Flatten(days[..n - 1]);
    assert last == init + [t];
    assert prefix + init == times by {
      assert prefix + last == (prefix + init) + [t];
      assert (times + [t])[..|times|] == times;
    }
    assert Flatten(s) == times by {
      assert s == days[..n - 1] + [init];
      FlattenAppendGroup(days[..n - 1], init);
    }
    assert times != [] ==> s[0] != [] by {
      if n == 1 {
        assert s[0] == init && prefix == [];
      }
    }
    forall g | 1 <= g < |s|
      ensures s[g] != [] && IsMidnight(s[g][0])
    {
      if g == n - 1 {
        assert |last| >= 2 && init[0] == last[0];
      }
    }
    forall g, j | 0 <= g < |s| && 1 <= j < |s[g]|
      ensures !IsMidnight(s[g][j])
    {
      if g == n - 1 {
        assert s[g][j] == last[j];
      }
    }
  }

  /** The partition of a run is unique: the contract of `PartitionIntoDays` fixes its result. */
  lemma {:induction false} PartitionUnique(times: seq<DateTime>, a: seq<seq<DateTime>>, b: seq<seq<DateTime>>)
    requires IsDayPartition(times, a) && IsDayPartition(times, b)
    ensures a == b
  {
    if times == [] {
      EmptyPartition(a);
      EmptyPartition(b);
    } else {
      var init, t := times[..|times| - 1], times[|times| - 1];
      assert times == init + [t];
      StripExtend(init, t, a);
      StripExtend(init, t, b);
      PartitionUnique(init, Strip(a), Strip(b));
    }
  }

  /** The only partition of no timestamps is one empty day. */
  lemma EmptyPartition(days: seq<seq<DateTime>>)
    requires IsDayPartition([], days)
    ensures days == [[]]
  {
    assert Flatten(days) == Flatten(days[..0]) + days[0];
  }

  /** One step of the loop keeps a partition a partition, of the run one longer. */
  lemma ExtendPartition(times: seq<DateTime>, days: seq<seq<DateTime>>, t: DateTime)
    requires IsDayPartition(times, days)
    ensures IsDayPartition(times + [t], Extend(days, t))
  {
    var n := |days|;
    var e := Extend(days, t);
    if IsMidnight(t) && days[n - 1] != [] {
      FlattenAppendGroup(days, [t]);
    } else {
      FlattenExtendLast(days, t);
      assert n > 1 ==> e[n - 1][0] == days[n - 1][0];
    }
  }

  /** The groups the loop has built after reading `times`: the step applied to each timestamp in turn, from `[[]]`. */
  function DayGroups(times: seq<DateTime>): (days: seq<seq<DateTime>>)
    ensures |days| >= 1
    ensures times != [] ==> days[|days| - 1] != []
  {
    if times == [] then [[]] else Extend(DayGroups(times[..|times| - 1]), times[|times| - 1])
  }

  /**
   * The groups the loop builds partition its input, with one more group than
   * midnights after the first timestamp, since the first always joins the
   * initial group.
   */
  lemma {:induction false} DayGroupsPartition(times: seq<DateTime>)
    ensures IsDayPartition(times, DayGroups(times))
    ensures |DayGroups(times)| == 1 + (if times == [] then 0 else CountMidnights(times[1..]))
  {
    if times == [] {
      assert Flatten([[]]) == Flatten([]) + [];
    } else {
      var init, t := times[..|times| - 1], times[|times| - 1];
      DayGroupsPartition(init);
      assert times == init + [t];
      ExtendPartition(init, DayGroups(init), t);
      if init != [] {
        assert times[1..] == init[1..] + [t];
        CountMidnightsSnoc(init[1..], t);
      } else {
        assert times[1..] == [];
      }
    }
  }

  /**
   * `partition_into_days(result)`, which partitions `result[0]`: the groups
   * are the ones `DayGroups` describes, hence a partition into days with one
   * group per midnight after the first timestamp, and `[[]]` for no timestamps.
   */
  method PartitionIntoDays(result: seq<seq<DateTime>>) returns (days: seq<seq<DateTime>>)
    requires |result| >= 1
    ensures days == DayGroups(result[0])
    ensures IsDayPartition(result[0], days)
    ensures |days| == 1 + (if result[0] == [] then 0 else CountMidnights(result[0][1..]))
    ensures result[0] == [] ==> days == [[]]
  {
    var times := result[0];
    days := [[]];
    var index := 0;
    var i := 0;
    while i < |times|
      invariant 0 <= i <= |times|
      invariant days == DayGroups(times[..i])
      invariant index == |days| - 1
    {
      var time := times[i];
      ghost var before := days;
      if IsMidnight(time) && days[index] != [] {
        days := days + [[]];
        index := index + 1;
        assert days[index] + [time] == [time];
      }
      days := days[index := days[index] + [time]];
      assert days == Extend(before, time);
      assert times[..i + 1][..i] == times[..i];
      i := i + 1;
    }
    assert times[..i] == times;
    DayGroupsPartition(times);
  }
}
