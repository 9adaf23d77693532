// Day 6: boat races. Holding the button for h milliseconds of a race lasting T gives
// speed h and so distance h * (T - h); count the hold times that beat the record.
// Unbounded integers stand in for the source's u64 and u32.
module Day6 {

  datatype Race = Race(time: nat, recordDistance: nat)

  /** Race::from: one race per position present in both lists. */
  method RacesFrom(times: seq<nat>, recordDistances: seq<nat>) returns (races: seq<Race>)
    ensures |races| == if |times| <= |recordDistances| then |times| else |recordDistances|
    ensures forall i :: 0 <= i < |races| ==> races[i] == Race(times[i], recordDistances[i])
  {
    races := [];
    var i := 0;
    while i < |times| && i < |recordDistances|
      invariant 0 <= i <= |times| && i <= |recordDistances|
      invariant |races| == i
      invariant forall k :: 0 <= k < i ==> races[k] == Race(times[k], recordDistances[k])
    {
      races := races + [Race(times[i], recordDistances[i])];
      i := i + 1;
    }
  }

  predicate Beats(race: Race, hold: nat)
    requires hold <= race.time
  {
    hold * (race.time - hold) > race.recordDistance
  }

  /** The number of hold times h with lo <= h < hi that beat the record. */
  function WinningHoldsIn(race: Race, lo: nat, hi: nat): nat
    requires hi <= race.time
    decreases hi - lo
  {
    if lo >= hi then 0 else (if Beats(race, lo) then 1 else 0) + WinningHoldsIn(race, lo + 1, hi)
  }

  /** The number of ways to win a race: the hold times 1 .. T - 1 that beat the record. */
  function WaysToWin(race: Race): nat {
    if race.time == 0 then 0 else WinningHoldsIn(race, 1, race.time)
  }

  lemma {:induction false} WinningHoldsBound(race: Race, lo: nat, hi: nat)
    requires hi <= race.time
    ensures WinningHoldsIn(race, lo, hi) <= if lo <= hi then hi - lo else 0
    decreases hi - lo
  {
    if lo < hi {
      WinningHoldsBound(race, lo + 1, hi);
    }
  }

  /** At most T - 1 hold times can win, and none when the race lasts under 2 ms. */
  lemma {:induction false} WaysToWinBound(race: Race)
    ensures race.time >= 1 ==> WaysToWin(race) <= race.time - 1
    ensures race.time <= 1 ==> WaysToWin(race) == 0
  {
    if race.time >= 1 {
      WinningHoldsBound(race, 1, race.time);
    }
  }

  /** Holding for h and holding for T - h cover the same distance. */
  lemma {:induction false} HoldSymmetry(race: Race, hold: nat)
    requires hold <= race.time
    ensures Beats(race, hold) <==> Beats(race, race.time - hold)
  {
    assert hold * (race.time - hold) == (race.time - hold) * (race.time - (race.time - hold));
  }

  /** The reflected interval of hold times wins equally often. */
  lemma {:induction false} WinningHoldsReflect(race: Race, lo: nat, hi: nat)
    requires 0 < lo <= hi <= race.time
    ensures WinningHoldsIn(race, lo, hi) == WinningHoldsIn(race, race.time - hi + 1, race.time - lo + 1)
    decreases hi - lo
  {
    if lo < hi {
      WinningHoldsReflect(race, lo + 1, hi);
      HoldSymmetry(race, lo);
      WinningHoldsSplitLast(race, race.time - hi + 1, race.time - lo + 1);
    }
  }

  lemma {:induction false} WinningHoldsSplitLast(race: Race, lo: nat, hi: nat)
    requires lo < hi <= race.time
    ensures WinningHoldsIn(race, lo, hi) == WinningHoldsIn(race, lo, hi - 1) + (if Beats(race, hi - 1) then 1 else 0)
    decreases hi - lo
  {
    if lo + 1 < hi {
      WinningHoldsSplitLast(race, lo + 1, hi);
    }
  }

  /** The product of all the races' counts, or 0 when there is no race (the source's
      `reduce` over an empty list). */
  function ProductOfWays(counts: seq<nat>): nat {
    if counts == [] then 0
    else if |counts| == 1 then counts[0]
    else ProductOfWays(counts[..|counts| - 1]) * counts[|counts| - 1]
  }

  /** get_number_of_ways_i_could_beat_the_record: count each race by scanning its hold
      times, then multiply the counts together. */
  method NumberOfWaysToBeatTheRecord(races: seq<Race>) returns (result: nat)
    ensures |races| == 0 ==> result == 0
    ensures |races| > 0 ==> result == ProductOfWays(seq(|races|, i requires 0 <= i < |races| => WaysToWin(races[i])))
  {
    var ways: seq<nat> := [];
    for r := 0 to |races|
      invariant |ways| == r
      invariant forall k :: 0 <= k < r ==> ways[k] == WaysToWin(races[k])
    {
      var race := races[r];
      var count := 0;
      if race.time > 1 {
        for hold := 1 to race.time
          invariant count == WinningHoldsIn(race, 1, hold)
        {
          WinningHoldsSplitLast(race, 1, hold + 1);
          var distance := hold * (race.time - hold);
          if distance > race.recordDistance {
            count := count + 1;
          }
        }
      }
      ways := ways + [count];
    }
    if ways == [] {
      result := 0;
    } else {
      result := ways[0];
      for k := 1 to |ways|
        invariant result == ProductOfWays(ways[..k])
      {
        assert ways[..k + 1][..k] == ways[..k];
        result := result * ways[k];
      }
      assert ways[..|ways|] == ways;
    }
    assert ways == seq(|races|, i requires 0 <= i < |races| => WaysToWin(races[i]));
  }
}
