/** The rolling conversion quota: 5000 AZM of one user's logs in any 24 hours. Times are in milliseconds. */
module Quota {

  const DAY: int := 86_400_000

  const LIMIT: int := 5_000 * 100_000_000

  datatype Log = Log(at: int, azm: int)

  function Max(x: int, y: int): int {
    if x > y then x else y
  }

  /** The AZM logged from `since` on: the aggregate of `getDailyQuotaRemaining`. */
  function SumSince(logs: seq<Log>, since: int): int {
    if logs == [] then 0
    else SumSince(logs[..|logs| - 1], since)
         + if logs[|logs| - 1].at >= since then logs[|logs| - 1].azm else 0
  }

  function Remaining(logs: seq<Log>, now: int): int {
    Max(0, LIMIT - SumSince(logs, now - DAY))
  }

  /** The AZM logged in the 24 hours that start at `from`, both ends included. */
  function SumWithin(logs: seq<Log>, from: int): int {
    if logs == [] then 0
    else SumWithin(logs[..|logs| - 1], from)
         + if from <= logs[|logs| - 1].at <= from + DAY then logs[|logs| - 1].azm else 0
  }

  ghost predicate WithinLimit(logs: seq<Log>) {
    forall from :: SumWithin(logs, from) <= LIMIT
  }

  predicate Ordered(logs: seq<Log>, until: int) {
    forall i :: 0 <= i < |logs| ==> logs[i].azm >= 0 && logs[i].at <= until
  }

  // ---------------------------------------------------------------- the windows

  lemma {:induction false} WindowWithinRecent(logs: seq<Log>, from: int, since: int)
    requires since <= from && forall i :: 0 <= i < |logs| ==> logs[i].azm >= 0
    ensures SumWithin(logs, from) <= SumSince(logs, since)
  {
    if logs != [] {
      WindowWithinRecent(logs[..|logs| - 1], from, since);
    }
  }

  lemma {:induction false} RecentIsWindow(logs: seq<Log>, until: int)
    requires Ordered(logs, until)
    ensures SumWithin(logs, until - DAY) == SumSince(logs, until - DAY)
  {
    if logs != [] {
      RecentIsWindow(logs[..|logs| - 1], until);
    }
  }

  lemma {:induction false} RecentShrinks(logs: seq<Log>, since: int, later: int)
    requires since <= later && forall i :: 0 <= i < |logs| ==> logs[i].azm >= 0
    ensures SumSince(logs, later) <= SumSince(logs, since)
  {
    if logs != [] {
      RecentShrinks(logs[..|logs| - 1], since, later);
    }
  }

  lemma SumWithinAppend(logs: seq<Log>, log: Log, from: int)
    ensures SumWithin(logs + [log], from) == SumWithin(logs, from) + if from <= log.at <= from + DAY then log.azm else 0
  {
    assert (logs + [log])[..|logs|] == logs;
  }

  /** Logging at `at` keeps every window within the limit exactly when the quota, taken at that moment, allows it. */
  lemma QuotaExactCondition(logs: seq<Log>, at: int, azm: int)
    requires WithinLimit(logs) && Ordered(logs, at) && azm >= 0
    ensures WithinLimit(logs + [Log(at, azm)]) <==> azm <= LIMIT - SumSince(logs, at - DAY)
  {
    var log := Log(at, azm);
    RecentIsWindow(logs, at);
    SumWithinAppend(logs, log, at - DAY);
    forall from
      ensures azm <= LIMIT - SumSince(logs, at - DAY) ==> SumWithin(logs + [log], from) <= LIMIT
    {
      SumWithinAppend(logs, log, from);
      if from <= at <= from + DAY {
        WindowWithinRecent(logs, from, at - DAY);
      }
    }
  }

  // ---------------------------------------------------------------- logs in any order of time

  predicate NonNegative(logs: seq<Log>) {
    forall i :: 0 <= i < |logs| ==> logs[i].azm >= 0
  }

  /** The 24 hours that end at `end` have room for `azm` more. */
  predicate RoomUntil(logs: seq<Log>, end: int, azm: int) {
    SumWithin(logs, end - DAY) + azm <= LIMIT
  }

  /** Room in the 24 hours that end at the new log, and at each log up to a day after it. */
  predicate HasRoom(logs: seq<Log>, at: int, azm: int) {
    && RoomUntil(logs, at, azm)
    && (forall i :: 0 <= i < |logs| && at <= logs[i].at <= at + DAY ==> RoomUntil(logs, logs[i].at, azm))
  }

  lemma {:induction false} WindowInWindow(logs: seq<Log>, from: int, from': int)
    requires NonNegative(logs)
    requires forall i :: 0 <= i < |logs| && from <= logs[i].at <= from + DAY ==> from' <= logs[i].at <= from' + DAY
    ensures SumWithin(logs, from) <= SumWithin(logs, from')
  {
    if logs != [] {
      var n := |logs| - 1;
      assert forall i :: 0 <= i < n ==> logs[..n][i] == logs[i];
      WindowInWindow(logs[..n], from, from');
    }
  }

  /** The last moment of a window at which anything, old or new, is logged. */
  lemma {:induction false} LatestIn(logs: seq<Log>, from: int, at: int) returns (end: int)
    requires from <= at <= from + DAY
    ensures at <= end <= from + DAY
    ensures end == at || exists i :: 0 <= i < |logs| && logs[i].at == end
    ensures forall i :: 0 <= i < |logs| && from <= logs[i].at <= from + DAY ==> logs[i].at <= end
  {
    if logs == [] {
      end := at;
    } else {
      var n := |logs| - 1;
      end := LatestIn(logs[..n], from, at);
      assert forall i :: 0 <= i < n ==> logs[..n][i] == logs[i];
      if end < logs[n].at <= from + DAY {
        end := logs[n].at;
      }
    }
  }

  lemma RoomMeansWindow(logs: seq<Log>, at: int, azm: int, from: int)
    requires NonNegative(logs) && HasRoom(logs, at, azm) && from <= at <= from + DAY
    ensures SumWithin(logs, from) + azm <= LIMIT
  {
    var end := LatestIn(logs, from, at);
    WindowInWindow(logs, from, end - DAY);
    assert RoomUntil(logs, end, azm);
  }

  /**
   Whatever the order of times: one more log keeps every 24-hour window within the limit exactly
   when the windows were, and those ending at the new log or at a log within a day after it have room.
   */
  lemma RoomExactCondition(logs: seq<Log>, at: int, azm: int)
    requires NonNegative(logs) && azm >= 0
    ensures WithinLimit(logs + [Log(at, azm)]) <==> WithinLimit(logs) && HasRoom(logs, at, azm)
  {
    var log := Log(at, azm);
    if WithinLimit(logs + [log]) {
      forall from
        ensures SumWithin(logs, from) <= LIMIT
      {
        SumWithinAppend(logs, log, from);
        assert SumWithin(logs + [log], from) <= LIMIT;
      }
      forall end | at <= end <= at + DAY
        ensures RoomUntil(logs, end, azm)
      {
        SumWithinAppend(logs, log, end - DAY);
        assert SumWithin(logs + [log], end - DAY) <= LIMIT;
      }
    }
    if WithinLimit(logs) && HasRoom(logs, at, azm) {
      forall from
        ensures SumWithin(logs + [log], from) <= LIMIT
      {
        SumWithinAppend(logs, log, from);
        if from <= at <= from + DAY {
          RoomMeansWindow(logs, at, azm, from);
        }
      }
    }
  }

  /** What the quota allowed when it was checked, it still allows later if nothing was logged in between. */
  lemma CheckedKeepsLimit(logs: seq<Log>, checkedAt: int, at: int, azm: int)
    requires WithinLimit(logs) && Ordered(logs, checkedAt) && checkedAt <= at
    requires 0 < azm <= Remaining(logs, checkedAt)
    ensures WithinLimit(logs + [Log(at, azm)])
  {
    RecentShrinks(logs, checkedAt - DAY, at - DAY);
    QuotaExactCondition(logs, at, azm);
  }
}
