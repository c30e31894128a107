/**
 * The numbers the dashboard derives from the ledger and the challenge:
 * completed days, day of the challenge, progress, days left, completion,
 * and the emergency allowance shown.
 */
module Progress {
  import opened Support
  import opened Seqs
  import opened Dates
  import opened Entities
  import opened Checkins

  function IsCompleteRow(row: CheckIn): bool
  {
    row.isComplete
  }

  /** `allCheckIns.filter(c => c.is_complete).length`. */
  function CompletedCount(checkIns: seq<CheckIn>): nat
  {
    |Filter(checkIns, IsCompleteRow)|
  }

  lemma CompletedCountCons(x: CheckIn, rest: seq<CheckIn>, challengeId: ChallengeId)
    ensures CompletedCount(OfChallenge([x] + rest, challengeId))
         == (if x.challengeId == challengeId && x.isComplete then 1 else 0) + CompletedCount(OfChallenge(rest, challengeId))
  {
    assert ([x] + rest)[1..] == rest;
    var head := if x.challengeId == challengeId then [x] else [];
    assert OfChallenge([x] + rest, challengeId) == head + OfChallenge(rest, challengeId);
    FilterAppend(head, OfChallenge(rest, challengeId), IsCompleteRow);
  }

  /** The count over the ordered query equals the count of the challenge's complete rows in the table. */
  lemma TotalCompletedDaysIsTableCount(rows: seq<CheckIn>, challengeId: ChallengeId)
    ensures CompletedCount(GetChallengeCheckIns(rows, challengeId)) == CompletedCount(OfChallenge(rows, challengeId))
  {
    ChallengeCheckInsSpec(rows, challengeId);
    FilterPermutation(GetChallengeCheckIns(rows, challengeId), OfChallenge(rows, challengeId), IsCompleteRow);
  }

  /** An upsert changes the challenge's completed-day count only through the day it writes. */
  lemma {:induction false} UpsertCompletedCount(rows: seq<CheckIn>, w: CheckInWrite, id: nat, now: int)
    ensures var before := Lookup(rows, w.challengeId, w.checkInDate);
      CompletedCount(OfChallenge(Upsert(rows, w, id, now), w.challengeId))
        == CompletedCount(OfChallenge(rows, w.challengeId))
           - (if before.Some? && before.value.isComplete then 1 else 0)
           + (if w.isComplete then 1 else 0)
  {
    if rows == [] {
      assert Upsert(rows, w, id, now) == [NewRow(w, id, now)] + [];
      CompletedCountCons(NewRow(w, id, now), [], w.challengeId);
    } else {
      assert rows == [rows[0]] + rows[1..];
      CompletedCountCons(rows[0], rows[1..], w.challengeId);
      if HasKey(rows[0], w.challengeId, w.checkInDate) {
        CompletedCountCons(Merge(rows[0], w), rows[1..], w.challengeId);
      } else {
        UpsertCompletedCount(rows[1..], w, id, now);
        CompletedCountCons(rows[0], Upsert(rows[1..], w, id, now), w.challengeId);
      }
    }
  }

  /** Writing a complete day never lowers the challenge's completed-day count. */
  lemma CompleteWriteNeverLowersTotal(rows: seq<CheckIn>, w: CheckInWrite, id: nat, now: int)
    requires w.isComplete
    ensures CompletedCount(GetChallengeCheckIns(Upsert(rows, w, id, now), w.challengeId))
         >= CompletedCount(GetChallengeCheckIns(rows, w.challengeId))
  {
    UpsertCompletedCount(rows, w, id, now);
    TotalCompletedDaysIsTableCount(rows, w.challengeId);
    TotalCompletedDaysIsTableCount(Upsert(rows, w, id, now), w.challengeId);
  }

  /** calculateDaysElapsed: whole days from start to today plus one, at least 1. */
  function DaysElapsed(start: Date, today: Date): (r: int)
    requires ValidDate(start) && ValidDate(today)
    ensures r >= 1
    ensures DayIndex(start) <= DayIndex(today) ==> r == DayIndex(today) - DayIndex(start) + 1
    ensures DayIndex(today) <= DayIndex(start) ==> r == 1
  {
    var diffDays := DayIndex(today) - DayIndex(start) + 1;
    if diffDays < 1 then 1 else diffDays
  }

  /** n days after the start it is day n + 1 of the challenge. */
  lemma DaysElapsedAfter(start: Date, n: nat)
    requires ValidDate(start)
    ensures DaysElapsed(start, AddDays(start, n)) == n + 1
  {
    AddDaysIndex(start, n);
  }

  /** A start date in the future still shows day 1. */
  lemma DaysElapsedFutureStart(today: Date, n: nat)
    requires ValidDate(today)
    ensures DaysElapsed(AddDays(today, n), today) == 1
  {
    AddDaysIndex(today, n);
  }

  /** calculateProgress: completed days over duration as a percentage, capped at 100. */
  function ProgressPercent(active: Option<Challenge>, total: nat): (r: real)
    requires active.Some? ==> active.value.duration > 0
    ensures 0.0 <= r <= 100.0
    ensures active.None? ==> r == 0.0
    ensures active.Some? ==> (r == 100.0 <==> total >= active.value.duration)
    ensures active.Some? && total < active.value.duration ==>
            r * (active.value.duration as real) == 100.0 * (total as real)
  {
    if active.None? then 0.0
    else
      var d := active.value.duration as real;
      var p := (total as real / d) * 100.0;
      assert total < active.value.duration ==> total as real / d < 1.0;
      assert total >= active.value.duration ==> total as real / d >= 1.0;
      if p < 100.0 then p else 100.0
  }

  /** calculateDaysLeft: duration minus completed days, never negative. */
  function DaysLeft(active: Option<Challenge>, total: nat): (r: int)
    ensures r >= 0
    ensures active.None? ==> r == 0
    ensures active.Some? ==> (r == 0 <==> total >= active.value.duration)
    ensures active.Some? && total <= active.value.duration ==> r + total == active.value.duration
  {
    if active.None? then 0
    else if active.value.duration - total < 0 then 0
    else active.value.duration - total
  }

  /** isChallengeComplete: an active challenge with at least `duration` completed days. */
  function IsChallengeComplete(active: Option<Challenge>, total: nat): bool
  {
    active.Some? && total >= active.value.duration
  }

  /** Completion, a full progress bar and no days left are the same condition; elapsed days play no part. */
  lemma CompletionAgrees(active: Option<Challenge>, total: nat)
    requires active.Some? && active.value.duration > 0
    ensures IsChallengeComplete(active, total) <==> ProgressPercent(active, total) == 100.0
    ensures IsChallengeComplete(active, total) <==> DaysLeft(active, total) == 0
  {
  }

  /** The emergency button is disabled once three emergencies are used. */
  function EmergencyButtonDisabled(emergencyUses: int): bool
  {
    emergencyUses >= 3
  }

  /** The remaining emergencies shown: 3 - emergency_uses. */
  function EmergenciesRemaining(emergencyUses: int): (r: int)
    ensures r >= 1 <==> !EmergencyButtonDisabled(emergencyUses)
    ensures 0 <= emergencyUses <= 3 ==> 0 <= r <= 3
  {
    3 - emergencyUses
  }
}
