/**
 * The check-in ledger: today's key, the completeness rule, the keyed
 * upsert of a day's row, the two read queries and the mapping of the
 * emergency procedure's reply.
 */
module Checkins {
  import opened Support
  import opened Seqs
  import opened Sorting
  import opened Text
  import opened Dates
  import opened Entities
  import opened Store

  // ---------------------------------------------------------------- completeness

  /** is_complete compares the number of checked habits with the number of habits. */
  function IsComplete(habitSequence: seq<string>, completedHabits: seq<string>): bool
  {
    |completedHabits| == |habitSequence|
  }

  lemma {:induction false} NoDuplicatesCardinality(s: seq<string>)
    requires NoDuplicates(s)
    ensures |set x | x in s| == |s|
  {
    if s != [] {
      NoDuplicatesCardinality(s[1..]);
      assert (set x | x in s) == (set x | x in s[1..]) + {s[0]};
      assert s[0] !in (set x | x in s[1..]);
    }
  }

  lemma SubsetCardinality(a: set<string>, b: set<string>)
    requires a <= b
    ensures |a| <= |b|
    ensures |a| == |b| ==> a == b
  {
    assert b == a + (b - a);
    assert |b| == |a| + |b - a|;
  }

  /**
   * The length comparison is a faithful "every habit was checked" only when
   * neither list has duplicates and no unknown name was checked.
   */
  lemma CompleteMeansAllChecked(habitSequence: seq<string>, completedHabits: seq<string>)
    requires NoDuplicates(habitSequence) && NoDuplicates(completedHabits)
    requires forall i :: 0 <= i < |completedHabits| ==> completedHabits[i] in habitSequence
    ensures IsComplete(habitSequence, completedHabits)
        <==> forall i :: 0 <= i < |habitSequence| ==> habitSequence[i] in completedHabits
  {
    var cs, hs := set x | x in completedHabits, set x | x in habitSequence;
    NoDuplicatesCardinality(habitSequence);
    NoDuplicatesCardinality(completedHabits);
    assert cs <= hs;
    SubsetCardinality(cs, hs);
    if IsComplete(habitSequence, completedHabits) {
      assert cs == hs;
      forall i | 0 <= i < |habitSequence| ensures habitSequence[i] in completedHabits {
        assert habitSequence[i] in hs;
      }
    }
    if forall i :: 0 <= i < |habitSequence| ==> habitSequence[i] in completedHabits {
      assert hs <= cs by {
        forall x | x in hs ensures x in cs {
          var i :| 0 <= i < |habitSequence| && habitSequence[i] == x;
        }
      }
      SubsetCardinality(hs, cs);
    }
  }

  /** Without those conditions the count can match with a habit left unchecked. */
  lemma RepeatedNameCompletes()
    ensures IsComplete(["meditate", "read"], ["read", "read"]) && "meditate" !in ["read", "read"]
  {
  }

  // ---------------------------------------------------------------- the keyed upsert

  /** The columns updateCheckIn writes. */
  datatype CheckInWrite = CheckInWrite(
    challengeId: ChallengeId,
    userId: UserId,
    checkInDate: string,
    completedHabits: seq<string>,
    totalHabits: nat,
    isComplete: bool,
    isEmergency: bool)

  /** The row updateCheckIn writes for today. */
  function CheckInWriteFor(challengeId: ChallengeId, userId: UserId, today: Date,
                           habitSequence: seq<string>, completedHabits: seq<string>): CheckInWrite
    requires ValidDate(today)
  {
    CheckInWrite(challengeId, userId, DateKey(today), completedHabits, |habitSequence|,
                 IsComplete(habitSequence, completedHabits), false)
  }

  predicate HasKey(row: CheckIn, challengeId: ChallengeId, date: string)
  {
    row.challengeId == challengeId && row.checkInDate == date
  }

  /** ON CONFLICT DO UPDATE: the written columns change, the others are kept. */
  function Merge(row: CheckIn, w: CheckInWrite): CheckIn
  {
    row.(challengeId := w.challengeId, userId := w.userId, checkInDate := w.checkInDate,
         completedHabits := w.completedHabits, totalHabits := w.totalHabits,
         isComplete := w.isComplete, isEmergency := w.isEmergency)
  }

  /** A fresh row: generated id and timestamp, no reason and no notes. */
  function NewRow(w: CheckInWrite, id: nat, now: int): CheckIn
  {
    CheckIn(id, w.challengeId, w.userId, w.checkInDate, w.completedHabits, w.totalHabits,
            w.isComplete, w.isEmergency, None, None, now)
  }

  /** upsert(row, { onConflict: 'challenge_id,check_in_date' }). */
  function Upsert(rows: seq<CheckIn>, w: CheckInWrite, id: nat, now: int): seq<CheckIn>
  {
    if rows == [] then [NewRow(w, id, now)]
    else if HasKey(rows[0], w.challengeId, w.checkInDate) then [Merge(rows[0], w)] + rows[1..]
    else [rows[0]] + Upsert(rows[1..], w, id, now)
  }

  /** The row with the given key, as `.eq(...).eq(...).maybeSingle()` reads it. */
  function Lookup(rows: seq<CheckIn>, challengeId: ChallengeId, date: string): (r: Option<CheckIn>)
    ensures r.Some? ==> r.value in rows && HasKey(r.value, challengeId, date)
    ensures r.None? <==> forall i :: 0 <= i < |rows| ==> !HasKey(rows[i], challengeId, date)
  {
    if rows == [] then None
    else if HasKey(rows[0], challengeId, date) then Some(rows[0])
    else Lookup(rows[1..], challengeId, date)
  }

  /** Under the unique constraint, any row with the key is the one looked up. */
  lemma LookupUnique(rows: seq<CheckIn>, i: int)
    requires CheckInKeysUnique(rows) && 0 <= i < |rows|
    ensures Lookup(rows, rows[i].challengeId, rows[i].checkInDate) == Some(rows[i])
  {
    if i > 0 && !HasKey(rows[0], rows[i].challengeId, rows[i].checkInDate) {
      LookupUnique(rows[1..], i - 1);
    }
  }

  /** Rows of other keys are found exactly as before the upsert. */
  lemma {:induction false} UpsertLeavesOtherKeys(rows: seq<CheckIn>, w: CheckInWrite, id: nat, now: int,
                                                 c: ChallengeId, d: string)
    requires c != w.challengeId || d != w.checkInDate
    ensures Lookup(Upsert(rows, w, id, now), c, d) == Lookup(rows, c, d)
  {
    if rows != [] && !HasKey(rows[0], w.challengeId, w.checkInDate) {
      UpsertLeavesOtherKeys(rows[1..], w, id, now, c, d);
      assert Upsert(rows, w, id, now)[1..] == Upsert(rows[1..], w, id, now);
    } else if rows != [] {
      assert Upsert(rows, w, id, now)[1..] == rows[1..];
    }
  }

  /**
   * After the upsert the key holds the written columns: on the existing row
   * when there was one (keeping its id, reason, notes and creation time),
   * otherwise on a new row.
   */
  lemma {:induction false} UpsertWritesKey(rows: seq<CheckIn>, w: CheckInWrite, id: nat, now: int)
    ensures Lookup(Upsert(rows, w, id, now), w.challengeId, w.checkInDate)
         == Some(match Lookup(rows, w.challengeId, w.checkInDate)
                 case Some(prev) => Merge(prev, w)
                 case None => NewRow(w, id, now))
    ensures |Upsert(rows, w, id, now)| == |rows| + (if Lookup(rows, w.challengeId, w.checkInDate).None? then 1 else 0)
  {
    if rows != [] && !HasKey(rows[0], w.challengeId, w.checkInDate) {
      UpsertWritesKey(rows[1..], w, id, now);
      assert Upsert(rows, w, id, now)[1..] == Upsert(rows[1..], w, id, now);
    }
  }

  /** The upsert keeps the unique constraint on (challenge_id, check_in_date). */
  lemma {:induction false} UpsertKeepsKeysUnique(rows: seq<CheckIn>, w: CheckInWrite, id: nat, now: int)
    requires CheckInKeysUnique(rows)
    ensures CheckInKeysUnique(Upsert(rows, w, id, now))
  {
    if rows != [] && !HasKey(rows[0], w.challengeId, w.checkInDate) {
      var rest := Upsert(rows[1..], w, id, now);
      UpsertKeepsKeysUnique(rows[1..], w, id, now);
      var c, d := rows[0].challengeId, rows[0].checkInDate;
      assert Lookup(rows[1..], c, d).None? by {
        forall i | 0 <= i < |rows[1..]| ensures !HasKey(rows[1..][i], c, d) {
          assert rows[1..][i] == rows[i + 1];
        }
      }
      UpsertLeavesOtherKeys(rows[1..], w, id, now, c, d);
      var r := Upsert(rows, w, id, now);
      assert r == [rows[0]] + rest;
      forall i, j | 0 <= i < j < |r|
        ensures r[i].challengeId != r[j].challengeId || r[i].checkInDate != r[j].checkInDate
      {
        if i == 0 {
          assert r[j] == rest[j - 1];
        } else {
          assert r[i] == rest[i - 1] && r[j] == rest[j - 1];
        }
      }
    } else if rows != [] {
      var r := Upsert(rows, w, id, now);
      forall i, j | 0 <= i < j < |r|
        ensures r[i].challengeId != r[j].challengeId || r[i].checkInDate != r[j].checkInDate
      {
        assert r[j] == rows[j];
        if i > 0 { assert r[i] == rows[i]; }
      }
    }
  }

  /** Repeating the same upsert changes nothing more: the write is idempotent. */
  lemma {:induction false} UpsertIdempotent(rows: seq<CheckIn>, w: CheckInWrite, id: nat, now: int, id2: nat, now2: int)
    ensures Upsert(Upsert(rows, w, id, now), w, id2, now2) == Upsert(rows, w, id, now)
  {
    if rows == [] {
    } else if HasKey(rows[0], w.challengeId, w.checkInDate) {
      var r := Upsert(rows, w, id, now);
      assert r[1..] == rows[1..];
    } else {
      UpsertIdempotent(rows[1..], w, id, now, id2, now2);
      var r := Upsert(rows, w, id, now);
      assert r[1..] == Upsert(rows[1..], w, id, now);
    }
  }

  /** Every row id after the upsert is an old id or the generated one. */
  lemma {:induction false} UpsertIdsBelow(rows: seq<CheckIn>, w: CheckInWrite, id: nat, now: int, bound: nat)
    requires forall i :: 0 <= i < |rows| ==> rows[i].id < bound
    requires id < bound
    ensures forall i :: 0 <= i < |Upsert(rows, w, id, now)| ==> Upsert(rows, w, id, now)[i].id < bound
  {
    if rows != [] && !HasKey(rows[0], w.challengeId, w.checkInDate) {
      UpsertIdsBelow(rows[1..], w, id, now, bound);
      var r := Upsert(rows, w, id, now);
      assert forall i :: 1 <= i < |r| ==> r[i] == Upsert(rows[1..], w, id, now)[i - 1];
    } else if rows != [] {
      var r := Upsert(rows, w, id, now);
      assert forall i :: 1 <= i < |r| ==> r[i] == rows[i];
    }
  }

  /** When the key already exists no row takes the generated id: the upsert only updates. */
  lemma {:induction false} UpsertIdsBelowWhenPresent(rows: seq<CheckIn>, w: CheckInWrite, id: nat, now: int)
    requires Lookup(rows, w.challengeId, w.checkInDate).Some?
    ensures forall i :: 0 <= i < |Upsert(rows, w, id, now)| ==>
      exists j :: 0 <= j < |rows| && Upsert(rows, w, id, now)[i].id == rows[j].id
  {
    var r := Upsert(rows, w, id, now);
    if HasKey(rows[0], w.challengeId, w.checkInDate) {
      forall i | 0 <= i < |r| ensures exists j :: 0 <= j < |rows| && r[i].id == rows[j].id {
        assert r[i].id == rows[i].id;
      }
    } else {
      UpsertIdsBelowWhenPresent(rows[1..], w, id, now);
      forall i | 0 <= i < |r| ensures exists j :: 0 <= j < |rows| && r[i].id == rows[j].id {
        if i == 0 {
          assert r[0].id == rows[0].id;
        } else {
          assert r[i] == Upsert(rows[1..], w, id, now)[i - 1];
          var j :| 0 <= j < |rows[1..]| && r[i].id == rows[1..][j].id;
          assert rows[1..][j] == rows[j + 1];
        }
      }
    }
  }

  // ---------------------------------------------------------------- reads

  /** getTodayCheckIn: the row for (challengeId, today), or null. */
  function GetTodayCheckIn(rows: seq<CheckIn>, challengeId: ChallengeId, today: Date): Option<CheckIn>
    requires ValidDate(today)
  {
    Lookup(rows, challengeId, DateKey(today))
  }

  function BelongsTo(challengeId: ChallengeId): CheckIn -> bool
  {
    (row: CheckIn) => row.challengeId == challengeId
  }

  /** `.eq('challenge_id', challengeId)`, in table order. */
  function OfChallenge(rows: seq<CheckIn>, challengeId: ChallengeId): seq<CheckIn>
  {
    Filter(rows, BelongsTo(challengeId))
  }

  function CheckInDateOf(row: CheckIn): string
  {
    row.checkInDate
  }

  /** Ascending on check_in_date. */
  predicate DateLe(a: CheckIn, b: CheckIn)
  {
    !StrLess(b.checkInDate, a.checkInDate)
  }

  /** getChallengeCheckIns: the challenge's rows ordered by check_in_date ascending. */
  function GetChallengeCheckIns(rows: seq<CheckIn>, challengeId: ChallengeId): seq<CheckIn>
  {
    SortBy(OfChallenge(rows, challengeId), DateLe)
  }

  lemma DateLeTotalPreorder()
    ensures TotalPreorder(DateLe)
  {
    forall a: CheckIn, b: CheckIn ensures DateLe(a, b) || DateLe(b, a) {
      StrLessAsymmetric(a.checkInDate, b.checkInDate);
    }
    forall a: CheckIn, b: CheckIn, c: CheckIn | DateLe(a, b) && DateLe(b, c) ensures DateLe(a, c) {
      if StrLess(c.checkInDate, a.checkInDate) {
        StrLessTrichotomy(c.checkInDate, b.checkInDate);
        if StrLess(b.checkInDate, c.checkInDate) {
          StrLessTransitive(b.checkInDate, c.checkInDate, a.checkInDate);
        }
      }
    }
  }

  /** Exactly the challenge's rows, each once, in ascending date order. */
  lemma ChallengeCheckInsSpec(rows: seq<CheckIn>, challengeId: ChallengeId)
    ensures multiset(GetChallengeCheckIns(rows, challengeId)) == multiset(OfChallenge(rows, challengeId))
    ensures forall x :: x in GetChallengeCheckIns(rows, challengeId) <==> x in rows && x.challengeId == challengeId
    ensures SortedBy(GetChallengeCheckIns(rows, challengeId), DateLe)
  {
    DateLeTotalPreorder();
    SortBySortsAndPermutes(OfChallenge(rows, challengeId), DateLe);
    forall x ensures x in GetChallengeCheckIns(rows, challengeId) <==> x in rows && x.challengeId == challengeId {
      assert x in GetChallengeCheckIns(rows, challengeId) <==> x in multiset(GetChallengeCheckIns(rows, challengeId));
      FilterMembership(rows, BelongsTo(challengeId), x);
    }
  }

  lemma {:induction false} OfChallengeDistinctDates(rows: seq<CheckIn>, challengeId: ChallengeId)
    requires CheckInKeysUnique(rows)
    ensures DistinctBy(OfChallenge(rows, challengeId), CheckInDateOf)
  {
    if rows != [] {
      OfChallengeDistinctDates(rows[1..], challengeId);
      var tail := OfChallenge(rows[1..], challengeId);
      var s := OfChallenge(rows, challengeId);
      if rows[0].challengeId == challengeId {
        assert s == [rows[0]] + tail;
        forall j | 0 <= j < |tail| ensures tail[j].checkInDate != rows[0].checkInDate {
          FilterMembership(rows[1..], BelongsTo(challengeId), tail[j]);
          var k :| 0 <= k < |rows[1..]| && rows[1..][k] == tail[j];
          assert rows[k + 1] == tail[j];
        }
        forall i, j | 0 <= i < j < |s| ensures CheckInDateOf(s[i]) != CheckInDateOf(s[j]) {
          if i > 0 { assert s[i] == tail[i - 1]; }
          assert s[j] == tail[j - 1];
        }
      } else {
        assert s == tail;
      }
    }
  }

  /** A key of a four-digit-year date, as today's key always is. */
  predicate IsDayKey(s: string)
  {
    ParseDateKey(s).Some? && ParseDateKey(s).value.year >= 1000
  }

  /**
   * For keys of four-digit-year dates, the ascending text order of the query
   * is strictly ascending chronological order.
   */
  lemma ChallengeCheckInsChronological(rows: seq<CheckIn>, challengeId: ChallengeId)
    requires CheckInKeysUnique(rows)
    requires forall i :: 0 <= i < |rows| ==> IsDayKey(rows[i].checkInDate)
    ensures forall i, j :: 0 <= i < j < |GetChallengeCheckIns(rows, challengeId)| ==>
      var s := GetChallengeCheckIns(rows, challengeId);
      IsDayKey(s[i].checkInDate) && IsDayKey(s[j].checkInDate) &&
      DayIndex(ParseDateKey(s[i].checkInDate).value) < DayIndex(ParseDateKey(s[j].checkInDate).value)
  {
    var s := GetChallengeCheckIns(rows, challengeId);
    ChallengeCheckInsSpec(rows, challengeId);
    OfChallengeDistinctDates(rows, challengeId);
    PermutationKeepsDistinct(OfChallenge(rows, challengeId), s, CheckInDateOf);
    forall i, j | 0 <= i < j < |s|
      ensures IsDayKey(s[i].checkInDate) && IsDayKey(s[j].checkInDate)
      ensures DayIndex(ParseDateKey(s[i].checkInDate).value) < DayIndex(ParseDateKey(s[j].checkInDate).value)
    {
      assert s[i] in s && s[j] in s;
      var a, b := s[i].checkInDate, s[j].checkInDate;
      assert CheckInDateOf(s[i]) != CheckInDateOf(s[j]);
      assert DateLe(s[i], s[j]);
      StrLessTrichotomy(a, b);
      assert StrLess(a, b);
      ParseDateKeyRoundTrip(a);
      ParseDateKeyRoundTrip(b);
      DateKeyOrder(ParseDateKey(a).value, ParseDateKey(b).value);
    }
  }

  // ---------------------------------------------------------------- the emergency reply

  /** What the use_emergency_protocol call hands back: a transport error or its JSON payload. */
  datatype RpcReply =
    | TransportError(errorMessage: string)
    | Payload(success: bool, error: Option<string>, remainingEmergencies: Option<int>, message: Option<string>)

  datatype EmergencyResult =
    | Granted(remaining: Option<int>, message: Option<string>)
    | Refused(error: string)

  /** useEmergencyProtocol: no session throws; otherwise the reply becomes a tagged result. */
  function UseEmergencyProtocol(session: Session, reply: RpcReply): (r: Result<EmergencyResult>)
    ensures session.None? <==> r == Err(NotAuthenticated)
    ensures r.Ok? ==> (r.value.Granted? <==> reply.Payload? && reply.success)
    ensures r.Ok? && reply.TransportError? ==> r.value == Refused(reply.errorMessage)
    ensures r.Ok? && reply.Payload? && !reply.success ==> r.value.Refused? && r.value.error != ""
    ensures r.Ok? && reply.Payload? && !reply.success && reply.error.Some? && reply.error.value != ""
            ==> r.value.error == reply.error.value
    ensures r.Ok? && reply.Payload? && !reply.success && (reply.error.None? || reply.error.value == "")
            ==> r.value == Refused("Emergency protocol failed")
    ensures r.Ok? && r.value.Granted? ==>
            r.value.remaining == reply.remainingEmergencies && r.value.message == reply.message
  {
    if session.None? then Err(NotAuthenticated)
    else match reply
      case TransportError(m) => Ok(Refused(m))
      case Payload(success, error, remaining, message) =>
        if !success then
          Ok(Refused(if error.Some? && error.value != "" then error.value else "Emergency protocol failed"))
        else Ok(Granted(remaining, message))
  }

  // ---------------------------------------------------------------- the write

  /**
   * updateCheckIn: with a session, upserts today's row; `failure` is the
   * store's error, if it reports one. Returns the row as stored.
   */
  method UpdateCheckIn(db: Database, session: Session, challengeId: ChallengeId,
                       habitSequence: seq<string>, completedHabits: seq<string>,
                       today: Date, now: int, failure: Option<string>)
    returns (r: Result<CheckIn>)
    requires db.Valid() && ValidDate(today)
    modifies db
    ensures db.Valid()
    ensures db.challenges == old(db.challenges) && db.presolutions == old(db.presolutions)
    ensures session.None? ==> r == Err(NotAuthenticated)
    ensures session.Some? && failure.Some? ==> r == Err(StorageError(failure.value))
    ensures r.Err? ==> db.checkIns == old(db.checkIns) && db.nextId == old(db.nextId)
    ensures session.Some? && failure.None? ==>
      var w := CheckInWriteFor(challengeId, session.value, today, habitSequence, completedHabits);
      && db.checkIns == Upsert(old(db.checkIns), w, old(db.nextId), now)
      && db.nextId == old(db.nextId) + (if Lookup(old(db.checkIns), challengeId, DateKey(today)).None? then 1 else 0)
      && r.Ok? && Lookup(db.checkIns, challengeId, DateKey(today)) == Some(r.value)
      && r.value.userId == session.value && r.value.completedHabits == completedHabits
      && r.value.totalHabits == |habitSequence|
      && r.value.isComplete == IsComplete(habitSequence, completedHabits) && !r.value.isEmergency
  {
    if session.None? {
      return Err(NotAuthenticated);
    }
    var w := CheckInWriteFor(challengeId, session.value, today, habitSequence, completedHabits);
    if failure.Some? {
      return Err(StorageError(failure.value));
    }
    var key := DateKey(today);
    var existing := Lookup(db.checkIns, challengeId, key);
    var rows := Upsert(db.checkIns, w, db.nextId, now);
    UpsertKeepsKeysUnique(db.checkIns, w, db.nextId, now);
    UpsertWritesKey(db.checkIns, w, db.nextId, now);
    UpsertIdsBelow(db.checkIns, w, db.nextId, now, db.nextId + 1);
    var next := if existing.None? then db.nextId + 1 else db.nextId;
    assert forall i :: 0 <= i < |rows| ==> rows[i].id < next by {
      if existing.Some? {
        assert Lookup(rows, challengeId, key) == Some(Merge(existing.value, w));
        assert existing.value.id < db.nextId;
        // the generated id is not used when the key already exists
        UpsertIdsBelowWhenPresent(db.checkIns, w, db.nextId, now);
      }
    }
    var found := Lookup(rows, challengeId, key);
    db.checkIns, db.nextId := rows, next;
    r := Ok(found.value);
  }
}
