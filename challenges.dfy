/** Challenge lifecycle: creation with its computed end date, and the active-challenge query. */
module Challenges {
  import opened Support
  import opened Dates
  import opened Entities
  import opened Store

  /**
   * end_date: the start date parsed, moved `duration` days on, and printed as
   * `YYYY-MM-DD`. A start date that does not parse is an Invalid Date, on
   * which toISOString throws.
   */
  function EndDateKey(startDate: string, duration: nat): (r: Result<string>)
    ensures r.Err? <==> ParseDateKey(startDate).None?
    ensures r.Err? ==> r.error == InvalidDate
  {
    match ParseDateKey(startDate)
    case None => Err(InvalidDate)
    case Some(start) => Ok(DateKey(AddDays(start, duration)))
  }

  /** The end date is the calendar date exactly `duration` days after the start date. */
  lemma EndDateIsDurationLater(startDate: string, duration: nat)
    requires ParseDateKey(startDate).Some? && ParseDateKey(startDate).value.year >= 1000
    requires AddDays(ParseDateKey(startDate).value, duration).year <= 9999
    ensures EndDateKey(startDate, duration).Ok?
    ensures var e := ParseDateKey(EndDateKey(startDate, duration).value);
      && e.Some?
      && DayIndex(e.value) == DayIndex(ParseDateKey(startDate).value) + duration
  {
    var start := ParseDateKey(startDate).value;
    AddDaysIndex(start, duration);
    DateKeyRoundTrip(AddDays(start, duration));
  }

  /** What the challenges insert reports back. */
  datatype InsertOutcome = Inserted | InsertFailed(message: string) | NoRowReturned

  /** The stored row: the input's fields, the session's user, status active, counters at zero. */
  function NewChallengeRow(id: ChallengeId, userId: UserId, data: CreateChallengeData,
                           endDate: string, now: int): Challenge
  {
    Challenge(id, userId, data.title, data.duration, data.startDate, endDate, data.scheduledTime,
              data.habitSequence, data.declarationText, data.declarationSignature, Active,
              0, 0, 0, now, now)
  }

  /** Each presolution, tagged with the new challenge's id. */
  function TagPresolutions(ps: seq<PresolutionInput>, id: ChallengeId): (r: seq<Presolution>)
    ensures |r| == |ps|
    ensures forall i :: 0 <= i < |ps| ==>
      r[i].challengeId == id && r[i].obstacle == ps[i].obstacle && r[i].minimumPractice == ps[i].minimumPractice
  {
    if ps == [] then []
    else [Presolution(id, ps[0].obstacle, ps[0].minimumPractice)] + TagPresolutions(ps[1..], id)
  }

  /** The presolution rows to insert: none unless the list is present and non-empty. */
  function PresolutionRows(data: CreateChallengeData, id: ChallengeId): seq<Presolution>
  {
    if data.presolutions.Some? && |data.presolutions.value| > 0
    then TagPresolutions(data.presolutions.value, id)
    else []
  }

  /** The outcome of createChallenge given the session, the input and the insert's report. */
  function CreateOutcome(session: Session, data: CreateChallengeData, id: ChallengeId,
                         now: int, insert: InsertOutcome): (r: Result<Challenge>)
    ensures session.None? ==> r == Err(NotAuthenticated)
    ensures r.Ok? <==> session.Some? && ParseDateKey(data.startDate).Some? && insert.Inserted?
    ensures session.Some? && ParseDateKey(data.startDate).None? ==> r == Err(InvalidDate)
    ensures session.Some? && ParseDateKey(data.startDate).Some? && insert.InsertFailed?
            ==> r == Err(StorageError(insert.message))
    ensures session.Some? && ParseDateKey(data.startDate).Some? && insert.NoRowReturned?
            ==> r == Err(NoChallengeReturned)
    ensures r.Ok? ==>
      && r.value.id == id && r.value.userId == session.value && r.value.status == Active
      && r.value.title == data.title && r.value.duration == data.duration
      && r.value.startDate == data.startDate && r.value.scheduledTime == data.scheduledTime
      && r.value.habitSequence == data.habitSequence && r.value.declarationText == data.declarationText
      && r.value.declarationSignature == data.declarationSignature
      && EndDateKey(data.startDate, data.duration) == Ok(r.value.endDate)
      && r.value.createdAt == now && r.value.updatedAt == now
      && r.value.currentStreak == 0 && r.value.totalCheckins == 0 && r.value.emergencyUses == 0
  {
    if session.None? then Err(NotAuthenticated)
    else match EndDateKey(data.startDate, data.duration)
      case Err(e) => Err(e)
      case Ok(endDate) =>
        match insert
        case InsertFailed(m) => Err(StorageError(m))
        case NoRowReturned => Err(NoChallengeReturned)
        case Inserted => Ok(NewChallengeRow(id, session.value, data, endDate, now))
  }

  /**
   * createChallenge: checks the session, computes the end date, inserts the
   * challenge, then inserts the presolutions on a best-effort basis
   * (`presolutionsFail` is the store refusing them, which is only logged).
   */
  method CreateChallenge(db: Database, session: Session, data: CreateChallengeData, now: int,
                         insert: InsertOutcome, presolutionsFail: bool)
    returns (r: Result<Challenge>)
    requires db.Valid()
    modifies db
    ensures db.Valid()
    ensures r == CreateOutcome(session, data, old(db.nextId), now, insert)
    ensures db.checkIns == old(db.checkIns)
    ensures r.Err? ==> db.challenges == old(db.challenges) && db.presolutions == old(db.presolutions)
                       && db.nextId == old(db.nextId)
    ensures r.Ok? ==>
      && db.challenges == old(db.challenges) + [r.value]
      && db.nextId == old(db.nextId) + 1
      && db.presolutions == old(db.presolutions) + (if presolutionsFail then [] else PresolutionRows(data, r.value.id))
      && forall i :: 0 <= i < |old(db.challenges)| ==> old(db.challenges)[i].id != r.value.id
  {
    if session.None? {
      return Err(NotAuthenticated);
    }
    var endDate := EndDateKey(data.startDate, data.duration);
    if endDate.Err? {
      return Err(endDate.error);
    }
    match insert {
      case InsertFailed(m) =>
        return Err(StorageError(m));
      case NoRowReturned =>
        return Err(NoChallengeReturned);
      case Inserted =>
    }
    var challenge := NewChallengeRow(db.nextId, session.value, data, endDate.value, now);
    db.challenges := db.challenges + [challenge];
    db.nextId := db.nextId + 1;
    var rows := PresolutionRows(data, challenge.id);
    if |rows| > 0 && !presolutionsFail {
      db.presolutions := db.presolutions + rows;
    }
    r := Ok(challenge);
  }

  predicate IsActiveOf(c: Challenge, userId: UserId)
  {
    c.userId == userId && c.status == Active
  }

  /**
   * The caller's active challenge with the greatest created_at, or None:
   * `.eq('user_id').eq('status', 'active').order('created_at', desc).limit(1)`.
   */
  function MostRecentActive(rows: seq<Challenge>, userId: UserId): (r: Option<Challenge>)
    ensures r.Some? ==> r.value in rows && IsActiveOf(r.value, userId)
    ensures r.Some? ==> forall i :: 0 <= i < |rows| && IsActiveOf(rows[i], userId) ==>
                          rows[i].createdAt <= r.value.createdAt
    ensures r.None? <==> forall i :: 0 <= i < |rows| ==> !IsActiveOf(rows[i], userId)
  {
    if rows == [] then None
    else
      var rest := MostRecentActive(rows[1..], userId);
      assert forall i :: 1 <= i < |rows| ==> rows[i] == rows[1..][i - 1];
      if IsActiveOf(rows[0], userId) && (rest.None? || rest.value.createdAt < rows[0].createdAt)
      then Some(rows[0])
      else rest
  }

  /** getActiveChallenge: throws without a session. */
  function GetActiveChallenge(rows: seq<Challenge>, session: Session): (r: Result<Option<Challenge>>)
    ensures r.Err? <==> session.None?
    ensures session.Some? ==> r == Ok(MostRecentActive(rows, session.value))
  {
    if session.None? then Err(NotAuthenticated) else Ok(MostRecentActive(rows, session.value))
  }

  /**
   * Of two challenges created back to back by one user, only the later one is
   * returned: a new active challenge newer than every row is the one found.
   */
  lemma NewestCreatedIsActive(rows: seq<Challenge>, c: Challenge)
    requires IsActiveOf(c, c.userId)
    requires forall i :: 0 <= i < |rows| ==> rows[i].createdAt < c.createdAt
    ensures MostRecentActive(rows + [c], c.userId) == Some(c)
  {
    var all := rows + [c];
    assert all[|rows|] == c;
    var r := MostRecentActive(all, c.userId);
    assert r.Some?;
    assert c.createdAt <= r.value.createdAt;
  }
}
