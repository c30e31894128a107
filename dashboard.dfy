/**
 * The dashboard page: the state it holds for the signed-in user's active
 * challenge, and the handlers that load it, tick habits, submit the day
 * and spend an emergency.
 */
module Dashboard {
  import opened Support
  import opened Seqs
  import opened Text
  import opened Dates
  import opened Entities
  import opened Store
  import opened Checkins
  import opened Challenges
  import opened Progress

  function Differs(habit: string): string -> bool
  {
    (h: string) => h != habit
  }

  /** toggleHabit's list update: drop every copy of a ticked habit, append an unticked one. */
  function Toggle(completed: seq<string>, habit: string): seq<string>
  {
    if habit in completed then Filter(completed, Differs(habit)) else completed + [habit]
  }

  /** Toggling flips the habit's membership and leaves every other habit as it was. */
  lemma ToggleMembership(completed: seq<string>, habit: string, x: string)
    ensures x in Toggle(completed, habit) <==> (if x == habit then habit !in completed else x in completed)
  {
    if habit in completed {
      FilterMembership(completed, Differs(habit), x);
    }
  }

  /** A list without repeats stays without repeats. */
  lemma ToggleKeepsNoDuplicates(completed: seq<string>, habit: string)
    requires NoDuplicates(completed)
    ensures NoDuplicates(Toggle(completed, habit))
  {
    if habit in completed {
      FilterKeepsNoDuplicates(completed, Differs(habit));
    } else {
      var t := completed + [habit];
      forall i, j | 0 <= i < j < |t|
        ensures t[i] != t[j]
      {
        if j == |completed| {
          assert t[i] == completed[i];
        }
      }
    }
  }

  /** Ticking an unticked habit and unticking it again restores the list. */
  lemma ToggleTwiceRestores(completed: seq<string>, habit: string)
    requires habit !in completed
    ensures Toggle(Toggle(completed, habit), habit) == completed
  {
    var t := completed + [habit];
    assert habit in t;
    FilterAppend(completed, [habit], Differs(habit));
    assert Filter([habit], Differs(habit)) == [];
    forall x | x in completed
      ensures Differs(habit)(x)
    {
    }
    FilterAll(completed, Differs(habit));
  }

  class DashboardState {
    var activeChallenge: Option<Challenge>
    var loading: bool
    var completedHabits: seq<string>
    var checkInLoading: bool
    var showSuccess: bool
    var showEmergency: bool
    var emergencyReason: string
    var todayCheckedIn: bool
    var isEmergencyDay: bool
    var totalCompletedDays: nat

    /** The page as first rendered, before loadData has run. */
    constructor ()
      ensures activeChallenge == None && loading && completedHabits == []
      ensures !checkInLoading && !showSuccess && !showEmergency && emergencyReason == ""
      ensures !todayCheckedIn && !isEmergencyDay && totalCompletedDays == 0
    {
      activeChallenge, loading, completedHabits := None, true, [];
      checkInLoading, showSuccess, showEmergency, emergencyReason := false, false, false, "";
      todayCheckedIn, isEmergencyDay, totalCompletedDays := false, false, 0;
    }

    /**
     * What a load with a session shows: the user's most recent active
     * challenge and, when there is one, its completed-day total and today's
     * ticks and flags, read from today's row or reset when there is none.
     */
    ghost predicate ShowsLoaded(db: Database, userId: UserId, today: Date)
      requires ValidDate(today)
      reads this, db
    {
      && activeChallenge == MostRecentActive(db.challenges, userId)
      && (activeChallenge.Some? ==>
            var id := activeChallenge.value.id;
            && totalCompletedDays == CompletedCount(OfChallenge(db.checkIns, id))
            && match GetTodayCheckIn(db.checkIns, id, today)
               case Some(row) =>
                 completedHabits == row.completedHabits && todayCheckedIn == row.isComplete
                 && isEmergencyDay == row.isEmergency
               case None => completedHabits == [] && !todayCheckedIn && !isEmergencyDay)
    }

    /**
     * loadData: the active challenge, its completed-day count over all its
     * check-ins, and today's ticks and flags; without a session the query
     * throws and only `loading` changes.
     */
    method LoadData(db: Database, session: Session, today: Date)
      requires ValidDate(today)
      modifies this`loading, this`activeChallenge, this`totalCompletedDays,
               this`completedHabits, this`todayCheckedIn, this`isEmergencyDay
      ensures !loading
      ensures session.None? ==>
        && activeChallenge == old(activeChallenge) && totalCompletedDays == old(totalCompletedDays)
        && completedHabits == old(completedHabits) && todayCheckedIn == old(todayCheckedIn)
        && isEmergencyDay == old(isEmergencyDay)
      ensures session.Some? ==> ShowsLoaded(db, session.value, today)
      ensures session.Some? && activeChallenge.None? ==>
        && totalCompletedDays == old(totalCompletedDays)
        && completedHabits == old(completedHabits) && todayCheckedIn == old(todayCheckedIn)
        && isEmergencyDay == old(isEmergencyDay)
    {
      var challenge := GetActiveChallenge(db.challenges, session);
      if challenge.Ok? {
        activeChallenge := challenge.value;
        if challenge.value.Some? {
          var id := challenge.value.value.id;
          var allCheckIns := GetChallengeCheckIns(db.checkIns, id);
          TotalCompletedDaysIsTableCount(db.checkIns, id);
          totalCompletedDays := CompletedCount(allCheckIns);
          var todayCheckIn := GetTodayCheckIn(db.checkIns, id, today);
          if todayCheckIn.Some? {
            completedHabits := todayCheckIn.value.completedHabits;
            todayCheckedIn := todayCheckIn.value.isComplete;
            isEmergencyDay := todayCheckIn.value.isEmergency;
          } else {
            completedHabits := [];
            todayCheckedIn := false;
            isEmergencyDay := false;
          }
        }
      }
      loading := false;
    }

    /** toggleHabit: ignored once today is checked in, otherwise flips the habit. */
    method ToggleHabit(habit: string)
      modifies this`completedHabits
      ensures todayCheckedIn ==> completedHabits == old(completedHabits)
      ensures !todayCheckedIn ==> completedHabits == Toggle(old(completedHabits), habit)
    {
      if todayCheckedIn {
        return;
      }
      if habit in completedHabits {
        completedHabits := Filter(completedHabits, Differs(habit));
      } else {
        completedHabits := completedHabits + [habit];
      }
    }

    /**
     * handleCompleteCheckIn: submits only with an active challenge and as
     * many ticks as habits, so the row it writes is always complete; a store
     * failure leaves the page and the store as they were.
     */
    method HandleCompleteCheckIn(db: Database, session: Session, today: Date, now: int,
                                 failure: Option<string>)
      returns (submitted: bool)
      requires db.Valid() && ValidDate(today)
      modifies this, db
      ensures db.Valid()
      ensures db.challenges == old(db.challenges) && db.presolutions == old(db.presolutions)
      ensures submitted <==> old(activeChallenge).Some? &&
                             IsComplete(old(activeChallenge).value.habitSequence, old(completedHabits))
      ensures !submitted ==> unchanged(this) && unchanged(db)
      ensures submitted && (session.None? || failure.Some?) ==>
        && db.checkIns == old(db.checkIns) && db.nextId == old(db.nextId)
        && activeChallenge == old(activeChallenge) && completedHabits == old(completedHabits)
        && todayCheckedIn == old(todayCheckedIn) && showSuccess == old(showSuccess)
        && totalCompletedDays == old(totalCompletedDays) && isEmergencyDay == old(isEmergencyDay)
        && loading == old(loading) && showEmergency == old(showEmergency)
        && emergencyReason == old(emergencyReason)
        && !checkInLoading
      ensures submitted && session.Some? && failure.None? ==>
        var c := old(activeChallenge).value;
        var w := CheckInWriteFor(c.id, session.value, today, c.habitSequence, old(completedHabits));
        && w.isComplete
        && db.checkIns == Upsert(old(db.checkIns), w, old(db.nextId), now)
        && db.nextId == old(db.nextId) + (if Lookup(old(db.checkIns), c.id, DateKey(today)).None? then 1 else 0)
        && Lookup(db.checkIns, c.id, DateKey(today)).Some?
        && Lookup(db.checkIns, c.id, DateKey(today)).value.isComplete
        && showSuccess && !checkInLoading && !loading
        && showEmergency == old(showEmergency) && emergencyReason == old(emergencyReason)
        && ShowsLoaded(db, session.value, today)
        && (activeChallenge.Some? && activeChallenge.value.id == c.id ==> todayCheckedIn)
        && (activeChallenge.None? ==>
              && todayCheckedIn && completedHabits == old(completedHabits)
              && totalCompletedDays == old(totalCompletedDays) && isEmergencyDay == old(isEmergencyDay))
    {
      if activeChallenge.None? {
        return false;
      }
      var c := activeChallenge.value;
      var allHabitsComplete := |completedHabits| == |c.habitSequence|;
      if !allHabitsComplete {
        return false;
      }
      submitted := true;
      checkInLoading := true;
      var saved := UpdateCheckIn(db, session, c.id, c.habitSequence, completedHabits, today, now, failure);
      if saved.Ok? {
        todayCheckedIn := true;
        showSuccess := true;
        LoadData(db, session, today);
        assert saved.value.isComplete;
        assert GetTodayCheckIn(db.checkIns, c.id, today) == Some(saved.value);
      }
      checkInLoading := false;
    }

    /** The emergency button: shown only on an unfinished day of an unfinished challenge, disabled after three uses. */
    method OpenEmergency()
      modifies this`showEmergency
      ensures showEmergency == (old(showEmergency) ||
        (activeChallenge.Some? && !IsChallengeComplete(activeChallenge, totalCompletedDays)
         && !todayCheckedIn && !EmergencyButtonDisabled(activeChallenge.value.emergencyUses)))
    {
      if activeChallenge.Some? && !IsChallengeComplete(activeChallenge, totalCompletedDays)
         && !todayCheckedIn && !EmergencyButtonDisabled(activeChallenge.value.emergencyUses) {
        showEmergency := true;
      }
    }

    /** The reason text area. */
    method SetEmergencyReason(text: string)
      modifies this`emergencyReason
      ensures emergencyReason == text
    {
      emergencyReason := text;
    }

    /** The modal's cancel button: the reason is kept. */
    method CancelEmergency()
      modifies this`showEmergency
      ensures !showEmergency
    {
      showEmergency := false;
    }

    /**
     * handleEmergency: calls the procedure only with an active challenge and
     * a reason that is not all whitespace; a granted use closes the modal,
     * clears the reason and reloads, anything else leaves the page as it was.
     * `reply` is what the procedure answers.
     */
    method HandleEmergency(db: Database, session: Session, reply: RpcReply, today: Date)
      returns (rpcCalled: bool)
      requires ValidDate(today)
      modifies this
      ensures rpcCalled <==> old(activeChallenge).Some? && !IsBlank(old(emergencyReason)) && session.Some?
      ensures var result := UseEmergencyProtocol(session, reply);
        (old(activeChallenge).None? || IsBlank(old(emergencyReason))
         || result.Err? || result.value.Refused?) ==> unchanged(this)
      ensures var result := UseEmergencyProtocol(session, reply);
        old(activeChallenge).Some? && !IsBlank(old(emergencyReason)) && result.Ok? && result.value.Granted? ==>
        && !showEmergency && emergencyReason == "" && !loading
        && showSuccess == old(showSuccess) && checkInLoading == old(checkInLoading)
        && ShowsLoaded(db, session.value, today)
        && (activeChallenge.None? ==>
              && todayCheckedIn == old(todayCheckedIn) && completedHabits == old(completedHabits)
              && totalCompletedDays == old(totalCompletedDays) && isEmergencyDay == old(isEmergencyDay))
    {
      if activeChallenge.None? {
        return false;
      }
      TrimEmptyIffBlank(emergencyReason);
      if Trim(emergencyReason) == [] {
        return false;
      }
      rpcCalled := session.Some?;
      var result := UseEmergencyProtocol(session, reply);
      if result.Ok? && result.value.Granted? {
        showEmergency := false;
        emergencyReason := "";
        LoadData(db, session, today);
      }
    }
  }
}
