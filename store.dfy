/** The data store: the challenges, presolutions and check_ins tables. */
module Store {
  import opened Entities

  /** No two rows share the key (challenge_id, check_in_date). */
  predicate CheckInKeysUnique(rows: seq<CheckIn>)
  {
    forall i, j :: 0 <= i < j < |rows| ==>
      rows[i].challengeId != rows[j].challengeId || rows[i].checkInDate != rows[j].checkInDate
  }

  class Database {
    var challenges: seq<Challenge>
    var presolutions: seq<Presolution>
    var checkIns: seq<CheckIn>
    /** The next generated row id. */
    var nextId: nat

    /** The unique constraint on check-ins holds, and generated ids are all below nextId. */
    ghost predicate Valid()
      reads this
    {
      && CheckInKeysUnique(checkIns)
      && (forall i :: 0 <= i < |challenges| ==> challenges[i].id < nextId)
      && (forall i :: 0 <= i < |checkIns| ==> checkIns[i].id < nextId)
    }

    constructor ()
      ensures Valid()
      ensures challenges == [] && presolutions == [] && checkIns == [] && nextId == 0
    {
      challenges, presolutions, checkIns, nextId := [], [], [], 0;
    }
  }
}
