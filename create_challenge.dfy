/**
 * The four-step challenge creation form: its fields, the habit and
 * presolution list editors, step navigation and the submission, which
 * drops blank habits and half-filled presolutions.
 */
module ChallengeForm {
  import opened Support
  import opened Seqs
  import opened Text
  import opened Entities
  import opened Store
  import opened Challenges

  /** The four durations the form offers. */
  type DurationOption = d: nat | d == 30 || d == 55 || d == 66 || d == 90 witness 66

  /** One presolution row of the form; the editor writes into it in place. */
  class PresolutionDraft {
    var obstacle: string
    var minimumPractice: string

    constructor ()
      ensures obstacle == "" && minimumPractice == ""
    {
      obstacle, minimumPractice := "", "";
    }
  }

  datatype Field = Obstacle | MinimumPractice

  /** The drafts' current contents. */
  function Snapshot(drafts: seq<PresolutionDraft>): (r: seq<PresolutionInput>)
    reads drafts
    ensures |r| == |drafts|
    ensures forall i :: 0 <= i < |drafts| ==>
      r[i] == PresolutionInput(drafts[i].obstacle, drafts[i].minimumPractice)
  {
    if drafts == [] then []
    else [PresolutionInput(drafts[0].obstacle, drafts[0].minimumPractice)] + Snapshot(drafts[1..])
  }

  /** `habits.filter((_, i) => i !== index)`. */
  function RemoveIndex<T>(s: seq<T>, index: int): (r: seq<T>)
    ensures 0 <= index < |s| ==> |r| == |s| - 1
    ensures 0 <= index < |s| ==> forall k :: 0 <= k < |r| ==> r[k] == (if k < index then s[k] else s[k + 1])
    ensures !(0 <= index < |s|) ==> r == s
  {
    if 0 <= index < |s| then s[..index] + s[index + 1..] else s
  }

  /** `h => h.trim()`: a habit is kept when it has a character that is not whitespace. */
  function HasText(h: string): bool
  {
    Trim(h) != []
  }

  /** `p => p.obstacle && p.minimum_practice`: both fields non-empty, whitespace counts. */
  function BothFilled(p: PresolutionInput): bool
  {
    p.obstacle != "" && p.minimumPractice != ""
  }

  function SubmittedHabits(habits: seq<string>): seq<string>
  {
    Filter(habits, HasText)
  }

  function SubmittedPresolutions(drafts: seq<PresolutionInput>): Option<seq<PresolutionInput>>
  {
    var kept := Filter(drafts, BothFilled);
    if |kept| > 0 then Some(kept) else None
  }

  /** The object handleSubmit passes to createChallenge. */
  function SubmissionData(title: string, duration: DurationOption, startDate: string, scheduledTime: string,
                          habits: seq<string>, declarationText: string,
                          drafts: seq<PresolutionInput>): CreateChallengeData
  {
    CreateChallengeData(title, duration, startDate, scheduledTime, SubmittedHabits(habits),
                        declarationText, None, SubmittedPresolutions(drafts))
  }

  /** Exactly the habits that are not all whitespace are submitted, unchanged and in order. */
  lemma SubmittedHabitsAreNotBlank(habits: seq<string>, h: string)
    ensures h in SubmittedHabits(habits) <==> h in habits && !IsBlank(h)
  {
    FilterMembership(habits, HasText, h);
    TrimEmptyIffBlank(h);
  }

  /** The presolutions are left out when none is filled in, and otherwise are exactly the filled ones. */
  lemma SubmittedPresolutionsAreFilled(drafts: seq<PresolutionInput>, p: PresolutionInput)
    ensures SubmittedPresolutions(drafts).None? <==> forall i :: 0 <= i < |drafts| ==> !BothFilled(drafts[i])
    ensures SubmittedPresolutions(drafts).Some? ==>
      |SubmittedPresolutions(drafts).value| > 0
      && (p in SubmittedPresolutions(drafts).value <==> p in drafts && BothFilled(p))
  {
    var kept := Filter(drafts, BothFilled);
    FilterMembership(drafts, BothFilled, p);
    if |kept| == 0 {
      forall i | 0 <= i < |drafts|
        ensures !BothFilled(drafts[i])
      {
        FilterMembership(drafts, BothFilled, drafts[i]);
      }
    } else {
      FilterMembership(drafts, BothFilled, kept[0]);
    }
  }

  /** The presolution rows stored for a submission all have both fields filled in. */
  lemma StoredPresolutionsAreFilled(title: string, duration: DurationOption, startDate: string,
                                    scheduledTime: string, habits: seq<string>, declarationText: string,
                                    drafts: seq<PresolutionInput>, id: ChallengeId)
    ensures var rows := PresolutionRows(SubmissionData(title, duration, startDate, scheduledTime,
                                                       habits, declarationText, drafts), id);
      && |rows| == |Filter(drafts, BothFilled)|
      && forall i :: 0 <= i < |rows| ==>
           rows[i].challengeId == id && rows[i].obstacle != "" && rows[i].minimumPractice != ""
  {
    var kept := Filter(drafts, BothFilled);
    forall i | 0 <= i < |kept|
      ensures BothFilled(kept[i])
    {
      FilterMembership(drafts, BothFilled, kept[i]);
    }
  }

  class CreateChallengeForm {
    var step: int
    var loading: bool
    var title: string
    var duration: DurationOption
    var startDate: string
    var scheduledTime: string
    var habits: seq<string>
    var declarationText: string
    var presolutions: seq<PresolutionDraft>

    /** The step is one of 1..4, there is always a habit row and a presolution row, and no draft is shared. */
    ghost predicate Valid()
      reads this
    {
      && 1 <= step <= 4
      && |habits| >= 1
      && |presolutions| >= 1
      && forall i, j :: 0 <= i < j < |presolutions| ==> presolutions[i] != presolutions[j]
    }

    constructor ()
      ensures Valid()
      ensures step == 1 && !loading && title == "" && duration == 66 && startDate == ""
      ensures scheduledTime == "05:00" && habits == [""] && declarationText == ""
      ensures |presolutions| == 1 && fresh(presolutions[0])
      ensures Snapshot(presolutions) == [PresolutionInput("", "")]
    {
      var draft := new PresolutionDraft();
      step, loading, title, duration, startDate := 1, false, "", 66, "";
      scheduledTime, habits, declarationText := "05:00", [""], "";
      presolutions := [draft];
    }

    method SetTitle(value: string)
      modifies this`title
      ensures title == value
    {
      title := value;
    }

    /** Only the four offered durations can be chosen. */
    method SetDuration(d: DurationOption)
      modifies this`duration
      ensures duration == d
    {
      duration := d;
    }

    method SetStartDate(value: string)
      modifies this`startDate
      ensures startDate == value
    {
      startDate := value;
    }

    method SetScheduledTime(value: string)
      modifies this`scheduledTime
      ensures scheduledTime == value
    {
      scheduledTime := value;
    }

    method SetDeclarationText(value: string)
      modifies this`declarationText
      ensures declarationText == value
    {
      declarationText := value;
    }

    /** addHabit: appends an empty habit. */
    method AddHabit()
      requires Valid()
      modifies this`habits
      ensures Valid()
      ensures habits == old(habits) + [""]
    {
      habits := habits + [""];
    }

    /** updateHabit: replaces the habit at a rendered row. */
    method UpdateHabit(index: nat, value: string)
      requires Valid() && index < |habits|
      modifies this`habits
      ensures Valid()
      ensures habits == old(habits)[index := value]
    {
      habits := habits[index := value];
    }

    /** removeHabit: removes the row unless it is the only one. */
    method RemoveHabit(index: int)
      requires Valid()
      modifies this`habits
      ensures Valid()
      ensures |old(habits)| > 1 ==> habits == RemoveIndex(old(habits), index)
      ensures |old(habits)| <= 1 ==> habits == old(habits)
    {
      if |habits| > 1 {
        habits := RemoveIndex(habits, index);
      }
    }

    /** addPresolution: appends a new empty draft. */
    method AddPresolution()
      requires Valid()
      modifies this`presolutions
      ensures Valid()
      ensures |presolutions| == |old(presolutions)| + 1
      ensures presolutions[..|old(presolutions)|] == old(presolutions)
      ensures fresh(presolutions[|old(presolutions)|])
      ensures Snapshot(presolutions) == old(Snapshot(presolutions)) + [PresolutionInput("", "")]
    {
      var draft := new PresolutionDraft();
      presolutions := presolutions + [draft];
      assert presolutions[..|presolutions| - 1] == old(presolutions);
    }

    /** updatePresolution: writes one field of one draft, in place; every other draft is untouched. */
    method UpdatePresolution(index: nat, field: Field, value: string)
      requires Valid() && index < |presolutions|
      modifies presolutions[index]
      ensures Valid()
      ensures Snapshot(presolutions) == old(Snapshot(presolutions))[index :=
        match field
        case Obstacle => PresolutionInput(value, old(presolutions[index].minimumPractice))
        case MinimumPractice => PresolutionInput(old(presolutions[index].obstacle), value)]
    {
      var draft := presolutions[index];
      match field {
        case Obstacle => draft.obstacle := value;
        case MinimumPractice => draft.minimumPractice := value;
      }
    }

    /** The back button, shown after step 1. */
    method Back()
      requires Valid()
      modifies this`step
      ensures Valid()
      ensures step == (if old(step) > 1 then old(step) - 1 else old(step))
    {
      if step > 1 {
        step := step - 1;
      }
    }

    /** The next button, shown before step 4 and enabled once a title and a start date are given. */
    method Next()
      requires Valid()
      modifies this`step
      ensures Valid()
      ensures step == (if old(step) < 4 && title != "" && startDate != "" then old(step) + 1 else old(step))
    {
      if step < 4 && title != "" && startDate != "" {
        step := step + 1;
      }
    }

    /**
     * handleSubmit: creates the challenge from the form with blank habits and
     * half-filled presolutions dropped and no signature; `loading` is false
     * afterwards whatever happens.
     */
    method HandleSubmit(db: Database, session: Session, now: int, insert: InsertOutcome,
                        presolutionsFail: bool)
      returns (r: Result<Challenge>)
      requires Valid() && db.Valid()
      modifies this`loading, db
      ensures Valid() && db.Valid() && !loading
      ensures var data := SubmissionData(title, duration, startDate, scheduledTime, habits,
                                         declarationText, Snapshot(presolutions));
        && r == CreateOutcome(session, data, old(db.nextId), now, insert)
        && (r.Ok? ==>
              db.presolutions == old(db.presolutions)
                                 + (if presolutionsFail then [] else PresolutionRows(data, r.value.id)))
      ensures db.checkIns == old(db.checkIns)
      ensures r.Err? ==> db.challenges == old(db.challenges) && db.presolutions == old(db.presolutions)
                         && db.nextId == old(db.nextId)
      ensures r.Ok? ==>
        && db.challenges == old(db.challenges) + [r.value]
        && db.nextId == old(db.nextId) + 1
        && r.value.declarationSignature.None?
        && forall i :: 0 <= i < |r.value.habitSequence| ==> !IsBlank(r.value.habitSequence[i])
    {
      loading := true;
      var data := SubmissionData(title, duration, startDate, scheduledTime, habits,
                                 declarationText, Snapshot(presolutions));
      r := CreateChallenge(db, session, data, now, insert, presolutionsFail);
      if r.Ok? {
        forall i | 0 <= i < |r.value.habitSequence|
          ensures !IsBlank(r.value.habitSequence[i])
        {
          SubmittedHabitsAreNotBlank(habits, r.value.habitSequence[i]);
        }
      }
      loading := false;
    }
  }
}
