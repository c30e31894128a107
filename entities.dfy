/** The rows of the three tables and the record a new challenge is created from. */
module Entities {
  import opened Support

  type ChallengeId = nat

  datatype Status = Active | Completed | Failed | Paused

  datatype Challenge = Challenge(
    id: ChallengeId,
    userId: UserId,
    title: string,
    duration: nat,
    startDate: string,
    endDate: string,
    scheduledTime: string,
    habitSequence: seq<string>,
    declarationText: string,
    declarationSignature: Option<string>,
    status: Status,
    currentStreak: int,
    totalCheckins: int,
    emergencyUses: int,
    createdAt: int,
    updatedAt: int)

  /** An obstacle with its fallback practice, as entered on the creation form. */
  datatype PresolutionInput = PresolutionInput(obstacle: string, minimumPractice: string)

  /** A row of the presolutions table. */
  datatype Presolution = Presolution(challengeId: ChallengeId, obstacle: string, minimumPractice: string)

  datatype CreateChallengeData = CreateChallengeData(
    title: string,
    duration: nat,
    startDate: string,
    scheduledTime: string,
    habitSequence: seq<string>,
    declarationText: string,
    declarationSignature: Option<string>,
    presolutions: Option<seq<PresolutionInput>>)

  /** A row of the check_ins table; (challengeId, checkInDate) is its unique key. */
  datatype CheckIn = CheckIn(
    id: nat,
    challengeId: ChallengeId,
    userId: UserId,
    checkInDate: string,
    completedHabits: seq<string>,
    totalHabits: nat,
    isComplete: bool,
    isEmergency: bool,
    emergencyReason: Option<string>,
    notes: Option<string>,
    createdAt: int)
}
