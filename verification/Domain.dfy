/** The rows every part of the platform refers to. Identifiers stand for UUIDs, numbered in the order of their spelling. */
module Domain {
  import opened Common

  type UserId = nat
  type TeamId = nat        // a row of `groups`: a set of people
  type GroupId = nat       // a row of `module_translation_groups`: one body of material
  type ModuleId = nat
  type VersionId = nat
  type PageId = nat
  type AssetId = nat
  type AssignmentId = nat
  type Day = int           // a calendar date, counted in days

  const MAX_PAGES: nat := 200

  /** A language tag, numbered in alphabetical order. */
  type Language = nat

  datatype User = User(author: bool, preferred: Option<Language>, teams: set<TeamId>, disabled: bool, erased: bool)
  {
    predicate Live() {
      !disabled && !erased
    }
  }

  /** A learner and a body of material. */
  datatype Key = Key(user: UserId, group: GroupId)

  datatype Target = ToUser(user: UserId) | ToTeam(team: TeamId)

  datatype Assignment = Assignment(group: GroupId, target: Target, due: Option<Day>, mandatory: bool, autoReminders: bool)

  /** What a learner's progress row says about completion. */
  datatype Completion = Completion(completed: bool, superseded: bool)
  {
    predicate Current() {
      completed && !superseded
    }
  }

  /** Does this assignment name this user, directly or through a team they belong to? */
  predicate Names(a: Assignment, id: UserId, user: User) {
    match a.target
    case ToUser(u) => u == id
    case ToTeam(t) => t in user.teams
  }

  predicate NoDuplicates<T(==)>(s: seq<T>) {
    forall i, j :: 0 <= i < j < |s| ==> s[i] != s[j]
  }
}
