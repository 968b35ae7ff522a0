/** The type tags the domain layer writes into each record's `type` property. */
module Types {

  datatype Kind =
    | AgeGroup
    | Association
    | Athlete
    | AthleteResult
    | Attempt
    | Club
    | ClubMember
    | CombinedDiscipline
    | CombinedResult
    | Discipline
    | Event
    | Group
    | Height
    | HeightResult
    | Meeting
    | Round
    | SplitTime
    | TeamMember
    | TeamResult
    | Venue

  /** The tag string of each kind. */
  function Tag(k: Kind): string {
    match k
    case AgeGroup => "AgeGroup"
    case Association => "Association"
    case Athlete => "Athlete"
    case AthleteResult => "AthleteResult"
    case Attempt => "Attempt"
    case Club => "Club"
    case ClubMember => "ClubMember"
    case CombinedDiscipline => "CombinedDiscipline"
    case CombinedResult => "CombinedResult"
    case Discipline => "Discipline"
    case Event => "Event"
    case Group => "Group"
    case Height => "Height"
    case HeightResult => "HeightResult"
    case Meeting => "Meeting"
    case Round => "Round"
    case SplitTime => "SplitTime"
    case TeamMember => "TeamMember"
    case TeamResult => "TeamResult"
    case Venue => "Venue"
  }

  /** Distinct kinds carry distinct tags, so a record's tag tells its kind. */
  lemma TagInjective(k1: Kind, k2: Kind)
    requires k1 != k2
    ensures Tag(k1) != Tag(k2)
  {
  }
}
