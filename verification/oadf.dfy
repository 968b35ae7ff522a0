/**
 * The results graph: eighteen record stores, one per entity kind except that
 * athlete, team and combined results share one, wired together only by
 * identifiers stored as plain properties. Each `AddX` builds a record with its
 * fixed type tag, chooses the dedup key shape of its kind and delegates to
 * `ObjectStore.Add`; each `GetX` delegates to one of the store's readers.
 */
module Oadf {
  import opened Wrappers
  import opened JsValues
  import opened Types
  import opened ObjectStore

  datatype Graph = Graph(
    meetingStore: Store,
    ageGroupStore: Store,
    associationStore: Store,
    athleteStore: Store,
    clubStore: Store,
    clubMemberStore: Store,
    disciplineStore: Store,
    eventStore: Store,
    groupStore: Store,
    resultStore: Store,
    roundStore: Store,
    splitTimeStore: Store,
    teamMemberStore: Store,
    venueStore: Store,
    attemptStore: Store,
    combinedDisciplineStore: Store,
    heightStore: Store,
    heightResultStore: Store)

  ghost predicate Valid(g: Graph) {
    && ObjectStore.Valid(g.meetingStore)
    && ObjectStore.Valid(g.ageGroupStore)
    && ObjectStore.Valid(g.associationStore)
    && ObjectStore.Valid(g.athleteStore)
    && ObjectStore.Valid(g.clubStore)
    && ObjectStore.Valid(g.clubMemberStore)
    && ObjectStore.Valid(g.disciplineStore)
    && ObjectStore.Valid(g.eventStore)
    && ObjectStore.Valid(g.groupStore)
    && ObjectStore.Valid(g.resultStore)
    && ObjectStore.Valid(g.roundStore)
    && ObjectStore.Valid(g.splitTimeStore)
    && ObjectStore.Valid(g.teamMemberStore)
    && ObjectStore.Valid(g.venueStore)
    && ObjectStore.Valid(g.attemptStore)
    && ObjectStore.Valid(g.combinedDisciplineStore)
    && ObjectStore.Valid(g.heightStore)
    && ObjectStore.Valid(g.heightResultStore)
  }

  /** A store that holds no record and knows no key. */
  predicate Empty(s: Store) {
    s.all == [] && s.keyMap == map[]
  }

  /** A new graph: eighteen empty stores, each with its own identifier generator. */
  function NewGraph(): (g: Graph)
    ensures Valid(g)
    ensures Empty(g.meetingStore)
    ensures Empty(g.ageGroupStore)
    ensures Empty(g.associationStore)
    ensures Empty(g.athleteStore)
    ensures Empty(g.clubStore)
    ensures Empty(g.clubMemberStore)
    ensures Empty(g.disciplineStore)
    ensures Empty(g.eventStore)
    ensures Empty(g.groupStore)
    ensures Empty(g.resultStore)
    ensures Empty(g.roundStore)
    ensures Empty(g.splitTimeStore)
    ensures Empty(g.teamMemberStore)
    ensures Empty(g.venueStore)
    ensures Empty(g.attemptStore)
    ensures Empty(g.combinedDisciplineStore)
    ensures Empty(g.heightStore)
    ensures Empty(g.heightResultStore)
  {
    var s := ObjectStore.New();
    assert ObjectStore.Valid(s);
    Graph(s, s, s, s, s, s, s, s, s, s, s, s, s, s, s, s, s, s)
  }

  /**
   * A dedup key written as an array literal. The literal's allocation never
   * matters, because `add` normalises the key before using it.
   */
  function Tuple(vs: seq<JsValue>): JsValue {
    Array(0, vs)
  }

  /** Two tuple keys are one key exactly when they agree position by position. */
  lemma TupleKeysEqual(xs: seq<JsValue>, ys: seq<JsValue>)
    ensures FromJS(Tuple(xs)) == FromJS(Tuple(ys)) <==>
      |xs| == |ys| && forall i :: 0 <= i < |xs| ==> Same(xs[i], ys[i])
  {
    FromJSIffSame(Tuple(xs), Tuple(ys));
  }

  /** A JavaScript default parameter `= true`: it applies to `undefined` only, not to `null`. */
  function DefaultTrue(v: JsValue): (r: JsValue)
    ensures r != Undefined
    ensures v == Undefined ==> r == Bool(true)
    ensures v != Undefined ==> r == v
  {
    if v == Undefined then Bool(true) else v
  }

  // ---------------------------------------------------------------------------
  // Records and keys of each kind
  // ---------------------------------------------------------------------------

  function AthleteRecord(firstName: JsValue, lastName: JsValue, yob: JsValue, gender: JsValue,
                         citizenship: JsValue, club: JsValue, bib: JsValue): (r: Record)
    ensures r.Get("type") == Str(Tag(Athlete))
    ensures r.Get("firstName") == firstName && r.Get("lastName") == lastName && r.Get("yob") == yob
            && r.Get("gender") == gender && r.Get("citizenship") == citizenship && r.Get("club") == club
            && r.Get("bib") == bib
  {
    Record(map["type" := Str(Tag(Athlete)), "firstName" := firstName, "lastName" := lastName,
               "yob" := yob, "gender" := gender, "citizenship" := citizenship, "club" := club,
               "bib" := bib])
  }

  function AthleteKey(firstName: JsValue, lastName: JsValue, yob: JsValue, club: JsValue): JsValue {
    Tuple([firstName, lastName, yob, club])
  }

  function AthleteResultRecord(athlete: JsValue, group: JsValue, performance: JsValue, exception: JsValue,
                               wind: JsValue, position: JsValue, qualified: JsValue, weight: JsValue,
                               comment: JsValue, automaticTiming: JsValue): (r: Record)
    ensures r.Get("type") == Str(Tag(AthleteResult))
    ensures r.Get("athlete") == athlete && r.Get("group") == group && r.Get("performance") == performance
            && r.Get("exception") == exception && r.Get("wind") == wind && r.Get("position") == position
            && r.Get("qualified") == qualified && r.Get("weight") == weight && r.Get("comment") == comment
            && r.Get("automaticTiming") == DefaultTrue(automaticTiming)
  {
    Record(map["type" := Str(Tag(AthleteResult)), "athlete" := athlete, "group" := group,
               "performance" := performance, "exception" := exception, "wind" := wind,
               "position" := position, "qualified" := qualified, "weight" := weight,
               "comment" := comment, "automaticTiming" := DefaultTrue(automaticTiming)])
  }

  /** The key shape athlete and combined results share in the result store. */
  function AthleteResultKey(athlete: JsValue, group: JsValue, performance: JsValue, wind: JsValue): JsValue {
    Tuple([athlete, Null, group, performance, wind])
  }

  function TeamResultRecord(club: JsValue, group: JsValue, performance: JsValue, exception: JsValue,
                            position: JsValue, qualified: JsValue, comment: JsValue,
                            automaticTiming: JsValue): (r: Record)
    ensures r.Get("type") == Str(Tag(TeamResult))
    ensures r.Get("club") == club && r.Get("group") == group && r.Get("performance") == performance
            && r.Get("exception") == exception && r.Get("position") == position
            && r.Get("qualified") == qualified && r.Get("comment") == comment
            && r.Get("automaticTiming") == DefaultTrue(automaticTiming)
  {
    Record(map["type" := Str(Tag(TeamResult)), "club" := club, "group" := group,
               "performance" := performance, "exception" := exception, "position" := position,
               "qualified" := qualified, "comment" := comment,
               "automaticTiming" := DefaultTrue(automaticTiming)])
  }

  /** The key shape of team results in the result store. */
  function TeamResultKey(club: JsValue, group: JsValue, performance: JsValue): JsValue {
    Tuple([Null, club, group, performance, Null])
  }

  function CombinedResultRecord(athlete: JsValue, group: JsValue, parentResult: JsValue, performance: JsValue,
                                exception: JsValue, wind: JsValue, points: JsValue, position: JsValue,
                                qualified: JsValue, weight: JsValue, comment: JsValue,
                                automaticTiming: JsValue): (r: Record)
    ensures r.Get("type") == Str(Tag(CombinedResult))
    ensures r.Get("athlete") == athlete && r.Get("group") == group && r.Get("performance") == performance
            && r.Get("exception") == exception && r.Get("wind") == wind && r.Get("points") == points
            && r.Get("position") == position && r.Get("qualified") == qualified && r.Get("weight") == weight
            && r.Get("comment") == comment && r.Get("automaticTiming") == DefaultTrue(automaticTiming)
            && r.Get("parentResult") == parentResult
  {
    Record(map["type" := Str(Tag(CombinedResult)), "athlete" := athlete, "group" := group,
               "performance" := performance, "exception" := exception, "wind" := wind,
               "points" := points, "position" := position, "qualified" := qualified,
               "weight" := weight, "comment" := comment,
               "automaticTiming" := DefaultTrue(automaticTiming), "parentResult" := parentResult])
  }

  /** The records of the kinds whose only property besides the tag is a name. */
  function NamedRecord(k: Kind, name: JsValue): (r: Record)
    ensures r.Get("type") == Str(Tag(k))
    ensures r.Get("name") == name
  {
    Record(map["type" := Str(Tag(k)), "name" := name])
  }

  function EventRecord(meeting: JsValue, ageGroup: JsValue, discipline: JsValue, height: JsValue,
                       weight: JsValue): (r: Record)
    ensures r.Get("type") == Str(Tag(Event))
    ensures r.Get("meeting") == meeting && r.Get("ageGroup") == ageGroup && r.Get("discipline") == discipline
            && r.Get("height") == height && r.Get("weight") == weight
  {
    Record(map["type" := Str(Tag(Event)), "meeting" := meeting, "ageGroup" := ageGroup,
               "discipline" := discipline, "height" := height, "weight" := weight])
  }

  function GroupRecord(round: JsValue, number: JsValue, time: JsValue, wind: JsValue, comment: JsValue): (r: Record)
    ensures r.Get("type") == Str(Tag(Group))
    ensures r.Get("round") == round && r.Get("number") == number && r.Get("time") == time
            && r.Get("wind") == wind && r.Get("comment") == comment
  {
    Record(map["type" := Str(Tag(Group)), "round" := round, "number" := number, "time" := time,
               "wind" := wind, "comment" := comment])
  }

  function MeetingRecord(name: JsValue, venue: JsValue, startDate: JsValue, endDate: JsValue): (r: Record)
    ensures r.Get("type") == Str(Tag(Meeting))
    ensures r.Get("name") == name && r.Get("venue") == venue && r.Get("startDate") == startDate
            && r.Get("endDate") == endDate
  {
    Record(map["type" := Str(Tag(Meeting)), "name" := name, "venue" := venue,
               "startDate" := startDate, "endDate" := endDate])
  }

  function RoundRecord(event: JsValue, name: JsValue, date: JsValue, time: JsValue, comment: JsValue,
                       combinedDiscipline: JsValue): (r: Record)
    ensures r.Get("type") == Str(Tag(Round))
    ensures r.Get("event") == event && r.Get("name") == name && r.Get("date") == date && r.Get("time") == time
            && r.Get("comment") == comment && r.Get("combinedDiscipline") == combinedDiscipline
  {
    Record(map["type" := Str(Tag(Round)), "event" := event, "name" := name, "date" := date,
               "time" := time, "comment" := comment, "combinedDiscipline" := combinedDiscipline])
  }

  function VenueRecord(name: JsValue, city: JsValue): (r: Record)
    ensures r.Get("type") == Str(Tag(Venue))
    ensures r.Get("name") == name && r.Get("city") == city
  {
    Record(map["type" := Str(Tag(Venue)), "name" := name, "city" := city])
  }

  function TeamMemberRecord(result: JsValue, athlete: JsValue, performance: JsValue): (r: Record)
    ensures r.Get("type") == Str(Tag(TeamMember))
    ensures r.Get("result") == result && r.Get("athlete") == athlete && r.Get("performance") == performance
  {
    Record(map["type" := Str(Tag(TeamMember)), "result" := result, "athlete" := athlete,
               "performance" := performance])
  }

  function SplitTimeRecord(group: JsValue, distance: JsValue, time: JsValue, athlete: JsValue): (r: Record)
    ensures r.Get("type") == Str(Tag(SplitTime))
    ensures r.Get("group") == group && r.Get("distance") == distance && r.Get("time") == time
            && r.Get("athlete") == athlete
  {
    Record(map["type" := Str(Tag(SplitTime)), "group" := group, "distance" := distance, "time" := time,
               "athlete" := athlete])
  }

  function AttemptRecord(result: JsValue, number: JsValue, performance: JsValue, exception: JsValue,
                         wind: JsValue): (r: Record)
    ensures r.Get("type") == Str(Tag(Attempt))
    ensures r.Get("result") == result && r.Get("number") == number && r.Get("performance") == performance
            && r.Get("wind") == wind && r.Get("exception") == exception
  {
    Record(map["type" := Str(Tag(Attempt)), "result" := result, "number" := number,
               "performance" := performance, "wind" := wind, "exception" := exception])
  }

  function CombinedDisciplineRecord(event: JsValue, discipline: JsValue, order: JsValue): (r: Record)
    ensures r.Get("type") == Str(Tag(CombinedDiscipline))
    ensures r.Get("event") == event && r.Get("discipline") == discipline && r.Get("order") == order
  {
    Record(map["type" := Str(Tag(CombinedDiscipline)), "event" := event, "discipline" := discipline,
               "order" := order])
  }

  function HeightRecord(group: JsValue, value: JsValue): (r: Record)
    ensures r.Get("type") == Str(Tag(Height))
    ensures r.Get("group") == group && r.Get("height") == value
  {
    Record(map["type" := Str(Tag(Height)), "group" := group, "height" := value])
  }

  function HeightResultRecord(result: JsValue, height: JsValue, performance: JsValue): (r: Record)
    ensures r.Get("type") == Str(Tag(HeightResult))
    ensures r.Get("result") == result && r.Get("height") == height && r.Get("performance") == performance
  {
    Record(map["type" := Str(Tag(HeightResult)), "result" := result, "height" := height,
               "performance" := performance])
  }

  // ---------------------------------------------------------------------------
  // addX / getX
  // ---------------------------------------------------------------------------

  /** `addAthlete`: deduplicated on first name, last name, year of birth and club. */
  function AddAthlete(g: Graph, firstName: JsValue, lastName: JsValue, yob: JsValue, gender: JsValue,
                      citizenship: JsValue, club: JsValue, bib: JsValue): (r: Inserted<Graph>)
    ensures r.state == g.(athleteStore := r.state.athleteStore)
    ensures Valid(g) ==> Valid(r.state)
    ensures ObjectStore.Valid(g.athleteStore) ==>
              GetByKey(r.state.athleteStore, AthleteKey(firstName, lastName, yob, club))
              == GetById(r.state.athleteStore, Int(r.id)) != None
    ensures GetOrCreate(g.athleteStore, r.state.athleteStore, r.id,
                        AthleteRecord(firstName, lastName, yob, gender, citizenship, club, bib),
                        AthleteKey(firstName, lastName, yob, club))
  {
    var added := Add(g.athleteStore, AthleteRecord(firstName, lastName, yob, gender, citizenship, club, bib),
                     AthleteKey(firstName, lastName, yob, club));
    Inserted(g.(athleteStore := added.state), added.id)
  }

  /** `getAthletesByBib`: every athlete whose bib is `===` to `bib`, in insertion order. */
  function GetAthletesByBib(g: Graph, bib: JsValue): (r: seq<Record>)
    ensures forall x :: x in r <==> x in g.athleteStore.all && StrictEquals(x.Get("bib"), bib)
    ensures ObjectStore.Valid(g.athleteStore) ==> IdsIncreasing(r)
  {
    GetByProperty(g.athleteStore, "bib", bib)
  }

  /**
   * `addAthleteResult`: into the shared result store, deduplicated on athlete,
   * group, performance and wind; `automaticTiming` defaults to true.
   */
  function AddAthleteResult(g: Graph, athlete: JsValue, group: JsValue, performance: JsValue, exception: JsValue,
                            wind: JsValue, position: JsValue, qualified: JsValue, weight: JsValue,
                            comment: JsValue, automaticTiming: JsValue): (r: Inserted<Graph>)
    ensures r.state == g.(resultStore := r.state.resultStore)
    ensures Valid(g) ==> Valid(r.state)
    ensures ObjectStore.Valid(g.resultStore) ==>
              GetByKey(r.state.resultStore, AthleteResultKey(athlete, group, performance, wind))
              == GetById(r.state.resultStore, Int(r.id)) != None
    ensures GetOrCreate(g.resultStore, r.state.resultStore, r.id,
                        AthleteResultRecord(athlete, group, performance, exception, wind, position, qualified,
                                            weight, comment, automaticTiming),
                        AthleteResultKey(athlete, group, performance, wind))
  {
    var added := Add(g.resultStore,
                     AthleteResultRecord(athlete, group, performance, exception, wind, position, qualified,
                                         weight, comment, automaticTiming),
                     AthleteResultKey(athlete, group, performance, wind));
    Inserted(g.(resultStore := added.state), added.id)
  }

  /** `addAgeGroup`: deduplicated on the bare name. */
  function AddAgeGroup(g: Graph, name: JsValue): (r: Inserted<Graph>)
    ensures r.state == g.(ageGroupStore := r.state.ageGroupStore)
    ensures Valid(g) ==> Valid(r.state)
    ensures ObjectStore.Valid(g.ageGroupStore) ==>
              GetByKey(r.state.ageGroupStore, name) == GetById(r.state.ageGroupStore, Int(r.id)) != None
    ensures GetOrCreate(g.ageGroupStore, r.state.ageGroupStore, r.id,
                        NamedRecord(AgeGroup, name),
                        name)
  {
    var added := Add(g.ageGroupStore, NamedRecord(AgeGroup, name), name);
    Inserted(g.(ageGroupStore := added.state), added.id)
  }

  /** `addClub`: deduplicated on the bare name. */
  function AddClub(g: Graph, name: JsValue): (r: Inserted<Graph>)
    ensures r.state == g.(clubStore := r.state.clubStore)
    ensures Valid(g) ==> Valid(r.state)
    ensures ObjectStore.Valid(g.clubStore) ==>
              GetByKey(r.state.clubStore, name) == GetById(r.state.clubStore, Int(r.id)) != None
    ensures GetOrCreate(g.clubStore, r.state.clubStore, r.id,
                        NamedRecord(Club, name),
                        name)
  {
    var added := Add(g.clubStore, NamedRecord(Club, name), name);
    Inserted(g.(clubStore := added.state), added.id)
  }

  /** `addDiscipline`: deduplicated on the bare name. */
  function AddDiscipline(g: Graph, name: JsValue): (r: Inserted<Graph>)
    ensures r.state == g.(disciplineStore := r.state.disciplineStore)
    ensures Valid(g) ==> Valid(r.state)
    ensures ObjectStore.Valid(g.disciplineStore) ==>
              GetByKey(r.state.disciplineStore, name) == GetById(r.state.disciplineStore, Int(r.id)) != None
    ensures GetOrCreate(g.disciplineStore, r.state.disciplineStore, r.id,
                        NamedRecord(Discipline, name),
                        name)
  {
    var added := Add(g.disciplineStore, NamedRecord(Discipline, name), name);
    Inserted(g.(disciplineStore := added.state), added.id)
  }

  /** `addEvent`: deduplicated on meeting, age group and discipline. */
  function AddEvent(g: Graph, meeting: JsValue, ageGroup: JsValue, discipline: JsValue, height: JsValue,
                    weight: JsValue): (r: Inserted<Graph>)
    ensures r.state == g.(eventStore := r.state.eventStore)
    ensures Valid(g) ==> Valid(r.state)
    ensures ObjectStore.Valid(g.eventStore) ==>
              GetByKey(r.state.eventStore, Tuple([meeting, ageGroup, discipline]))
              == GetById(r.state.eventStore, Int(r.id)) != None
    ensures GetOrCreate(g.eventStore, r.state.eventStore, r.id,
                        EventRecord(meeting, ageGroup, discipline, height, weight),
                        Tuple([meeting, ageGroup, discipline]))
  {
    var added := Add(g.eventStore, EventRecord(meeting, ageGroup, discipline, height, weight),
                     Tuple([meeting, ageGroup, discipline]));
    Inserted(g.(eventStore := added.state), added.id)
  }

  /** `addGroup`: deduplicated on round and group number. */
  function AddGroup(g: Graph, round: JsValue, number: JsValue, time: JsValue, wind: JsValue,
                    comment: JsValue): (r: Inserted<Graph>)
    ensures r.state == g.(groupStore := r.state.groupStore)
    ensures Valid(g) ==> Valid(r.state)
    ensures ObjectStore.Valid(g.groupStore) ==>
              GetGroupByRoundAndNumber(r.state, round, number) == GetById(r.state.groupStore, Int(r.id)) != None
    ensures GetOrCreate(g.groupStore, r.state.groupStore, r.id,
                        GroupRecord(round, number, time, wind, comment),
                        Tuple([round, number]))
  {
    var added := Add(g.groupStore, GroupRecord(round, number, time, wind, comment), Tuple([round, number]));
    Inserted(g.(groupStore := added.state), added.id)
  }

  /** `getGroupByRoundAndNumber`: the group stored under that round and number, if any. */
  function GetGroupByRoundAndNumber(g: Graph, round: JsValue, number: JsValue): (r: Option<Record>)
    ensures ObjectStore.Valid(g.groupStore) ==> (r.Some? <==> FromJS(Tuple([round, number])) in g.groupStore.keyMap)
    ensures ObjectStore.Valid(g.groupStore) && r.Some? ==>
              1 <= g.groupStore.keyMap[FromJS(Tuple([round, number]))] <= |g.groupStore.all| &&
              r.value == g.groupStore.all[g.groupStore.keyMap[FromJS(Tuple([round, number]))] - 1]
  {
    GetByKey(g.groupStore, Tuple([round, number]))
  }

  /** `addMeeting`: deduplicated on the bare name. */
  function AddMeeting(g: Graph, name: JsValue, venue: JsValue, startDate: JsValue, endDate: JsValue): (r: Inserted<Graph>)
    ensures r.state == g.(meetingStore := r.state.meetingStore)
    ensures Valid(g) ==> Valid(r.state)
    ensures ObjectStore.Valid(g.meetingStore) ==>
              GetByKey(r.state.meetingStore, name) == GetById(r.state.meetingStore, Int(r.id)) != None
    ensures GetOrCreate(g.meetingStore, r.state.meetingStore, r.id,
                        MeetingRecord(name, venue, startDate, endDate),
                        name)
  {
    var added := Add(g.meetingStore, MeetingRecord(name, venue, startDate, endDate), name);
    Inserted(g.(meetingStore := added.state), added.id)
  }

  /** `getMeetingById`: the meeting with that id (or its decimal text), if any. */
  function GetMeetingById(g: Graph, id: JsValue): (r: Option<Record>)
    ensures ObjectStore.Valid(g.meetingStore) ==>
              (r.Some? <==> ParseInt(id).Some? && 1 <= ParseInt(id).value <= |g.meetingStore.all|)
    ensures ObjectStore.Valid(g.meetingStore) && r.Some? ==> HasId(r.value, ParseInt(id).value)
    ensures ObjectStore.Valid(g.meetingStore) && r.Some? ==> r.value == g.meetingStore.all[ParseInt(id).value - 1]
  {
    GetById(g.meetingStore, id)
  }

  /** `addRound`: deduplicated on event and round name. */
  function AddRound(g: Graph, event: JsValue, name: JsValue, date: JsValue, time: JsValue, comment: JsValue,
                    combinedDiscipline: JsValue): (r: Inserted<Graph>)
    ensures r.state == g.(roundStore := r.state.roundStore)
    ensures Valid(g) ==> Valid(r.state)
    ensures ObjectStore.Valid(g.roundStore) ==>
              GetByKey(r.state.roundStore, Tuple([event, name]))
              == GetById(r.state.roundStore, Int(r.id)) != None
    ensures GetOrCreate(g.roundStore, r.state.roundStore, r.id,
                        RoundRecord(event, name, date, time, comment, combinedDiscipline),
                        Tuple([event, name]))
  {
    var added := Add(g.roundStore, RoundRecord(event, name, date, time, comment, combinedDiscipline),
                     Tuple([event, name]));
    Inserted(g.(roundStore := added.state), added.id)
  }

  /** `addVenue`: deduplicated on name and city. */
  function AddVenue(g: Graph, name: JsValue, city: JsValue): (r: Inserted<Graph>)
    ensures r.state == g.(venueStore := r.state.venueStore)
    ensures Valid(g) ==> Valid(r.state)
    ensures ObjectStore.Valid(g.venueStore) ==>
              GetByKey(r.state.venueStore, Tuple([name, city]))
              == GetById(r.state.venueStore, Int(r.id)) != None
    ensures GetOrCreate(g.venueStore, r.state.venueStore, r.id,
                        VenueRecord(name, city),
                        Tuple([name, city]))
  {
    var added := Add(g.venueStore, VenueRecord(name, city), Tuple([name, city]));
    Inserted(g.(venueStore := added.state), added.id)
  }

  /**
   * `addTeamMember`: deduplicated on result and athlete. Unlike every other
   * add it answers nothing, so only the next graph is returned.
   */
  function AddTeamMember(g: Graph, result: JsValue, athlete: JsValue, performance: JsValue): (g': Graph)
    ensures g' == g.(teamMemberStore := g'.teamMemberStore)
    ensures Valid(g) ==> Valid(g')
    ensures ObjectStore.Valid(g.teamMemberStore) ==> GetByKey(g'.teamMemberStore, Tuple([result, athlete])).Some?
    ensures FromJS(Tuple([result, athlete])) in g.teamMemberStore.keyMap ==> g' == g
    ensures ObjectStore.Valid(g.teamMemberStore) && FromJS(Tuple([result, athlete])) !in g.teamMemberStore.keyMap ==>
              GetOrCreate(g.teamMemberStore, g'.teamMemberStore, |g.teamMemberStore.all| + 1,
                          TeamMemberRecord(result, athlete, performance), Tuple([result, athlete]))
  {
    var added := Add(g.teamMemberStore, TeamMemberRecord(result, athlete, performance), Tuple([result, athlete]));
    g.(teamMemberStore := added.state)
  }

  /**
   * `addTeamResult`: into the shared result store, deduplicated on club, group
   * and performance; `automaticTiming` defaults to true.
   */
  function AddTeamResult(g: Graph, club: JsValue, group: JsValue, performance: JsValue, exception: JsValue,
                         position: JsValue, qualified: JsValue, comment: JsValue,
                         automaticTiming: JsValue): (r: Inserted<Graph>)
    ensures r.state == g.(resultStore := r.state.resultStore)
    ensures Valid(g) ==> Valid(r.state)
    ensures ObjectStore.Valid(g.resultStore) ==>
              GetByKey(r.state.resultStore, TeamResultKey(club, group, performance))
              == GetById(r.state.resultStore, Int(r.id)) != None
    ensures GetOrCreate(g.resultStore, r.state.resultStore, r.id,
                        TeamResultRecord(club, group, performance, exception, position, qualified, comment,
                                         automaticTiming),
                        TeamResultKey(club, group, performance))
  {
    var added := Add(g.resultStore,
                     TeamResultRecord(club, group, performance, exception, position, qualified, comment,
                                      automaticTiming),
                     TeamResultKey(club, group, performance));
    Inserted(g.(resultStore := added.state), added.id)
  }

  /** `getResultById`: the athlete, team or combined result with that id, if any. */
  function GetResultById(g: Graph, id: JsValue): (r: Option<Record>)
    ensures ObjectStore.Valid(g.resultStore) ==>
              (r.Some? <==> ParseInt(id).Some? && 1 <= ParseInt(id).value <= |g.resultStore.all|)
    ensures ObjectStore.Valid(g.resultStore) && r.Some? ==> HasId(r.value, ParseInt(id).value)
    ensures ObjectStore.Valid(g.resultStore) && r.Some? ==> r.value == g.resultStore.all[ParseInt(id).value - 1]
  {
    GetById(g.resultStore, id)
  }

  /** `addSplitTime`: deduplicated on group and distance. */
  function AddSplitTime(g: Graph, group: JsValue, distance: JsValue, time: JsValue, athlete: JsValue): (r: Inserted<Graph>)
    ensures r.state == g.(splitTimeStore := r.state.splitTimeStore)
    ensures Valid(g) ==> Valid(r.state)
    ensures ObjectStore.Valid(g.splitTimeStore) ==>
              GetByKey(r.state.splitTimeStore, Tuple([group, distance]))
              == GetById(r.state.splitTimeStore, Int(r.id)) != None
    ensures GetOrCreate(g.splitTimeStore, r.state.splitTimeStore, r.id,
                        SplitTimeRecord(group, distance, time, athlete),
                        Tuple([group, distance]))
  {
    var added := Add(g.splitTimeStore, SplitTimeRecord(group, distance, time, athlete), Tuple([group, distance]));
    Inserted(g.(splitTimeStore := added.state), added.id)
  }

  /** `addAttempt`: deduplicated on result and attempt number. */
  function AddAttempt(g: Graph, result: JsValue, number: JsValue, performance: JsValue, exception: JsValue,
                      wind: JsValue): (r: Inserted<Graph>)
    ensures r.state == g.(attemptStore := r.state.attemptStore)
    ensures Valid(g) ==> Valid(r.state)
    ensures ObjectStore.Valid(g.attemptStore) ==>
              GetAttemptByResultAndNumber(r.state, result, number) == GetById(r.state.attemptStore, Int(r.id)) != None
    ensures GetOrCreate(g.attemptStore, r.state.attemptStore, r.id,
                        AttemptRecord(result, number, performance, exception, wind),
                        Tuple([result, number]))
  {
    var added := Add(g.attemptStore, AttemptRecord(result, number, performance, exception, wind),
                     Tuple([result, number]));
    Inserted(g.(attemptStore := added.state), added.id)
  }

  /** `getAttemptByResultAndNumber`: the attempt stored under that result and number, if any. */
  function GetAttemptByResultAndNumber(g: Graph, result: JsValue, number: JsValue): (r: Option<Record>)
    ensures ObjectStore.Valid(g.attemptStore) ==> (r.Some? <==> FromJS(Tuple([result, number])) in g.attemptStore.keyMap)
    ensures ObjectStore.Valid(g.attemptStore) && r.Some? ==>
              1 <= g.attemptStore.keyMap[FromJS(Tuple([result, number]))] <= |g.attemptStore.all| &&
              r.value == g.attemptStore.all[g.attemptStore.keyMap[FromJS(Tuple([result, number]))] - 1]
  {
    GetByKey(g.attemptStore, Tuple([result, number]))
  }

  /** `addCombinedDiscipline`: deduplicated on event and discipline. */
  function AddCombinedDiscipline(g: Graph, event: JsValue, discipline: JsValue, order: JsValue): (r: Inserted<Graph>)
    ensures r.state == g.(combinedDisciplineStore := r.state.combinedDisciplineStore)
    ensures Valid(g) ==> Valid(r.state)
    ensures ObjectStore.Valid(g.combinedDisciplineStore) ==>
              GetCombinedDisciplineByEventAndDiscipline(r.state, event, discipline) ==
              GetById(r.state.combinedDisciplineStore, Int(r.id)) != None
    ensures GetOrCreate(g.combinedDisciplineStore, r.state.combinedDisciplineStore, r.id,
                        CombinedDisciplineRecord(event, discipline, order),
                        Tuple([event, discipline]))
  {
    var added := Add(g.combinedDisciplineStore, CombinedDisciplineRecord(event, discipline, order),
                     Tuple([event, discipline]));
    Inserted(g.(combinedDisciplineStore := added.state), added.id)
  }

  /** `getCombinedDisciplineByEventAndDiscipline`: the one stored under that event and discipline, if any. */
  function GetCombinedDisciplineByEventAndDiscipline(g: Graph, event: JsValue, discipline: JsValue): (r: Option<Record>)
    ensures ObjectStore.Valid(g.combinedDisciplineStore) ==>
              (r.Some? <==> FromJS(Tuple([event, discipline])) in g.combinedDisciplineStore.keyMap)
    ensures ObjectStore.Valid(g.combinedDisciplineStore) && r.Some? ==>
              var id := g.combinedDisciplineStore.keyMap[FromJS(Tuple([event, discipline]))];
              1 <= id <= |g.combinedDisciplineStore.all| && r.value == g.combinedDisciplineStore.all[id - 1]
  {
    GetByKey(g.combinedDisciplineStore, Tuple([event, discipline]))
  }

  /**
   * `addCombinedResult`: into the shared result store under the athlete
   * result key shape; `automaticTiming` defaults to true.
   */
  function AddCombinedResult(g: Graph, athlete: JsValue, group: JsValue, parentResult: JsValue, performance: JsValue,
                             exception: JsValue, wind: JsValue, points: JsValue, position: JsValue,
                             qualified: JsValue, weight: JsValue, comment: JsValue,
                             automaticTiming: JsValue): (r: Inserted<Graph>)
    ensures r.state == g.(resultStore := r.state.resultStore)
    ensures Valid(g) ==> Valid(r.state)
    ensures ObjectStore.Valid(g.resultStore) ==>
              GetByKey(r.state.resultStore, AthleteResultKey(athlete, group, performance, wind))
              == GetById(r.state.resultStore, Int(r.id)) != None
    ensures GetOrCreate(g.resultStore, r.state.resultStore, r.id,
                        CombinedResultRecord(athlete, group, parentResult, performance, exception, wind, points,
                                             position, qualified, weight, comment, automaticTiming),
                        AthleteResultKey(athlete, group, performance, wind))
  {
    var added := Add(g.resultStore,
                     CombinedResultRecord(athlete, group, parentResult, performance, exception, wind, points,
                                          position, qualified, weight, comment, automaticTiming),
                     AthleteResultKey(athlete, group, performance, wind));
    Inserted(g.(resultStore := added.state), added.id)
  }

  /** `addHeight`: deduplicated on group and height value. */
  function AddHeight(g: Graph, group: JsValue, value: JsValue): (r: Inserted<Graph>)
    ensures r.state == g.(heightStore := r.state.heightStore)
    ensures Valid(g) ==> Valid(r.state)
    ensures ObjectStore.Valid(g.heightStore) ==>
              GetByKey(r.state.heightStore, Tuple([group, value]))
              == GetById(r.state.heightStore, Int(r.id)) != None
    ensures GetOrCreate(g.heightStore, r.state.heightStore, r.id,
                        HeightRecord(group, value),
                        Tuple([group, value]))
  {
    var added := Add(g.heightStore, HeightRecord(group, value), Tuple([group, value]));
    Inserted(g.(heightStore := added.state), added.id)
  }

  /** `addHeightResult`: deduplicated on result and height. */
  function AddHeightResult(g: Graph, result: JsValue, height: JsValue, performance: JsValue): (r: Inserted<Graph>)
    ensures r.state == g.(heightResultStore := r.state.heightResultStore)
    ensures Valid(g) ==> Valid(r.state)
    ensures ObjectStore.Valid(g.heightResultStore) ==>
              GetByKey(r.state.heightResultStore, Tuple([result, height]))
              == GetById(r.state.heightResultStore, Int(r.id)) != None
    ensures GetOrCreate(g.heightResultStore, r.state.heightResultStore, r.id,
                        HeightResultRecord(result, height, performance),
                        Tuple([result, height]))
  {
    var added := Add(g.heightResultStore, HeightResultRecord(result, height, performance), Tuple([result, height]));
    Inserted(g.(heightResultStore := added.state), added.id)
  }
}
