/**
 * What the domain layer's choice of key shapes, defaults and stores means for
 * its callers: which adds deduplicate against which, where identifiers come
 * from, and what the getters find after the adds.
 */
module OadfProperties {
  import opened Wrappers
  import opened JsValues
  import opened Types
  import opened ObjectStore
  import opened Oadf

  /** Two four-element tuple keys are one key exactly when they agree at every position. */
  lemma Tuple4Same(a: seq<JsValue>, b: seq<JsValue>)
    requires |a| == 4 && |b| == 4
    ensures FromJS(Tuple(a)) == FromJS(Tuple(b)) <==>
      Same(a[0], b[0]) && Same(a[1], b[1]) && Same(a[2], b[2]) && Same(a[3], b[3])
  {
    TupleKeysEqual(a, b);
    if FromJS(Tuple(a)) == FromJS(Tuple(b)) {
      assert Same(a[0], b[0]) && Same(a[1], b[1]) && Same(a[2], b[2]) && Same(a[3], b[3]);
    }
  }

  /** Two two-element tuple keys are one key exactly when they agree at both positions. */
  lemma Tuple2Same(a: seq<JsValue>, b: seq<JsValue>)
    requires |a| == 2 && |b| == 2
    ensures FromJS(Tuple(a)) == FromJS(Tuple(b)) <==> Same(a[0], b[0]) && Same(a[1], b[1])
  {
    TupleKeysEqual(a, b);
  }

  /**
   * `addAthlete` twice with the same names, year of birth and club answers the
   * first id and keeps the first record, whatever the gender, citizenship and
   * bib of the second call.
   */
  lemma AthleteDedup(g: Graph, firstName: JsValue, lastName: JsValue, yob: JsValue, club: JsValue,
                     gender1: JsValue, citizenship1: JsValue, bib1: JsValue,
                     gender2: JsValue, citizenship2: JsValue, bib2: JsValue)
    requires ObjectStore.Valid(g.athleteStore)
    ensures var r1 := AddAthlete(g, firstName, lastName, yob, gender1, citizenship1, club, bib1);
      AddAthlete(r1.state, firstName, lastName, yob, gender2, citizenship2, club, bib2) == r1
  {
  }

  /**
   * A second `addAthlete` answers the first one's id exactly when first name,
   * last name, year of birth and club are structurally the same.
   */
  lemma AthleteSameIdIff(g: Graph,
                         firstName1: JsValue, lastName1: JsValue, yob1: JsValue, gender1: JsValue,
                         citizenship1: JsValue, club1: JsValue, bib1: JsValue,
                         firstName2: JsValue, lastName2: JsValue, yob2: JsValue, gender2: JsValue,
                         citizenship2: JsValue, club2: JsValue, bib2: JsValue)
    requires ObjectStore.Valid(g.athleteStore)
    ensures var r1 := AddAthlete(g, firstName1, lastName1, yob1, gender1, citizenship1, club1, bib1);
      var r2 := AddAthlete(r1.state, firstName2, lastName2, yob2, gender2, citizenship2, club2, bib2);
      r2.id == r1.id <==>
        Same(firstName1, firstName2) && Same(lastName1, lastName2) && Same(yob1, yob2) && Same(club1, club2)
  {
    var k1 := AthleteKey(firstName1, lastName1, yob1, club1);
    var k2 := AthleteKey(firstName2, lastName2, yob2, club2);
    var rec1 := AthleteRecord(firstName1, lastName1, yob1, gender1, citizenship1, club1, bib1);
    var rec2 := AthleteRecord(firstName2, lastName2, yob2, gender2, citizenship2, club2, bib2);
    var a1 := Add(g.athleteStore, rec1, k1);
    var a2 := Add(a1.state, rec2, k2);
    var r1 := AddAthlete(g, firstName1, lastName1, yob1, gender1, citizenship1, club1, bib1);
    assert r1.id == a1.id && r1.state.athleteStore == a1.state;
    var r2 := AddAthlete(r1.state, firstName2, lastName2, yob2, gender2, citizenship2, club2, bib2);
    assert r2.id == a2.id;
    SecondAddSameIdIff(g.athleteStore, rec1, k1, rec2, k2);
    assert a2.id == a1.id <==> Same(k1, k2);
    AthleteKeysSame(firstName1, lastName1, yob1, club1, firstName2, lastName2, yob2, club2);
  }

  /** Two athlete keys are the same exactly when their four parts are. */
  lemma AthleteKeysSame(firstName1: JsValue, lastName1: JsValue, yob1: JsValue, club1: JsValue,
                        firstName2: JsValue, lastName2: JsValue, yob2: JsValue, club2: JsValue)
    ensures Same(AthleteKey(firstName1, lastName1, yob1, club1), AthleteKey(firstName2, lastName2, yob2, club2)) <==>
      Same(firstName1, firstName2) && Same(lastName1, lastName2) && Same(yob1, yob2) && Same(club1, club2)
  {
    var k1 := AthleteKey(firstName1, lastName1, yob1, club1);
    var k2 := AthleteKey(firstName2, lastName2, yob2, club2);
    FromJSIffSame(k1, k2);
    Tuple4Same([firstName1, lastName1, yob1, club1], [firstName2, lastName2, yob2, club2]);
  }

  /** The forward half of `ResultKeysCollideIff`: a collision forces the `null` placeholders. */
  lemma ResultKeysCollideOnlyWhenNull(athlete: JsValue, group1: JsValue, performance1: JsValue, wind: JsValue,
                                      club: JsValue, group2: JsValue, performance2: JsValue)
    requires FromJS(AthleteResultKey(athlete, group1, performance1, wind)) ==
             FromJS(TeamResultKey(club, group2, performance2))
    ensures athlete == Null && club == Null && wind == Null && Same(group1, group2) && Same(performance1, performance2)
  {
    var a := [athlete, Null, group1, performance1, wind];
    var b := [Null, club, group2, performance2, Null];
    TupleKeysEqual(a, b);
    assert Same(a[0], b[0]) && Same(a[1], b[1]) && Same(a[4], b[4]);
    assert Same(a[2], b[2]) && Same(a[3], b[3]);
    SameAsNull(athlete);
    SameAsNull(club);
    SameAsNull(wind);
  }

  /** The backward half of `ResultKeysCollideIff`: with all placeholders `null` the keys coincide. */
  lemma ResultKeysCollideWhenNull(group1: JsValue, performance1: JsValue, group2: JsValue, performance2: JsValue)
    requires Same(group1, group2) && Same(performance1, performance2)
    ensures FromJS(AthleteResultKey(Null, group1, performance1, Null)) ==
            FromJS(TeamResultKey(Null, group2, performance2))
  {
    var a := [Null, Null, group1, performance1, Null];
    var b := [Null, Null, group2, performance2, Null];
    TupleKeysEqual(a, b);
    SameAsNull(Null);
    assert Same(a[0], b[0]) && Same(a[1], b[1]) && Same(a[2], b[2]) && Same(a[3], b[3]) && Same(a[4], b[4]);
    assert forall i :: 0 <= i < 5 ==> Same(a[i], b[i]);
  }

  /**
   * The athlete result key and the team result key in the shared result store
   * coincide exactly when athlete, club and wind are all `null` and group and
   * performance are the same: the `null` placeholders keep the two shapes
   * apart only while one of those three is given.
   */
  lemma ResultKeysCollideIff(athlete: JsValue, group1: JsValue, performance1: JsValue, wind: JsValue,
                             club: JsValue, group2: JsValue, performance2: JsValue)
    ensures FromJS(AthleteResultKey(athlete, group1, performance1, wind)) ==
            FromJS(TeamResultKey(club, group2, performance2)) <==>
      athlete == Null && club == Null && wind == Null && Same(group1, group2) && Same(performance1, performance2)
  {
    if FromJS(AthleteResultKey(athlete, group1, performance1, wind)) == FromJS(TeamResultKey(club, group2, performance2)) {
      ResultKeysCollideOnlyWhenNull(athlete, group1, performance1, wind, club, group2, performance2);
    }
    if athlete == Null && club == Null && wind == Null && Same(group1, group2) && Same(performance1, performance2) {
      ResultKeysCollideWhenNull(group1, performance1, group2, performance2);
    }
  }

  /**
   * A combined result that repeats an athlete result's athlete, group,
   * performance and wind answers that athlete result's id and is not stored.
   */
  lemma CombinedResultMatchesAthleteResult(
    g: Graph, athlete: JsValue, group: JsValue, performance: JsValue, wind: JsValue,
    exception: JsValue, position: JsValue, qualified: JsValue, weight: JsValue, comment: JsValue,
    automaticTiming: JsValue,
    parentResult: JsValue, exception2: JsValue, points: JsValue, position2: JsValue, qualified2: JsValue,
    weight2: JsValue, comment2: JsValue, automaticTiming2: JsValue)
    requires ObjectStore.Valid(g.resultStore)
    ensures var r1 := AddAthleteResult(g, athlete, group, performance, exception, wind, position, qualified,
                                       weight, comment, automaticTiming);
      AddCombinedResult(r1.state, athlete, group, parentResult, performance, exception2, wind, points,
                        position2, qualified2, weight2, comment2, automaticTiming2) == r1
  {
  }

  /**
   * Athlete, team and combined results draw from the result store's single
   * counter: a team result added after a new athlete result, under a key that
   * does not coincide with it or with any stored key, gets the next id. The
   * two keys coincide exactly when athlete, club and wind are all `null` and
   * the groups and performances are structurally equal.
   */
  lemma ResultKindsShareCounter(
    g: Graph, athlete: JsValue, group1: JsValue, performance1: JsValue, exception1: JsValue, wind: JsValue,
    position1: JsValue, qualified1: JsValue, weight: JsValue, comment1: JsValue, automaticTiming1: JsValue,
    club: JsValue, group2: JsValue, performance2: JsValue, exception2: JsValue, position2: JsValue,
    qualified2: JsValue, comment2: JsValue, automaticTiming2: JsValue)
    requires ObjectStore.Valid(g.resultStore)
    requires FromJS(AthleteResultKey(athlete, group1, performance1, wind)) !in g.resultStore.keyMap
    requires FromJS(TeamResultKey(club, group2, performance2)) !in g.resultStore.keyMap
    requires !(athlete == Null && club == Null && wind == Null && Same(group1, group2) &&
               Same(performance1, performance2))
    ensures var r1 := AddAthleteResult(g, athlete, group1, performance1, exception1, wind, position1, qualified1,
                                       weight, comment1, automaticTiming1);
      AddTeamResult(r1.state, club, group2, performance2, exception2, position2, qualified2, comment2,
                    automaticTiming2).id == r1.id + 1
  {
    var k1 := AthleteResultKey(athlete, group1, performance1, wind);
    var k2 := TeamResultKey(club, group2, performance2);
    ResultKeysCollideIff(athlete, group1, performance1, wind, club, group2, performance2);
    FromJSIffSame(k1, k2);
    FreshAddsConsecutive(g.resultStore,
                         AthleteResultRecord(athlete, group1, performance1, exception1, wind, position1,
                                             qualified1, weight, comment1, automaticTiming1), k1,
                         TeamResultRecord(club, group2, performance2, exception2, position2, qualified2,
                                          comment2, automaticTiming2), k2);
  }

  /**
   * In a new graph the first athlete result gets id 1 and a following team
   * result id 2, unless the team result's key coincides with it.
   */
  lemma FirstResultIdsAreOneAndTwo(
    athlete: JsValue, group1: JsValue, performance1: JsValue, exception1: JsValue, wind: JsValue,
    position1: JsValue, qualified1: JsValue, weight: JsValue, comment1: JsValue, automaticTiming1: JsValue,
    club: JsValue, group2: JsValue, performance2: JsValue, exception2: JsValue, position2: JsValue,
    qualified2: JsValue, comment2: JsValue, automaticTiming2: JsValue)
    requires !(athlete == Null && club == Null && wind == Null && Same(group1, group2) &&
               Same(performance1, performance2))
    ensures var r1 := AddAthleteResult(NewGraph(), athlete, group1, performance1, exception1, wind, position1,
                                       qualified1, weight, comment1, automaticTiming1);
      r1.id == 1 &&
      AddTeamResult(r1.state, club, group2, performance2, exception2, position2, qualified2, comment2,
                    automaticTiming2).id == 2
  {
    ResultKindsShareCounter(NewGraph(), athlete, group1, performance1, exception1, wind, position1, qualified1,
                            weight, comment1, automaticTiming1, club, group2, performance2, exception2,
                            position2, qualified2, comment2, automaticTiming2);
  }

  /**
   * A new athlete result is stored with `automaticTiming` true when the
   * argument is omitted (`undefined`), and with the argument otherwise.
   */
  lemma AthleteResultTimingDefault(
    g: Graph, athlete: JsValue, group: JsValue, performance: JsValue, exception: JsValue, wind: JsValue,
    position: JsValue, qualified: JsValue, weight: JsValue, comment: JsValue, automaticTiming: JsValue)
    requires ObjectStore.Valid(g.resultStore)
    requires FromJS(AthleteResultKey(athlete, group, performance, wind)) !in g.resultStore.keyMap
    ensures var r := AddAthleteResult(g, athlete, group, performance, exception, wind, position, qualified,
                                      weight, comment, automaticTiming);
      GetResultById(r.state, Int(r.id)).Some? &&
      GetResultById(r.state, Int(r.id)).value.Get("automaticTiming") ==
        (if automaticTiming == Undefined then Bool(true) else automaticTiming)
  {
  }

  /** A new team result is stored with `automaticTiming` true when the argument is omitted. */
  lemma TeamResultTimingDefault(
    g: Graph, club: JsValue, group: JsValue, performance: JsValue, exception: JsValue, position: JsValue,
    qualified: JsValue, comment: JsValue, automaticTiming: JsValue)
    requires ObjectStore.Valid(g.resultStore)
    requires FromJS(TeamResultKey(club, group, performance)) !in g.resultStore.keyMap
    ensures var r := AddTeamResult(g, club, group, performance, exception, position, qualified, comment,
                                   automaticTiming);
      GetResultById(r.state, Int(r.id)).Some? &&
      GetResultById(r.state, Int(r.id)).value.Get("automaticTiming") ==
        (if automaticTiming == Undefined then Bool(true) else automaticTiming)
  {
  }

  /** A new combined result is stored with `automaticTiming` true when the argument is omitted. */
  lemma CombinedResultTimingDefault(
    g: Graph, athlete: JsValue, group: JsValue, parentResult: JsValue, performance: JsValue,
    exception: JsValue, wind: JsValue, points: JsValue, position: JsValue, qualified: JsValue,
    weight: JsValue, comment: JsValue, automaticTiming: JsValue)
    requires ObjectStore.Valid(g.resultStore)
    requires FromJS(AthleteResultKey(athlete, group, performance, wind)) !in g.resultStore.keyMap
    ensures var r := AddCombinedResult(g, athlete, group, parentResult, performance, exception, wind, points,
                                       position, qualified, weight, comment, automaticTiming);
      GetResultById(r.state, Int(r.id)).Some? &&
      GetResultById(r.state, Int(r.id)).value.Get("automaticTiming") ==
        (if automaticTiming == Undefined then Bool(true) else automaticTiming)
  {
  }

  /**
   * Meetings are keyed on the bare name: a second meeting with a structurally
   * equal name answers the first id and leaves the graph as it was, whatever
   * its venue and dates.
   */
  lemma MeetingNameDedup(g: Graph, name1: JsValue, venue1: JsValue, startDate1: JsValue, endDate1: JsValue,
                         name2: JsValue, venue2: JsValue, startDate2: JsValue, endDate2: JsValue)
    requires ObjectStore.Valid(g.meetingStore) && Same(name1, name2)
    ensures var r1 := AddMeeting(g, name1, venue1, startDate1, endDate1);
      AddMeeting(r1.state, name2, venue2, startDate2, endDate2) == r1
  {
    FromJSIffSame(name1, name2);
  }

  /** Age groups, clubs and disciplines are keyed on the bare name as well. */
  lemma NamedKindsDedup(g: Graph, name1: JsValue, name2: JsValue)
    requires ObjectStore.Valid(g.ageGroupStore) && ObjectStore.Valid(g.clubStore)
    requires ObjectStore.Valid(g.disciplineStore) && Same(name1, name2)
    ensures AddAgeGroup(AddAgeGroup(g, name1).state, name2) == AddAgeGroup(g, name1)
    ensures AddClub(AddClub(g, name1).state, name2) == AddClub(g, name1)
    ensures AddDiscipline(AddDiscipline(g, name1).state, name2) == AddDiscipline(g, name1)
  {
    FromJSIffSame(name1, name2);
  }

  /**
   * `getGroupByRoundAndNumber` finds, for a structurally equal round and
   * number, the group `addGroup` answered; when that add stored it, it is the
   * added group stamped with its id.
   */
  lemma GroupRoundTrip(g: Graph, round: JsValue, number: JsValue, time: JsValue, wind: JsValue, comment: JsValue,
                       round': JsValue, number': JsValue)
    requires ObjectStore.Valid(g.groupStore) && Same(round, round') && Same(number, number')
    ensures var r := AddGroup(g, round, number, time, wind, comment);
      && GetGroupByRoundAndNumber(r.state, round', number') == GetById(r.state.groupStore, Int(r.id))
      && GetGroupByRoundAndNumber(r.state, round', number').Some?
      && (FromJS(Tuple([round, number])) !in g.groupStore.keyMap ==>
            GetGroupByRoundAndNumber(r.state, round', number') ==
              Some(GroupRecord(round, number, time, wind, comment).WithId(r.id)))
  {
    var key := Tuple([round, number]);
    var r := Add(g.groupStore, GroupRecord(round, number, time, wind, comment), key);
    Tuple2Same([round, number], [round', number']);
    AddThenGetByKey(g.groupStore, GroupRecord(round, number, time, wind, comment), key, Tuple([round', number']));
    FromJSIffSame(key, Tuple([round', number']));
    AddThenGetById(g.groupStore, GroupRecord(round, number, time, wind, comment), key);
  }

  /** `getAttemptByResultAndNumber` finds the attempt `addAttempt` answered. */
  lemma AttemptRoundTrip(g: Graph, result: JsValue, number: JsValue, performance: JsValue, exception: JsValue,
                         wind: JsValue, result': JsValue, number': JsValue)
    requires ObjectStore.Valid(g.attemptStore) && Same(result, result') && Same(number, number')
    ensures var r := AddAttempt(g, result, number, performance, exception, wind);
      && GetAttemptByResultAndNumber(r.state, result', number') == GetById(r.state.attemptStore, Int(r.id))
      && GetAttemptByResultAndNumber(r.state, result', number').Some?
      && (FromJS(Tuple([result, number])) !in g.attemptStore.keyMap ==>
            GetAttemptByResultAndNumber(r.state, result', number') ==
              Some(AttemptRecord(result, number, performance, exception, wind).WithId(r.id)))
  {
    var key := Tuple([result, number]);
    var rec := AttemptRecord(result, number, performance, exception, wind);
    Tuple2Same([result, number], [result', number']);
    AddThenGetByKey(g.attemptStore, rec, key, Tuple([result', number']));
    FromJSIffSame(key, Tuple([result', number']));
    AddThenGetById(g.attemptStore, rec, key);
  }

  /** `getCombinedDisciplineByEventAndDiscipline` finds what `addCombinedDiscipline` answered. */
  lemma CombinedDisciplineRoundTrip(g: Graph, event: JsValue, discipline: JsValue, order: JsValue,
                                    event': JsValue, discipline': JsValue)
    requires ObjectStore.Valid(g.combinedDisciplineStore) && Same(event, event') && Same(discipline, discipline')
    ensures var r := AddCombinedDiscipline(g, event, discipline, order);
      && GetCombinedDisciplineByEventAndDiscipline(r.state, event', discipline') ==
           GetById(r.state.combinedDisciplineStore, Int(r.id))
      && GetCombinedDisciplineByEventAndDiscipline(r.state, event', discipline').Some?
      && (FromJS(Tuple([event, discipline])) !in g.combinedDisciplineStore.keyMap ==>
            GetCombinedDisciplineByEventAndDiscipline(r.state, event', discipline') ==
              Some(CombinedDisciplineRecord(event, discipline, order).WithId(r.id)))
  {
    var key := Tuple([event, discipline]);
    var rec := CombinedDisciplineRecord(event, discipline, order);
    Tuple2Same([event, discipline], [event', discipline']);
    AddThenGetByKey(g.combinedDisciplineStore, rec, key, Tuple([event', discipline']));
    FromJSIffSame(key, Tuple([event', discipline']));
    AddThenGetById(g.combinedDisciplineStore, rec, key);
  }

  /**
   * Each kind numbers its records on its own: in a new graph a venue and then
   * a meeting both get id 1, and `getMeetingById` finds the meeting under 1,
   * given as a number or as text.
   */
  lemma StoresNumberIndependently(venueName: JsValue, city: JsValue, name: JsValue, startDate: JsValue,
                                  endDate: JsValue)
    ensures var v := AddVenue(NewGraph(), venueName, city);
      var m := AddMeeting(v.state, name, Int(v.id), startDate, endDate);
      && v.id == 1 && m.id == 1
      && GetMeetingById(m.state, Int(1)) == Some(MeetingRecord(name, Int(1), startDate, endDate).WithId(1))
      && GetMeetingById(m.state, Str("1")) == GetMeetingById(m.state, Int(1))
  {
    var v := AddVenue(NewGraph(), venueName, city);
    var m := AddMeeting(v.state, name, Int(v.id), startDate, endDate);
    GetByIdText(m.state.meetingStore, 1);
    assert SignedDecimal(1) == "1";
  }

  /** `addTeamMember` with a structurally equal result and athlete leaves the graph as it was. */
  lemma TeamMemberDedup(g: Graph, result: JsValue, athlete: JsValue, performance: JsValue,
                        result': JsValue, athlete': JsValue, performance': JsValue)
    requires ObjectStore.Valid(g.teamMemberStore) && Same(result, result') && Same(athlete, athlete')
    ensures AddTeamMember(AddTeamMember(g, result, athlete, performance), result', athlete', performance') ==
            AddTeamMember(g, result, athlete, performance)
  {
    var key := Tuple([result, athlete]);
    Tuple2Same([result, athlete], [result', athlete']);
    FromJSIffSame(key, Tuple([result', athlete']));
  }

  /**
   * After `addAthlete`, `getAthletesByBib` answers what it answered before,
   * followed by the new athlete when one was stored and its bib is `===` to
   * the one asked for.
   */
  lemma AthletesByBibAfterAdd(g: Graph, firstName: JsValue, lastName: JsValue, yob: JsValue, gender: JsValue,
                              citizenship: JsValue, club: JsValue, bib: JsValue, wanted: JsValue)
    ensures var r := AddAthlete(g, firstName, lastName, yob, gender, citizenship, club, bib);
      GetAthletesByBib(r.state, wanted) ==
        GetAthletesByBib(g, wanted) +
        (if FromJS(AthleteKey(firstName, lastName, yob, club)) !in g.athleteStore.keyMap && StrictEquals(bib, wanted)
         then [AthleteRecord(firstName, lastName, yob, gender, citizenship, club, bib).WithId(r.id)]
         else [])
  {
    var rec := AthleteRecord(firstName, lastName, yob, gender, citizenship, club, bib);
    var key := AthleteKey(firstName, lastName, yob, club);
    var r := Add(g.athleteStore, rec, key);
    AddThenGetByProperty(g.athleteStore, rec, key, "bib", wanted);
    assert rec.WithId(r.id).Get("bib") == bib;
  }
}
