# OADF store — a Dafny model of the in-memory record stores

The store layer of the OADF GraphQL store holds everything the schema serves:
athletes, results, meetings, venues, groups and the rest. It keeps them in
eighteen independent record stores. Every store deduplicates inserts on a
caller-supplied natural key, stamps each new record with the next number from
the store's own counter, and answers lookups by id, by key, by property value
or as a whole.

This project models that layer as pure functions over immutable states:

- `IdGen` (idgen.dfy) is the counter of one store.
- `JsValues` (jsvalues.dfy) holds the JavaScript values the stores handle, with three pieces:
  - the `fromJS` normalisation that turns a key into a value-compared key (`FromJS`);
  - JavaScript strict equality (`StrictEquals`);
  - the part of `parseInt(x, 10)` that identifier lookups use (`ParseInt`).
- `ObjectStore` (objectstore.dfy) is one store:
  - its state is the id index, the key index, the insertion log and the counter;
  - `Valid` is the invariant tying these together;
  - the operations are `add`, `getAll`, `getById`, `getByKey` and `getByProperty`.
- `Types` (types.dfy) lists the record type tags.
- `Oadf` (oadf.dfy) is the facade that owns the eighteen stores. It has every `addX`/`getX` method, each with its record shape and its key shape.
- `OadfProperties` (oadf_properties.dfy) holds the properties that span the facade's methods.
- `Wrappers` (wrappers.dfy) holds `Option`. A lookup that misses answers `None`, as the source answers `undefined`.

JavaScript objects and arrays are compared by reference under `===` but by
value once normalised as keys. The model therefore gives every array and
object value a `ref` (its allocation) alongside its contents:
- `StrictEquals` compares refs;
- `FromJS` ignores them.

A `ref` stands for one allocation, so the model takes two array or object values with the same `ref` to have the same contents; nothing in the datatype enforces it, and no property here depends on it.

`Same` is an independent structural-equality definition, and
`JsValues.FromJSIffSame` proves that the key normalisation identifies exactly
the structurally equal values.

Two consequences of the code are worth stating up front:

- **Ids are numbered per store, not per record type.** Each store owns one counter. `generate` ignores the type argument it is given (src/ObjectStore.js:18, src/IDGenerator.js:5-9). The athlete, team and combined results all live in the result store, so they share one numbering. `ObjectStore.AddIdIgnoresObject` and `OadfProperties.ResultKindsShareCounter` state this.
- **The `null` placeholders do not always keep the two result key shapes apart.** An athlete result with a `null` athlete and a `null` wind has the same key as a team result with a `null` club on the same group and performance (src/Store.js:777, src/Store.js:891). `OadfProperties.ResultKeysCollideIff` gives the exact condition. In that case the second add answers the first result's id and stores nothing.

Every `addX` of the facade is get-or-create, stated once as `ObjectStore.GetOrCreate`:
- a key already known answers its stored id and leaves the store, and so the graph, unchanged;
- a new key keeps every other key's id and appends exactly the record the method builds, with its kind's `type` tag and its arguments as properties, stamped with the answered id.

## Model

| member | source | states |
|---|---|---|
| IdGen.New | src/IDGenerator.js:2-4 | a new generator is about to hand out 1, whatever other generators exist |
| IdGen.Generate | src/IDGenerator.js:5-9 | a call hands out the counter's current value, and the next call hands out that value plus one; there is no argument, so the record type cannot influence the id |
| IdGen.GenerateMany | src/IDGenerator.js:5-9 | n successive calls hand out the consecutive integers nextId, nextId+1, …, nextId+n-1 and leave the counter at nextId+n |
| IdGen.FreshRun | src/IDGenerator.js:2-9 | a new generator hands out 1, 2, …, n |
| IdGen.RunStrictlyIncreasing | src/IDGenerator.js:5-9 | a generator never hands out an identifier twice: later ids are strictly larger |
| IdGen.RunsCompose | src/IDGenerator.js:5-9 | m calls followed by n calls hand out the same ids as m+n calls; the counter is the generator's only state |
| JsValues.FromJSIffSame | src/ObjectStore.js:13 | two keys normalise to the same stored key exactly when they are structurally equal (same scalars, same list elements in order, same map entries), whatever their references |
| JsValues.StrictEqualsOnScalars | src/ObjectStore.js:43 | on scalars `===` is value equality, so getByProperty matches a scalar property by value |
| JsValues.ArrayLiteralsSameButNotStrict | src/ObjectStore.js:43 | two distinct array values with equal elements are one key but are not `===`, so getByProperty never matches a freshly built array |
| JsValues.ParseIntOfDecimal | src/ObjectStore.js:38 | parseInt of an integer's decimal text, alone or followed by text that does not start with a digit, gives back that integer, just as the integer itself parses to itself |
| JsValues.DecimalKeyDiffersFromInt | src/ObjectStore.js:13 | an integer key and its decimal text are different keys: key lookups do not coerce, unlike id lookups |
| ObjectStore.New | src/ObjectStore.js:5-10 | a new store is valid, with an empty log and an empty key index |
| ObjectStore.Add | src/ObjectStore.js:12-26 | get-or-create: a known key answers its stored id and changes nothing; a new key keeps every other key's id, files the object stamped with the answered id in both indexes and appends it to the log; the fresh id is the log length plus one; validity is kept; afterwards the key maps to the answered id |
| ObjectStore.GetAll | src/ObjectStore.js:28-30 | in a valid store the answer is the stored records in insertion order: position i holds the record the id index files under i+1, which carries id i+1, and the ids handed out are exactly 1..length |
| ObjectStore.GetById | src/ObjectStore.js:37-40 | a record is found exactly when parseInt of the argument is an integer between 1 and the log length; it is the log entry at that position and carries that id |
| ObjectStore.GetByKey | src/ObjectStore.js:32-35 | a record is found exactly when the normalised key was added; it is the log entry filed under the key's id, and it carries that id |
| ObjectStore.GetByProperty | src/ObjectStore.js:42-44 | a record is in the answer exactly when it is stored and its property is `===` to the value; the answer is in increasing id order; it is empty when nothing matches |
| ObjectStore.AddIdempotent | src/ObjectStore.js:13-16 | adding again under a structurally equal key answers the first id and leaves the store unchanged; the second object is dropped |
| ObjectStore.SecondAddSameIdIff | src/ObjectStore.js:12-26 | a second add answers the first add's id exactly when the two keys are structurally equal |
| ObjectStore.AddIdIgnoresObject | src/ObjectStore.js:18 | the id an add answers, and the key index after it, do not depend on the object added, so they do not depend on its type tag |
| ObjectStore.FreshAddsConsecutive | src/ObjectStore.js:18-23 | two adds under new, different keys receive consecutive ids and grow the log by two |
| ObjectStore.AddThenGetById | src/ObjectStore.js:18-39 | the id an add answers finds, through getById, the object stamped with that id, or the first record when the key was already known |
| ObjectStore.AddThenGetByKey | src/ObjectStore.js:13-34 | after an add, every structurally equal key finds the record named by the answered id |
| ObjectStore.AddKeepsLookups | src/ObjectStore.js:20-23 | an add never changes what an id already handed out finds |
| ObjectStore.AddKeepsKeys | src/ObjectStore.js:20-25 | an add under any key leaves every key already known mapped to the same id and finding the same record |
| ObjectStore.AddThenGetAll | src/ObjectStore.js:23-30 | after an add, getAll answers its earlier answer, followed by the object stamped with the next id when the key was new |
| ObjectStore.GetByIdText | src/ObjectStore.js:38 | getById answers the same for an integer and for its decimal text |
| ObjectStore.GetByPropertyExact | src/ObjectStore.js:42-44 | any sequence in increasing id order holding exactly the matching stored records is the getByProperty answer |
| ObjectStore.AddThenGetByProperty | src/ObjectStore.js:23-44 | after an add, getByProperty answers its earlier answer, followed by the new record when one was stored and it matches |
| ObjectStore.MissingReferenceIsAbsent | src/ObjectStore.js:37-40 | getById of `null` or `undefined` answers absent instead of failing |
| Types.TagInjective | src/types.js:1-24 | distinct record kinds carry distinct type tags |
| Oadf.NewGraph | src/Store.js:19-36 | a new graph has all eighteen stores valid, and each starts empty |
| Oadf.TupleKeysEqual | src/ObjectStore.js:13 | two array keys are one key exactly when they have the same length and are structurally equal position by position |
| Oadf.DefaultTrue | src/Store.js:763 | an omitted (`undefined`) argument defaults to true, while any given value, `null` included, is kept |
| Oadf.AddAthlete | src/Store.js:745-757 | only the athlete store changes; validity is kept; the key of first name, last name, year of birth and club finds the record the answered id names |
| Oadf.GetAthletesByBib | src/Store.js:759-761 | exactly the stored athletes whose bib is `===` to the argument, in increasing id order |
| Oadf.AddAthleteResult | src/Store.js:763-778 | get-or-create on the result store under the five-part key [athlete, null, group, performance, wind]: a known key answers its id and changes nothing; a new one appends the AthleteResult-tagged record with the given properties and `automaticTiming` defaulted; only the result store changes; validity is kept; the key then finds the answered record |
| Oadf.AddAgeGroup | src/Store.js:780-786 | get-or-create on the age-group store under the bare name: a known name answers its id and changes nothing; a new one appends the AgeGroup-tagged record holding the name; only that store changes; the name then finds the answered record |
| Oadf.AddClub | src/Store.js:788-794 | get-or-create on the club store under the bare name: a known name answers its id and changes nothing; a new one appends the Club-tagged record holding the name; only that store changes; the name then finds the answered record |
| Oadf.AddDiscipline | src/Store.js:796-802 | get-or-create on the discipline store under the bare name: a known name answers its id and changes nothing; a new one appends the Discipline-tagged record holding the name; only that store changes; the name then finds the answered record |
| Oadf.AddEvent | src/Store.js:804-814 | get-or-create on the event store under [meeting, age group, discipline]: a known key answers its id and changes nothing; a new one appends the Event-tagged record with the given properties; only that store changes; the key then finds the answered record |
| Oadf.AddGroup | src/Store.js:816-826 | get-or-create on the group store under [round, number]: a known key answers its id and changes nothing; a new one appends the Group-tagged record with the given properties; only that store changes; getGroupByRoundAndNumber then finds the answered record |
| Oadf.GetGroupByRoundAndNumber | src/Store.js:828-830 | a group is found exactly when the key [round, number] was added, and it is the stored group filed under that key's id |
| Oadf.AddMeeting | src/Store.js:832-841 | get-or-create on the meeting store under the bare name: a known name answers its id and changes nothing; a new one appends the Meeting-tagged record with name, venue and dates; only that store changes; the name then finds the answered record |
| Oadf.GetMeetingById | src/Store.js:843-845 | a meeting is found exactly when parseInt of the argument is an id handed out by the meeting store; it is the stored meeting at that position and carries that id |
| Oadf.AddRound | src/Store.js:847-858 | get-or-create on the round store under [event, name]: a known key answers its id and changes nothing; a new one appends the Round-tagged record with the given properties; only that store changes; the key then finds the answered record |
| Oadf.AddVenue | src/Store.js:860-867 | get-or-create on the venue store under [name, city]: a known key answers its id and changes nothing; a new one appends the Venue-tagged record with name and city; only that store changes; the key then finds the answered record |
| Oadf.AddTeamMember | src/Store.js:869-877 | get-or-create on the team-member store under [result, athlete]: a known key leaves the graph unchanged; a new one appends the TeamMember-tagged record with result, athlete and performance; only that store changes; like the source, it answers no id |
| Oadf.AddTeamResult | src/Store.js:879-892 | get-or-create on the result store under [null, club, group, performance, null]: a known key answers its id and changes nothing; a new one appends the TeamResult-tagged record with the given properties and `automaticTiming` defaulted; only the result store changes; the key then finds the answered record |
| Oadf.GetResultById | src/Store.js:894-896 | a result of any kind is found exactly when parseInt of the argument is an id handed out by the shared result store; it is the stored result at that position and carries that id |
| Oadf.AddSplitTime | src/Store.js:898-907 | get-or-create on the split-time store under [group, distance]: a known key answers its id and changes nothing; a new one appends the SplitTime-tagged record with the given properties; only that store changes; the key then finds the answered record |
| Oadf.AddAttempt | src/Store.js:909-919 | get-or-create on the attempt store under [result, number]: a known key answers its id and changes nothing; a new one appends the Attempt-tagged record with the given properties; only that store changes; getAttemptByResultAndNumber then finds the answered record |
| Oadf.GetAttemptByResultAndNumber | src/Store.js:921-923 | an attempt is found exactly when the key [result, number] was added, and it is the stored attempt filed under that key's id |
| Oadf.AddCombinedDiscipline | src/Store.js:925-933 | get-or-create on the combined-discipline store under [event, discipline]: a known key answers its id and changes nothing; a new one appends the CombinedDiscipline-tagged record with the given properties; only that store changes; the getter then finds the answered record |
| Oadf.GetCombinedDisciplineByEventAndDiscipline | src/Store.js:935-937 | a combined discipline is found exactly when the key [event, discipline] was added, and it is the stored record filed under that key's id |
| Oadf.AddCombinedResult | src/Store.js:939-956 | get-or-create on the result store under the athlete-result key shape, so a repeat of an athlete or combined result answers its id and changes nothing; a new key appends the CombinedResult-tagged record with the given properties and `automaticTiming` defaulted; only the result store changes; the key then finds the answered record |
| Oadf.AddHeight | src/Store.js:958-965 | get-or-create on the height store under [group, value]: a known key answers its id and changes nothing; a new one appends the Height-tagged record; only that store changes; the key then finds the answered record |
| Oadf.AddHeightResult | src/Store.js:967-975 | get-or-create on the height-result store under [result, height]: a known key answers its id and changes nothing; a new one appends the HeightResult-tagged record; only that store changes; the key then finds the answered record |
| OadfProperties.AthleteDedup | src/Store.js:745-757 | a second addAthlete with the same names, year of birth and club answers the first id and keeps the first record, whatever its gender, citizenship and bib |
| OadfProperties.AthleteSameIdIff | src/Store.js:756 | a second addAthlete answers the first one's id exactly when first name, last name, year of birth and club are structurally the same |
| OadfProperties.ResultKeysCollideIff | src/Store.js:891 | the team-result key equals an athlete-result key exactly when athlete, wind and club are all `null` and group and performance agree |
| OadfProperties.CombinedResultMatchesAthleteResult | src/Store.js:955 | a combined result added after an athlete result with the same athlete, group, performance and wind answers the athlete result's id and stores nothing |
| OadfProperties.ResultKindsShareCounter | src/Store.js:879-892 | an athlete result and then a team result, both new, receive consecutive ids from the one result counter, whenever their two keys do not coincide (athlete, club and wind not all `null`, or group or performance differing) |
| OadfProperties.FirstResultIdsAreOneAndTwo | test/setters.test.js:7-13 | in a new graph the first athlete result gets id 1 and the following team result gets id 2, unless the two keys coincide (athlete, club and wind all `null` with structurally equal group and performance) |
| OadfProperties.AthleteResultTimingDefault | src/Store.js:763-777 | a new athlete result added with `automaticTiming` omitted is stored with it true |
| OadfProperties.TeamResultTimingDefault | src/Store.js:879-891 | a new team result added with `automaticTiming` omitted is stored with it true |
| OadfProperties.CombinedResultTimingDefault | src/Store.js:939-955 | a new combined result added with `automaticTiming` omitted is stored with it true |
| OadfProperties.MeetingNameDedup | src/Store.js:832-841 | two meetings with structurally equal names are one meeting, whatever their venue and dates |
| OadfProperties.NamedKindsDedup | src/Store.js:780-802 | age groups, clubs and disciplines with structurally equal names are deduplicated: the second add answers the first result |
| OadfProperties.GroupRoundTrip | src/Store.js:816-830 | getGroupByRoundAndNumber with a structurally equal round and number finds the group addGroup answered, and it is the new group when the add stored it |
| OadfProperties.AttemptRoundTrip | src/Store.js:909-923 | getAttemptByResultAndNumber finds the attempt addAttempt answered |
| OadfProperties.CombinedDisciplineRoundTrip | src/Store.js:925-937 | getCombinedDisciplineByEventAndDiscipline finds the combined discipline addCombinedDiscipline answered |
| OadfProperties.StoresNumberIndependently | src/Store.js:19-36 | each store numbers on its own: in a new graph the first venue and the first meeting both get id 1, and getMeetingById("1") finds that meeting |
| OadfProperties.TeamMemberDedup | src/Store.js:869-877 | addTeamMember with a structurally equal result and athlete leaves the graph as it was |
| OadfProperties.AthletesByBibAfterAdd | src/Store.js:759-761 | after addAthlete, getAthletesByBib answers its earlier answer, followed by the new athlete when one was stored and its bib matches |

## Left out

- RunStrictlyIncreasing: ids are unbounded integers. In the source the counter is a JavaScript double (src/IDGenerator.js:7), so past 2^53 it stops increasing and ids repeat. Integer keys above 2^53 likewise collide in JavaScript but stay distinct as `Int` here. A store would need 2^53 inserts to get there.
- GetByProperty: reads only a record's own properties. In the source, `element[property]` (src/ObjectStore.js:43) also reads inherited ones such as `toString`, so `getByProperty("toString", undefined)` answers `[]` there but every record here.
- Add: the object is always a record. In the source, `add` with a `null` or `undefined` object and a new key throws at `object.type` (src/ObjectStore.js:18); that error is not modelled.
- The GraphQL schema, its types and its resolvers (src/Store.js:38-742) and `getSchema` (src/Store.js:977-979) are not modelled. They read the stores only through the operations above.
- The stores' Immutable maps are modelled as Dafny maps keyed by the normalised key. Immutable's hashing and its value equality on nested collections are represented by `FromJS` and Dafny's structural equality.
- Floating-point values are opaque tokens (`Num`). `FromJS` keeps them as they are, `===` compares tokens, and `parseInt` answers absent for them. NaN is not modelled: a NaN property never matches under `===`, and that case is not represented.
- JsValues.ParseInt: models integers and strings made of an optional sign followed by decimal digits, with anything after the leading digit run ignored. It does not trim leading whitespace, and it does not parse the text of floats, arrays or booleans. Those arguments answer absent, where JavaScript might find an id.
- `SignedDecimal` writes integers in plain decimal. JavaScript's exponent notation for integers of 21 or more digits is not modelled.
- In the source, `add` stamps the id on the caller's own object, and the caller keeps a live reference to the stored record. The model returns the stamped record inside the new state instead, so later mutation through that alias is not represented. That includes the store's own mutation: adding the same object twice under two new keys sets `id` on the one shared object twice, so the entry stored first then carries the second id and `getAll` lists the one object twice. The model stores a stamped copy per add, so `ObjectStore.LogNumbered`, `ObjectStore.AddKeepsLookups` and `ObjectStore.AddThenGetAll` hold for it but not for that re-add in the source; the facade's `addX` methods always build a fresh object and never re-add one.
- `associationStore` and `clubMemberStore` have no add method in the source. They appear only as the initially empty stores of `Oadf.NewGraph`.
- The `ResultInterface` and `AthleteResultInterface` entries of src/types.js name GraphQL interfaces, not record kinds, so `Types.Kind` leaves them out.
