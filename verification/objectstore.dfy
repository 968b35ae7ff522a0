/**
 * The generic record store: a get-or-create collection keyed by a normalised
 * dedup key. Its state is the identifier index, the key index, the
 * insertion-ordered log of all records and the store's own identifier
 * generator. Every operation is a pure function; `Add` returns the next state
 * together with the identifier it answered.
 */
module ObjectStore {
  import opened Wrappers
  import opened JsValues
  import IdGen

  /** A stored JavaScript object: its own properties by name. */
  datatype Record = Record(props: map<string, JsValue>) {

    /** `record[p]`: a property the object does not have reads as `undefined`. */
    function Get(p: string): JsValue {
      if p in props then props[p] else Undefined
    }

    /** `record.id = id`: every other property is kept. */
    function WithId(id: int): (r: Record)
      ensures r.Get("id") == Int(id)
      ensures forall p :: p != "id" ==> r.Get(p) == Get(p)
    {
      Record(props["id" := Int(id)])
    }
  }

  datatype Store = Store(
    idMap: map<int, Record>,
    keyMap: map<Key, int>,
    all: seq<Record>,
    idGen: IdGen.Generator)

  /** The state an operation leaves behind and the identifier it answered. */
  datatype Inserted<S> = Inserted(state: S, id: int)

  /** The identifier stamped on a stored record. */
  predicate HasId(r: Record, id: int) {
    r.Get("id") == Int(id)
  }

  /** Position i of the log holds the record with id i + 1. */
  ghost predicate LogNumbered(all: seq<Record>) {
    forall i :: 0 <= i < |all| ==> HasId(all[i], i + 1)
  }

  /** The id index holds exactly the ids 1..|all|, each mapped to its log entry. */
  ghost predicate IdIndexed(idMap: map<int, Record>, all: seq<Record>) {
    && (forall id :: id in idMap <==> 1 <= id <= |all|)
    && (forall id :: id in idMap ==> idMap[id] == all[id - 1])
  }

  /** The key index maps distinct keys to distinct ids, and its ids are exactly `ids`. */
  ghost predicate KeyIndexed(keyMap: map<Key, int>, ids: set<int>) {
    && (forall k1, k2 :: k1 in keyMap && k2 in keyMap && keyMap[k1] == keyMap[k2] ==> k1 == k2)
    && keyMap.Values == ids
  }

  /**
   * What every reachable store satisfies: the log holds the records with ids
   * 1, 2, ..., |all| in that order; the id index holds exactly those ids, each
   * mapped to its log entry; the key index maps distinct keys to distinct ids
   * and covers every stored id; the generator is about to hand out the id
   * after the last one stored.
   */
  ghost predicate Valid(s: Store) {
    && s.idGen.nextId == |s.all| + 1
    && LogNumbered(s.all)
    && IdIndexed(s.idMap, s.all)
    && KeyIndexed(s.keyMap, s.idMap.Keys)
  }

  /** `new ObjectStore()`: empty, with a generator of its own. */
  function New(): (s: Store)
    ensures Valid(s)
    ensures s.all == [] && s.keyMap == map[]
  {
    Store(map[], map[], [], IdGen.New())
  }

  /**
   * The get-or-create step of `add` from `s` to `s'` answering `id`: a key
   * already known (after normalisation) answers its identifier and changes
   * nothing; a new key keeps every other key and identifier as it was and
   * files `obj`, stamped with `id`, under both indexes and at the end of the
   * log.
   */
  predicate GetOrCreate(s: Store, s': Store, id: int, obj: Record, key: JsValue) {
    var k := FromJS(key);
    if k in s.keyMap then
      s' == s && id == s.keyMap[k]
    else
      && s'.all == s.all + [obj.WithId(id)]
      && s'.keyMap == s.keyMap[k := id]
      && s'.idMap == s.idMap[id := obj.WithId(id)]
  }

  /**
   * `add(object, key)`. A key already known (after normalisation) answers its
   * identifier and leaves the store as it was, dropping `obj`. A new key draws
   * the generator's next id, stamps it on the object and records it in both
   * indexes and at the end of the log.
   */
  function Add(s: Store, obj: Record, key: JsValue): (r: Inserted<Store>)
    ensures GetOrCreate(s, r.state, r.id, obj, key)
    ensures s.all <= r.state.all && |r.state.all| <= |s.all| + 1
    ensures Valid(s) ==> Valid(r.state)
    ensures Valid(s) ==> FromJS(key) in r.state.keyMap && r.state.keyMap[FromJS(key)] == r.id
    ensures Valid(s) && FromJS(key) !in s.keyMap ==> r.id == |s.all| + 1
  {
    var k := FromJS(key);
    if k in s.keyMap then
      Inserted(s, s.keyMap[k])
    else
      var drawn := IdGen.Generate(s.idGen);
      var rec := obj.WithId(drawn.id);
      var s' := Store(s.idMap[drawn.id := rec], s.keyMap[k := drawn.id], s.all + [rec], drawn.gen);
      assert Valid(s) ==> Valid(s') by {
        if Valid(s) {
          AddFreshValid(s, k, rec, drawn);
        }
      }
      Inserted(s', drawn.id)
  }

  lemma AddFreshValid(s: Store, k: Key, rec: Record, drawn: IdGen.Drawn)
    requires Valid(s) && k !in s.keyMap
    requires drawn == IdGen.Generate(s.idGen) && HasId(rec, drawn.id)
    ensures Valid(Store(s.idMap[drawn.id := rec], s.keyMap[k := drawn.id], s.all + [rec], drawn.gen))
  {
    var id := drawn.id;
    assert id == |s.all| + 1 && id !in s.idMap;
    FreshLog(s.all, rec);
    FreshIdIndex(s.idMap, s.all, rec, s.idMap[id := rec]);
    FreshKeyIndex(s.keyMap, s.idMap.Keys, k, id, s.keyMap[k := id]);
    assert s.idMap[id := rec].Keys == s.idMap.Keys + {id};
  }

  lemma FreshLog(all: seq<Record>, rec: Record)
    requires LogNumbered(all) && HasId(rec, |all| + 1)
    ensures LogNumbered(all + [rec])
  {
  }

  lemma FreshIdIndex(idMap: map<int, Record>, all: seq<Record>, rec: Record, idMap': map<int, Record>)
    requires IdIndexed(idMap, all) && idMap' == idMap[|all| + 1 := rec]
    ensures IdIndexed(idMap', all + [rec])
  {
  }

  lemma FreshKeyIndex(keyMap: map<Key, int>, ids: set<int>, k: Key, id: int, keyMap': map<Key, int>)
    requires KeyIndexed(keyMap, ids) && k !in keyMap && id !in ids
    requires keyMap' == keyMap[k := id]
    ensures KeyIndexed(keyMap', ids + {id})
  {
    forall v | v in keyMap'.Values
      ensures v in ids + {id}
    {
      var kv :| kv in keyMap' && keyMap'[kv] == v;
      if kv != k {
        assert keyMap[kv] == v;
      }
    }
    forall v | v in ids + {id}
      ensures v in keyMap'.Values
    {
      if v == id {
        assert keyMap'[k] == id;
      } else {
        var kv :| kv in keyMap && keyMap[kv] == v;
        assert keyMap'[kv] == v;
      }
    }
    assert forall k' :: k' in keyMap ==> keyMap[k'] != id;
  }

  /**
   * `getAll()`: the stored records in insertion order; position i holds the
   * record the id index files under i + 1.
   */
  function GetAll(s: Store): (r: seq<Record>)
    ensures Valid(s) ==> forall i :: 0 <= i < |r| ==> (i + 1) in s.idMap && r[i] == s.idMap[i + 1]
    ensures Valid(s) ==> forall i :: 0 <= i < |r| ==> HasId(r[i], i + 1)
    ensures Valid(s) ==> forall id :: id in s.idMap <==> 1 <= id <= |r|
  {
    s.all
  }

  /**
   * `getById(id)`: the argument goes through `parseInt(id, 10)` first, so an
   * identifier given as text finds the same record; an id never handed out is
   * absent, not an error.
   */
  function GetById(s: Store, id: JsValue): (r: Option<Record>)
    ensures Valid(s) ==> (r.Some? <==> ParseInt(id).Some? && 1 <= ParseInt(id).value <= |s.all|)
    ensures Valid(s) && r.Some? ==> r.value == s.all[ParseInt(id).value - 1]
    ensures Valid(s) && r.Some? ==> HasId(r.value, ParseInt(id).value)
  {
    match ParseInt(id)
    case None => None
    case Some(n) => if n in s.idMap then Some(s.idMap[n]) else None
  }

  /**
   * `getByKey(key)`: the key is normalised as `add` normalises it; a miss
   * passes `undefined` on to `getById`, which answers absent.
   */
  function GetByKey(s: Store, key: JsValue): (r: Option<Record>)
    ensures Valid(s) ==> (r.Some? <==> FromJS(key) in s.keyMap)
    ensures Valid(s) && r.Some? ==> HasId(r.value, s.keyMap[FromJS(key)])
    ensures Valid(s) && r.Some? ==>
              1 <= s.keyMap[FromJS(key)] <= |s.all| && r.value == s.all[s.keyMap[FromJS(key)] - 1]
  {
    var k := FromJS(key);
    GetById(s, if k in s.keyMap then Int(s.keyMap[k]) else Undefined)
  }

  /** The records of `rs` whose property `p` is `===` to `v`, in their order in `rs`. */
  function Select(rs: seq<Record>, p: string, v: JsValue): (r: seq<Record>)
    ensures forall x :: x in r <==> x in rs && StrictEquals(x.Get(p), v)
    ensures |r| <= |rs|
  {
    if rs == [] then []
    else (if StrictEquals(rs[0].Get(p), v) then [rs[0]] else []) + Select(rs[1..], p, v)
  }

  /** `a` carries a smaller numeric id than `b`. */
  predicate IdBefore(a: Record, b: Record) {
    a.Get("id").Int? && b.Get("id").Int? && a.Get("id").i < b.Get("id").i
  }

  /** `IdBefore` is a strict order: irreflexive and asymmetric. */
  lemma IdBeforeStrict(x: Record, y: Record)
    ensures !IdBefore(x, x)
    ensures !(IdBefore(x, y) && IdBefore(y, x))
  {
  }

  /** The ids along `rs` strictly increase; in particular no record appears twice. */
  ghost predicate IdsIncreasing(rs: seq<Record>) {
    forall i, j :: 0 <= i < j < |rs| ==> IdBefore(rs[i], rs[j])
  }

  lemma {:induction false} SelectKeepsOrder(rs: seq<Record>, p: string, v: JsValue)
    requires IdsIncreasing(rs)
    ensures IdsIncreasing(Select(rs, p, v))
  {
    if rs != [] {
      var tail := rs[1..];
      assert IdsIncreasing(tail);
      SelectKeepsOrder(tail, p, v);
      var rest := Select(tail, p, v);
      if StrictEquals(rs[0].Get(p), v) {
        var r := [rs[0]] + rest;
        forall i, j | 0 <= i < j < |r|
          ensures IdBefore(r[i], r[j])
        {
          if i == 0 {
            assert r[j] in tail;
            var m :| 0 <= m < |tail| && tail[m] == r[j];
            assert rs[m + 1] == r[j];
          } else {
            assert r[i] == rest[i - 1] && r[j] == rest[j - 1];
          }
        }
      }
    }
  }

  /** The log of a reachable store is in increasing id order. */
  lemma LogOrdered(s: Store)
    requires Valid(s)
    ensures IdsIncreasing(s.all)
  {
  }

  lemma SelectionOrdered(s: Store, p: string, v: JsValue)
    ensures Valid(s) ==> IdsIncreasing(Select(s.all, p, v))
  {
    if Valid(s) {
      LogOrdered(s);
      SelectKeepsOrder(s.all, p, v);
    }
  }

  /**
   * `getByProperty(p, v)`: every stored record whose property `p` is `===` to
   * `v` and no other, in insertion order (ids strictly increasing), so the
   * answer is determined by its elements; empty when nothing matches.
   */
  function GetByProperty(s: Store, p: string, v: JsValue): (r: seq<Record>)
    ensures forall x :: x in r <==> x in s.all && StrictEquals(x.Get(p), v)
    ensures Valid(s) ==> IdsIncreasing(r)
    ensures (forall i :: 0 <= i < |s.all| ==> !StrictEquals(s.all[i].Get(p), v)) ==> r == []
  {
    SelectionOrdered(s, p, v);
    var r := Select(s.all, p, v);
    assert |r| > 0 ==> r[0] in s.all;
    r
  }

  // ---------------------------------------------------------------------------
  // Properties relating several operations
  // ---------------------------------------------------------------------------

  /**
   * Insert idempotence: adding again under a structurally equal key answers
   * the first identifier and changes nothing; the second object is dropped.
   */
  lemma AddIdempotent(s: Store, o1: Record, k1: JsValue, o2: Record, k2: JsValue)
    requires Valid(s) && Same(k1, k2)
    ensures Add(Add(s, o1, k1).state, o2, k2) == Inserted(Add(s, o1, k1).state, Add(s, o1, k1).id)
  {
    FromJSIffSame(k1, k2);
  }

  /**
   * A second add answers the first add's identifier exactly when the two keys
   * are structurally the same; any other key gets a different identifier.
   */
  lemma SecondAddSameIdIff(s: Store, o1: Record, k1: JsValue, o2: Record, k2: JsValue)
    requires Valid(s)
    ensures Add(Add(s, o1, k1).state, o2, k2).id == Add(s, o1, k1).id <==> Same(k1, k2)
  {
    FromJSIffSame(k1, k2);
    var first := Add(s, o1, k1);
    var second := Add(first.state, o2, k2);
    if !Same(k1, k2) {
      var t := first.state;
      assert FromJS(k1) in t.keyMap && t.keyMap[FromJS(k1)] == first.id;
      if FromJS(k2) in t.keyMap {
        assert second.id == t.keyMap[FromJS(k2)];
      } else {
        assert second.id == |t.all| + 1;
        assert first.id in t.idMap;
      }
    }
  }

  /**
   * The identifier an add answers does not depend on the object added, so not
   * on its type tag either: the generator is shared by all records of a store.
   */
  lemma AddIdIgnoresObject(s: Store, o1: Record, o2: Record, key: JsValue)
    ensures Add(s, o1, key).id == Add(s, o2, key).id
    ensures Add(s, o1, key).state.keyMap == Add(s, o2, key).state.keyMap
  {
  }

  /**
   * Two adds under new, different keys receive consecutive identifiers,
   * whatever the objects added.
   */
  lemma FreshAddsConsecutive(s: Store, o1: Record, k1: JsValue, o2: Record, k2: JsValue)
    requires Valid(s) && FromJS(k1) !in s.keyMap && FromJS(k2) !in s.keyMap && !Same(k1, k2)
    ensures Add(Add(s, o1, k1).state, o2, k2).id == Add(s, o1, k1).id + 1
    ensures |Add(Add(s, o1, k1).state, o2, k2).state.all| == |s.all| + 2
  {
    FromJSIffSame(k1, k2);
  }

  /**
   * Round trip by identifier: the identifier an add answers finds, through
   * `getById`, the object just stamped with it, or under a known key the
   * record stored first.
   */
  lemma AddThenGetById(s: Store, obj: Record, key: JsValue)
    requires Valid(s)
    ensures var r := Add(s, obj, key);
      GetById(r.state, Int(r.id)) ==
        if FromJS(key) in s.keyMap then GetByKey(s, key) else Some(obj.WithId(r.id))
  {
  }

  /**
   * Round trip by key: after an add, every structurally equal key finds the
   * record the identifier answered by the add names.
   */
  lemma AddThenGetByKey(s: Store, obj: Record, key: JsValue, key': JsValue)
    requires Valid(s) && Same(key, key')
    ensures var r := Add(s, obj, key);
      GetByKey(r.state, key') == GetById(r.state, Int(r.id)) && GetByKey(r.state, key').Some?
  {
    FromJSIffSame(key, key');
  }

  /** An add never changes what an identifier already handed out finds. */
  lemma AddKeepsLookups(s: Store, obj: Record, key: JsValue, id: JsValue)
    requires Valid(s) && GetById(s, id).Some?
    ensures GetById(Add(s, obj, key).state, id) == GetById(s, id)
  {
  }

  /**
   * An add never changes what a key already known finds: a new key leaves
   * every other key's identifier, and so its record, in place.
   */
  lemma AddKeepsKeys(s: Store, obj: Record, key: JsValue, known: JsValue)
    requires Valid(s) && FromJS(known) in s.keyMap
    ensures var r := Add(s, obj, key);
      && FromJS(known) in r.state.keyMap && r.state.keyMap[FromJS(known)] == s.keyMap[FromJS(known)]
      && GetByKey(r.state, known) == GetByKey(s, known)
  {
    AddKeepsLookups(s, obj, key, Int(s.keyMap[FromJS(known)]));
  }

  /**
   * After an add, `getAll` answers what it answered before, followed by the
   * object stamped with the next id when the key was new.
   */
  lemma AddThenGetAll(s: Store, obj: Record, key: JsValue)
    requires Valid(s)
    ensures GetAll(Add(s, obj, key).state) ==
      GetAll(s) + (if FromJS(key) in s.keyMap then [] else [obj.WithId(|s.all| + 1)])
  {
  }

  /** `getById` answers the same for an identifier and for its decimal text. */
  lemma GetByIdText(s: Store, n: int)
    ensures GetById(s, Str(SignedDecimal(n))) == GetById(s, Int(n))
  {
    ParseIntOfDecimal(n, []);
    assert SignedDecimal(n) + [] == SignedDecimal(n);
  }

  /**
   * Two sequences of records in increasing id order with the same elements
   * are the same sequence.
   */
  lemma {:induction false} IncreasingDeterminedByElements(a: seq<Record>, b: seq<Record>)
    requires IdsIncreasing(a) && IdsIncreasing(b)
    requires forall x :: x in a <==> x in b
    ensures a == b
  {
    assert |b| > 0 ==> b[0] in a;
    if a != [] {
      assert a[0] in b;
      var i :| 0 <= i < |b| && b[i] == a[0];
      assert b[0] in a;
      var j :| 0 <= j < |a| && a[j] == b[0];
      assert i != 0 ==> IdBefore(b[0], b[i]);
      assert j != 0 ==> IdBefore(a[0], a[j]);
      IdBeforeStrict(a[0], b[0]);
      assert i == 0;
      forall x
        ensures x in a[1..] <==> x in b[1..]
      {
        if x in a[1..] {
          var m :| 0 <= m < |a[1..]| && a[1..][m] == x;
          assert a[m + 1] == x && IdBefore(a[0], x);
          assert x in b;
          var n :| 0 <= n < |b| && b[n] == x;
          assert n != 0;
          assert b[1..][n - 1] == x;
        }
        if x in b[1..] {
          var m :| 0 <= m < |b[1..]| && b[1..][m] == x;
          assert b[m + 1] == x && IdBefore(b[0], x);
          assert x in a;
          var n :| 0 <= n < |a| && a[n] == x;
          assert n != 0;
          assert a[1..][n - 1] == x;
        }
      }
      assert IdsIncreasing(a[1..]) && IdsIncreasing(b[1..]);
      IncreasingDeterminedByElements(a[1..], b[1..]);
      assert a == [a[0]] + a[1..] && b == [b[0]] + b[1..];
    }
  }

  /**
   * `getByProperty` answers exactly the matching records in insertion order:
   * any sequence in increasing id order holding exactly the matching stored
   * records is its answer.
   */
  lemma GetByPropertyExact(s: Store, p: string, v: JsValue, r: seq<Record>)
    requires Valid(s) && IdsIncreasing(r)
    requires forall x :: x in r <==> x in s.all && StrictEquals(x.Get(p), v)
    ensures GetByProperty(s, p, v) == r
  {
    IncreasingDeterminedByElements(GetByProperty(s, p, v), r);
  }

  lemma {:induction false} SelectAppend(rs: seq<Record>, x: Record, p: string, v: JsValue)
    ensures Select(rs + [x], p, v) == Select(rs, p, v) + (if StrictEquals(x.Get(p), v) then [x] else [])
  {
    if rs != [] {
      var rest := rs[1..];
      assert rs + [x] == [rs[0]] + (rest + [x]);
      assert (rs + [x])[1..] == rest + [x];
      SelectAppend(rest, x, p, v);
    } else {
      assert [x][1..] == [];
    }
  }

  /**
   * After an add, `getByProperty` answers what it answered before, followed
   * by the new record when one was stored and it matches.
   */
  lemma AddThenGetByProperty(s: Store, obj: Record, key: JsValue, p: string, v: JsValue)
    ensures var r := Add(s, obj, key);
      GetByProperty(r.state, p, v) ==
        GetByProperty(s, p, v) +
        (if FromJS(key) !in s.keyMap && StrictEquals(obj.WithId(r.id).Get(p), v) then [obj.WithId(r.id)] else [])
  {
    var r := Add(s, obj, key);
    if FromJS(key) !in s.keyMap {
      SelectAppend(s.all, obj.WithId(r.id), p, v);
    }
  }

  /** A missing foreign key (`null` or `undefined`) resolves to absence, not an error. */
  lemma MissingReferenceIsAbsent(s: Store)
    ensures GetById(s, Null) == None && GetById(s, Undefined) == None
  {
  }
}
