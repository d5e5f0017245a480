/** The in-memory bug store (`backend/models/bugModel.js`): an ordered list of
    records and the counter that hands out ids. The module-level `bugs` and
    `nextId` variables become one `Store` value that every operation takes and
    returns. */
module BugModel {
  import opened Wrappers
  import opened JsValues

  /** A reading of the wall clock (`new Date().toISOString()`), supplied by the caller. */
  type Timestamp = nat

  /** A stored bug. Title, description, status and priority hold whatever value
      `create` or `update` was given. */
  datatype Bug = Bug(
    id: int,
    title: Value,
    description: Value,
    status: Value,
    priority: Value,
    createdAt: Timestamp,
    updatedAt: Timestamp)

  datatype Store = Store(bugs: seq<Bug>, nextId: nat)

  /** The state at module load, and after `clear`. */
  const InitialStore: Store := Store([], 1)

  /** The store's invariant: ids are positive, below the counter, and increase
      along the list (so they are distinct and in creation order). */
  predicate Valid(st: Store) {
    && st.nextId >= 1
    && (forall i :: 0 <= i < |st.bugs| ==> 1 <= st.bugs[i].id < st.nextId)
    && (forall i, j :: 0 <= i < j < |st.bugs| ==> st.bugs[i].id < st.bugs[j].id)
  }

  lemma ValidIdsDistinct(st: Store, i: int, j: int)
    requires Valid(st)
    requires 0 <= i < |st.bugs| && 0 <= j < |st.bugs| && i != j
    ensures st.bugs[i].id != st.bugs[j].id
  {
    if i > j {
      assert st.bugs[j].id < st.bugs[i].id;
    }
  }

  /** The new state of the store together with what the operation returned. */
  datatype Outcome<T> = Outcome(store: Store, value: T)

  /** `bug.id === parseInt(id)`: `key` is the parsed argument, `None` for `NaN`,
      which equals nothing. */
  predicate Matches(b: Bug, key: Option<int>) {
    key == Some(b.id)
  }

  /** `i` is the first position whose record matches `key`. */
  predicate FirstMatch(bugs: seq<Bug>, key: Option<int>, i: int) {
    && 0 <= i < |bugs|
    && Matches(bugs[i], key)
    && forall j :: 0 <= j < i ==> !Matches(bugs[j], key)
  }

  predicate NoMatch(bugs: seq<Bug>, key: Option<int>) {
    forall i :: 0 <= i < |bugs| ==> !Matches(bugs[i], key)
  }

  /** `bugs.findIndex(...)`, with `None` for `-1`. */
  function FindIndex(bugs: seq<Bug>, key: Option<int>): (r: Option<nat>)
    ensures r.None? <==> NoMatch(bugs, key)
    ensures r.Some? ==> FirstMatch(bugs, key, r.value)
  {
    if |bugs| == 0 then None
    else if Matches(bugs[0], key) then Some(0)
    else
      match FindIndex(bugs[1..], key)
      case None => None
      case Some(i) => Some(i + 1)
  }

  /** In a valid store the only match is the first one. */
  lemma OnlyMatch(st: Store, key: Option<int>, i: int, j: int)
    requires Valid(st) && FirstMatch(st.bugs, key, i)
    requires 0 <= j < |st.bugs| && Matches(st.bugs[j], key)
    ensures j == i
  {
    if j != i {
      ValidIdsDistinct(st, i, j);
    }
  }

  /** The `Bug` constructor: `id` is the counter's value, title and description
      are kept as given, a falsy status or priority gets its default. */
  function NewBug(id: int, data: BugData, createdAt: Timestamp, updatedAt: Timestamp): (b: Bug)
    ensures b.id == id
    ensures b.title == data.title && b.description == data.description
    ensures Truthy(b.status) && (Truthy(data.status) ==> b.status == data.status)
    ensures !Truthy(data.status) ==> b.status == Str("open")
    ensures Truthy(b.priority) && (Truthy(data.priority) ==> b.priority == data.priority)
    ensures !Truthy(data.priority) ==> b.priority == Str("medium")
    ensures b.createdAt == createdAt && b.updatedAt == updatedAt
  {
    Bug(id, data.title, data.description, OrDefault(data.status, "open"), OrDefault(data.priority, "medium"),
        createdAt, updatedAt)
  }

  /** `getAll`: the records in list order (a copy, which value semantics make implicit). */
  function GetAll(st: Store): (r: seq<Bug>)
    ensures r == st.bugs
    ensures Valid(st) ==> forall i, j :: 0 <= i < j < |r| ==> r[i].id < r[j].id
  {
    st.bugs
  }

  /** `getById`: the first record whose id equals the parsed key. */
  function GetById(st: Store, key: Option<int>): (r: Option<Bug>)
    ensures r.None? <==> NoMatch(st.bugs, key)
    ensures r.Some? ==> exists i :: FirstMatch(st.bugs, key, i) && st.bugs[i] == r.value
  {
    match FindIndex(st.bugs, key)
    case None => None
    case Some(i) => Some(st.bugs[i])
  }

  /** `create`: the new record takes the counter's value as id and goes at the end. */
  function Create(st: Store, data: BugData, createdAt: Timestamp, updatedAt: Timestamp): (r: Outcome<Bug>)
    ensures r.value == NewBug(st.nextId, data, createdAt, updatedAt)
    ensures r.store.nextId == st.nextId + 1
    ensures r.store.bugs == st.bugs + [r.value]
    ensures Valid(st) ==> Valid(r.store)
  {
    var b := NewBug(st.nextId, data, createdAt, updatedAt);
    Outcome(Store(st.bugs + [b], st.nextId + 1), b)
  }

  /** `v` with a key of `data` applied: a present key overwrites, an absent one keeps. */
  function Patch(prior: Value, given: Value): (r: Value)
    ensures given != Missing ==> r == given
    ensures given == Missing ==> r == prior
  {
    if given.Missing? then prior else given
  }

  /** `{...prior, ...data, id: prior.id, createdAt: prior.createdAt, updatedAt: now}`. */
  function Merge(prior: Bug, data: BugData, now: Timestamp): (b: Bug)
    ensures b.id == prior.id && b.createdAt == prior.createdAt && b.updatedAt == now
    ensures b.title == Patch(prior.title, data.title) && b.description == Patch(prior.description, data.description)
    ensures b.status == Patch(prior.status, data.status) && b.priority == Patch(prior.priority, data.priority)
    ensures data == BugData(Missing, Missing, Missing, Missing) ==> b == prior.(updatedAt := now)
  {
    Bug(prior.id, Patch(prior.title, data.title), Patch(prior.description, data.description),
        Patch(prior.status, data.status), Patch(prior.priority, data.priority), prior.createdAt, now)
  }

  /** Merging the same body again, at the same time, changes nothing. */
  lemma MergeIdempotent(prior: Bug, data: BugData, now: Timestamp)
    ensures Merge(Merge(prior, data, now), data, now) == Merge(prior, data, now)
  {
  }

  /** `update`: merges `data` into the first matching record in place; `None` is `null`. */
  function Update(st: Store, key: Option<int>, data: BugData, now: Timestamp): (r: Outcome<Option<Bug>>)
    ensures r.value.None? <==> NoMatch(st.bugs, key)
    ensures r.value.None? ==> r.store == st
    ensures r.value.Some? ==>
              exists i :: && FirstMatch(st.bugs, key, i)
                          && r.value.value == Merge(st.bugs[i], data, now)
                          && r.store.bugs == st.bugs[i := r.value.value]
    ensures r.store.nextId == st.nextId
    ensures |r.store.bugs| == |st.bugs|
    ensures forall i :: 0 <= i < |st.bugs| ==> r.store.bugs[i].id == st.bugs[i].id
    ensures Valid(st) ==> Valid(r.store)
  {
    match FindIndex(st.bugs, key)
    case None => Outcome(st, None)
    case Some(i) =>
      var b := Merge(st.bugs[i], data, now);
      Outcome(Store(st.bugs[i := b], st.nextId), Some(b))
  }

  /** `delete`: removes the first matching record; `false` when there is none. */
  function Delete(st: Store, key: Option<int>): (r: Outcome<bool>)
    ensures !r.value <==> NoMatch(st.bugs, key)
    ensures !r.value ==> r.store == st
    ensures r.value ==>
              exists i :: && FirstMatch(st.bugs, key, i)
                          && r.store.bugs == st.bugs[..i] + st.bugs[i + 1..]
    ensures r.value ==> |r.store.bugs| == |st.bugs| - 1
    ensures r.store.nextId == st.nextId
    ensures Valid(st) ==> Valid(r.store)
  {
    match FindIndex(st.bugs, key)
    case None => Outcome(st, false)
    case Some(i) =>
      var rest := st.bugs[..i] + st.bugs[i + 1..];
      assert forall j :: 0 <= j < |rest| ==> rest[j] == st.bugs[if j < i then j else j + 1];
      Outcome(Store(rest, st.nextId), true)
  }

  /** `clear`: no records, and the counter back at 1. */
  function Clear(): (r: Store)
    ensures Valid(r) && |GetAll(r)| == 0
  {
    InitialStore
  }

  // ---------------------------------------------------------------------------
  // Properties across operations
  // ---------------------------------------------------------------------------

  /** A created record can be read back by its id. */
  lemma CreateThenGetById(st: Store, data: BugData, createdAt: Timestamp, updatedAt: Timestamp)
    requires Valid(st)
    ensures var r := Create(st, data, createdAt, updatedAt);
            GetById(r.store, Some(r.value.id)) == Some(r.value)
  {
    var r := Create(st, data, createdAt, updatedAt);
    var n := |st.bugs|;
    assert r.store.bugs[n] == r.value;
    assert forall j :: 0 <= j < n ==> r.store.bugs[j] == st.bugs[j];
    var g := GetById(r.store, Some(r.value.id));
    var i :| FirstMatch(r.store.bugs, Some(r.value.id), i) && r.store.bugs[i] == g.value;
    OnlyMatch(r.store, Some(r.value.id), i, n);
  }

  /** After a successful update, reading the id gives the updated record. */
  lemma UpdateThenGetById(st: Store, key: Option<int>, data: BugData, now: Timestamp)
    ensures var r := Update(st, key, data, now);
            GetById(r.store, key) == r.value
  {
    var r := Update(st, key, data, now);
    if r.value.Some? {
      var i :| FirstMatch(st.bugs, key, i) && r.store.bugs == st.bugs[i := r.value.value]
               && r.value.value == Merge(st.bugs[i], data, now);
      assert FirstMatch(r.store.bugs, key, i);
    }
  }

  /** After a successful delete, the id is no longer found. */
  lemma DeleteThenGetById(st: Store, key: Option<int>)
    requires Valid(st)
    requires Delete(st, key).value
    ensures GetById(Delete(st, key).store, key) == None
  {
    var r := Delete(st, key);
    var i :| FirstMatch(st.bugs, key, i) && r.store.bugs == st.bugs[..i] + st.bugs[i + 1..];
    forall j | 0 <= j < |r.store.bugs| ensures !Matches(r.store.bugs[j], key) {
      var k := if j < i then j else j + 1;
      assert r.store.bugs[j] == st.bugs[k];
      ValidIdsDistinct(st, i, k);
    }
  }

  /** Ids are never reused: the record created after a delete gets an id above the deleted one. */
  lemma DeletedIdNotReissued(st: Store, key: Option<int>, data: BugData, createdAt: Timestamp, updatedAt: Timestamp)
    requires Valid(st)
    requires Delete(st, key).value
    ensures key.Some? && Create(Delete(st, key).store, data, createdAt, updatedAt).value.id > key.value
  {
    var i :| FirstMatch(st.bugs, key, i);
  }

  /** After `clear`, the next record gets id 1 again. */
  lemma ClearThenCreate(data: BugData, createdAt: Timestamp, updatedAt: Timestamp)
    ensures Create(Clear(), data, createdAt, updatedAt).value.id == 1
    ensures GetAll(Create(Clear(), data, createdAt, updatedAt).store) == [Create(Clear(), data, createdAt, updatedAt).value]
  {
  }
}
