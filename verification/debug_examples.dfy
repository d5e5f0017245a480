/** The list helpers of `backend/utils/debugExamples.js`. */
module DebugExamples {
  import opened Wrappers
  import opened JsStrings
  import opened JsValues
  import opened BugModel

  // ---------------------------------------------------------------------------
  // processTitle
  // ---------------------------------------------------------------------------

  /** `processTitle`: the upper-cased title, `''` for a missing bug or a falsy
      title; upper-casing a truthy non-string throws. */
  function ProcessTitle(bug: Option<Bug>): (r: Result<string, JsError>)
    ensures bug.None? || !Truthy(bug.value.title) ==> r == Success("")
    ensures r.Failure? <==> bug.Some? && Truthy(bug.value.title) && !bug.value.title.Str?
    ensures r.Success? && bug.Some? && bug.value.title.Str? ==>
              && |r.value| == |bug.value.title.s|
              && forall i :: 0 <= i < |r.value| ==>
                   !IsLowerAscii(r.value[i]) && (IsLowerAscii(bug.value.title.s[i]) || r.value[i] == bug.value.title.s[i])
    ensures r.Success? && bug.Some? && bug.value.title.Str? ==> r.value == ToUpperCase(bug.value.title.s)
  {
    if bug.None? || !Truthy(bug.value.title) then Success("")
    else if bug.value.title.Str? then Success(ToUpperCase(bug.value.title.s))
    else Failure(TypeError)
  }

  /** Processing a processed title changes nothing: the upper-cased title has
      no lower-case letter left. */
  lemma ProcessTitleIdempotent(bug: Bug)
    requires ProcessTitle(Some(bug)).Success?
    ensures var t := ProcessTitle(Some(bug)).value;
            ProcessTitle(Some(bug.(title := Str(t)))) == Success(t)
  {
    if Truthy(bug.title) {
      ToUpperCaseIdempotent(bug.title.s);
    }
  }

  // ---------------------------------------------------------------------------
  // getBugsByPriority
  // ---------------------------------------------------------------------------

  /** The records whose priority is the string `priority`, in list order. */
  function SelectByPriority(bugs: seq<Bug>, priority: string): seq<Bug>
  {
    if |bugs| == 0 then []
    else
      var last := bugs[|bugs| - 1];
      SelectByPriority(bugs[..|bugs| - 1], priority) + (if last.priority == Str(priority) then [last] else [])
  }

  /** `a` is `b` with some elements left out, the rest in the same order. */
  predicate Subsequence<T(==)>(a: seq<T>, b: seq<T>)
    decreases |b|
  {
    if |a| == 0 then true
    else if |b| == 0 then false
    else if a[|a| - 1] == b[|b| - 1] then Subsequence(a[..|a| - 1], b[..|b| - 1])
    else Subsequence(a, b[..|b| - 1])
  }

  lemma {:induction false} SubsequenceExtend<T>(a: seq<T>, b: seq<T>, x: T)
    requires Subsequence(a, b)
    ensures Subsequence(a, b + [x])
    decreases |b|, 1
  {
    if |a| > 0 {
      assert (b + [x])[..|b|] == b;
      if a[|a| - 1] == x {
        SubsequenceDropLast(a, b);
      }
    }
  }

  lemma {:induction false} SubsequenceDropLast<T>(a: seq<T>, b: seq<T>)
    requires |a| > 0 && Subsequence(a, b)
    ensures Subsequence(a[..|a| - 1], b)
    decreases |b|, 0
  {
    var init := a[..|a| - 1];
    if |init| > 0 {
      assert |b| > 0;
      var b' := b[..|b| - 1];
      if a[|a| - 1] == b[|b| - 1] {
        SubsequenceExtend(init, b', b[|b| - 1]);
        assert b' + [b[|b| - 1]] == b;
      } else {
        SubsequenceDropLast(a, b');
        SubsequenceExtend(init, b', b[|b| - 1]);
        assert b' + [b[|b| - 1]] == b;
      }
    }
  }

  /** Each record of that priority is kept as often as it occurs, every other
      record is dropped. */
  ghost predicate KeepsMatching(sel: seq<Bug>, bugs: seq<Bug>, priority: string) {
    forall x :: multiset(sel)[x] == (if x.priority == Str(priority) then multiset(bugs)[x] else 0)
  }

  /** The selection keeps exactly the records of that priority, with their
      multiplicity, in order. */
  lemma {:induction false} SelectByPriorityMeans(bugs: seq<Bug>, priority: string)
    ensures forall b :: b in SelectByPriority(bugs, priority) <==> b in bugs && b.priority == Str(priority)
    ensures KeepsMatching(SelectByPriority(bugs, priority), bugs, priority)
    ensures Subsequence(SelectByPriority(bugs, priority), bugs)
  {
    if |bugs| > 0 {
      var init := bugs[..|bugs| - 1];
      var last := bugs[|bugs| - 1];
      SelectByPriorityMeans(init, priority);
      assert bugs == init + [last];
      assert multiset(bugs) == multiset(init) + multiset{last};
      var sel := SelectByPriority(init, priority);
      if last.priority == Str(priority) {
        assert multiset(sel + [last]) == multiset(sel) + multiset{last};
        assert SelectByPriority(bugs, priority)[..|sel|] == sel;
      } else {
        assert SelectByPriority(bugs, priority) == sel;
        SubsequenceExtend(sel, init, last);
      }
    }
  }

  /** The loop of `getBugsByPriority`, over the list it was meant to receive. */
  method FilterByPriority(bugs: seq<Bug>, priority: string) returns (filtered: seq<Bug>)
    ensures filtered == SelectByPriority(bugs, priority)
    ensures forall b :: b in filtered <==> b in bugs && b.priority == Str(priority)
    ensures KeepsMatching(filtered, bugs, priority)
    ensures Subsequence(filtered, bugs)
  {
    filtered := [];
    var i := 0;
    while i < |bugs|
      invariant 0 <= i <= |bugs|
      invariant filtered == SelectByPriority(bugs[..i], priority)
    {
      assert bugs[..i + 1][..i] == bugs[..i];
      if bugs[i].priority == Str(priority) {
        filtered := filtered + [bugs[i]];
      }
      i := i + 1;
    }
    assert bugs[..|bugs|] == bugs;
    SelectByPriorityMeans(bugs, priority);
  }

  /** `getBugsByPriority` with `getAll` awaited: the store's records of that priority. */
  method GetBugsByPriority(st: Store, priority: string) returns (filtered: seq<Bug>)
    ensures filtered == SelectByPriority(GetAll(st), priority)
    ensures forall b :: b in filtered <==> b in st.bugs && b.priority == Str(priority)
    ensures KeepsMatching(filtered, st.bugs, priority)
    ensures Subsequence(filtered, st.bugs)
  {
    filtered := FilterByPriority(GetAll(st), priority);
  }

  /** What `bugDB.getAll()` gives back: an array once awaited, a pending promise otherwise. */
  datatype Fetched = Array(items: seq<Bug>) | Promise(settlesTo: seq<Bug>)

  /** The `length` property: a promise has none (`undefined`). */
  function LengthOf(f: Fetched): Option<nat>
  {
    match f
    case Array(items) => Some(|items|)
    case Promise(_) => None
  }

  /** The loop of `getBugsByPriority` over whatever `getAll()` handed it: with no
      `length` the test `0 < undefined` is false and the loop never runs. */
  function FilterFetched(f: Fetched, priority: string): (r: seq<Bug>)
    ensures f.Promise? ==> r == []
    ensures f.Array? ==> r == SelectByPriority(f.items, priority)
  {
    if LengthOf(f).None? then [] else SelectByPriority(f.items, priority)
  }

  /** `getBugsByPriority` as written: `getAll()` is not awaited, so the loop
      receives a pending promise, and the result is empty for every store. */
  function GetBugsByPriorityAsWritten(st: Store, priority: string): (r: seq<Bug>)
    ensures r == []
  {
    FilterFetched(Promise(GetAll(st)), priority)
  }

  /** The as-written function misses a matching record that the awaited one finds. */
  lemma AsWrittenMissesMatchingBug(b: Bug)
    requires b.id >= 1 && b.priority == Str("high")
    ensures var st := Store([b], b.id + 1);
            && GetBugsByPriorityAsWritten(st, "high") == []
            && SelectByPriority(GetAll(st), "high") == [b]
  {
    var st := Store([b], b.id + 1);
    assert GetAll(st)[..0] == [];
  }

  // ---------------------------------------------------------------------------
  // updateBugStatus
  // ---------------------------------------------------------------------------

  /** `updateBugStatus`: a new list in which every record with the id has the
      new status; the input list is a value and stays as it was. */
  method UpdateBugStatus(bugs: seq<Bug>, id: int, newStatus: Value) returns (updated: seq<Bug>)
    ensures |updated| == |bugs|
    ensures forall i :: 0 <= i < |bugs| && bugs[i].id == id ==> updated[i] == bugs[i].(status := newStatus)
    ensures forall i :: 0 <= i < |bugs| && bugs[i].id != id ==> updated[i] == bugs[i]
  {
    updated := [];
    var i := 0;
    while i < |bugs|
      invariant 0 <= i <= |bugs|
      invariant |updated| == i
      invariant forall k :: 0 <= k < i && bugs[k].id == id ==> updated[k] == bugs[k].(status := newStatus)
      invariant forall k :: 0 <= k < i && bugs[k].id != id ==> updated[k] == bugs[k]
    {
      var b := if bugs[i].id == id then bugs[i].(status := newStatus) else bugs[i];
      updated := updated + [b];
      i := i + 1;
    }
  }
}
