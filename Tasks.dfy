/**
 * The task records of the to-do list and the new lists that the handlers of
 * `App` compute from the old one: the map that flips `done` or `paused` on
 * the tasks with a given id, the filter that deletes them, and the filter
 * that selects the tasks matching the search text.
 */
module Tasks {
  import opened Text
  import opened Seqs

  /** One to-do item. The id is the clock value at creation; nothing makes it
      unique, so two tasks may share one. */
  datatype Task = Task(id: int, title: string, done: bool, paused: bool)

  /** Some task in `ts` carries the id `id`. */
  predicate HasId(ts: seq<Task>, id: int) {
    exists i :: 0 <= i < |ts| && ts[i].id == id
  }

  /** No two tasks of `ts` share an id. */
  ghost predicate DistinctIds(ts: seq<Task>) {
    forall i, j :: 0 <= i < j < |ts| ==> ts[i].id != ts[j].id
  }

  /** The record `createTask` builds: the draft as the title, both flags off. */
  function NewTask(now: int, title: string): (t: Task)
    ensures t.id == now && t.title == title && !t.done && !t.paused
  {
    Task(now, title, false, false)
  }

  /** The list and draft `createTask` leaves, with `now` standing for the
      clock reading. A draft that trims to "" leaves both as they were.
      Otherwise the old list is kept as a prefix, followed by one new task
      whose title is the draft as typed, and the draft becomes "". */
  function Created(ts: seq<Task>, draft: string, now: int): (r: (seq<Task>, string))
    ensures Trim(draft) == [] ==> r.0 == ts && r.1 == draft
    ensures Trim(draft) != [] ==>
      |r.0| == |ts| + 1 && r.0[..|ts|] == ts && r.0[|ts|] == NewTask(now, draft) && r.1 == []
  {
    if Trim(draft) == [] then (ts, draft) else (ts + [NewTask(now, draft)], [])
  }

  /** Creating never stores a blank title: if every title in `ts` has a
      non-white-space character, so does every title after `createTask`. */
  lemma CreatedKeepsTitles(ts: seq<Task>, draft: string, now: int)
    requires forall i :: 0 <= i < |ts| ==> !IsBlank(ts[i].title)
    ensures var r := Created(ts, draft, now).0;
      forall i :: 0 <= i < |r| ==> !IsBlank(r[i].title)
  {
  }

  /** `ts.map(t => t.id === id ? f(t) : t)`: the same positions, with `f`
      applied exactly to the tasks whose id is `id`. */
  function UpdateWhere(ts: seq<Task>, id: int, f: Task -> Task): (r: seq<Task>)
    ensures |r| == |ts|
    ensures forall i :: 0 <= i < |ts| ==> r[i] == if ts[i].id == id then f(ts[i]) else ts[i]
  {
    if ts == [] then []
    else [if ts[0].id == id then f(ts[0]) else ts[0]] + UpdateWhere(ts[1..], id, f)
  }

  function FlipDone(t: Task): Task {
    t.(done := !t.done)
  }

  function FlipPaused(t: Task): Task {
    t.(paused := !t.paused)
  }

  /** The list `toggleTaskDone(id)` stores: the same length and order, `done`
      flipped on exactly the tasks with id `id`, ids, titles and `paused`
      untouched. */
  function ToggleDone(ts: seq<Task>, id: int): (r: seq<Task>)
    ensures |r| == |ts|
    ensures forall i :: 0 <= i < |ts| ==>
      r[i].id == ts[i].id && r[i].title == ts[i].title && r[i].paused == ts[i].paused
    ensures forall i :: 0 <= i < |ts| ==> (r[i].done != ts[i].done <==> ts[i].id == id)
  {
    UpdateWhere(ts, id, FlipDone)
  }

  /** The list `toggleTaskPaused(id)` stores: the same length and order,
      `paused` flipped on exactly the tasks with id `id`, ids, titles and
      `done` untouched. */
  function TogglePaused(ts: seq<Task>, id: int): (r: seq<Task>)
    ensures |r| == |ts|
    ensures forall i :: 0 <= i < |ts| ==>
      r[i].id == ts[i].id && r[i].title == ts[i].title && r[i].done == ts[i].done
    ensures forall i :: 0 <= i < |ts| ==> (r[i].paused != ts[i].paused <==> ts[i].id == id)
  {
    UpdateWhere(ts, id, FlipPaused)
  }

  /** Toggling `done` twice with the same id restores the list. */
  lemma ToggleDoneTwice(ts: seq<Task>, id: int)
    ensures ToggleDone(ToggleDone(ts, id), id) == ts
  {
  }

  /** Toggling `paused` twice with the same id restores the list. */
  lemma TogglePausedTwice(ts: seq<Task>, id: int)
    ensures TogglePaused(TogglePaused(ts, id), id) == ts
  {
  }

  /** Toggling `done` with an id no task carries changes nothing. */
  lemma ToggleDoneUnknownId(ts: seq<Task>, id: int)
    requires !HasId(ts, id)
    ensures ToggleDone(ts, id) == ts
  {
  }

  /** Toggling `paused` with an id no task carries changes nothing. */
  lemma TogglePausedUnknownId(ts: seq<Task>, id: int)
    requires !HasId(ts, id)
    ensures TogglePaused(ts, id) == ts
  {
  }

  /** The two flags are independent: toggling `done` and toggling `paused`
      give the same list in either order. */
  lemma TogglesCommute(ts: seq<Task>, a: int, b: int)
    ensures ToggleDone(TogglePaused(ts, a), b) == TogglePaused(ToggleDone(ts, b), a)
  {
  }

  /** The list `deleteTask(id)` stores: `ts.filter(t => t.id !== id)`. No task
      with that id is left, the rest keep their order, and every task with
      another id keeps all its occurrences. */
  function Remove(ts: seq<Task>, id: int): (r: seq<Task>)
    ensures !HasId(r, id)
    ensures IsSubseq(r, ts)
    ensures forall t: Task :: t.id != id ==> multiset(r)[t] == multiset(ts)[t]
    ensures forall t :: t in r <==> t in ts && t.id != id
  {
    var r := Filter(ts, (t: Task) => t.id != id);
    assert forall t :: t in r <==> multiset(r)[t] > 0;
    r
  }

  /** `Remove` is pinned down by its contract: any subsequence of `ts` that
      drops every task with id `id` and keeps every other occurrence is
      `Remove(ts, id)`. */
  lemma RemoveUnique(ts: seq<Task>, id: int, r: seq<Task>)
    requires IsSubseq(r, ts)
    requires !HasId(r, id)
    requires forall t: Task :: t.id != id ==> multiset(r)[t] == multiset(ts)[t]
    ensures r == Remove(ts, id)
  {
    forall t: Task | t.id == id ensures multiset(r)[t] == 0 {
      assert t !in r;
    }
    FilterUnique(ts, (t: Task) => t.id != id, r);
  }

  /** Deleting shortens the list exactly when some task carries the id. */
  lemma RemoveShortens(ts: seq<Task>, id: int)
    ensures |Remove(ts, id)| < |ts| <==> HasId(ts, id)
  {
    FilterLength(ts, (t: Task) => t.id != id);
  }

  /** Deleting with an id no task carries changes nothing. */
  lemma RemoveUnknownId(ts: seq<Task>, id: int)
    requires !HasId(ts, id)
    ensures Remove(ts, id) == ts
  {
    FilterAll(ts, (t: Task) => t.id != id);
  }

  /** Deleting twice with the same id is deleting once. */
  lemma RemoveTwice(ts: seq<Task>, id: int)
    ensures Remove(Remove(ts, id), id) == Remove(ts, id)
  {
    RemoveUnknownId(Remove(ts, id), id);
  }

  /** The search test of `filteredTasks`: the lower-cased title includes the
      lower-cased query. */
  predicate Matches(t: Task, query: string) {
    Includes(ToLower(t.title), ToLower(query))
  }

  /** `filteredTasks`: the tasks whose title matches the query, in list order,
      each with all its occurrences. */
  function Visible(ts: seq<Task>, query: string): (r: seq<Task>)
    ensures IsSubseq(r, ts)
    ensures forall t :: multiset(r)[t] == if Matches(t, query) then multiset(ts)[t] else 0
    ensures forall t :: t in r <==> t in ts && Matches(t, query)
  {
    var r := Filter(ts, (t: Task) => Matches(t, query));
    assert forall t :: t in r <==> multiset(r)[t] > 0;
    r
  }

  /** An empty query shows every task, in order. */
  lemma VisibleEmptyQuery(ts: seq<Task>)
    ensures Visible(ts, "") == ts
  {
    FilterAll(ts, (t: Task) => Matches(t, ""));
  }

  /** A query that is a substring of a title, in any mix of upper and lower
      case, matches that title: the case of the query does not matter. */
  lemma MatchIgnoresQueryCase(t: Task, q: string, i: int)
    requires OccursAt(ToLower(t.title), ToLower(q), i)
    ensures Matches(t, q)
    ensures Matches(t, ToLower(q))
  {
    OccursImpliesIncludes(ToLower(t.title), ToLower(q), i);
    ToLowerIdempotent(q);
  }

  /** Searching is case-blind in the query: a query and its lower-case form
      show the same tasks. */
  lemma VisibleIgnoresQueryCase(ts: seq<Task>, query: string)
    ensures Visible(ts, query) == Visible(ts, ToLower(query))
  {
    ToLowerIdempotent(query);
    var r := Visible(ts, ToLower(query));
    assert forall t :: Matches(t, ToLower(query)) == Matches(t, query);
    FilterUnique(ts, (t: Task) => Matches(t, query), r);
  }

  /** Applying `f` where the id matches and then filtering by a predicate `f`
      does not affect is the same as filtering first. */
  lemma {:induction false} FilterUpdateWhere(ts: seq<Task>, id: int, f: Task -> Task, p: Task -> bool)
    requires forall t :: p(f(t)) == p(t)
    ensures Filter(UpdateWhere(ts, id, f), p) == UpdateWhere(Filter(ts, p), id, f)
  {
    if ts != [] {
      FilterUpdateWhere(ts[1..], id, f, p);
      assert UpdateWhere(ts, id, f)[1..] == UpdateWhere(ts[1..], id, f);
    }
  }

  /** A task created at the end of the list shows at the end of the view
      when it matches the query, and the rest of the view is unchanged; under
      an empty query the view grows by exactly one task. */
  lemma VisibleAfterAppend(ts: seq<Task>, t: Task, query: string)
    ensures Visible(ts + [t], query) ==
      Visible(ts, query) + (if Matches(t, query) then [t] else [])
    ensures query == [] ==> |Visible(ts + [t], query)| == |Visible(ts, query)| + 1
  {
    FilterAppend(ts, [t], (u: Task) => Matches(u, query));
    assert Filter([t], (u: Task) => Matches(u, query)) == (if Matches(t, query) then [t] else []);
  }

  /** Deleting and searching commute: the view of the list after a deletion
      is the old view with the deleted tasks left out. */
  lemma VisibleAfterRemove(ts: seq<Task>, id: int, query: string)
    ensures Visible(Remove(ts, id), query) == Remove(Visible(ts, query), id)
  {
    FilterCommute(ts, (t: Task) => t.id != id, (t: Task) => Matches(t, query));
  }

  /** Toggling `done` does not change which tasks the search shows: the view
      of the toggled list is the toggled view. */
  lemma VisibleAfterToggleDone(ts: seq<Task>, id: int, query: string)
    ensures Visible(ToggleDone(ts, id), query) == ToggleDone(Visible(ts, query), id)
  {
    FilterUpdateWhere(ts, id, FlipDone, (t: Task) => Matches(t, query));
  }

  /** Toggling `paused` does not change which tasks the search shows. */
  lemma VisibleAfterTogglePaused(ts: seq<Task>, id: int, query: string)
    ensures Visible(TogglePaused(ts, id), query) == TogglePaused(Visible(ts, query), id)
  {
    FilterUpdateWhere(ts, id, FlipPaused, (t: Task) => Matches(t, query));
  }

  /** Deleting tasks never introduces an id clash: a subsequence of a list
      with distinct ids has distinct ids. */
  lemma {:induction false} SubseqKeepsDistinct(a: seq<Task>, b: seq<Task>)
    requires IsSubseq(a, b)
    requires DistinctIds(b)
    ensures DistinctIds(a)
    decreases |b|
  {
    if a != [] {
      if a[0] == b[0] && IsSubseq(a[1..], b[1..]) {
        SubseqKeepsDistinct(a[1..], b[1..]);
        SubseqMembers(a[1..], b[1..]);
        forall j | 0 < j < |a| ensures a[0].id != a[j].id {
          assert a[j] == a[1..][j - 1] && a[j] in a[1..];
          var k :| 0 <= k < |b[1..]| && b[1..][k] == a[j];
          assert b[k + 1] == a[j];
        }
      } else {
        SubseqKeepsDistinct(a, b[1..]);
      }
    }
  }

  /** Appending a task whose id no existing task carries keeps the ids
      distinct. */
  lemma AppendFreshKeepsDistinct(ts: seq<Task>, now: int, title: string)
    requires DistinctIds(ts)
    requires !HasId(ts, now)
    ensures DistinctIds(ts + [NewTask(now, title)])
  {
  }

  /** Two creations within one clock tick, of two non-blank drafts, give two
      tasks with the same id, and toggling that id then flips both of them. */
  lemma SameTickSharesId(ts: seq<Task>, now: int, a: string, b: string)
    requires Trim(a) != [] && Trim(b) != []
    ensures var s := Created(Created(ts, a, now).0, b, now).0;
      !DistinctIds(s) && s[|ts|].id == s[|ts| + 1].id == now
    ensures var s := Created(Created(ts, a, now).0, b, now).0;
      ToggleDone(s, now)[|ts|].done != s[|ts|].done
      && ToggleDone(s, now)[|ts| + 1].done != s[|ts| + 1].done
  {
    var s1 := Created(ts, a, now).0;
    var s := Created(s1, b, now).0;
    assert s[|ts|] == s[..|s1|][|ts|] == s1[|ts|];
    assert s[|ts|].id == s[|ts| + 1].id;
  }
}
