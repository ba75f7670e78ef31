/** The listing query of the task store: a search predicate, a mode
    predicate and the four-key ORDER BY, over a snapshot of the rows. */
module TaskQuery {
  import opened Text
  import opened Models

  /** One day in seconds (`timedelta(days=1)`). */
  const Day := 86400

  /** The search text, trimmed, occurs in the title or in the description;
      an empty (or blank) search keeps everything. */
  predicate MatchesSearch(t: Task, searchText: string) {
    var s := Strip(searchText);
    s == [] || Contains(t.title, s) || Contains(t.description, s)
  }

  /** The task has a due date in the half-open window `[start, start + days)`. */
  predicate DueWithin(t: Task, start: int, days: int) {
    t.due.Some? && start <= t.due.value < start + days * Day
  }

  /** The filter mode; `startOfToday` is local midnight of the current day.
      An unknown mode (including "all") filters nothing. */
  predicate MatchesMode(t: Task, mode: string, startOfToday: int) {
    if mode == "today" then DueWithin(t, startOfToday, 1)
    else if mode == "week" then DueWithin(t, startOfToday, 7)
    else if mode == "done" then t.isDone
    else if mode == "undone" then !t.isDone
    else true
  }

  predicate Selected(t: Task, searchText: string, mode: string, startOfToday: int) {
    MatchesSearch(t, searchText) && MatchesMode(t, mode, startOfToday)
  }

  /** The WHERE clause: the selected rows, in their original order. */
  function Select(rows: seq<Task>, searchText: string, mode: string, startOfToday: int): (r: seq<Task>)
    ensures multiset(r) <= multiset(rows)
    ensures forall t :: t in r <==> t in rows && Selected(t, searchText, mode, startOfToday)
    ensures forall t :: multiset(r)[t] == if Selected(t, searchText, mode, startOfToday) then multiset(rows)[t] else 0
  {
    if rows == [] then []
    else
      var rest := Select(rows[1..], searchText, mode, startOfToday);
      assert rows == [rows[0]] + rows[1..];
      if Selected(rows[0], searchText, mode, startOfToday) then [rows[0]] + rest else rest
  }

  /** `ORDER BY is_done ASC, (due_at IS NULL) ASC, due_at ASC, created_at DESC`:
      whether `a` may be listed before `b`. */
  predicate Precedes(a: Task, b: Task) {
    if a.isDone != b.isDone then !a.isDone
    else if a.due.Some? != b.due.Some? then a.due.Some?
    else if a.due.Some? && a.due.value != b.due.value then a.due.value < b.due.value
    else a.createdAt >= b.createdAt
  }

  /** The order is total and transitive, so sorting by it is meaningful. */
  lemma PrecedesIsTotalPreorder()
    ensures forall a, b :: Precedes(a, b) || Precedes(b, a)
    ensures forall a, b, c :: Precedes(a, b) && Precedes(b, c) ==> Precedes(a, c)
  {
  }

  predicate Sorted(s: seq<Task>) {
    forall i, j | 0 <= i < j < |s| :: Precedes(s[i], s[j])
  }

  /** Inserts `x` into a sorted list before the first element it precedes. */
  function Insert(x: Task, s: seq<Task>): (r: seq<Task>)
    requires Sorted(s)
    ensures Sorted(r)
    ensures multiset(r) == multiset(s) + multiset{x}
  {
    if s == [] then [x]
    else if Precedes(x, s[0]) then
      InsertFront(x, s);
      [x] + s
    else
      var rest := Insert(x, s[1..]);
      InsertBehind(x, s, rest);
      [s[0]] + rest
  }

  lemma InsertFront(x: Task, s: seq<Task>)
    requires Sorted(s) && s != [] && Precedes(x, s[0])
    ensures Sorted([x] + s)
  {
    PrecedesIsTotalPreorder();
    var r := [x] + s;
    forall i, j | 0 <= i < j < |r| ensures Precedes(r[i], r[j]) {
      if i == 0 {
        assert r[j] == s[j - 1];
      } else {
        assert r[i] == s[i - 1] && r[j] == s[j - 1];
      }
    }
  }

  lemma InsertBehind(x: Task, s: seq<Task>, rest: seq<Task>)
    requires Sorted(s) && s != [] && !Precedes(x, s[0])
    requires Sorted(rest) && multiset(rest) == multiset(s[1..]) + multiset{x}
    ensures Sorted([s[0]] + rest)
    ensures multiset([s[0]] + rest) == multiset(s) + multiset{x}
  {
    PrecedesIsTotalPreorder();
    assert s == [s[0]] + s[1..];
    var r := [s[0]] + rest;
    forall j | 0 <= j < |rest| ensures Precedes(s[0], rest[j]) {
      assert rest[j] in multiset(rest);
      if rest[j] != x {
        assert rest[j] in multiset(s[1..]);
        var k :| 0 <= k < |s[1..]| && s[1..][k] == rest[j];
        assert s[k + 1] == rest[j];
      }
    }
    forall i, j | 0 <= i < j < |r| ensures Precedes(r[i], r[j]) {
      assert r[j] == rest[j - 1];
      if i > 0 {
        assert r[i] == rest[i - 1];
      }
    }
  }

  /** Insertion sort by `Precedes`. */
  function Sort(s: seq<Task>): (r: seq<Task>)
    ensures Sorted(r)
    ensures multiset(r) == multiset(s)
  {
    if s == [] then []
    else
      assert s == [s[0]] + s[1..];
      Insert(s[0], Sort(s[1..]))
  }

  /** `list_tasks(search_text, filter_mode)` over a snapshot of the rows: the
      selected rows, each exactly as often as it is stored, in listing order. */
  function ListTasks(rows: seq<Task>, searchText: string, mode: string, startOfToday: int): (r: seq<Task>)
    ensures Sorted(r)
    ensures multiset(r) == multiset(Select(rows, searchText, mode, startOfToday))
    ensures forall t :: t in r <==> t in rows && Selected(t, searchText, mode, startOfToday)
    ensures forall t :: multiset(r)[t] == if Selected(t, searchText, mode, startOfToday) then multiset(rows)[t] else 0
  {
    var sel := Select(rows, searchText, mode, startOfToday);
    var r := Sort(sel);
    assert forall t :: t in r <==> t in multiset(r);
    assert forall t :: t in sel <==> t in multiset(sel);
    r
  }

  /** The four keys of the ordering, read off a sorted listing one by one. */
  lemma SortedKeys(r: seq<Task>, i: int, j: int)
    requires Sorted(r) && 0 <= i < j < |r|
    ensures r[i].isDone ==> r[j].isDone
    ensures r[i].isDone == r[j].isDone && r[j].due.Some? ==> r[i].due.Some?
    ensures r[i].isDone == r[j].isDone && r[i].due.Some? && r[j].due.Some? ==> r[i].due.value <= r[j].due.value
    ensures r[i].isDone == r[j].isDone && r[i].due == r[j].due ==> r[i].createdAt >= r[j].createdAt
  {
    assert Precedes(r[i], r[j]);
  }

  predicate DistinctIds(s: seq<Task>) {
    forall i, j | 0 <= i < j < |s| :: s[i].id != s[j].id
  }

  lemma {:induction false} DistinctIdsOccurOnce(s: seq<Task>, t: Task)
    requires DistinctIds(s)
    ensures multiset(s)[t] <= 1
  {
    if s != [] {
      assert s == [s[0]] + s[1..];
      DistinctIdsOccurOnce(s[1..], t);
      if s[0] == t {
        assert t !in s[1..] by {
          forall k | 0 <= k < |s[1..]| ensures s[1..][k] != t {
            assert s[1..][k] == s[k + 1];
          }
        }
      }
    }
  }

  lemma RepeatedOccursTwice(s: seq<Task>, i: int, j: int)
    requires 0 <= i < j < |s| && s[i] == s[j]
    ensures multiset(s)[s[i]] >= 2
  {
    assert s == s[..i] + [s[i]] + s[i + 1..j] + [s[j]] + s[j + 1..];
  }

  /** Rows with distinct ids (primary keys) are listed without duplicates. */
  lemma ListDistinct(rows: seq<Task>, searchText: string, mode: string, startOfToday: int)
    requires DistinctIds(rows)
    ensures DistinctIds(ListTasks(rows, searchText, mode, startOfToday))
  {
    var r := ListTasks(rows, searchText, mode, startOfToday);
    forall i, j | 0 <= i < j < |r| ensures r[i].id != r[j].id {
      if r[i].id == r[j].id {
        assert r[i] in rows && r[j] in rows;
        var p :| 0 <= p < |rows| && rows[p] == r[i];
        var q :| 0 <= q < |rows| && rows[q] == r[j];
        assert p == q;
        RepeatedOccursTwice(r, i, j);
        DistinctIdsOccurOnce(rows, r[i]);
        assert false;
      }
    }
  }

  /** With an empty search and mode "all", every row is listed. */
  lemma ListAllIsPermutation(rows: seq<Task>, startOfToday: int)
    ensures multiset(ListTasks(rows, "", "all", startOfToday)) == multiset(rows)
  {
    SelectAll(rows, startOfToday);
  }

  lemma {:induction false} SelectAll(rows: seq<Task>, startOfToday: int)
    ensures Select(rows, "", "all", startOfToday) == rows
  {
    if rows != [] {
      SelectAll(rows[1..], startOfToday);
      assert Selected(rows[0], "", "all", startOfToday);
      assert rows == [rows[0]] + rows[1..];
    }
  }

  /** The "today" window includes 23:59:59 and excludes the next midnight. */
  lemma TodayBounds(t: Task, startOfToday: int)
    requires t.due.Some?
    ensures t.due.value == startOfToday + Day - 1 ==> MatchesMode(t, "today", startOfToday)
    ensures t.due.value == startOfToday + Day ==> !MatchesMode(t, "today", startOfToday)
    ensures t.due.value == startOfToday - 1 ==> !MatchesMode(t, "week", startOfToday)
  {
  }

  /** Sorting two rows already in order keeps them. */
  lemma SortTwo(b: Task, c: Task)
    requires Precedes(b, c)
    ensures Sort([b, c]) == [b, c]
  {
    assert [b, c][1..] == [c];
    assert [c][1..] == [];
    assert Sort([c]) == [c];
  }

  /** Inserting a row that precedes neither row of a sorted pair puts it last. */
  lemma InsertLast(a: Task, b: Task, c: Task)
    requires Precedes(b, c) && !Precedes(a, b) && !Precedes(a, c)
    ensures Insert(a, [b, c]) == [b, c, a]
  {
    assert [b, c][1..] == [c];
    assert [c][1..] == [];
    assert Insert(a, [c]) == [c, a];
  }

  /** Sorting three rows where `b` precedes `c` and `a` precedes neither lists `a` last. */
  lemma SortThree(a: Task, b: Task, c: Task)
    requires Precedes(b, c) && !Precedes(a, b) && !Precedes(a, c)
    ensures Sort([a, b, c]) == [b, c, a]
  {
    assert [a, b, c][1..] == [b, c];
    SortTwo(b, c);
    InsertLast(a, b, c);
  }

  /** A worked listing: a done undated task A, an undone task B due tomorrow,
      and an undone undated task C created after B list as B, C, A. */
  lemma ExampleOrder(start: int)
    ensures var a := Task(1, "A", "", None, true, 10, 10);
            var b := Task(2, "B", "", Some(start + Day), false, 20, 20);
            var c := Task(3, "C", "", None, false, 30, 30);
            ListTasks([a, b, c], "", "all", start) == [b, c, a]
  {
    var a := Task(1, "A", "", None, true, 10, 10);
    var b := Task(2, "B", "", Some(start + Day), false, 20, 20);
    var c := Task(3, "C", "", None, false, 30, 30);
    SelectAll([a, b, c], start);
    SortThree(a, b, c);
  }
}
