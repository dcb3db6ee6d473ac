/** The state logic of the to-do list component: the task records, the
    component state, the three handlers that replace the task list (add,
    delete, toggle), the derived view that the list renders (completion
    filter, then case-insensitive search) and the decision taken when the
    stored list is read back at start-up. Every handler is a function from
    the old state to the new one, as each `useState` setter replaces a whole
    value. */
module TodoApp {
  import opened Seqs
  import opened JsString

  /** One to-do item. `id` is the creation time in milliseconds, supplied by
      the caller; nothing makes it unique. */
  datatype Task = Task(id: int, text: string, isCompleted: bool)

  /** The component state: the task list, the text of the entry box, the
      search query and the filter mode ("All", "Active", "Completed"; any
      other value shows everything). */
  datatype State = State(tasks: seq<Task>, input: string, query: string, filter: string)

  /** The state at first render: no tasks, empty entry box and query, and
      the mode "All", which hides no task. */
  function Initial(): (st: State)
    ensures st.tasks == [] && st.input == "" && st.query == ""
    ensures forall t :: PassesFilter(st.filter, t)
    ensures NoBlankText(st)
  {
    State([], "", "", "All")
  }

  /** No task in the list has a blank text. The add handler refuses blank
      entries, and deleting or toggling never changes a text, so the handlers
      keep this; a list read back at start-up is taken as stored and need not
      satisfy it. */
  predicate NoBlankText(st: State) {
    forall t :: t in st.tasks ==> !IsBlank(t.text)
  }

  // ---------------------------------------------------------------- add

  /** The Add button. A blank entry (nothing left after `trim`) changes
      nothing. Otherwise one task is appended at the end, with the id `now`,
      the entry text exactly as typed (not trimmed) and not completed, and
      the entry box is cleared. */
  function HandleTask(st: State, now: int): (r: State)
    ensures IsBlank(st.input) ==> r == st
    ensures !IsBlank(st.input) ==>
      && |r.tasks| == |st.tasks| + 1
      && r.tasks[..|st.tasks|] == st.tasks
      && r.tasks[|st.tasks|] == Task(now, st.input, false)
      && r.input == ""
      && r.query == st.query && r.filter == st.filter
  {
    if Trim(st.input) != "" then
      st.(tasks := st.tasks + [Task(now, st.input, false)], input := "")
    else
      st
  }

  /** Typing each of `entries` in turn and pressing Add after each one, the
      k-th press happening at time `ids[k]`. */
  function AddEach(st: State, entries: seq<string>, ids: seq<int>): State
    requires |entries| == |ids|
    decreases |entries|
  {
    if entries == [] then st
    else AddEach(HandleTask(st.(input := entries[0]), ids[0]), entries[1..], ids[1..])
  }

  /** The tasks a run of presses creates: the k-th entry under the k-th id,
      not completed. */
  function NewTasks(entries: seq<string>, ids: seq<int>): (r: seq<Task>)
    requires |entries| == |ids|
  {
    seq(|entries|, k requires 0 <= k < |entries| => Task(ids[k], entries[k], false))
  }

  /** The first press of a run whose first entry is not blank appends its
      task and clears the entry box before the rest of the run. */
  lemma AddEachFirst(st: State, entries: seq<string>, ids: seq<int>)
    requires |entries| == |ids| && entries != [] && !IsBlank(entries[0])
    ensures AddEach(st, entries, ids)
         == AddEach(st.(tasks := st.tasks + [Task(ids[0], entries[0], false)], input := ""), entries[1..], ids[1..])
  {
  }

  /** The tasks of a run are the first press's task, then those of the rest. */
  lemma NewTasksFirst(entries: seq<string>, ids: seq<int>)
    requires |entries| == |ids| && entries != []
    ensures NewTasks(entries, ids) == [Task(ids[0], entries[0], false)] + NewTasks(entries[1..], ids[1..])
  {
  }

  /** A run of non-blank entries appends one task per entry to the list, in
      the order they were added, each under the id of its own press; the
      tasks already there stay in front, unchanged. */
  lemma {:induction false} AddEachAppends(st: State, entries: seq<string>, ids: seq<int>)
    requires |entries| == |ids|
    requires forall k :: 0 <= k < |entries| ==> !IsBlank(entries[k])
    ensures AddEach(st, entries, ids).tasks == st.tasks + NewTasks(entries, ids)
    decreases |entries|
  {
    if entries != [] {
      var first := Task(ids[0], entries[0], false);
      var s1 := st.(tasks := st.tasks + [first], input := "");
      calc {
        AddEach(st, entries, ids).tasks;
        == { AddEachFirst(st, entries, ids); }
        AddEach(s1, entries[1..], ids[1..]).tasks;
        == { AddEachAppends(s1, entries[1..], ids[1..]); }
        (st.tasks + [first]) + NewTasks(entries[1..], ids[1..]);
        == { NewTasksFirst(entries, ids); }
        st.tasks + NewTasks(entries, ids);
      }
    }
  }

  // ------------------------------------------------------------- delete

  /** The test "this task has id `id`". */
  function HasId(id: int): Task -> bool {
    (t: Task) => t.id == id
  }

  /** The test `deleteTask` filters with: "this task's id is not `id`". */
  function LacksId(id: int): Task -> bool {
    (t: Task) => t.id != id
  }

  /** The Delete button: every task whose id is `id` goes, the others stay in
      their order. The result is a subsequence of the old list with no task
      of that id, one element shorter for each task that had it; no other
      subsequence has these three properties (DeleteUnique). */
  function DeleteTask(st: State, id: int): (r: State)
    ensures r.input == st.input && r.query == st.query && r.filter == st.filter
    ensures IsSubseq(r.tasks, st.tasks)
    ensures forall i :: 0 <= i < |r.tasks| ==> r.tasks[i].id != id
    ensures forall i :: 0 <= i < |st.tasks| && st.tasks[i].id != id ==> st.tasks[i] in r.tasks
    ensures |r.tasks| == |st.tasks| - Count(st.tasks, HasId(id))
  {
    CountComplement(st.tasks, HasId(id), LacksId(id));
    st.(tasks := Filter(st.tasks, LacksId(id)))
  }

  /** DeleteTask's contract determines its result: any subsequence of the
      list that has no task with id `id` and is one element shorter for each
      task that had it is the list the Delete button leaves. */
  lemma DeleteUnique(st: State, id: int, rest: seq<Task>)
    requires IsSubseq(rest, st.tasks)
    requires forall i :: 0 <= i < |rest| ==> rest[i].id != id
    requires |rest| == |st.tasks| - Count(st.tasks, HasId(id))
    ensures rest == DeleteTask(st, id).tasks
  {
    CountComplement(st.tasks, HasId(id), LacksId(id));
    FilterUnique(st.tasks, LacksId(id), rest);
  }

  /** Deleting an id no task has leaves the state as it was. */
  lemma DeleteAbsent(st: State, id: int)
    requires forall i :: 0 <= i < |st.tasks| ==> st.tasks[i].id != id
    ensures DeleteTask(st, id) == st
  {
    FilterAllKept(st.tasks, LacksId(id));
  }

  /** Deleting the same id twice is the same as deleting it once. */
  lemma DeleteIdempotent(st: State, id: int)
    ensures DeleteTask(DeleteTask(st, id), id) == DeleteTask(st, id)
  {
    FilterIdempotent(st.tasks, LacksId(id));
  }

  /** Adding a task under an id no task has yet, then deleting that id,
      gives back the old task list. */
  lemma DeleteUndoesAdd(st: State, now: int)
    requires forall i :: 0 <= i < |st.tasks| ==> st.tasks[i].id != now
    ensures DeleteTask(HandleTask(st, now), now).tasks == st.tasks
  {
    var keep := LacksId(now);
    if !IsBlank(st.input) {
      var added := HandleTask(st, now).tasks;
      assert added == st.tasks + [Task(now, st.input, false)];
      FilterAppend(st.tasks, [Task(now, st.input, false)], keep);
      FilterAllKept(st.tasks, keep);
      assert Filter([Task(now, st.input, false)], keep) == [];
    } else {
      FilterAllKept(st.tasks, keep);
    }
  }

  // ------------------------------------------------------------- toggle

  /** Clicking a task's text: every task whose id is `id` has its completion
      flag flipped; every other task, the length and the order stay. */
  function ToggleTaskCompletion(st: State, id: int): (r: State)
    ensures r.input == st.input && r.query == st.query && r.filter == st.filter
    ensures |r.tasks| == |st.tasks|
    ensures forall i :: 0 <= i < |st.tasks| && st.tasks[i].id != id ==> r.tasks[i] == st.tasks[i]
    ensures forall i :: 0 <= i < |st.tasks| && st.tasks[i].id == id ==>
      && r.tasks[i].id == id
      && r.tasks[i].text == st.tasks[i].text
      && r.tasks[i].isCompleted == !st.tasks[i].isCompleted
  {
    st.(tasks := Map(st.tasks, (t: Task) => if t.id == id then t.(isCompleted := !t.isCompleted) else t))
  }

  /** Toggling the same id twice gives back the state it started from. */
  lemma ToggleInvolution(st: State, id: int)
    ensures ToggleTaskCompletion(ToggleTaskCompletion(st, id), id) == st
  {
  }

  /** Toggling an id no task has leaves the state as it was. */
  lemma ToggleAbsent(st: State, id: int)
    requires forall i :: 0 <= i < |st.tasks| ==> st.tasks[i].id != id
    ensures ToggleTaskCompletion(st, id) == st
  {
  }

  /** Toggles of two ids commute. */
  lemma ToggleCommutes(st: State, id1: int, id2: int)
    ensures ToggleTaskCompletion(ToggleTaskCompletion(st, id1), id2)
         == ToggleTaskCompletion(ToggleTaskCompletion(st, id2), id1)
  {
  }

  /** A task that is toggled and then deleted is gone as if it had only been
      deleted. */
  lemma {:induction false} DeleteAfterToggle(st: State, id: int)
    ensures DeleteTask(ToggleTaskCompletion(st, id), id) == DeleteTask(st, id)
    decreases |st.tasks|
  {
    if st.tasks != [] {
      var rest := st.(tasks := st.tasks[1..]);
      DeleteAfterToggle(rest, id);
      var toggled := ToggleTaskCompletion(st, id).tasks;
      assert toggled[1..] == ToggleTaskCompletion(rest, id).tasks;
      assert toggled[0].id == st.tasks[0].id;
      if st.tasks[0].id != id {
        assert toggled[0] == st.tasks[0];
      }
    }
  }

  // --------------------------------------------------------------- view

  /** The completion filter: "Active" keeps open tasks, "Completed" keeps
      finished ones, "All" and every other mode keep everything. A task is
      hidden only by "Active" when it is done or by "Completed" when it is
      not. */
  predicate PassesFilter(filter: string, t: Task)
    ensures !PassesFilter(filter, t) <==>
      (filter == "Active" && t.isCompleted) || (filter == "Completed" && !t.isCompleted)
  {
    if filter == "All" then true
    else if filter == "Active" then !t.isCompleted
    else if filter == "Completed" then t.isCompleted
    else true
  }

  /** The search: the lowercased query occurs in the lowercased text. The
      empty query matches every task. */
  predicate MatchesSearch(query: string, t: Task)
    ensures MatchesSearch(query, t) <==> exists k :: OccursAt(ToLower(t.text), ToLower(query), k)
    ensures query == "" ==> MatchesSearch(query, t)
  {
    IncludesIff(ToLower(t.text), ToLower(query));
    Includes(ToLower(t.text), ToLower(query))
  }

  /** The first `.filter` of the view. */
  function ByMode(filter: string): Task -> bool {
    (t: Task) => PassesFilter(filter, t)
  }

  /** The second `.filter` of the view. */
  function BySearch(query: string): Task -> bool {
    (t: Task) => MatchesSearch(query, t)
  }

  /** The rendered list: the completion filter first, then the search. */
  function FilteredTasks(st: State): (r: seq<Task>)
    ensures IsSubseq(r, st.tasks)
    ensures |r| <= |st.tasks|
    ensures forall i :: 0 <= i < |r| ==> PassesFilter(st.filter, r[i]) && MatchesSearch(st.query, r[i])
    ensures forall i :: (0 <= i < |st.tasks| && PassesFilter(st.filter, st.tasks[i])
      && MatchesSearch(st.query, st.tasks[i])) ==> st.tasks[i] in r
  {
    var byMode := Filter(st.tasks, ByMode(st.filter));
    var r := Filter(byMode, BySearch(st.query));
    IsSubseqTrans(r, byMode, st.tasks);
    IsSubseqLength(r, st.tasks);
    IsSubseqMembers(r, byMode);
    forall i | 0 <= i < |r|
      ensures PassesFilter(st.filter, r[i])
    {
      var j :| 0 <= j < |byMode| && byMode[j] == r[i];
    }
    forall i | 0 <= i < |st.tasks| && PassesFilter(st.filter, st.tasks[i]) && MatchesSearch(st.query, st.tasks[i])
      ensures st.tasks[i] in r
    {
      var j :| 0 <= j < |byMode| && byMode[j] == st.tasks[i];
    }
    r
  }

  /** A task is shown exactly when it is in the list, passes the completion
      filter and its lowercased text has the lowercased query somewhere in
      it. */
  lemma VisibleIff(st: State, t: Task)
    ensures t in FilteredTasks(st) <==>
      && t in st.tasks
      && PassesFilter(st.filter, t)
      && exists k :: OccursAt(ToLower(t.text), ToLower(st.query), k)
  {
    IncludesIff(ToLower(t.text), ToLower(st.query));
    var r := FilteredTasks(st);
    if t in r {
      IsSubseqMembers(r, st.tasks);
    }
  }

  /** Both tests of the view at once. */
  function Shown(filter: string, query: string): Task -> bool {
    (t: Task) => PassesFilter(filter, t) && MatchesSearch(query, t)
  }

  /** The two filters in a row are one filter on both tests. */
  lemma ViewIsOneFilter(st: State)
    ensures FilteredTasks(st) == Filter(st.tasks, Shown(st.filter, st.query))
  {
    FilterFilter(st.tasks, ByMode(st.filter), BySearch(st.query), Shown(st.filter, st.query));
  }

  /** With an empty query the search keeps everything, so the view is the
      completion filter alone. */
  lemma ViewEmptyQuery(st: State)
    requires st.query == ""
    ensures FilteredTasks(st) == Filter(st.tasks, ByMode(st.filter))
  {
    var byMode := Filter(st.tasks, ByMode(st.filter));
    FilterAllKept(byMode, BySearch(st.query));
  }

  /** Empty query, "Active": exactly the tasks that are not completed. */
  lemma ViewActive(st: State)
    requires st.query == "" && st.filter == "Active"
    ensures FilteredTasks(st) == Filter(st.tasks, (t: Task) => !t.isCompleted)
  {
    ViewEmptyQuery(st);
    FilterCongruent(st.tasks, ByMode(st.filter), (t: Task) => !t.isCompleted);
  }

  /** Empty query, "Completed": exactly the tasks that are completed. */
  lemma ViewCompleted(st: State)
    requires st.query == "" && st.filter == "Completed"
    ensures FilteredTasks(st) == Filter(st.tasks, (t: Task) => t.isCompleted)
  {
    ViewEmptyQuery(st);
    FilterCongruent(st.tasks, ByMode(st.filter), (t: Task) => t.isCompleted);
  }

  /** Empty query, "All" or any mode other than "Active" and "Completed":
      the whole list in its order. */
  lemma ViewAll(st: State)
    requires st.query == "" && st.filter != "Active" && st.filter != "Completed"
    ensures FilteredTasks(st) == st.tasks
  {
    ViewEmptyQuery(st);
    FilterAllKept(st.tasks, ByMode(st.filter));
  }

  /** The search ignores ASCII case: two queries that lowercase to the same
      string show the same tasks. */
  lemma ViewCaseInsensitive(st: State, q1: string, q2: string)
    requires ToLower(q1) == ToLower(q2)
    ensures FilteredTasks(st.(query := q1)) == FilteredTasks(st.(query := q2))
  {
    FilterCongruent(Filter(st.tasks, ByMode(st.filter)), BySearch(q1), BySearch(q2));
  }

  /** Lowercasing the query before searching changes nothing. */
  lemma ViewLowercasedQuery(st: State)
    ensures FilteredTasks(st.(query := ToLower(st.query))) == FilteredTasks(st)
  {
    ToLowerIdempotent(st.query);
    ViewCaseInsensitive(st, ToLower(st.query), st.query);
  }

  // ---------------------------------------------------------- invariant

  /** Adding keeps every task text non-blank. */
  lemma AddKeepsTextNonBlank(st: State, now: int)
    requires NoBlankText(st)
    ensures NoBlankText(HandleTask(st, now))
  {
    if !IsBlank(st.input) {
      var added := HandleTask(st, now).tasks;
      assert added == st.tasks + [Task(now, st.input, false)];
    }
  }

  /** Deleting keeps every task text non-blank. */
  lemma DeleteKeepsTextNonBlank(st: State, id: int)
    requires NoBlankText(st)
    ensures NoBlankText(DeleteTask(st, id))
  {
    var deleted := DeleteTask(st, id).tasks;
    IsSubseqMembers(deleted, st.tasks);
    forall t | t in deleted
      ensures !IsBlank(t.text)
    {
      var i :| 0 <= i < |deleted| && deleted[i] == t;
    }
  }

  /** Toggling keeps every task text non-blank. */
  lemma ToggleKeepsTextNonBlank(st: State, id: int)
    requires NoBlankText(st)
    ensures NoBlankText(ToggleTaskCompletion(st, id))
  {
    var toggled := ToggleTaskCompletion(st, id).tasks;
    forall t | t in toggled
      ensures !IsBlank(t.text)
    {
      var i :| 0 <= i < |toggled| && toggled[i] == t;
      assert st.tasks[i] in st.tasks;
    }
  }

  /** Adding, deleting and toggling all keep every task text non-blank. */
  lemma HandlersKeepTextNonBlank(st: State, now: int, id: int)
    requires NoBlankText(st)
    ensures NoBlankText(HandleTask(st, now))
    ensures NoBlankText(DeleteTask(st, id))
    ensures NoBlankText(ToggleTaskCompletion(st, id))
  {
    AddKeepsTextNonBlank(st, now);
    DeleteKeepsTextNonBlank(st, id);
    ToggleKeepsTextNonBlank(st, id);
  }

  // ---------------------------------------------------------- hydration

  /** What parsing the stored value gave: an array of task records, some
      other value (a number, an object, null when nothing was stored), or a
      parse error. */
  datatype Parsed = JsArray(items: seq<Task>) | JsNonArray | ParseError

  /** The start-up effect: the parsed value replaces the task list only when
      it is an array; otherwise the list is left as it is. */
  function Hydrate(st: State, stored: Parsed): (r: State)
    ensures r.input == st.input && r.query == st.query && r.filter == st.filter
    ensures stored.JsArray? ==> r.tasks == stored.items
    ensures !stored.JsArray? ==> r == st
  {
    if stored.JsArray? then st.(tasks := stored.items) else st
  }

  /** At start-up the list is non-empty exactly when the stored value is a
      non-empty array, and then it is that array. */
  lemma HydrateAtStartup(stored: Parsed)
    ensures Hydrate(Initial(), stored).tasks != [] <==> stored.JsArray? && stored.items != []
    ensures stored.JsArray? ==> Hydrate(Initial(), stored).tasks == stored.items
  {
  }

  // ----------------------------------------------------------- scenario

  /** The state after start-up with nothing stored, adding "Write report"
      under `id1`, adding "Call dentist" under `id2` and clicking the second. */
  function ScenarioState(id1: int, id2: int): State {
    var s1 := HandleTask(Initial().(input := "Write report"), id1);
    var s2 := HandleTask(s1.(input := "Call dentist"), id2);
    ToggleTaskCompletion(s2, id2)
  }

  lemma ScenarioTasks(id1: int, id2: int)
    requires id1 != id2
    ensures ScenarioState(id1, id2)
         == State([Task(id1, "Write report", false), Task(id2, "Call dentist", true)], "", "", "All")
  {
    var s0 := Initial().(input := "Write report");
    assert !IsWhitespace(s0.input[0]);
    var s1 := HandleTask(s0, id1);
    var s1' := s1.(input := "Call dentist");
    assert !IsWhitespace(s1'.input[0]);
    var s2 := HandleTask(s1', id2);
    assert s2.tasks == [Task(id1, "Write report", false), Task(id2, "Call dentist", false)];
  }

  /** The search "REPORT" finds "Write report" and not "Call dentist". */
  lemma ScenarioSearchMatches(id1: int, id2: int)
    ensures MatchesSearch("REPORT", Task(id1, "Write report", false))
    ensures !MatchesSearch("REPORT", Task(id2, "Call dentist", true))
  {
    assert ToLower("REPORT") == "report" by {
      assert LowerChar('R') == 'r' && LowerChar('E') == 'e' && LowerChar('P') == 'p';
      assert LowerChar('O') == 'o' && LowerChar('T') == 't';
    }
    var hit, miss := ToLower("Write report"), ToLower("Call dentist");
    assert hit[6..12] == "report";
    assert OccursAt(hit, "report", 6);
    forall k
      ensures !OccursAt(miss, "report", k)
    {
      if 0 <= k && k + 6 <= |miss| {
        assert miss[k..k + 6][0] == miss[k] != 'r';
      }
    }
    IncludesIff(hit, "report");
    IncludesIff(miss, "report");
  }

  /** Start empty, add "Write report", add "Call dentist", mark the second
      done: "Completed" shows only the second, "Active" only the first, and
      the search "REPORT" under "All" only the first. */
  lemma Scenario(id1: int, id2: int)
    requires id1 != id2
    ensures FilteredTasks(ScenarioState(id1, id2).(filter := "Completed")) == [Task(id2, "Call dentist", true)]
    ensures FilteredTasks(ScenarioState(id1, id2).(filter := "Active")) == [Task(id1, "Write report", false)]
    ensures FilteredTasks(ScenarioState(id1, id2).(query := "REPORT")) == [Task(id1, "Write report", false)]
  {
    ScenarioTasks(id1, id2);
    var s3 := ScenarioState(id1, id2);
    var t1, t2 := Task(id1, "Write report", false), Task(id2, "Call dentist", true);
    assert s3.tasks == [t1, t2];
    ViewCompleted(s3.(filter := "Completed"));
    assert Filter([t1, t2], (t: Task) => t.isCompleted) == [t2];
    ViewActive(s3.(filter := "Active"));
    assert Filter([t1, t2], (t: Task) => !t.isCompleted) == [t1];
    ViewIsOneFilter(s3.(query := "REPORT"));
    ScenarioSearchMatches(id1, id2);
    assert Filter([t1, t2], Shown("All", "REPORT")) == [t1];
  }
}
