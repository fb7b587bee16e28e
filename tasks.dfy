/**
 * The task store of `TaskManager` (scripts/app.js): an ordered list of tasks
 * and a current filter, the four user actions that change them, the derived
 * filtered view and statistics, and saving to / loading from local storage.
 *
 * The wall clock is a parameter: `Date.now()` becomes the `now` argument that
 * becomes the new task's id, and `new Date().toLocaleString()` the opaque
 * `createdAt` string. Rendering is left to the view; the store's state is
 * what the rendered page shows.
 */
module Tasks {
  import opened Wrappers
  import opened Text
  import opened Lists
  import opened Persistence

  datatype Task = Task(id: int, text: string, completed: bool, createdAt: string)

  /** The local-storage key the task list is saved under. */
  const TasksKey := "tasks"

  /** The filter values the view's buttons carry; any other value shows every task. */
  const AllFilter := "all"
  const ActiveFilter := "active"
  const CompletedFilter := "completed"

  predicate IsActive(t: Task) { !t.completed }

  predicate IsCompleted(t: Task) { t.completed }

  /** The test `handleDeleteTask` filters with: keep every task whose id is not `id`. */
  function OtherThan(id: int): Task -> bool
  {
    (t: Task) => t.id != id
  }

  /** No two tasks share an id. The code does not enforce this: ids are clock readings. */
  predicate UniqueIds(tasks: seq<Task>)
  {
    forall i, j :: 0 <= i < j < |tasks| ==> tasks[i].id != tasks[j].id
  }

  predicate HasId(tasks: seq<Task>, id: int)
  {
    exists k :: 0 <= k < |tasks| && tasks[k].id == id
  }

  /** Every text is non-empty and has no white space at either end, as `handleAddTask` makes it. */
  predicate TextsWellFormed(tasks: seq<Task>)
  {
    forall k :: 0 <= k < |tasks| ==> tasks[k].text != [] && IsTrimmed(tasks[k].text)
  }

  // ---------------------------------------------------------------------
  // The actions, as functions of the old list
  // ---------------------------------------------------------------------

  /**
   * `handleAddTask`: a blank input changes nothing; otherwise one new, not yet
   * completed task with the trimmed text goes at the end, after the old list.
   */
  function Added(tasks: seq<Task>, input: string, now: int, createdAt: string): (r: seq<Task>)
    ensures IsBlank(input) ==> r == tasks
    ensures !IsBlank(input) ==> |r| == |tasks| + 1 && r[..|tasks|] == tasks
    ensures !IsBlank(input) ==>
              && r[|tasks|].id == now && r[|tasks|].text == Trim(input)
              && !r[|tasks|].completed && r[|tasks|].createdAt == createdAt
  {
    var text := Trim(input);
    if text == [] then tasks
    else
      var r := tasks + [Task(now, text, false, createdAt)];
      assert r[..|tasks|] == tasks;
      r
  }

  /** `handleDeleteTask`: keep the tasks whose id differs, in their order. */
  function Deleted(tasks: seq<Task>, id: int): (r: seq<Task>)
    ensures |r| <= |tasks|
    ensures forall t :: t in r <==> t in tasks && t.id != id
  {
    FilterKeeps(tasks, OtherThan(id));
    Filter(tasks, OtherThan(id))
  }

  /** `tasks.find(t => t.id === id)`, as a position: the first task with that id, if any. */
  function IndexOfId(tasks: seq<Task>, id: int): (r: Option<nat>)
    ensures r.None? <==> !HasId(tasks, id)
    ensures r.Some? ==> r.value < |tasks| && tasks[r.value].id == id
    ensures r.Some? ==> forall k :: 0 <= k < r.value ==> tasks[k].id != id
  {
    if tasks == [] then None
    else if tasks[0].id == id then Some(0)
    else
      match IndexOfId(tasks[1..], id)
      case None => None
      case Some(i) => Some(i + 1)
  }

  /** `handleCompleteTask`: flip `completed` on the first task with that id, if there is one. */
  function Toggled(tasks: seq<Task>, id: int): (r: seq<Task>)
    ensures |r| == |tasks|
    ensures forall k :: 0 <= k < |tasks| ==>
              && r[k].id == tasks[k].id
              && r[k].text == tasks[k].text
              && r[k].createdAt == tasks[k].createdAt
  {
    match IndexOfId(tasks, id)
    case None => tasks
    case Some(i) => tasks[i := tasks[i].(completed := !tasks[i].completed)]
  }

  // ---------------------------------------------------------------------
  // Derived views
  // ---------------------------------------------------------------------

  /** `getFilteredTasks`: the tasks the current filter lets through. */
  function FilteredTasks(tasks: seq<Task>, filter: string): (r: seq<Task>)
    ensures |r| <= |tasks|
    ensures filter == ActiveFilter ==> forall t :: t in r <==> t in tasks && !t.completed
    ensures filter == CompletedFilter ==> forall t :: t in r <==> t in tasks && t.completed
    ensures filter != ActiveFilter && filter != CompletedFilter ==> r == tasks
  {
    FilterKeeps(tasks, IsActive);
    FilterKeeps(tasks, IsCompleted);
    if filter == ActiveFilter then Filter(tasks, IsActive)
    else if filter == CompletedFilter then Filter(tasks, IsCompleted)
    else tasks
  }

  /** The counters `updateStats` shows. */
  datatype Stats = Stats(total: int, completed: int, remaining: int)

  /**
   * `updateStats`: counts over the whole list, whatever the filter. What is
   * not completed is exactly what the "active" view shows.
   */
  function StatsOf(tasks: seq<Task>): (r: Stats)
    ensures r.total == |tasks|
    ensures 0 <= r.completed <= r.total && r.completed + r.remaining == r.total
    ensures r.completed == |FilteredTasks(tasks, CompletedFilter)|
    ensures r.remaining == |FilteredTasks(tasks, ActiveFilter)|
  {
    var total := |tasks|;
    var completed := |Filter(tasks, IsCompleted)|;
    FilterComplement(tasks, IsCompleted, IsActive);
    Stats(total, completed, total - completed)
  }

  /** `loadTasks`: the list saved under the tasks key, or the empty list when nothing is. */
  function Loaded(items: map<string, seq<Task>>): (r: seq<Task>)
    ensures TasksKey !in items ==> r == []
    ensures TasksKey in items ==> r == items[TasksKey]
  {
    if TasksKey in items then items[TasksKey] else []
  }

  // ---------------------------------------------------------------------
  // Properties of the actions
  // ---------------------------------------------------------------------

  /** Deleting an id no task has leaves the list equal to what it was. */
  lemma DeleteAbsentIsNoop(tasks: seq<Task>, id: int)
    requires !HasId(tasks, id)
    ensures Deleted(tasks, id) == tasks
  {
    FilterKeepsAll(tasks, OtherThan(id));
  }

  /**
   * Delete keeps, in their original order, exactly the tasks at the positions
   * whose id differs from `id`.
   */
  lemma DeleteKeepsOrder(tasks: seq<Task>, id: int)
    ensures var r, idx := Deleted(tasks, id), Selected(tasks, OtherThan(id));
            && StrictlyIncreasing(idx)
            && (forall i :: 0 <= i < |tasks| ==> (i in idx <==> tasks[i].id != id))
            && |r| == |idx|
            && (forall k :: 0 <= k < |r| ==> idx[k] < |tasks| && r[k] == tasks[idx[k]])
  {
    FilterPicksSelected(tasks, OtherThan(id));
  }

  /** With unique ids, deleting a present id cuts out that one task and nothing else. */
  lemma DeleteRemovesOne(tasks: seq<Task>, id: int, i: nat)
    requires UniqueIds(tasks)
    requires i < |tasks| && tasks[i].id == id
    ensures Deleted(tasks, id) == tasks[..i] + tasks[i + 1..]
  {
    forall k | 0 <= k < |tasks| && k != i ensures OtherThan(id)(tasks[k]) {
      assert tasks[k].id != tasks[i].id;
    }
    FilterDropsOne(tasks, OtherThan(id), i);
  }

  /** Deleting never makes two tasks share an id. */
  lemma DeletePreservesUniqueIds(tasks: seq<Task>, id: int)
    requires UniqueIds(tasks)
    ensures UniqueIds(Deleted(tasks, id))
  {
    DeleteKeepsOrder(tasks, id);
  }

  /** Toggling flips the first task with that id and leaves every other task as it was. */
  lemma ToggleFlipsFirstMatch(tasks: seq<Task>, id: int, i: nat)
    requires i < |tasks| && tasks[i].id == id
    requires forall k :: 0 <= k < i ==> tasks[k].id != id
    ensures Toggled(tasks, id)[i] == tasks[i].(completed := !tasks[i].completed)
    ensures forall k :: 0 <= k < |tasks| && k != i ==> Toggled(tasks, id)[k] == tasks[k]
  {
    var j := IndexOfId(tasks, id).value;
    assert !(j < i) && !(i < j);
  }

  /** Toggling an id no task has changes nothing. */
  lemma ToggleAbsentIsNoop(tasks: seq<Task>, id: int)
    requires !HasId(tasks, id)
    ensures Toggled(tasks, id) == tasks
  {
  }

  /** `IndexOfId` looks only at the ids: two lists with the same ids position by position agree on it. */
  lemma IndexOfIdByIds(a: seq<Task>, b: seq<Task>, id: int)
    requires |a| == |b|
    requires forall k :: 0 <= k < |a| ==> a[k].id == b[k].id
    ensures IndexOfId(a, id) == IndexOfId(b, id)
  {
  }

  /** A toggle does not move the first task of any id. */
  lemma IndexOfIdAfterToggle(tasks: seq<Task>, id: int, other: int)
    ensures IndexOfId(Toggled(tasks, other), id) == IndexOfId(tasks, id)
  {
    IndexOfIdByIds(Toggled(tasks, other), tasks, id);
  }

  /** Toggling the same id twice restores the list. */
  lemma ToggleTwice(tasks: seq<Task>, id: int)
    ensures Toggled(Toggled(tasks, id), id) == tasks
  {
    IndexOfIdAfterToggle(tasks, id, id);
  }

  /** Adding keeps the ids unique when the new id is not in use. */
  lemma AddPreservesUniqueIds(tasks: seq<Task>, input: string, now: int, createdAt: string)
    requires UniqueIds(tasks) && !HasId(tasks, now)
    ensures UniqueIds(Added(tasks, input, now, createdAt))
  {
    var r := Added(tasks, input, now, createdAt);
    if !IsBlank(input) {
      forall i, j | 0 <= i < j < |r| ensures r[i].id != r[j].id {
        assert r[i] == tasks[i];
        if j < |tasks| { assert r[j] == tasks[j]; }
      }
    }
  }

  /**
   * For a real add, the ids stay unique exactly when they were unique and
   * the clock-derived id was not already in use.
   */
  lemma AddUniqueIdsIff(tasks: seq<Task>, input: string, now: int, createdAt: string)
    requires !IsBlank(input)
    ensures UniqueIds(Added(tasks, input, now, createdAt)) <==> UniqueIds(tasks) && !HasId(tasks, now)
  {
    var r := Added(tasks, input, now, createdAt);
    if UniqueIds(tasks) && !HasId(tasks, now) {
      AddPreservesUniqueIds(tasks, input, now, createdAt);
    } else if HasId(tasks, now) {
      var k :| 0 <= k < |tasks| && tasks[k].id == now;
      assert r[k] == tasks[k] && r[|tasks|].id == now;
    } else {
      var i, j :| 0 <= i < j < |tasks| && tasks[i].id == tasks[j].id;
      assert r[i] == tasks[i] && r[j] == tasks[j];
    }
  }

  /** Adding keeps every text non-empty and trimmed. */
  lemma AddKeepsTexts(tasks: seq<Task>, input: string, now: int, createdAt: string)
    requires TextsWellFormed(tasks)
    ensures TextsWellFormed(Added(tasks, input, now, createdAt))
  {
    var added := Added(tasks, input, now, createdAt);
    if !IsBlank(input) {
      forall k | 0 <= k < |added| ensures added[k].text != [] && IsTrimmed(added[k].text) {
        if k < |tasks| { assert added[k] == added[..|tasks|][k]; }
      }
    }
  }

  /** Deleting and toggling keep every text non-empty and trimmed. */
  lemma DeleteAndToggleKeepTexts(tasks: seq<Task>, id: int)
    requires TextsWellFormed(tasks)
    ensures TextsWellFormed(Deleted(tasks, id))
    ensures TextsWellFormed(Toggled(tasks, id))
  {
    var r := Deleted(tasks, id);
    forall k | 0 <= k < |r| ensures r[k].text != [] && IsTrimmed(r[k].text) {
      assert r[k] in tasks;
    }
  }

  /**
   * Two adds in the same clock millisecond give two tasks one id; deleting
   * that id then removes both, while toggling it reaches only the first.
   */
  lemma SameInstantAddsShareId(tasks: seq<Task>, a: string, b: string, now: int, at1: string, at2: string)
    requires !IsBlank(a) && !IsBlank(b) && !HasId(tasks, now)
    ensures var r := Added(Added(tasks, a, now, at1), b, now, at2);
            && |r| == |tasks| + 2
            && !UniqueIds(r)
            && Deleted(r, now) == tasks
            && Toggled(r, now)[|tasks|].completed
            && !Toggled(r, now)[|tasks| + 1].completed
  {
    var r := Added(Added(tasks, a, now, at1), b, now, at2);
    assert r == tasks + [r[|tasks|], r[|tasks| + 1]];
    FilterAppend(tasks, [r[|tasks|], r[|tasks| + 1]], OtherThan(now));
    DeleteAbsentIsNoop(tasks, now);
    assert Filter([r[|tasks|], r[|tasks| + 1]], OtherThan(now)) == [];
    ToggleFlipsFirstMatch(r, now, |tasks|);
  }

  // ---------------------------------------------------------------------
  // Properties of the views
  // ---------------------------------------------------------------------

  /**
   * The "active" and "completed" views list, in their original order, exactly
   * the tasks at the positions that match the filter.
   */
  lemma FilteredKeepsOrder(tasks: seq<Task>, filter: string)
    requires filter == ActiveFilter || filter == CompletedFilter
    ensures var p := if filter == ActiveFilter then IsActive else IsCompleted;
            var r, idx := FilteredTasks(tasks, filter), Selected(tasks, p);
            && StrictlyIncreasing(idx)
            && (forall i :: 0 <= i < |tasks| ==> (i in idx <==> (tasks[i].completed <==> filter == CompletedFilter)))
            && |r| == |idx|
            && (forall k :: 0 <= k < |r| ==> idx[k] < |tasks| && r[k] == tasks[idx[k]])
  {
    if filter == ActiveFilter {
      FilterPicksSelected(tasks, IsActive);
    } else {
      FilterPicksSelected(tasks, IsCompleted);
    }
  }

  /** Adding a task leaves the completed count alone and adds one to the remaining count. */
  lemma AddCountsAsRemaining(tasks: seq<Task>, input: string, now: int, createdAt: string)
    requires !IsBlank(input)
    ensures var before, after := StatsOf(tasks), StatsOf(Added(tasks, input, now, createdAt));
            after == Stats(before.total + 1, before.completed, before.remaining + 1)
  {
    var r := Added(tasks, input, now, createdAt);
    assert r == tasks + [r[|tasks|]];
    FilterAppend(tasks, [r[|tasks|]], IsCompleted);
  }

  /**
   * Adding a task to an empty list and then completing it: one task, first
   * remaining and then completed, shown by the "completed" view and no longer
   * by the "active" one.
   */
  lemma AddThenComplete(input: string, now: int, createdAt: string)
    requires !IsBlank(input)
    ensures var added := Added([], input, now, createdAt);
            var done := Toggled(added, now);
            && StatsOf(added) == Stats(1, 0, 1)
            && StatsOf(done) == Stats(1, 1, 0)
            && FilteredTasks(done, ActiveFilter) == []
            && FilteredTasks(done, CompletedFilter) == done
  {
    var added := Added([], input, now, createdAt);
    var done := Toggled(added, now);
    ToggleFlipsFirstMatch(added, now, 0);
    assert Filter(added, IsCompleted) == [];
    assert done[0].completed;
    assert Filter(done, IsCompleted) == done by {
      FilterKeepsAll(done, IsCompleted);
    }
  }

  // ---------------------------------------------------------------------
  // The controller
  // ---------------------------------------------------------------------

  /** `TaskManager`: the list and the filter, saved to `storage` after every change of the list. */
  class TaskManager {
    var tasks: seq<Task>
    var currentFilter: string
    const storage: Storage<seq<Task>>

    /** The saved copy is the list in memory: a reload would show exactly `tasks`. */
    ghost predicate Persisted()
      reads this, storage
    {
      Loaded(storage.items) == tasks
    }

    /** A fresh page: the filter is "all" and the list is whatever was saved. */
    constructor (storage: Storage<seq<Task>>)
      ensures this.storage == storage
      ensures tasks == Loaded(storage.items) && currentFilter == AllFilter
      ensures Persisted()
    {
      this.storage := storage;
      tasks := [];
      currentFilter := AllFilter;
      new;
      LoadTasks();
    }

    /** `saveTasks`: the list is written under the tasks key, so loading it back gives the same list. */
    method SaveTasks()
      modifies storage
      ensures storage.items == old(storage.items)[TasksKey := tasks]
      ensures Loaded(storage.items) == tasks
    {
      storage.SetItem(TasksKey, tasks);
    }

    /** `loadTasks`: the saved list, or the empty list when nothing is saved. */
    method LoadTasks()
      modifies this`tasks
      ensures tasks == Loaded(storage.items)
      ensures TasksKey !in storage.items ==> tasks == []
    {
      var stored := storage.GetItem(TasksKey);
      tasks := if stored.Some? then stored.value else [];
    }

    /** `handleAddTask`, with the clock readings passed in. A blank input neither changes nor saves anything. */
    method HandleAddTask(input: string, now: int, createdAt: string)
      modifies this`tasks, storage
      ensures tasks == Added(old(tasks), input, now, createdAt)
      ensures storage.items == if IsBlank(input) then old(storage.items) else old(storage.items)[TasksKey := tasks]
      ensures !IsBlank(input) ==> Persisted()
      ensures old(Persisted()) ==> Persisted()
    {
      var text := Trim(input);
      if text == [] {
        return;
      }
      tasks := tasks + [Task(now, text, false, createdAt)];
      SaveTasks();
    }

    /** `handleDeleteTask`: drop every task with that id, then save. */
    method HandleDeleteTask(id: int)
      modifies this`tasks, storage
      ensures tasks == Deleted(old(tasks), id)
      ensures storage.items == old(storage.items)[TasksKey := tasks]
      ensures Persisted()
    {
      tasks := Filter(tasks, OtherThan(id));
      SaveTasks();
    }

    /** `handleCompleteTask`: flip the first task with that id and save; an unknown id changes and saves nothing. */
    method HandleCompleteTask(id: int)
      modifies this`tasks, storage
      ensures tasks == Toggled(old(tasks), id)
      ensures storage.items == if HasId(old(tasks), id) then old(storage.items)[TasksKey := tasks] else old(storage.items)
      ensures HasId(old(tasks), id) ==> Persisted()
      ensures old(Persisted()) ==> Persisted()
    {
      match IndexOfId(tasks, id)
      case None =>
      case Some(i) =>
        tasks := tasks[i := tasks[i].(completed := !tasks[i].completed)];
        SaveTasks();
    }

    /** `handleFilter`: only the filter changes; nothing is saved. */
    method HandleFilter(filter: string)
      modifies this`currentFilter
      ensures currentFilter == filter
      ensures old(Persisted()) ==> Persisted()
    {
      currentFilter := filter;
    }
  }

  /** A page reload: a second manager over the same storage starts from the list the first one saved. */
  method ReloadRestoresTasks(storage: Storage<seq<Task>>, input: string, now: int, createdAt: string)
    returns (saved: seq<Task>, reloaded: seq<Task>, reloadedFilter: string)
    modifies storage
    ensures saved == Added(Loaded(old(storage.items)), input, now, createdAt)
    ensures reloaded == saved
    ensures reloadedFilter == AllFilter
  {
    var first := new TaskManager(storage);
    first.HandleAddTask(input, now, createdAt);
    first.HandleFilter(CompletedFilter);
    saved := first.tasks;
    var second := new TaskManager(storage);
    reloaded, reloadedFilter := second.tasks, second.currentFilter;
  }
}
