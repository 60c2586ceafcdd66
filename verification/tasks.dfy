/** A user's task list and the three actions that change it: add, delete and
    complete. The list is an ordered sequence; ids are assigned from its length
    and nothing keeps them unique, so delete and complete act on the FIRST task
    whose id matches. Prompting, printing and saving are not modelled: the
    answers arrive as parameters and the returned list is what would be saved. */
module Tasks {
  import opened Wrappers

  /** One to-do record; a new task is never completed. */
  datatype Task = Task(id: int, title: string, description: string,
                       dueDate: string, priority: string, completed: bool)

  /** The four answers the add action prompts for, in prompt order. */
  datatype TaskForm = TaskForm(title: string, description: string,
                               dueDate: string, priority: string)

  /** What delete and complete report: `Done` carries the affected task's
      title, the other two are the "not found" and "Invalid ID format." messages. */
  datatype Outcome = Done(title: string) | NoTaskWithId(id: int) | InvalidIdFormat

  /** The list after a delete or complete, and what was reported. */
  datatype Reply = Reply(tasks: seq<Task>, outcome: Outcome)

  predicate HasId(tasks: seq<Task>, id: int) {
    exists j :: 0 <= j < |tasks| && tasks[j].id == id
  }

  /** How many tasks carry `id`. */
  function CountId(tasks: seq<Task>, id: int): nat {
    if |tasks| == 0 then 0
    else (if tasks[0].id == id then 1 else 0) + CountId(tasks[1..], id)
  }

  /** Position of the first task carrying `id`: the linear scan that delete
      and complete share. */
  function FirstIndex(tasks: seq<Task>, id: int): (r: Option<nat>)
    ensures r.None? <==> !HasId(tasks, id)
    ensures r.Some? ==> r.value < |tasks| && tasks[r.value].id == id
    ensures r.Some? ==> forall j :: 0 <= j < r.value ==> tasks[j].id != id
  {
    if |tasks| == 0 then None
    else if tasks[0].id == id then Some(0)
    else
      match FirstIndex(tasks[1..], id)
      case None =>
        assert forall j :: 1 <= j < |tasks| ==> tasks[j] == tasks[1..][j - 1];
        None
      case Some(k) => Some(k + 1)
  }

  /** The scan as the program performs it, front to back, stopping at the
      first match. */
  method ScanForId(tasks: seq<Task>, id: int) returns (found: bool, index: nat)
    ensures found <==> HasId(tasks, id)
    ensures found ==> index < |tasks| && tasks[index].id == id
    ensures found ==> forall j :: 0 <= j < index ==> tasks[j].id != id
    ensures found ==> FirstIndex(tasks, id) == Some(index)
  {
    index := 0;
    while index < |tasks|
      invariant index <= |tasks|
      invariant forall j :: 0 <= j < index ==> tasks[j].id != id
    {
      if tasks[index].id == id {
        return true, index;
      }
      index := index + 1;
    }
    return false, 0;
  }

  /** Add: the new task gets id `|tasks| + 1`, the answers given, and is not
      completed; it goes at the end and every earlier task stays in place. */
  function Add(tasks: seq<Task>, form: TaskForm): (r: seq<Task>)
    ensures |r| == |tasks| + 1
    ensures r[..|tasks|] == tasks
    ensures r[|tasks|].id == |tasks| + 1 && !r[|tasks|].completed
    ensures r[|tasks|].title == form.title && r[|tasks|].description == form.description
    ensures r[|tasks|].dueDate == form.dueDate && r[|tasks|].priority == form.priority
  {
    tasks + [Task(|tasks| + 1, form.title, form.description, form.dueDate, form.priority, false)]
  }

  /** Removes the first task whose id matches; without a match the list is
      unchanged. Later tasks with the same id stay. */
  function DeleteFirst(tasks: seq<Task>, id: int): (r: seq<Task>)
    ensures !HasId(tasks, id) ==> r == tasks
    ensures HasId(tasks, id) ==> |r| == |tasks| - 1
    ensures HasId(tasks, id) ==>
              var k := FirstIndex(tasks, id).value;
              r[..k] == tasks[..k] && r[k..] == tasks[k + 1..]
  {
    match FirstIndex(tasks, id)
    case None => tasks
    case Some(k) => tasks[..k] + tasks[k + 1..]
  }

  /** Marks the first task whose id matches as completed; without a match the
      list is unchanged. */
  function CompleteFirst(tasks: seq<Task>, id: int): (r: seq<Task>)
    ensures |r| == |tasks|
    ensures !HasId(tasks, id) ==> r == tasks
    ensures HasId(tasks, id) ==>
              var k := FirstIndex(tasks, id).value;
              r[k] == tasks[k].(completed := true) &&
              forall j :: 0 <= j < |tasks| && j != k ==> r[j] == tasks[j]
  {
    match FirstIndex(tasks, id)
    case None => tasks
    case Some(k) => tasks[k := tasks[k].(completed := true)]
  }

  /** The delete action on the line the user typed, already run through
      `int(...)`: `None` is a line that did not parse. */
  function DeleteTask(tasks: seq<Task>, entry: Option<int>): (r: Reply)
    ensures entry.None? ==> r == Reply(tasks, InvalidIdFormat)
    ensures entry.Some? && !HasId(tasks, entry.value) ==> r == Reply(tasks, NoTaskWithId(entry.value))
    ensures entry.Some? && HasId(tasks, entry.value) ==>
              r.tasks == DeleteFirst(tasks, entry.value) &&
              r.outcome == Done(tasks[FirstIndex(tasks, entry.value).value].title)
    ensures !r.outcome.Done? ==> r.tasks == tasks
    ensures r.outcome.Done? ==> |r.tasks| == |tasks| - 1
  {
    match entry
    case None => Reply(tasks, InvalidIdFormat)
    case Some(id) =>
      match FirstIndex(tasks, id)
      case None => Reply(tasks, NoTaskWithId(id))
      case Some(k) => Reply(DeleteFirst(tasks, id), Done(tasks[k].title))
  }

  /** The complete action on the parsed line, with the same error handling as
      delete. */
  function CompleteTask(tasks: seq<Task>, entry: Option<int>): (r: Reply)
    ensures entry.None? ==> r == Reply(tasks, InvalidIdFormat)
    ensures entry.Some? && !HasId(tasks, entry.value) ==> r == Reply(tasks, NoTaskWithId(entry.value))
    ensures entry.Some? && HasId(tasks, entry.value) ==>
              r.tasks == CompleteFirst(tasks, entry.value) &&
              r.outcome == Done(tasks[FirstIndex(tasks, entry.value).value].title)
    ensures !r.outcome.Done? ==> r.tasks == tasks
    ensures |r.tasks| == |tasks|
  {
    match entry
    case None => Reply(tasks, InvalidIdFormat)
    case Some(id) =>
      match FirstIndex(tasks, id)
      case None => Reply(tasks, NoTaskWithId(id))
      case Some(k) => Reply(CompleteFirst(tasks, id), Done(tasks[k].title))
  }

  // ---------------------------------------------------------------------------
  // Counting and the effect of delete

  lemma {:induction false} CountIdAppend(a: seq<Task>, b: seq<Task>, id: int)
    ensures CountId(a + b, id) == CountId(a, id) + CountId(b, id)
    decreases |a|
  {
    if |a| == 0 {
      assert a + b == b;
    } else {
      assert (a + b)[1..] == a[1..] + b;
      CountIdAppend(a[1..], b, id);
    }
  }

  /** A task with the id exists exactly when the count is positive. */
  lemma {:induction false} CountIdPositive(tasks: seq<Task>, id: int)
    ensures CountId(tasks, id) > 0 <==> HasId(tasks, id)
    decreases |tasks|
  {
    if |tasks| > 0 {
      CountIdPositive(tasks[1..], id);
      if HasId(tasks[1..], id) {
        var j :| 0 <= j < |tasks[1..]| && tasks[1..][j].id == id;
        assert tasks[j + 1].id == id;
      }
      if HasId(tasks, id) && tasks[0].id != id {
        var j :| 0 <= j < |tasks| && tasks[j].id == id;
        assert tasks[1..][j - 1].id == id;
      }
    }
  }

  /** Delete takes out exactly the first match and nothing else: putting the
      task back where it was rebuilds the original list. */
  lemma DeleteFirstReinserted(tasks: seq<Task>, id: int)
    requires HasId(tasks, id)
    ensures var k := FirstIndex(tasks, id).value;
            var r := DeleteFirst(tasks, id);
            r[..k] + [tasks[k]] + r[k..] == tasks
  {
  }

  /** The multiset of tasks loses exactly the one task delete removed. */
  lemma DeleteFirstMultiset(tasks: seq<Task>, id: int)
    requires HasId(tasks, id)
    ensures var k := FirstIndex(tasks, id).value;
            multiset(DeleteFirst(tasks, id)) + multiset{tasks[k]} == multiset(tasks)
  {
    var k := FirstIndex(tasks, id).value;
    DeleteFirstReinserted(tasks, id);
    var r := DeleteFirst(tasks, id);
    assert r == r[..k] + r[k..];
    calc {
      multiset(tasks);
      multiset(r[..k] + [tasks[k]] + r[k..]);
      multiset(r[..k]) + multiset{tasks[k]} + multiset(r[k..]);
      multiset(r) + multiset{tasks[k]};
    }
  }

  /** Delete lowers the count of the deleted id by one and no other count;
      so a later task with the same id is still found afterwards. */
  lemma DeleteFirstCounts(tasks: seq<Task>, id: int, other: int)
    requires HasId(tasks, id)
    ensures CountId(DeleteFirst(tasks, id), id) == CountId(tasks, id) - 1
    ensures other != id ==> CountId(DeleteFirst(tasks, id), other) == CountId(tasks, other)
    ensures HasId(DeleteFirst(tasks, id), id) <==> CountId(tasks, id) >= 2
  {
    var k := FirstIndex(tasks, id).value;
    var r := DeleteFirst(tasks, id);
    assert tasks == tasks[..k] + ([tasks[k]] + tasks[k + 1..]);
    assert r == tasks[..k] + tasks[k + 1..];
    CountIdAppend(tasks[..k], [tasks[k]] + tasks[k + 1..], id);
    CountIdAppend([tasks[k]], tasks[k + 1..], id);
    CountIdAppend(tasks[..k], tasks[k + 1..], id);
    CountIdAppend(tasks[..k], [tasks[k]] + tasks[k + 1..], other);
    CountIdAppend([tasks[k]], tasks[k + 1..], other);
    CountIdAppend(tasks[..k], tasks[k + 1..], other);
    assert CountId([tasks[k]], id) == 1 by {
      assert [tasks[k]][1..] == [];
    }
    assert other != id ==> CountId([tasks[k]], other) == 0 by {
      assert [tasks[k]][1..] == [];
    }
    CountIdPositive(r, id);
  }

  // ---------------------------------------------------------------------------
  // Complete

  /** Complete never changes any id, so it never changes where the first match is. */
  lemma CompleteFirstKeepsIds(tasks: seq<Task>, id: int, other: int)
    ensures forall j :: 0 <= j < |tasks| ==> CompleteFirst(tasks, id)[j].id == tasks[j].id
    ensures HasId(CompleteFirst(tasks, id), other) <==> HasId(tasks, other)
    ensures FirstIndex(CompleteFirst(tasks, id), other) == FirstIndex(tasks, other)
  {
  }

  /** After completing an id that is present, its first task is completed. */
  lemma CompleteFirstMarksMatch(tasks: seq<Task>, id: int)
    requires HasId(tasks, id)
    ensures var k := FirstIndex(tasks, id).value;
            FirstIndex(CompleteFirst(tasks, id), id) == Some(k) &&
            CompleteFirst(tasks, id)[k].completed
  {
  }

  /** Completing the same id twice is the same as completing it once. */
  lemma CompleteFirstIdempotent(tasks: seq<Task>, id: int)
    ensures CompleteFirst(CompleteFirst(tasks, id), id) == CompleteFirst(tasks, id)
  {
  }

  // ---------------------------------------------------------------------------
  // Sequential adds

  /** Ids run 1, 2, 3, ... in list order. */
  predicate NumberedFromOne(tasks: seq<Task>) {
    forall i :: 0 <= i < |tasks| ==> tasks[i].id == i + 1
  }

  /** The task Add creates from the answers when the list has `n` tasks. */
  function TaskFromForm(n: nat, form: TaskForm): Task {
    Task(n + 1, form.title, form.description, form.dueDate, form.priority, false)
  }

  /** A run of add actions with no other action between them. */
  function AddAll(tasks: seq<Task>, forms: seq<TaskForm>): seq<Task>
    decreases |forms|
  {
    if |forms| == 0 then tasks else AddAll(Add(tasks, forms[0]), forms[1..])
  }

  /** A run of adds keeps the list as it was and appends one task per answer
      set, numbered on from the list's length. */
  lemma {:induction false} AddAllAppends(tasks: seq<Task>, forms: seq<TaskForm>)
    ensures |AddAll(tasks, forms)| == |tasks| + |forms|
    ensures AddAll(tasks, forms)[..|tasks|] == tasks
    ensures forall i :: 0 <= i < |forms| ==>
              AddAll(tasks, forms)[|tasks| + i] == TaskFromForm(|tasks| + i, forms[i])
    decreases |forms|
  {
    if |forms| > 0 {
      var next := Add(tasks, forms[0]);
      AddAllAppends(next, forms[1..]);
      var r := AddAll(tasks, forms);
      assert r == AddAll(next, forms[1..]);
      assert r[..|tasks|] == r[..|next|][..|tasks|];
      assert r[|tasks|] == next[|tasks|];
      forall i | 1 <= i < |forms|
        ensures r[|tasks| + i] == TaskFromForm(|tasks| + i, forms[i])
      {
        assert r[|next| + (i - 1)] == TaskFromForm(|next| + (i - 1), forms[1..][i - 1]);
      }
    }
  }

  /** Starting from an empty list, N adds give ids 1..N in list order, each
      task holding its own answers and not completed. */
  lemma SequentialAddsNumberFromOne(forms: seq<TaskForm>)
    ensures |AddAll([], forms)| == |forms|
    ensures NumberedFromOne(AddAll([], forms))
    ensures forall i :: 0 <= i < |forms| ==> AddAll([], forms)[i] == TaskFromForm(i, forms[i])
  {
    AddAllAppends([], forms);
    var r := AddAll([], forms);
    forall i | 0 <= i < |r| ensures r[i].id == i + 1 {
      assert r[0 + i] == TaskFromForm(0 + i, forms[i]);
    }
  }

  /** Adds alone, from an empty list, never give two tasks the same id. */
  lemma SequentialAddsHaveDistinctIds(forms: seq<TaskForm>, i: nat, j: nat)
    requires i < j < |forms|
    ensures |AddAll([], forms)| == |forms|
    ensures AddAll([], forms)[i].id != AddAll([], forms)[j].id
  {
    SequentialAddsNumberFromOne(forms);
  }

  /** Ids are not unique in general: after deleting id 1 from a list numbered
      1..N (N >= 2), the next add reuses id N, so the last two tasks share it. */
  lemma IdReusedAfterDelete(tasks: seq<Task>, form: TaskForm)
    requires NumberedFromOne(tasks) && |tasks| >= 2
    ensures var r := Add(DeleteFirst(tasks, 1), form);
            |r| == |tasks| &&
            r[|tasks| - 2].id == |tasks| && r[|tasks| - 1].id == |tasks| &&
            CountId(r, |tasks|) == 2
  {
    assert tasks[0].id == 1;
    assert FirstIndex(tasks, 1) == Some(0);
    var d := DeleteFirst(tasks, 1);
    assert d == tasks[1..];
    var r := Add(d, form);
    var n := |tasks|;
    assert r == tasks[1..n - 1] + ([tasks[n - 1]] + [r[n - 1]]);
    CountIdAppend(tasks[1..n - 1], [tasks[n - 1]] + [r[n - 1]], n);
    CountIdAppend([tasks[n - 1]], [r[n - 1]], n);
    assert [tasks[n - 1]][1..] == [];
    assert [r[n - 1]][1..] == [];
    var middle := tasks[1..n - 1];
    assert !HasId(middle, n) by {
      forall j | 0 <= j < |middle| ensures middle[j].id != n {
        assert middle[j] == tasks[j + 1];
      }
    }
    CountIdPositive(middle, n);
  }
}
