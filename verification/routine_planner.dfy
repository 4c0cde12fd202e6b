/** The routine planner's create form: editing the task list, the guard
    and payload of "Create Routine", and the reset after a successful
    save. */
module RoutinePlanner {
  import opened Wrappers
  import opened Seqs
  import opened Text

  /** The `newRoutine` form state. */
  datatype Draft = Draft(title: string, description: string, tasks: seq<string>, isRecurring: bool)

  /** The empty form: one empty task, not recurring. */
  const EmptyDraft := Draft("", "", [""], false)

  /** `addTask`: one empty task at the end. */
  function AddTask(tasks: seq<string>): (r: seq<string>)
    ensures |r| == |tasks| + 1
    ensures r[..|tasks|] == tasks && r[|tasks|] == ""
  {
    tasks + [""]
  }

  /** `updateTask`: `tasks.map((t, i) => i === index ? value : t)`. */
  function UpdateTask(tasks: seq<string>, index: int, value: string): (r: seq<string>)
    ensures |r| == |tasks|
    ensures 0 <= index < |tasks| ==> r == tasks[index := value]
    ensures !(0 <= index < |tasks|) ==> r == tasks
  {
    seq(|tasks|, i requires 0 <= i < |tasks| => if i == index then value else tasks[i])
  }

  /** `removeTask`: `tasks.filter((_, i) => i !== index)`, written as a walk
      that counts the index down. */
  function RemoveTask(tasks: seq<string>, index: int): (r: seq<string>)
    ensures 0 <= index < |tasks| ==> |r| == |tasks| - 1
    ensures !(0 <= index < |tasks|) ==> r == tasks
  {
    if |tasks| == 0 then []
    else (if index == 0 then [] else [tasks[0]]) + RemoveTask(tasks[1..], index - 1)
  }

  /** Removing drops exactly the element at `index` and keeps the rest in
      order. */
  lemma {:induction false} RemoveTaskSpec(tasks: seq<string>, index: int)
    requires 0 <= index < |tasks|
    ensures RemoveTask(tasks, index) == tasks[..index] + tasks[index + 1..]
  {
    if index > 0 {
      RemoveTaskSpec(tasks[1..], index - 1);
      assert tasks[1..][..index - 1] == tasks[1..index];
      assert tasks[1..][index..] == tasks[index + 1..];
      assert tasks[..index] == [tasks[0]] + tasks[1..index];
    } else {
      assert RemoveTask(tasks[1..], -1) == tasks[1..];
    }
  }

  /** Removing the task just added gives the list back. */
  lemma RemoveUndoesAdd(tasks: seq<string>)
    ensures RemoveTask(AddTask(tasks), |tasks|) == tasks
  {
    RemoveTaskSpec(AddTask(tasks), |tasks|);
  }

  /** Writing the value already there changes nothing, and a second write
      to the same index wins. */
  lemma UpdateTaskLaws(tasks: seq<string>, index: int, v: string, w: string)
    ensures 0 <= index < |tasks| ==> UpdateTask(tasks, index, tasks[index]) == tasks
    ensures UpdateTask(UpdateTask(tasks, index, v), index, w) == UpdateTask(tasks, index, w)
  {
  }

  /** A task with content (`task.trim()` is truthy). */
  predicate NonBlank(task: string)
  {
    !IsBlank(task)
  }

  /** The `routines` row `createRoutine` inserts. */
  datatype RoutineInsert = RoutineInsert(
    userId: string, title: string, description: string, tasks: seq<string>,
    isRecurring: bool, isActive: bool)

  /** What pressing "Create Routine" leads to: the insert sent (if any),
      the form state and visibility afterwards, and the activity logged. */
  datatype CreateOutcome = CreateOutcome(
    insert: Option<RoutineInsert>, draft: Draft, formOpen: bool, activity: Option<(string, string)>)

  /** `createRoutine`. A title that is empty or white space sends nothing.
      Otherwise the row carries the non-blank tasks, in their order and
      with their repeats, and `is_active: true`;
      on success the form closes and resets and the creation is logged, on
      failure the form is left as it was. `insertOk` is the insert's outcome. */
  function CreateRoutine(d: Draft, userId: string, formOpen: bool, insertOk: bool): (o: CreateOutcome)
    ensures IsBlank(d.title) ==> o == CreateOutcome(None, d, formOpen, None)
    ensures !IsBlank(d.title) ==>
      && o.insert.Some?
      && o.insert.value.userId == userId && o.insert.value.title == d.title
      && o.insert.value.description == d.description && o.insert.value.isRecurring == d.isRecurring
      && o.insert.value.isActive
      && (forall i :: 0 <= i < |o.insert.value.tasks| ==> NonBlank(o.insert.value.tasks[i]))
      && (forall i :: 0 <= i < |d.tasks| && NonBlank(d.tasks[i]) ==> d.tasks[i] in o.insert.value.tasks)
      && (forall t :: t in o.insert.value.tasks ==> t in d.tasks)
      && o.insert.value.tasks == Filter(d.tasks, NonBlank)
      && |o.insert.value.tasks| == |Passing(d.tasks, NonBlank, |d.tasks|)|
      && (forall k :: 0 <= k < |d.tasks| && NonBlank(d.tasks[k]) ==>
            |Passing(d.tasks, NonBlank, k)| < |o.insert.value.tasks|
            && o.insert.value.tasks[|Passing(d.tasks, NonBlank, k)|] == d.tasks[k])
    ensures !IsBlank(d.title) && insertOk ==>
      o.draft == EmptyDraft && !o.formOpen && o.activity == Some(("routine_created", "Created routine: " + d.title))
    ensures !IsBlank(d.title) && !insertOk ==> o.draft == d && o.formOpen == formOpen && o.activity.None?
  {
    if IsBlank(d.title) then CreateOutcome(None, d, formOpen, None)
    else
      FilterPlaces(d.tasks, NonBlank);
      var row := RoutineInsert(userId, d.title, d.description, Filter(d.tasks, NonBlank), d.isRecurring, true);
      if insertOk then CreateOutcome(Some(row), EmptyDraft, false, Some(("routine_created", "Created routine: " + d.title)))
      else CreateOutcome(Some(row), d, formOpen, None)
  }

  /** A list with no blank task is saved as it is; the empty form's single
      blank task is dropped. */
  lemma SavedTasksExamples(d: Draft, userId: string)
    requires !IsBlank(d.title)
    ensures (forall i :: 0 <= i < |d.tasks| ==> NonBlank(d.tasks[i])) ==>
              CreateRoutine(d, userId, true, true).insert.value.tasks == d.tasks
    ensures d.tasks == [""] ==> CreateRoutine(d, userId, true, true).insert.value.tasks == []
  {
    FilterAllPass(d.tasks, NonBlank);
    if d.tasks == [""] {
      assert IsBlank("");
      assert [""][1..] == [];
    }
  }

  // ---------------------------------------------------------------------
  // The form as the screen offers it

  /** Edits the form offers: each task row has an input, and a Remove
      button while there is more than one task. */
  datatype Edit =
    | SetTitle(title: string)
    | SetDescription(description: string)
    | PressAddTask
    | TypeTask(index: nat, value: string)
    | PressRemove(index: nat)
    | SetRecurring(on: bool)

  /** Whether the screen shows the control the edit uses. */
  predicate Offered(d: Draft, e: Edit)
  {
    match e
    case TypeTask(i, _) => i < |d.tasks|
    case PressRemove(i) => i < |d.tasks| && |d.tasks| > 1
    case _ => true
  }

  function ApplyEdit(d: Draft, e: Edit): (r: Draft)
    ensures r.title != d.title ==> e.SetTitle?
    ensures r.tasks != d.tasks ==> e.PressAddTask? || e.TypeTask? || e.PressRemove?
  {
    match e
    case SetTitle(t) => d.(title := t)
    case SetDescription(s) => d.(description := s)
    case PressAddTask => d.(tasks := AddTask(d.tasks))
    case TypeTask(i, v) => d.(tasks := UpdateTask(d.tasks, i, v))
    case PressRemove(i) => d.(tasks := RemoveTask(d.tasks, i))
    case SetRecurring(on) => d.(isRecurring := on)
  }

  /** Edits the screen offers keep at least one task row. */
  lemma OfferedEditKeepsATask(d: Draft, e: Edit)
    requires |d.tasks| >= 1 && Offered(d, e)
    ensures |ApplyEdit(d, e).tasks| >= 1
  {
  }

  /** A sequence of edits; one whose control is not on screen has no
      effect. */
  function ApplyEdits(d: Draft, es: seq<Edit>): Draft
    decreases |es|
  {
    if |es| == 0 then d
    else ApplyEdits(if Offered(d, es[0]) then ApplyEdit(d, es[0]) else d, es[1..])
  }

  /** Starting from the empty form, any sequence of offered edits leaves
      at least one task row. */
  lemma {:induction false} TaskListNeverEmpty(d: Draft, es: seq<Edit>)
    requires |d.tasks| >= 1
    ensures |ApplyEdits(d, es).tasks| >= 1
    decreases |es|
  {
    if |es| > 0 {
      var next := if Offered(d, es[0]) then ApplyEdit(d, es[0]) else d;
      if Offered(d, es[0]) {
        OfferedEditKeepsATask(d, es[0]);
      }
      TaskListNeverEmpty(next, es[1..]);
    }
  }

  lemma EmptyFormKeepsATask(es: seq<Edit>)
    ensures |ApplyEdits(EmptyDraft, es).tasks| >= 1
  {
    TaskListNeverEmpty(EmptyDraft, es);
  }
}
