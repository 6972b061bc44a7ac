/**
 * The single-page kanban board: three ordered task lanes ("todo",
 * "inprogress", "done") and the task being edited, if any. Every handler
 * changes the lanes only once the server has answered; the answer (status
 * code, task returned) is a parameter of the handler.
 */
module KanbanBoard {
  import opened Wrappers

  /** The three lanes. */
  datatype Column = Todo | InProgress | Done

  /** The state key of a lane, as sent to the server in a new task. */
  function Key(c: Column): string {
    match c
    case Todo => "todo"
    case InProgress => "inprogress"
    case Done => "done"
  }

  /** A task as the server stores it. */
  datatype Task = Task(id: string, text: string, description: string, column: string)

  /** The body of the request that creates a task: the server picks the id. */
  datatype NewTask = NewTask(text: string, description: string, column: string)

  /** The body of the request that updates a task's text and description. */
  datatype EditRequest = EditRequest(taskId: string, text: string, description: string)

  /** The three lanes of the board. */
  datatype Tasks = Tasks(todo: seq<Task>, inprogress: seq<Task>, done: seq<Task>) {

    function Get(c: Column): seq<Task> {
      match c
      case Todo => todo
      case InProgress => inprogress
      case Done => done
    }

    /** `{ ...prevTasks, [c]: s }` */
    function Set(c: Column, s: seq<Task>): (r: Tasks)
      ensures r.Get(c) == s
      ensures forall d :: d != c ==> r.Get(d) == Get(d)
    {
      match c
      case Todo => this.(todo := s)
      case InProgress => this.(inprogress := s)
      case Done => this.(done := s)
    }

    /** The number of tasks on the board. */
    function Count(): nat {
      |todo| + |inprogress| + |done|
    }
  }

  /** The board as first rendered: three empty lanes. */
  const NoTasks := Tasks([], [], [])

  /** Which task is being edited, and in which lane. */
  datatype EditedTask = EditedTask(taskId: string, column: Column)

  /** The answer to a create request: a failure (network error, bad body) or a status and the created task. */
  datatype AddReply = AddFailed | AddResponse(status: int, task: Task)

  /** The answer to a delete or update request: a network failure or a status code. */
  datatype StatusReply = RequestFailed | StatusResponse(status: int)

  /** `response.ok` */
  predicate IsOk(status: int) { 200 <= status <= 299 }

  /** `response.status === 200` */
  predicate Is200(reply: StatusReply) { reply.StatusResponse? && reply.status == 200 }

  /** The total change in size of one lane, for counting lemmas. */
  lemma CountSet(t: Tasks, c: Column, s: seq<Task>)
    ensures t.Set(c, s).Count() == t.Count() - |t.Get(c)| + |s|
  {
  }

  // ---------------------------------------------------------------------------
  // The pure lane rewrites passed to setTasks

  /** `[...prevTasks[c], task]` */
  function Appended(t: Tasks, c: Column, task: Task): (r: Tasks)
    ensures r.Get(c) == t.Get(c) + [task]
    ensures forall d :: d != c ==> r.Get(d) == t.Get(d)
    ensures r.Count() == t.Count() + 1
  {
    CountSet(t, c, t.Get(c) + [task]);
    t.Set(c, t.Get(c) + [task])
  }

  /** `s.filter(task => task.id !== id)` */
  function WithoutId(s: seq<Task>, id: string): (r: seq<Task>)
    ensures |r| <= |s|
    ensures forall k :: 0 <= k < |r| ==> r[k].id != id
  {
    if s == [] then []
    else (if s[0].id != id then [s[0]] else []) + WithoutId(s[1..], id)
  }

  /** The filter keeps exactly the tasks whose id is not `id`. */
  lemma {:induction false} WithoutIdMembers(s: seq<Task>, id: string)
    ensures forall t :: t in WithoutId(s, id) <==> t in s && t.id != id
  {
    if s != [] {
      WithoutIdMembers(s[1..], id);
      assert s == [s[0]] + s[1..];
    }
  }

  /** The filter keeps order: filtering a concatenation filters each part. */
  lemma {:induction false} WithoutIdConcat(a: seq<Task>, b: seq<Task>, id: string)
    ensures WithoutId(a + b, id) == WithoutId(a, id) + WithoutId(b, id)
  {
    if a != [] {
      assert (a + b)[1..] == a[1..] + b;
      WithoutIdConcat(a[1..], b, id);
    } else {
      assert a + b == b;
    }
  }

  /** Filtering an id that no task carries leaves the lane as it is. */
  lemma {:induction false} WithoutIdAbsent(s: seq<Task>, id: string)
    requires forall k :: 0 <= k < |s| ==> s[k].id != id
    ensures WithoutId(s, id) == s
  {
    if s != [] {
      WithoutIdAbsent(s[1..], id);
    }
  }

  /** Ids are unique within a lane. */
  predicate UniqueIds(s: seq<Task>) {
    forall i, j :: 0 <= i < j < |s| ==> s[i].id != s[j].id
  }

  /** A lone task is removed by its own id. */
  lemma WithoutOwnId(x: Task)
    ensures WithoutId([x], x.id) == []
  {
    assert [x][1..] == [];
  }

  /** Removing by the id of `x`, when only `x` carries it, removes exactly `x`. */
  lemma WithoutIdAround(a: seq<Task>, x: Task, b: seq<Task>)
    requires forall j :: 0 <= j < |a| ==> a[j].id != x.id
    requires forall j :: 0 <= j < |b| ==> b[j].id != x.id
    ensures WithoutId(a + ([x] + b), x.id) == a + b
  {
    var id := x.id;
    WithoutIdConcat(a, [x] + b, id);
    WithoutIdConcat([x], b, id);
    WithoutOwnId(x);
    WithoutIdAbsent(a, id);
    WithoutIdAbsent(b, id);
    assert WithoutId([x] + b, id) == b;
  }

  /** A lane is the tasks before position `k`, the task at `k`, and the tasks after it. */
  lemma SplitAt(s: seq<Task>, k: nat)
    requires k < |s|
    ensures s == s[..k] + ([s[k]] + s[k + 1..])
  {
  }

  /** In a lane with unique ids, deleting by the id of `s[k]` removes exactly `s[k]`, keeping the rest in order. */
  lemma WithoutUniqueId(s: seq<Task>, k: nat)
    requires k < |s| && UniqueIds(s)
    ensures WithoutId(s, s[k].id) == s[..k] + s[k + 1..]
  {
    var a, b := s[..k], s[k + 1..];
    forall j | 0 <= j < |a| ensures a[j].id != s[k].id {
      assert a[j] == s[j];
    }
    forall j | 0 <= j < |b| ensures b[j].id != s[k].id {
      assert b[j] == s[k + 1 + j];
    }
    SplitAt(s, k);
    WithoutIdAround(a, s[k], b);
  }

  /** `s.map(task => task.id === id ? { ...task, text, description } : task)` */
  function EditedById(s: seq<Task>, id: string, text: string, description: string): (r: seq<Task>)
    ensures |r| == |s|
    ensures forall k :: 0 <= k < |s| ==>
              r[k] == if s[k].id == id then s[k].(text := text, description := description) else s[k]
  {
    if s == [] then []
    else
      var head := if s[0].id == id then s[0].(text := text, description := description) else s[0];
      [head] + EditedById(s[1..], id, text, description)
  }

  /** An edit changes only text and description: ids, lanes and order stay. */
  lemma EditKeepsIds(s: seq<Task>, id: string, text: string, description: string)
    ensures forall k :: 0 <= k < |s| ==>
              EditedById(s, id, text, description)[k].id == s[k].id
              && EditedById(s, id, text, description)[k].column == s[k].column
  {
  }

  // ---------------------------------------------------------------------------
  // Loading

  /** Appending `ts` to lane `c` one task at a time, as `addTasksWithDelay` does. */
  function AppendAll(t: Tasks, c: Column, ts: seq<Task>): (r: Tasks)
    ensures r.Count() == t.Count() + |ts|
  {
    if ts == [] then t
    else Appended(AppendAll(t, c, ts[..|ts| - 1]), c, ts[|ts| - 1])
  }

  /** Loading a lane appends all its tasks in order and leaves the other lanes alone. */
  lemma {:induction false} AppendAllLanes(t: Tasks, c: Column, ts: seq<Task>)
    ensures AppendAll(t, c, ts).Get(c) == t.Get(c) + ts
    ensures forall d :: d != c ==> AppendAll(t, c, ts).Get(d) == t.Get(d)
  {
    if ts != [] {
      var init := ts[..|ts| - 1];
      AppendAllLanes(t, c, init);
      assert t.Get(c) + init + [ts[|ts| - 1]] == t.Get(c) + ts;
    }
  }

  /** The response of the load request: lane names paired with their tasks. */
  type LoadData = seq<(Column, seq<Task>)>

  /** The number of tasks `json` lists, over all lanes. */
  function LoadSize(json: LoadData): nat
  {
    if json == [] then 0 else LoadSize(json[..|json| - 1]) + |json[|json| - 1].1|
  }

  /** The board after `fetchDataAndAddTasks` has worked through `json`: every listed task is added, none other. */
  function Loaded(t: Tasks, json: LoadData): (r: Tasks)
    ensures r.Count() == t.Count() + LoadSize(json)
  {
    if json == [] then t
    else
      var last := json[|json| - 1];
      AppendAll(Loaded(t, json[..|json| - 1]), last.0, last.1)
  }

  /** The tasks `json` lists for lane `c`, in order. */
  function TasksFor(json: LoadData, c: Column): seq<Task>
  {
    if json == [] then []
    else
      var last := json[|json| - 1];
      TasksFor(json[..|json| - 1], c) + (if last.0 == c then last.1 else [])
  }

  /** After loading, each lane holds what it held before followed by every task `json` gives it, in order. */
  lemma {:induction false} LoadedLanes(t: Tasks, json: LoadData, c: Column)
    ensures Loaded(t, json).Get(c) == t.Get(c) + TasksFor(json, c)
  {
    if json != [] {
      var init, last := json[..|json| - 1], json[|json| - 1];
      LoadedLanes(t, init, c);
      AppendAllLanes(Loaded(t, init), last.0, last.1);
      if last.0 == c {
        assert t.Get(c) + TasksFor(init, c) + last.1 == t.Get(c) + (TasksFor(init, c) + last.1);
      } else {
        assert TasksFor(json, c) == TasksFor(init, c) + [];
      }
    }
  }

  // ---------------------------------------------------------------------------
  // Server answers applied to the lanes

  /** The lanes after a create request for lane `c` was answered with `reply`. */
  function AfterAdd(t: Tasks, c: Column, reply: AddReply): (r: Tasks)
    ensures reply.AddResponse? && IsOk(reply.status) ==>
              r.Get(c) == t.Get(c) + [reply.task] && r.Count() == t.Count() + 1
    ensures !(reply.AddResponse? && IsOk(reply.status)) ==> r == t
    ensures forall d :: d != c ==> r.Get(d) == t.Get(d)
  {
    if reply.AddResponse? && IsOk(reply.status) then Appended(t, c, reply.task) else t
  }

  /** The lanes after a delete request for task `id` in lane `c` was answered with `reply`. */
  function AfterDelete(t: Tasks, c: Column, id: string, reply: StatusReply): (r: Tasks)
    ensures Is200(reply) ==> forall task :: task in r.Get(c) <==> task in t.Get(c) && task.id != id
    ensures !Is200(reply) ==> r == t
    ensures forall d :: d != c ==> r.Get(d) == t.Get(d)
  {
    WithoutIdMembers(t.Get(c), id);
    if Is200(reply) then t.Set(c, WithoutId(t.Get(c), id)) else t
  }

  /** `tasks[source].find(task => task.id === id)`, as the index of the task found. */
  function FindById(s: seq<Task>, id: string): (r: Option<nat>)
    ensures r.None? <==> forall k :: 0 <= k < |s| ==> s[k].id != id
    ensures r.Some? ==> r.value < |s| && s[r.value].id == id
                        && forall j :: 0 <= j < r.value ==> s[j].id != id
  {
    if s == [] then None
    else if s[0].id == id then Some(0)
    else
      match FindById(s[1..], id)
      case None => None
      case Some(k) => Some(k + 1)
  }

  /** What a drop did: nothing (same lane), a crash on a missing task, or a delete and a create. */
  datatype DropOutcome = SameColumn | TaskNotFound | Moved(deletedId: string, added: NewTask)

  /**
   * `handleDrop(e, dest)` for task `id` dragged from `source`: the delete
   * request for the task, then the create request for a copy carrying its
   * text and description, each applied when answered.
   */
  function Drop(t: Tasks, id: string, source: Column, dest: Column, delReply: StatusReply, addReply: AddReply)
    : (r: (Tasks, DropOutcome))
    ensures r.1 == SameColumn <==> source == dest
    ensures r.1 == TaskNotFound <==>
              source != dest && forall k :: 0 <= k < |t.Get(source)| ==> t.Get(source)[k].id != id
    ensures !r.1.Moved? ==> r.0 == t
    ensures r.1.Moved? ==> r.1.deletedId == id && r.1.added.column == Key(dest)
    ensures r.1.Moved? ==>
              var k := FindById(t.Get(source), id);
              && k.Some?
              && r.1.added == NewTask(t.Get(source)[k.value].text, t.Get(source)[k.value].description, Key(dest))
              && r.0 == AfterAdd(AfterDelete(t, source, id, delReply), dest, addReply)
    ensures forall c :: c != source && c != dest ==> r.0.Get(c) == t.Get(c)
  {
    if source == dest then (t, SameColumn)
    else
      match FindById(t.Get(source), id)
      case None => (t, TaskNotFound)
      case Some(k) =>
        var task := t.Get(source)[k];
        (AfterAdd(AfterDelete(t, source, task.id, delReply), dest, addReply),
         Moved(task.id, NewTask(task.text, task.description, Key(dest))))
  }

  /** Dropping a task back on its own lane changes nothing and sends nothing. */
  lemma DropSameColumn(t: Tasks, id: string, c: Column, delReply: StatusReply, addReply: AddReply)
    ensures Drop(t, id, c, c, delReply, addReply) == (t, SameColumn)
  {
  }

  /** A drop of an id the source lane does not hold sends nothing and changes nothing. */
  lemma DropMissingTask(t: Tasks, id: string, source: Column, dest: Column, delReply: StatusReply, addReply: AddReply)
    requires source != dest
    requires forall k :: 0 <= k < |t.Get(source)| ==> t.Get(source)[k].id != id
    ensures Drop(t, id, source, dest, delReply, addReply) == (t, TaskNotFound)
  {
  }

  /**
   * A drop onto another lane whose delete and create both succeed moves the
   * task: it leaves the source lane (the rest keeps its order), a task
   * returned by the server joins the end of the destination lane, the third
   * lane is untouched and the number of tasks is unchanged. The create
   * request carries only the text and description of the dragged task.
   */
  lemma {:induction false} DropMoves(t: Tasks, source: Column, dest: Column, k: nat,
                                     delReply: StatusReply, addReply: AddReply)
    requires source != dest && k < |t.Get(source)| && UniqueIds(t.Get(source))
    requires Is200(delReply) && addReply.AddResponse? && IsOk(addReply.status)
    ensures var task := t.Get(source)[k];
            var (r, outcome) := Drop(t, task.id, source, dest, delReply, addReply);
            && outcome == Moved(task.id, NewTask(task.text, task.description, Key(dest)))
            && r.Get(source) == t.Get(source)[..k] + t.Get(source)[k + 1..]
            && r.Get(dest) == t.Get(dest) + [addReply.task]
            && (forall c :: c != source && c != dest ==> r.Get(c) == t.Get(c))
            && r.Count() == t.Count()
  {
    var s := t.Get(source);
    var task := s[k];
    var found := FindById(s, task.id);
    assert found == Some(k);
    WithoutUniqueId(s, k);
    var afterDelete := AfterDelete(t, source, task.id, delReply);
    assert afterDelete == t.Set(source, s[..k] + s[k + 1..]);
    CountSet(t, source, s[..k] + s[k + 1..]);
  }

  /**
   * The delete and the create of a drop touch different lanes, so applying
   * their answers in either order gives the same board.
   */
  lemma DropAnswersCommute(t: Tasks, source: Column, dest: Column, id: string,
                           delReply: StatusReply, addReply: AddReply)
    requires source != dest
    ensures AfterAdd(AfterDelete(t, source, id, delReply), dest, addReply)
            == AfterDelete(AfterAdd(t, dest, addReply), source, id, delReply)
  {
    var x := AfterAdd(AfterDelete(t, source, id, delReply), dest, addReply);
    var y := AfterDelete(AfterAdd(t, dest, addReply), source, id, delReply);
    assert x.Get(source) == y.Get(source) && x.Get(dest) == y.Get(dest);
    forall c ensures x.Get(c) == y.Get(c) { }
    assert x == Tasks(x.Get(Todo), x.Get(InProgress), x.Get(Done));
    assert y == Tasks(y.Get(Todo), y.Get(InProgress), y.Get(Done));
  }

  /**
   * When the delete fails but the create succeeds, the task is duplicated:
   * the source lane keeps it and the destination gains the server's copy.
   */
  lemma DropWithFailedDelete(t: Tasks, source: Column, dest: Column, k: nat,
                             delReply: StatusReply, addReply: AddReply)
    requires source != dest && k < |t.Get(source)|
    requires !Is200(delReply) && addReply.AddResponse? && IsOk(addReply.status)
    ensures var (r, _) := Drop(t, t.Get(source)[k].id, source, dest, delReply, addReply);
            r.Get(source) == t.Get(source) && r.Count() == t.Count() + 1
  {
    assert FindById(t.Get(source), t.Get(source)[k].id).Some?;
  }

  // ---------------------------------------------------------------------------
  // The component's state

  class Board {
    var tasks: Tasks
    var editedTask: Option<EditedTask>

    /** Three empty lanes and nothing being edited. */
    constructor ()
      ensures tasks == NoTasks && editedTask == None
    {
      tasks := NoTasks;
      editedTask := None;
    }

    /** `isEditing(taskId)` */
    predicate IsEditing(taskId: string)
      reads this
    {
      editedTask.Some? && editedTask.value.taskId == taskId
    }

    /** `addTasksWithDelay(ts, column)`: append the tasks to the lane one at a time. */
    method AddTasksWithDelay(ts: seq<Task>, column: Column)
      modifies this
      ensures tasks == AppendAll(old(tasks), column, ts)
      ensures editedTask == old(editedTask)
    {
      var i := 0;
      while i < |ts|
        invariant 0 <= i <= |ts|
        invariant tasks == AppendAll(old(tasks), column, ts[..i])
        invariant editedTask == old(editedTask)
      {
        var prefix := ts[..i + 1];
        assert prefix[..|prefix| - 1] == ts[..i] && prefix[|prefix| - 1] == ts[i];
        tasks := Appended(tasks, column, ts[i]);
        i := i + 1;
      }
      assert ts[..i] == ts;
    }

    /** `fetchDataAndAddTasks`: for each lane listed in the answer, add its tasks; a failed request adds nothing. */
    method FetchDataAndAddTasks(reply: Option<LoadData>)
      modifies this
      ensures tasks == if reply.Some? then Loaded(old(tasks), reply.value) else old(tasks)
      ensures editedTask == old(editedTask)
    {
      if reply.None? {
        return;
      }
      var json := reply.value;
      var i := 0;
      while i < |json|
        invariant 0 <= i <= |json|
        invariant tasks == Loaded(old(tasks), json[..i])
        invariant editedTask == old(editedTask)
      {
        assert json[..i + 1][..i] == json[..i];
        AddTasksWithDelay(json[i].1, json[i].0);
        i := i + 1;
      }
      assert json[..i] == json;
    }

    /** `handleAddTask(text, description, column)`: send the new task; append what the server returns. */
    method HandleAddTask(text: string, description: string, column: Column, reply: AddReply) returns (request: NewTask)
      modifies this
      ensures request == NewTask(text, description, Key(column))
      ensures tasks == AfterAdd(old(tasks), column, reply)
      ensures editedTask == old(editedTask)
    {
      request := NewTask(text, description, Key(column));
      if reply.AddResponse? && IsOk(reply.status) {
        tasks := tasks.Set(column, tasks.Get(column) + [reply.task]);
      }
    }

    /** `handleDeleteTask(taskId, column)`: on status 200, drop every task of the lane with that id. */
    method HandleDeleteTask(taskId: string, column: Column, reply: StatusReply)
      modifies this
      ensures tasks == AfterDelete(old(tasks), column, taskId, reply)
      ensures editedTask == old(editedTask)
    {
      if Is200(reply) {
        tasks := tasks.Set(column, WithoutId(tasks.Get(column), taskId));
      }
    }

    /**
     * `handleEditTask(taskId, newText, newDescription)`: nothing without a
     * task being edited; otherwise send the update and, on status 200,
     * rewrite the matching tasks of the edited task's lane and stop editing.
     */
    method HandleEditTask(taskId: string, newText: string, newDescription: string, reply: StatusReply)
      returns (request: Option<EditRequest>)
      modifies this
      ensures old(editedTask).None? ==> request == None && tasks == old(tasks) && editedTask == None
      ensures old(editedTask).Some? ==> request == Some(EditRequest(taskId, newText, newDescription))
      ensures old(editedTask).Some? && Is200(reply) ==>
                var c := old(editedTask).value.column;
                tasks == old(tasks).Set(c, EditedById(old(tasks).Get(c), taskId, newText, newDescription))
                && editedTask == None
      ensures old(editedTask).Some? && !Is200(reply) ==> tasks == old(tasks) && editedTask == old(editedTask)
    {
      if editedTask.None? {
        return None;
      }
      request := Some(EditRequest(taskId, newText, newDescription));
      if Is200(reply) {
        var c := editedTask.value.column;
        tasks := tasks.Set(c, EditedById(tasks.Get(c), taskId, newText, newDescription));
        editedTask := None;
      }
    }

    /** `handleEditClick(taskId, column)`: start editing that task, and only that one. */
    method HandleEditClick(taskId: string, column: Column)
      modifies this
      ensures editedTask == Some(EditedTask(taskId, column))
      ensures forall id :: IsEditing(id) <==> id == taskId
      ensures tasks == old(tasks)
    {
      editedTask := Some(EditedTask(taskId, column));
    }

    /** `handleCancelEdit()`: stop editing. */
    method HandleCancelEdit()
      modifies this
      ensures editedTask == None
      ensures forall id :: !IsEditing(id)
      ensures tasks == old(tasks)
    {
      editedTask := None;
    }

    /**
     * `handleDrop(e, column)`: a drop onto another lane finds the dragged task
     * in the current source lane, then deletes it there and creates a copy
     * in the destination; the answers are applied delete first.
     */
    method HandleDrop(taskId: string, source: Column, dest: Column, delReply: StatusReply, addReply: AddReply)
      returns (outcome: DropOutcome)
      modifies this
      ensures (tasks, outcome) == Drop(old(tasks), taskId, source, dest, delReply, addReply)
      ensures editedTask == old(editedTask)
    {
      if source == dest {
        return SameColumn;
      }
      var found := FindById(tasks.Get(source), taskId);
      if found.None? {
        return TaskNotFound;
      }
      var task := tasks.Get(source)[found.value];
      HandleDeleteTask(task.id, source, delReply);
      var request := HandleAddTask(task.text, task.description, dest, addReply);
      outcome := Moved(task.id, request);
    }
  }
}
