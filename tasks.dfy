/**
 * The task list page: the pending/completed split, the priority lookups and the handlers that create, toggle
 * and delete tasks, each a transition of the page's state.
 */
module Tasks {
  import opened Common
  import opened Records

  // ---------------------------------------------------------------- the pending / completed split

  /** `tasks.filter(task => task.is_completed)` */
  function Completed(tasks: seq<Task>): (r: seq<Task>)
    ensures |r| <= |tasks|
    ensures forall i :: 0 <= i < |r| ==> r[i].isCompleted
  {
    if tasks == [] then []
    else (if tasks[0].isCompleted then [tasks[0]] else []) + Completed(tasks[1..])
  }

  /** `tasks.filter(task => !task.is_completed)` */
  function Pending(tasks: seq<Task>): (r: seq<Task>)
    ensures |r| <= |tasks|
    ensures forall i :: 0 <= i < |r| ==> !r[i].isCompleted
  {
    if tasks == [] then []
    else (if tasks[0].isCompleted then [] else [tasks[0]]) + Pending(tasks[1..])
  }

  /** A task is listed as completed exactly when it is in the list and completed; likewise for pending. */
  lemma {:induction false} FilterMembership(tasks: seq<Task>, t: Task)
    ensures t in Completed(tasks) <==> t in tasks && t.isCompleted
    ensures t in Pending(tasks) <==> t in tasks && !t.isCompleted
  {
    if tasks != [] {
      FilterMembership(tasks[1..], t);
      assert tasks == [tasks[0]] + tasks[1..];
    }
  }

  /** Filtering commutes with concatenation, so each list keeps the relative order of the tasks it holds. */
  lemma {:induction false} FilterAppend(a: seq<Task>, b: seq<Task>)
    ensures Completed(a + b) == Completed(a) + Completed(b)
    ensures Pending(a + b) == Pending(a) + Pending(b)
  {
    if a != [] {
      assert (a + b)[0] == a[0] && (a + b)[1..] == a[1..] + b;
      FilterAppend(a[1..], b);
      var hc := if a[0].isCompleted then [a[0]] else [];
      var hp := if a[0].isCompleted then [] else [a[0]];
      assert Completed(a + b) == hc + (Completed(a[1..]) + Completed(b));
      assert Pending(a + b) == hp + (Pending(a[1..]) + Pending(b));
    } else {
      assert a + b == b;
    }
  }

  /** Pending and completed partition the list: every task lands in exactly one of them. */
  lemma {:induction false} PendingCompletedPartition(tasks: seq<Task>)
    ensures |Pending(tasks)| + |Completed(tasks)| == |tasks|
    ensures multiset(Pending(tasks)) + multiset(Completed(tasks)) == multiset(tasks)
  {
    if tasks != [] {
      PendingCompletedPartition(tasks[1..]);
      assert tasks == [tasks[0]] + tasks[1..];
    }
  }

  // ---------------------------------------------------------------- list updates

  /** `tasks.map(task => task.id === id ? updated : task)` */
  function ReplaceById(tasks: seq<Task>, id: int, updated: Task): (r: seq<Task>)
    ensures |r| == |tasks|
    ensures forall i :: 0 <= i < |tasks| ==> r[i] == if tasks[i].id == id then updated else tasks[i]
  {
    if tasks == [] then []
    else [if tasks[0].id == id then updated else tasks[0]] + ReplaceById(tasks[1..], id, updated)
  }

  /** `tasks.filter(task => task.id !== id)` */
  function RemoveById(tasks: seq<Task>, id: int): (r: seq<Task>)
    ensures forall t :: t in r <==> t in tasks && t.id != id
  {
    if tasks == [] then []
    else (if tasks[0].id == id then [] else [tasks[0]]) + RemoveById(tasks[1..], id)
  }

  /** Removal keeps the relative order of what stays: it commutes with concatenation. */
  lemma {:induction false} RemoveByIdAppend(a: seq<Task>, b: seq<Task>, id: int)
    ensures RemoveById(a + b, id) == RemoveById(a, id) + RemoveById(b, id)
  {
    if a != [] {
      assert (a + b)[0] == a[0] && (a + b)[1..] == a[1..] + b;
      RemoveByIdAppend(a[1..], b, id);
      var h := if a[0].id == id then [] else [a[0]];
      assert RemoveById(a + b, id) == h + (RemoveById(a[1..], id) + RemoveById(b, id));
    } else {
      assert a + b == b;
    }
  }

  /** Removal drops exactly the tasks with that id: the length shrinks by their number. */
  lemma {:induction false} RemoveByIdLength(tasks: seq<Task>, id: int)
    ensures |RemoveById(tasks, id)| == |tasks| - CountId(tasks, id)
  {
    if tasks != [] {
      RemoveByIdLength(tasks[1..], id);
    }
  }

  /** How many tasks carry `id`. */
  function CountId(tasks: seq<Task>, id: int): (n: nat)
    ensures n <= |tasks|
    ensures n == 0 <==> forall t :: t in tasks ==> t.id != id
  {
    if tasks == [] then 0 else (if tasks[0].id == id then 1 else 0) + CountId(tasks[1..], id)
  }

  /** A new pending task shows first among the pending ones and changes nothing among the completed ones. */
  lemma NewTaskShowsFirst(t: Task, tasks: seq<Task>)
    requires !t.isCompleted
    ensures Pending([t] + tasks) == [t] + Pending(tasks)
    ensures Completed([t] + tasks) == Completed(tasks)
  {
    assert ([t] + tasks)[1..] == tasks;
  }

  // ---------------------------------------------------------------- priority lookups

  /** `labels[priority] || priority` with the three Russian labels. */
  function PriorityLabel(priority: string): (r: string)
    ensures priority == "high" ==> r == "Высокий"
    ensures priority == "medium" ==> r == "Средний"
    ensures priority == "low" ==> r == "Низкий"
    ensures priority != "high" && priority != "medium" && priority != "low" ==> r == priority
  {
    if priority == "high" then "Высокий"
    else if priority == "medium" then "Средний"
    else if priority == "low" then "Низкий"
    else priority
  }

  /** The three levels get three different labels, none of them the level's own name. */
  lemma PriorityLabelsDistinct()
    ensures PriorityLabel("high") != PriorityLabel("medium")
    ensures PriorityLabel("high") != PriorityLabel("low")
    ensures PriorityLabel("medium") != PriorityLabel("low")
    ensures forall p :: p in ["high", "medium", "low"] ==> PriorityLabel(p) != p
  {
  }

  /** `priority-${priority}` */
  function PriorityClass(priority: string): (r: string)
    ensures |r| == |"priority-"| + |priority|
    ensures StartsWith(r, "priority-")
  {
    "priority-" + priority
  }

  /** Different priorities never share a class. */
  lemma PriorityClassInjective(p: string, q: string)
    requires PriorityClass(p) == PriorityClass(q)
    ensures p == q
  {
    assert p == PriorityClass(p)[|"priority-"|..];
    assert q == PriorityClass(q)[|"priority-"|..];
  }

  // ---------------------------------------------------------------- the page

  /** The add-task form. */
  datatype TaskForm = TaskForm(title: string, description: string, priority: string, dueDate: string)

  /** The form as the page starts and as a successful create leaves it. */
  const EmptyForm := TaskForm("", "", "medium", "")

  const MsgTitleRequired := "Введите название задачи"
  const MsgCreated := "Задача успешно добавлена"
  const MsgCreateFailed := "Не удалось создать задачу"
  const MsgToggled := "Статус задачи обновлен"
  const MsgToggleFailed := "Не удалось обновить статус задачи"
  const MsgDeleted := "Задача успешно удалена"
  const MsgDeleteFailed := "Не удалось удалить задачу"
  const MsgLoadFailed := "Не удалось загрузить задачи"

  class TasksView {
    var tasks: seq<Task>
    var newTask: TaskForm
    var loading: bool
    var error: string
    var success: string

    constructor()
      ensures tasks == [] && newTask == EmptyForm && loading && error == "" && success == ""
    {
      tasks := [];
      newTask := EmptyForm;
      loading := true;
      error := "";
      success := "";
    }

    /** `fetchTasks`: the list becomes what the server sent, or the error is set and the list stays. */
    method FetchTasks(reply: Reply<seq<Task>>)
      modifies this
      ensures reply.Success? ==> tasks == reply.data && error == old(error)
      ensures reply.Failure? ==> tasks == old(tasks) && error == MsgLoadFailed
      ensures !loading && newTask == old(newTask) && success == old(success)
    {
      loading := true;
      if reply.Success? {
        tasks := reply.data;
      } else {
        error := MsgLoadFailed;
      }
      loading := false;
    }

    /**
     * `handleSubmit`: a blank title stops before any call; otherwise the form is sent (`request`) and the
     * server's answer decides the rest. `reply` is that answer and is not looked at when nothing is sent.
     */
    method HandleSubmit(reply: Reply<Task>) returns (request: Option<TaskForm>)
      modifies this
      ensures Trim(old(newTask.title)) == [] ==>
        request == None && tasks == old(tasks) && newTask == old(newTask) &&
        error == MsgTitleRequired && success == ""
      ensures Trim(old(newTask.title)) != [] ==> request == Some(old(newTask))
      ensures Trim(old(newTask.title)) != [] && reply.Success? ==>
        tasks == [reply.data] + old(tasks) && newTask == EmptyForm && error == "" && success == MsgCreated
      ensures Trim(old(newTask.title)) != [] && reply.Failure? ==>
        tasks == old(tasks) && newTask == old(newTask) && error == MsgCreateFailed && success == ""
      ensures loading == old(loading)
    {
      error := "";
      success := "";
      if Trim(newTask.title) == [] {
        error := MsgTitleRequired;
        return None;
      }
      request := Some(newTask);
      if reply.Success? {
        tasks := [reply.data] + tasks;
        newTask := EmptyForm;
        success := MsgCreated;
      } else {
        error := MsgCreateFailed;
      }
    }

    /**
     * `handleToggleComplete`: asks the server for the negated status (`sent`) and, on success, swaps in the
     * record the server returns for every task with that id.
     */
    method HandleToggleComplete(taskId: int, currentStatus: bool, reply: Reply<Task>) returns (sent: bool)
      modifies this
      ensures sent == !currentStatus
      ensures reply.Success? ==>
        tasks == ReplaceById(old(tasks), taskId, reply.data) && error == "" && success == MsgToggled
      ensures reply.Failure? ==> tasks == old(tasks) && error == MsgToggleFailed && success == old(success)
      ensures newTask == old(newTask) && loading == old(loading)
    {
      error := "";
      sent := !currentStatus;
      if reply.Success? {
        tasks := ReplaceById(tasks, taskId, reply.data);
        success := MsgToggled;
      } else {
        error := MsgToggleFailed;
      }
    }

    /**
     * `handleDeleteTask`: nothing happens unless the user confirms; then the delete is sent (`requested`) and,
     * on success, every task with that id leaves the list.
     */
    method HandleDeleteTask(taskId: int, confirmed: bool, reply: Reply<()>) returns (requested: bool)
      modifies this
      ensures requested == confirmed
      ensures !confirmed ==> tasks == old(tasks) && error == old(error) && success == old(success)
      ensures confirmed && reply.Success? ==>
        tasks == RemoveById(old(tasks), taskId) && error == old(error) && success == MsgDeleted
      ensures confirmed && reply.Failure? ==>
        tasks == old(tasks) && error == MsgDeleteFailed && success == old(success)
      ensures newTask == old(newTask) && loading == old(loading)
    {
      if !confirmed {
        return false;
      }
      requested := true;
      if reply.Success? {
        tasks := RemoveById(tasks, taskId);
        success := MsgDeleted;
      } else {
        error := MsgDeleteFailed;
      }
    }
  }

  /** After a confirmed, successful delete no task with that id is left, and every other task still is. */
  lemma DeleteLeavesNoTaskWithId(tasks: seq<Task>, id: int)
    ensures forall t :: t in RemoveById(tasks, id) ==> t.id != id
    ensures forall t :: t in tasks && t.id != id ==> t in RemoveById(tasks, id)
    ensures CountId(RemoveById(tasks, id), id) == 0
  {
  }

  /** Toggling to completed moves the task from the pending list to the completed one. */
  lemma {:induction false} ToggleMovesTask(tasks: seq<Task>, id: int, updated: Task)
    requires updated.isCompleted && updated.id == id
    ensures forall t :: t in Pending(ReplaceById(tasks, id, updated)) ==> t.id != id
    ensures (exists t :: t in tasks && t.id == id) ==> updated in Completed(ReplaceById(tasks, id, updated))
  {
    var r := ReplaceById(tasks, id, updated);
    forall t | t in Pending(r)
      ensures t.id != id
    {
      FilterMembership(r, t);
      var i :| 0 <= i < |r| && r[i] == t;
    }
    if exists t :: t in tasks && t.id == id {
      var t :| t in tasks && t.id == id;
      var i :| 0 <= i < |tasks| && tasks[i] == t;
      assert r[i] == updated;
      FilterMembership(r, updated);
    }
  }
}
