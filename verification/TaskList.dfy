/** The shared task list as the object its callers update under the lock. */
module TaskLists {

  import opened Wrappers
  import opened Counting
  import opened Scheduling
  import ET = EventTable

  class TaskList {
    var tasks: seq<Task>
    var active: int

    constructor ()
      ensures tasks == [] && active == 0
    {
      tasks, active := [], 0;
    }

    /** `scheduleNoLock`: an empty function is dropped; the answer says whether the list was empty. */
    method ScheduleNoLock(task: Option<Task>) returns (needTickle: bool)
      modifies `tasks
      ensures tasks == old(tasks) + if task.Some? then [task.value] else []
      ensures needTickle <==> old(tasks) == []
    {
      needTickle := tasks == [];
      if task.Some? {
        tasks := tasks + [task.value];
      }
    }

    /** `schedule` of a range: all callbacks that are not empty, in order, as one step. */
    method ScheduleRange(cbs: seq<Option<Callback>>) returns (needTickle: bool)
      modifies `tasks
      ensures tasks == old(tasks) + AsTasks(Present(cbs))
      ensures needTickle <==> old(tasks) == [] && cbs != []
    {
      needTickle := false;
      var i := 0;
      while i < |cbs|
        invariant i <= |cbs|
        invariant tasks == old(tasks) + AsTasks(Present(cbs[..i]))
        invariant needTickle <==> old(tasks) == [] && i > 0
      {
        PresentNext(cbs, i);
        var empty := ScheduleNoLock(if cbs[i].Some? then Some(CbTask(cbs[i].value)) else None);
        needTickle := empty || needTickle;
        i := i + 1;
      }
      assert cbs[..i] == cbs;
    }

    /** Takes the first task that is not a fiber still in `EXEC`. */
    method PickTask(fibers: seq<State>) returns (task: Option<Task>)
      modifies this
      ensures var k := FirstRunnable(old(tasks), fibers);
        if k < |old(tasks)|
        then task == Some(old(tasks)[k]) && tasks == Without(old(tasks), k) && active == old(active) + 1
        else task == None && tasks == old(tasks) && active == old(active)
    {
      var it := 0;
      while it < |tasks| && Skipped(tasks[it], fibers)
        invariant it <= |tasks|
        invariant forall i :: 0 <= i < it ==> Skipped(tasks[i], fibers)
      {
        it := it + 1;
      }
      if it == |tasks| {
        return None;
      }
      task := Some(tasks[it]);
      tasks := tasks[..it] + tasks[it + 1..];
      active := active + 1;
    }
  }

  /** The functions that are not empty. */
  function Present(cbs: seq<Option<Callback>>): seq<Callback> {
    if cbs == [] then []
    else Present(cbs[..|cbs| - 1]) + if cbs[|cbs| - 1].Some? then [cbs[|cbs| - 1].value] else []
  }

  lemma PresentNext(cbs: seq<Option<Callback>>, i: nat)
    requires i < |cbs|
    ensures AsTasks(Present(cbs[..i + 1])) == AsTasks(Present(cbs[..i])) + if cbs[i].Some? then [CbTask(cbs[i].value)] else []
  {
    assert cbs[..i + 1][..i] == cbs[..i];
    if cbs[i].Some? {
      AsTasksPush(Present(cbs[..i]), cbs[i].value);
    }
  }

  lemma AsTasksPush(cbs: seq<Callback>, cb: Callback)
    ensures AsTasks(cbs + [cb]) == AsTasks(cbs) + [CbTask(cb)]
  {
  }
}
