/**
 The background task table of belya_harness.c: slots, ids and states. What the
 operating system reports comes in as parameters.
 */
module TaskTable {
  import opened Text

  /** BELYA_MAX_BACKGROUND_TASKS. */
  const SLOTS: nat := 16
  const STDERR_FILENO: int := 2

  datatype State = Unused | Running | Completed | Failed | Killed

  datatype Task = Task(id: int, state: State, exitCode: int, masterFd: int)

  const EMPTY: Task := Task(0, Unused, 0, -1)

  datatype Table = Table(tasks: seq<Task>, nextId: nat)

  /** What a non-blocking `waitpid` reports; `OtherStatus` is neither an exit nor a signal. */
  datatype Report = NoChange | Exited(code: nat) | Signaled(signal: nat) | OtherStatus

  // ---------- One slot ----------

  /** The state change of `belya_task_drain_output`. */
  function Drained(t: Task, r: Report): Task {
    if t.masterFd <= STDERR_FILENO || t.state != Running || r == NoChange then t
    else
      match r
      case Exited(code) => t.(state := if code == 0 then Completed else Failed, exitCode := code, masterFd := -1)
      case Signaled(signal) => t.(state := Killed, exitCode := 128 + signal, masterFd := -1)
      case _ => t.(masterFd := -1)
  }

  /** The state change of `belya_harness_task_kill`. */
  function KilledTask(t: Task): Task {
    if t.state != Running then t
    else t.(state := Killed, masterFd := if t.masterFd > STDERR_FILENO then -1 else t.masterFd)
  }

  // ---------- The table ----------

  function DrainUsed(ts: seq<Task>, reports: seq<Report>): (r: seq<Task>)
    requires |reports| == |ts|
    ensures |r| == |ts|
  {
    seq(|ts|, i requires 0 <= i < |ts| => if ts[i].state == Unused then ts[i] else Drained(ts[i], reports[i]))
  }

  /** First slot from `i` on that is unused; the number of slots when there is none. */
  function FirstUnused(ts: seq<Task>, i: nat): (r: nat)
    requires i <= |ts|
    ensures i <= r <= |ts| && (r < |ts| ==> ts[r].state == Unused)
    ensures forall j :: i <= j < r ==> ts[j].state != Unused
    decreases |ts| - i
  {
    if i == |ts| || ts[i].state == Unused then i else FirstUnused(ts, i + 1)
  }

  function FirstFinished(ts: seq<Task>, i: nat): (r: nat)
    requires i <= |ts|
    ensures i <= r <= |ts| && (r < |ts| ==> ts[r].state != Running)
    ensures forall j :: i <= j < r ==> ts[j].state == Running
    decreases |ts| - i
  {
    if i == |ts| || ts[i].state != Running then i else FirstFinished(ts, i + 1)
  }

  /** The slot a spawn takes: an unused one, else one whose task is not running. */
  function ChooseSlot(ts: seq<Task>): (r: nat)
    ensures r < |ts| ==> ts[r].state != Running
    ensures r >= |ts| <==> forall j :: 0 <= j < |ts| ==> ts[j].state == Running
  {
    var u := FirstUnused(ts, 0);
    if u < |ts| then u else FirstFinished(ts, 0)
  }

  function FindTask(ts: seq<Task>, id: int, i: nat): (r: nat)
    requires i <= |ts|
    ensures i <= r <= |ts| && (r < |ts| ==> ts[r].id == id && ts[r].state != Unused)
    ensures forall j :: i <= j < r ==> !(ts[j].id == id && ts[j].state != Unused)
    decreases |ts| - i
  {
    if i == |ts| || (ts[i].id == id && ts[i].state != Unused) then i else FindTask(ts, id, i + 1)
  }

  /** What happens to the table. A spawn carries the reports of its drain over all
      slots, the descriptor of the new terminal (`None` when the system refused one
      or could not fork), and the report of its last drain. */
  datatype Event =
    | Spawn(reports: seq<Report>, fd: Option<int>, first: Report)
    | Drain(id: int, report: Report)
    | Kill(id: int)

  predicate WellFormed(e: Event) {
    e.Spawn? ==> |e.reports| == SLOTS
  }

  /** The table after an event, and the id returned by a successful spawn. */
  function Apply(t: Table, e: Event): (r: (Table, Option<nat>))
    requires |t.tasks| == SLOTS && WellFormed(e)
    ensures |r.0.tasks| == SLOTS
  {
    match e
    case Spawn(reports, fd, first) =>
      var ts := DrainUsed(t.tasks, reports);
      var slot := ChooseSlot(ts);
      if slot >= SLOTS || fd.None? then (t.(tasks := ts), None)
      else
        var id := t.nextId + 1;
        (Table(ts[slot := Drained(Task(id, Running, -1, fd.value), first)], id), Some(id))
    case Drain(id, report) =>
      var i := FindTask(t.tasks, id, 0);
      (if i >= SLOTS then t else t.(tasks := t.tasks[i := Drained(t.tasks[i], report)]), None)
    case Kill(id) =>
      var i := FindTask(t.tasks, id, 0);
      (if i >= SLOTS then t else t.(tasks := t.tasks[i := KilledTask(t.tasks[i])]), None)
  }

  // ---------- The code ----------

  class Harness {
    const tasks: array<Task>
    var nextId: nat

    ghost predicate Valid()
      reads this
    {
      tasks.Length == SLOTS
    }

    ghost function View(): Table
      reads this, tasks
    {
      Table(tasks[..], nextId)
    }

    constructor ()
      ensures Valid() && View() == Table(seq(SLOTS, _ => EMPTY), 0)
    {
      tasks := new Task[SLOTS](_ => EMPTY);
      nextId := 0;
    }

    method DrainSlot(i: nat, r: Report)
      requires Valid() && i < SLOTS
      modifies tasks
      ensures tasks[..] == old(tasks[..])[i := Drained(old(tasks[i]), r)]
    {
      var t := tasks[i];
      if t.masterFd <= STDERR_FILENO { return; }
      if t.state == Running && r != NoChange {
        if r.Exited? {
          t := t.(exitCode := r.code, state := if r.code == 0 then Completed else Failed);
        } else if r.Signaled? {
          t := t.(exitCode := 128 + r.signal, state := Killed);
        }
        tasks[i] := t.(masterFd := -1);
      }
    }

    /** `belya_harness_spawn_task`; -1 is a failure. */
    method SpawnTask(reports: seq<Report>, fd: Option<int>, first: Report) returns (id: int)
      requires Valid() && |reports| == SLOTS
      modifies this, tasks
      ensures var r := Apply(old(View()), Spawn(reports, fd, first));
              View() == r.0 && id == if r.1.Some? then r.1.value else -1
    {
      ghost var before := tasks[..];
      ghost var ts := DrainUsed(before, reports);
      var i := 0;
      while i < SLOTS
        modifies tasks
        invariant 0 <= i <= SLOTS
        invariant forall k :: 0 <= k < i ==> tasks[k] == ts[k]
        invariant forall k :: i <= k < SLOTS ==> tasks[k] == before[k]
      {
        if tasks[i].state != Unused { DrainSlot(i, reports[i]); }
        i := i + 1;
      }
      assert tasks[..] == ts;
      var slot := PickSlot();
      if slot >= SLOTS || fd.None? { return -1; }
      nextId := nextId + 1;
      tasks[slot] := Task(nextId, Running, -1, fd.value);
      DrainSlot(slot, first);
      assert tasks[..] == ts[slot := Drained(Task(nextId, Running, -1, fd.value), first)];
      return nextId;
    }

    /** The two searches of a spawn. */
    method PickSlot() returns (slot: nat)
      requires Valid()
      ensures slot == ChooseSlot(tasks[..])
    {
      ghost var ts := tasks[..];
      slot := 0;
      while slot < SLOTS && tasks[slot].state != Unused
        invariant 0 <= slot <= SLOTS && FirstUnused(ts, 0) == FirstUnused(ts, slot)
      {
        slot := slot + 1;
      }
      if slot < SLOTS { return; }
      slot := 0;
      while slot < SLOTS && tasks[slot].state == Running
        invariant 0 <= slot <= SLOTS && FirstFinished(ts, 0) == FirstFinished(ts, slot)
      {
        slot := slot + 1;
      }
    }

    method Lookup(id: int) returns (i: nat)
      requires Valid()
      ensures i == FindTask(tasks[..], id, 0)
    {
      ghost var ts := tasks[..];
      i := 0;
      while i < SLOTS && !(tasks[i].id == id && tasks[i].state != Unused)
        invariant 0 <= i <= SLOTS && FindTask(ts, id, 0) == FindTask(ts, id, i)
      {
        i := i + 1;
      }
    }

    /** The drain of `belya_harness_task_status` and of the other calls that name a task. */
    method DrainTask(id: int, report: Report)
      requires Valid()
      modifies tasks
      ensures View() == Apply(old(View()), Drain(id, report)).0
    {
      var i := Lookup(id);
      if i < SLOTS { DrainSlot(i, report); }
    }

    /** `belya_harness_task_kill`. */
    method KillTask(id: int) returns (found: bool)
      requires Valid()
      modifies tasks
      ensures View() == Apply(old(View()), Kill(id)).0
      ensures found <==> exists t :: t in old(tasks[..]) && t.id == id && t.state != Unused
    {
      var i := Lookup(id);
      if i >= SLOTS { return false; }
      if tasks[i].state == Running {
        var fd := tasks[i].masterFd;
        tasks[i] := tasks[i].(state := Killed, masterFd := if fd > STDERR_FILENO then -1 else fd);
      }
      assert old(tasks[..])[i] in old(tasks[..]);
      return true;
    }
  }

  // ---------- Properties over runs ----------

  /** The recorded exit code agrees with the state. */
  predicate Consistent(t: Task) {
    match t.state
    case Unused => true
    case Running => t.exitCode == -1
    case Completed => t.exitCode == 0
    case Failed => t.exitCode > 0
    case Killed => t.exitCode == -1 || t.exitCode >= 128
  }

  /** Used slots carry distinct ids that have been handed out, and every record is
      consistent. */
  ghost predicate Inv(t: Table) {
    && |t.tasks| == SLOTS
    && (forall i :: 0 <= i < SLOTS ==> Consistent(t.tasks[i]))
    && (forall i :: 0 <= i < SLOTS && t.tasks[i].state != Unused ==> 0 < t.tasks[i].id <= t.nextId)
    && forall i, j :: 0 <= i < j < SLOTS && t.tasks[i].state != Unused && t.tasks[j].state != Unused ==>
         t.tasks[i].id != t.tasks[j].id
  }

  ghost predicate Runs(t: Table, id: int) {
    exists i :: 0 <= i < |t.tasks| && t.tasks[i].state == Running && t.tasks[i].id == id
  }

  /** Draining and killing change neither ids nor whether a slot is used, and start nothing. */
  lemma SlotSteps(t: Task, r: Report)
    ensures Drained(t, r).id == t.id && (Drained(t, r).state == Unused <==> t.state == Unused)
    ensures Drained(t, r).state == Running ==> t.state == Running
    ensures t.state != Running ==> Drained(t, r) == t && KilledTask(t) == t
    ensures KilledTask(t).id == t.id && (KilledTask(t).state == Unused <==> t.state == Unused)
    ensures KilledTask(t).state != Running
    ensures Consistent(t) ==> Consistent(Drained(t, r)) && Consistent(KilledTask(t))
  {
  }

  /** Same ids and used slots, nothing newly running, finished tasks untouched. */
  ghost predicate Settles(a: seq<Task>, b: seq<Task>) {
    |a| == |b| && forall i :: 0 <= i < |a| ==>
      && b[i].id == a[i].id && (b[i].state == Unused <==> a[i].state == Unused)
      && (b[i].state == Running ==> a[i].state == Running)
      && (a[i].state != Running ==> b[i] == a[i])
      && (Consistent(a[i]) ==> Consistent(b[i]))
  }

  lemma DrainSettles(ts: seq<Task>, reports: seq<Report>)
    requires |reports| == |ts|
    ensures Settles(ts, DrainUsed(ts, reports))
  {
    forall i | 0 <= i < |ts| { SlotSteps(ts[i], reports[i]); }
  }

  lemma {:induction false} SettledKeeps(t: Table, ts: seq<Task>)
    requires Inv(t) && Settles(t.tasks, ts)
    ensures Inv(t.(tasks := ts)) && forall x :: Runs(t.(tasks := ts), x) ==> Runs(t, x)
  {
    StillRuns(t, t.(tasks := ts));
  }

  /** Draining or killing the task in one slot, if there is such a slot. */
  lemma OneSlotSettles(ts: seq<Task>, i: nat, r: Report)
    requires i < |ts|
    ensures Settles(ts, ts[i := Drained(ts[i], r)]) && Settles(ts, ts[i := KilledTask(ts[i])])
  {
    SlotSteps(ts[i], r);
  }

  /** One event keeps the invariant, hands out at most the next id, and makes no old
      id run that was not running. */
  lemma {:induction false} EventKeeps(t: Table, e: Event)
    requires Inv(t) && WellFormed(e)
    ensures var (t', id) := Apply(t, e);
            && Inv(t')
            && (if id.Some? then e.Spawn? && id.value == t'.nextId == t.nextId + 1 else t'.nextId == t.nextId)
            && forall x :: Runs(t', x) && x <= t.nextId ==> Runs(t, x)
  {
    match e
    case Spawn(reports, fd, first) =>
      SpawnKeeps(t, reports, fd, first);
    case Drain(id, report) =>
      var i := FindTask(t.tasks, id, 0);
      if i < SLOTS {
        OneSlotSettles(t.tasks, i, report);
        SettledKeeps(t, t.tasks[i := Drained(t.tasks[i], report)]);
      }
    case Kill(id) =>
      var i := FindTask(t.tasks, id, 0);
      if i < SLOTS {
        OneSlotSettles(t.tasks, i, NoChange);
        SettledKeeps(t, t.tasks[i := KilledTask(t.tasks[i])]);
      }
  }

  lemma {:induction false} SpawnKeeps(t: Table, reports: seq<Report>, fd: Option<int>, first: Report)
    requires Inv(t) && |reports| == SLOTS
    ensures var t' := Apply(t, Spawn(reports, fd, first)).0;
            Inv(t') && forall x :: Runs(t', x) && x <= t.nextId ==> Runs(t, x)
  {
    var ts := DrainUsed(t.tasks, reports);
    DrainSettles(t.tasks, reports);
    SettledKeeps(t, ts);
    var slot := ChooseSlot(ts);
    if slot < SLOTS && fd.Some? {
      var task := Task(t.nextId + 1, Running, -1, fd.value);
      SlotSteps(task, first);
      TakeSlot(t.(tasks := ts), slot, Drained(task, first));
    }
  }

  /** A new task with the next id takes a slot that is not running. */
  lemma {:induction false} TakeSlot(t: Table, slot: nat, task: Task)
    requires Inv(t) && slot < SLOTS && task.id == t.nextId + 1 && task.state != Unused && Consistent(task)
    ensures var t' := Table(t.tasks[slot := task], t.nextId + 1);
            Inv(t') && forall x :: Runs(t', x) && x <= t.nextId ==> Runs(t, x)
  {
    var t' := Table(t.tasks[slot := task], t.nextId + 1);
    forall x | Runs(t', x) && x <= t.nextId ensures Runs(t, x) {
      var i :| 0 <= i < SLOTS && t'.tasks[i].state == Running && t'.tasks[i].id == x;
      assert t.tasks[i].state == Running && t.tasks[i].id == x;
    }
  }

  /** A spawn fails, the system willing, exactly when all 16 slots are still running
      after the drain; a slot still running then keeps its task. */
  lemma {:induction false} SpawnOutcome(t: Table, reports: seq<Report>, fd: Option<int>, first: Report)
    requires |t.tasks| == |reports| == 16
    ensures var ts := DrainUsed(t.tasks, reports);
            var (t', id) := Apply(t, Spawn(reports, fd, first));
            && (fd.Some? ==> (id.None? <==> forall i :: 0 <= i < 16 ==> ts[i].state == Running))
            && forall i :: 0 <= i < 16 && ts[i].state == Running ==> t'.tasks[i] == ts[i]
  {
    var slot := ChooseSlot(DrainUsed(t.tasks, reports));
  }

  lemma StillRuns(t: Table, t': Table)
    requires |t.tasks| == |t'.tasks|
    requires forall i :: 0 <= i < |t.tasks| ==>
               t'.tasks[i].id == t.tasks[i].id && (t'.tasks[i].state == Running ==> t.tasks[i].state == Running)
    ensures forall x :: Runs(t', x) ==> Runs(t, x)
  {
    forall x | Runs(t', x) ensures Runs(t, x) {
      var i :| 0 <= i < |t'.tasks| && t'.tasks[i].state == Running && t'.tasks[i].id == x;
      assert t.tasks[i].state == Running && t.tasks[i].id == x;
    }
  }

  /** A finished task keeps its slot's record until another task takes the slot. */
  lemma {:induction false} OutcomeIsFinal(t: Table, e: Event, i: nat)
    requires Inv(t) && WellFormed(e) && i < SLOTS
    requires t.tasks[i].state != Unused && t.tasks[i].state != Running
    ensures var t' := Apply(t, e).0;
            t'.tasks[i] == t.tasks[i] || t'.tasks[i].id == t'.nextId > t.nextId
  {
    match e
    case Spawn(reports, fd, first) =>
      DrainSettles(t.tasks, reports);
      if fd.Some? { SlotSteps(Task(t.nextId + 1, Running, -1, fd.value), first); }
    case Drain(id, report) =>
      SlotSteps(t.tasks[i], report);
    case Kill(id) =>
      SlotSteps(t.tasks[i], NoChange);
  }

  lemma {:induction false} FoundByItsId(t: Table, i: nat)
    requires Inv(t) && i < SLOTS && t.tasks[i].state != Unused
    ensures FindTask(t.tasks, t.tasks[i].id, 0) == i
  {
  }

  /** Draining a running task with an open terminal: an exit ends it as completed or failed
      with its code, a signal as killed with 128 more, any other status only closes the
      terminal. Nothing else in the table changes. */
  lemma {:induction false} ReportEnds(t: Table, i: nat, r: Report)
    requires Inv(t) && i < SLOTS && t.tasks[i].state == Running
    ensures var task, now := t.tasks[i], Apply(t, Drain(t.tasks[i].id, r)).0.tasks;
            && (forall j :: 0 <= j < SLOTS && j != i ==> now[j] == t.tasks[j])
            && (task.masterFd <= 2 ==> now[i] == task)
            && (task.masterFd > 2 ==>
                  now[i] == match r
                            case NoChange => task
                            case Exited(0) => Task(task.id, Completed, 0, -1)
                            case Exited(code) => Task(task.id, Failed, code, -1)
                            case Signaled(signal) => Task(task.id, Killed, 128 + signal, -1)
                            case OtherStatus => Task(task.id, Running, -1, -1))
  {
    FoundByItsId(t, i);
  }

  /** A kill ends the task with the id, whatever else happens, and changes no other slot. */
  lemma {:induction false} KillEnds(t: Table, id: int)
    requires Inv(t)
    ensures var now := Apply(t, Kill(id)).0;
            && !Runs(now, id) && now.nextId == t.nextId
            && forall i :: 0 <= i < SLOTS ==>
                 if t.tasks[i].state == Running && t.tasks[i].id == id
                 then now.tasks[i].state == Killed && now.tasks[i].id == id && now.tasks[i].exitCode == -1
                      && now.tasks[i].masterFd <= 2
                 else now.tasks[i] == t.tasks[i]
  {
    var k := FindTask(t.tasks, id, 0);
    var now := Apply(t, Kill(id)).0;
    forall i: nat | i < SLOTS && t.tasks[i].state != Unused && t.tasks[i].id == id ensures i == k {
      FoundByItsId(t, i);
    }
  }

  /** A spawn takes the lowest unused slot, or else the lowest whose task has ended, for a
      running task with the next id, which only its own first report may end. */
  lemma {:induction false} SpawnTakes(t: Table, reports: seq<Report>, fd: int, first: Report) returns (slot: nat)
    requires |t.tasks| == |reports| == SLOTS
    ensures var ts := DrainUsed(t.tasks, reports);
            var (now, id) := Apply(t, Spawn(reports, Some(fd), first));
            if id.None? then now == t.(tasks := ts) else
              && slot < SLOTS && id == Some(t.nextId + 1) && now.nextId == t.nextId + 1
              && (|| ts[slot].state == Unused
                  || (ts[slot].state != Running && forall j :: 0 <= j < SLOTS ==> ts[j].state != Unused))
              && (forall j :: 0 <= j < slot ==>
                    ts[j].state != Unused && (ts[slot].state == Unused || ts[j].state == Running))
              && (forall j :: 0 <= j < SLOTS && j != slot ==> now.tasks[j] == ts[j])
              && now.tasks[slot].id == t.nextId + 1
              && (first == NoChange ==> now.tasks[slot] == Task(t.nextId + 1, Running, -1, fd))
  {
    slot := ChooseSlot(DrainUsed(t.tasks, reports));
  }

  /** A run of events: the last table and the ids handed out, in order. */
  function Run(t: Table, events: seq<Event>): (r: (Table, seq<nat>))
    requires |t.tasks| == SLOTS && forall e :: e in events ==> WellFormed(e)
    ensures |r.0.tasks| == SLOTS
    decreases |events|
  {
    if events == [] then (t, [])
    else
      var (t1, id) := Apply(t, events[0]);
      var (t2, ids) := Run(t1, events[1..]);
      (t2, (if id.Some? then [id.value] else []) + ids)
  }

  /** Over every run: used slots keep distinct ids, ids are handed out consecutively
      in spawn order, and an id that once exists and does not run never runs again. */
  lemma {:induction false} RunKeeps(t: Table, events: seq<Event>)
    requires Inv(t) && forall e :: e in events ==> WellFormed(e)
    ensures var (t', ids) := Run(t, events);
            && Inv(t') && t'.nextId == t.nextId + |ids|
            && (forall k :: 0 <= k < |ids| ==> ids[k] == t.nextId + 1 + k)
            && forall x :: x <= t.nextId && !Runs(t, x) ==> !Runs(t', x)
    decreases |events|
  {
    if events != [] {
      var (t1, id) := Apply(t, events[0]);
      EventKeeps(t, events[0]);
      RunKeeps(t1, events[1..]);
    }
  }
}
