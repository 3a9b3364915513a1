/** The methods of the service's Server that take its lock, each against its step in
    CaptureService. */
module CaptureServer {
  import opened Wrappers
  import opened CaptureService

  class Server {
    const cfg: Config
    var active: Option<nat>
    var states: map<nat, TaskState>
    var tasks: set<nat>
    var history: seq<Task>
    var nextTaskID: nat

    ghost function Model(): Service
      reads this
    {
      Service(active, states, tasks, history, nextTaskID)
    }

    constructor (config: Config)
      ensures cfg == config && Model() == Boot().s
    {
      cfg := config;
      active, states, tasks, history, nextTaskID := None, map[], {}, [], 0;
    }

    method NewTaskState() returns (id: nat)
      modifies this
      ensures Model() == NewTask(old(Model())) && id == nextTaskID
    {
      nextTaskID := nextTaskID + 1;
      id := nextTaskID;
      states := states[id := TaskState(Task(id, Pending, "", 0), "", false, false)];
    }

    method RegisterTask(id: nat)
      modifies this
      ensures Model() == Register(old(Model()), id)
    {
      tasks := tasks + {id};
    }

    method BeginCapture(id: nat) returns (began: bool)
      requires id in states
      modifies this
      ensures began <==> Begin(old(Model()), id).Some?
      ensures Model() == if began then Begin(old(Model()), id).value else old(Model())
    {
      if active.Some? {
        return false;
      }
      var st := states[id];
      states := states[id := st.(task := st.task.(status := Running))];
      active := Some(id);
      return true;
    }

    method DropTask(id: nat)
      modifies this
      ensures Model() == Drop(old(Model()), id)
    {
      tasks := tasks - {id};
    }

    /** The part of finalizeTask in front of endCapture, by what the run came to. */
    method SetFinalStatus(id: nat, outcome: Outcome)
      requires id in states
      modifies this`states
      ensures Model() == Finalize(old(Model()), id, outcome)
    {
      var st := states[id];
      var task := st.task;
      match outcome {
        case Cancelled =>
          var code := if st.stopCode == "" then "CAPTURE_STOPPED" else st.stopCode;
          task := task.(status := Stopped, errorCode := code);
        case CommandError(code) =>
          task := task.(errorCode := code);
          if code == "NO_MATCHED_DEVICE" {
            task := task.(status := NoDevice);
          } else {
            task := task.(status := Status.Failed);
          }
        case OtherError =>
          task := task.(status := Status.Failed, errorCode := "CAPTURE_FAILED");
        case NothingMatched =>
          task := task.(status := NoMatch);
        case SummaryError =>
          task := task.(status := Status.Failed, errorCode := "SUMMARY_FAILED");
        case Captured(packets) =>
          task := task.(status := Completed);
          if packets == 0 {
            task := task.(status := Idle);
          }
      }
      states := states[id := st.(task := task)];
    }

    /** The loop of cleanupHistory over the history. */
    method SortOut(cutoff: int) returns (kept: seq<Task>)
      modifies this`tasks
      ensures kept == CaptureService.Fresh(history, cutoff)
      ensures tasks == old(tasks) - Stale(history, cutoff)
    {
      kept := [];
      for i := 0 to |history|
        invariant kept == CaptureService.Fresh(history[..i], cutoff)
        invariant tasks == old(tasks) - Stale(history[..i], cutoff)
      {
        var t := history[i];
        assert history[..i + 1][..i] == history[..i];
        StaleStep(history, i, cutoff);
        if t.finishedAt == 0 || t.finishedAt > cutoff {
          kept := kept + [t];
        }
        if t.finishedAt != 0 && t.finishedAt < cutoff {
          tasks := tasks - {t.id};
        }
      }
      assert history[..|history|] == history;
    }

    method CleanupHistory(now: nat)
      modifies this`history, this`tasks
      ensures Model() == Cleaned(old(Model()), cfg, now)
    {
      if cfg.ttl == 0 {
        return;
      }
      var kept := SortOut(now - cfg.ttl);
      history := kept;
    }

    /** The loop of recordHistory that forgets tasks, in any order. */
    method ForgetOthers()
      modifies this`tasks
      ensures tasks == set id | id in old(tasks) &&
              ((id in states && states[id].task.status.Running?) || id in Ids(history))
    {
      var keep: set<nat> := {};
      for i := 0 to |history|
        invariant keep == set k | 0 <= k < i :: history[k].id
      {
        keep := keep + {history[i].id};
      }
      assert forall id :: id in keep <==> id in Ids(history) by {
        forall id | id in keep ensures id in Ids(history) {
          var k :| 0 <= k < |history| && history[k].id == id;
          assert Ids(history)[k] == id;
        }
      }
      var rest := tasks;
      while rest != {}
        invariant rest <= tasks <= old(tasks)
        invariant forall id :: id in old(tasks) && id !in rest ==>
                    (id in tasks <==> (id in states && states[id].task.status.Running?) || id in keep)
        invariant forall id :: id in rest ==> id in tasks
        decreases |rest|
      {
        var id :| id in rest;
        rest := rest - {id};
        if !(id in states && states[id].task.status.Running?) && id !in keep {
          tasks := tasks - {id};
        }
      }
    }

    method RecordHistory(task: Task, now: nat)
      modifies this`history, this`tasks
      ensures Model() == Recorded(old(Model()), cfg, task, now)
    {
      history := [task] + history;
      if |history| > cfg.maxHistory {
        history := history[..cfg.maxHistory];
      }
      ForgetOthers();
      CleanupHistory(now);
    }

    method EndCapture(id: nat, now: nat)
      requires id in states
      modifies this
      ensures Model() == End(old(Model()), cfg, id, now)
    {
      if active == Some(id) {
        active := None;
      }
      var st := states[id];
      var task := st.task.(finishedAt := now);
      states := states[id := st.(task := task)];
      RecordHistory(task, now);
    }

    method CloseChannel(id: nat)
      requires id in states
      modifies this`states
      ensures Model() == CloseDone(old(Model()), id)
    {
      states := states[id := states[id].(done := true)];
    }

    method StopCapture(code: string) returns (stopped: bool)
      requires active.Some? ==> active.value in states
      modifies this`states
      ensures stopped == active.Some? && Model() == Stop(old(Model()), code)
    {
      if active.None? {
        return false;
      }
      var id := active.value;
      if id in tasks {
        states := states[id := states[id].(stopCode := code)];
      }
      states := states[id := states[id].(cancelled := true)];
      return true;
    }

    /** None: the task is not the active capture. */
    method StopCaptureByTaskID(id: nat, code: string) returns (stopped: Option<bool>)
      requires active.Some? ==> active.value in states
      modifies this`states
      ensures Model() == StopById(old(Model()), id, code)
      ensures stopped == if active.None? then Some(false) else if active.value == id then Some(true) else None
    {
      if active.None? {
        return Some(false);
      }
      if active.value != id {
        return None;
      }
      var did := StopCapture(code);
      return Some(true);
    }

    method ShutDown()
      requires active.Some? ==> active.value in states
      modifies this
      ensures Model() == Shutdown(old(Model()))
    {
      if active.Some? {
        var stopped := StopCapture("SERVICE_STOPPING");
        active := None;
      }
    }

    method ListAll() returns (out: seq<Task>)
      requires active.Some? ==> active.value in states
      ensures out == ListTasks(Model())
    {
      out := [];
      if active.Some? {
        if active.value in tasks {
          out := [states[active.value].task];
        }
      }
      out := out + history;
    }

    /** Carries out one step, in the world w the server is in. */
    method Dispatch(e: Event, ghost w: World)
      requires Model() == w.s && Kept(w) && Enabled(w, e)
      modifies this
      ensures Model() == Next(w, cfg, e).s
    {
      match e {
        case DoNew => var id := NewTaskState();
        case DoRegister(id) => RegisterTask(id);
        case DoBegin(id) => var began := BeginCapture(id);
        case DoDrop(id) => DropTask(id);
        case DoFinalize(id, outcome) => SetFinalStatus(id, outcome);
        case DoEnd(id, now) => EndCapture(id, now);
        case DoClose(id) => CloseChannel(id);
        case DoStop(code) => var stopped := StopCapture(code);
        case DoStopById(id, code) => var stopped := StopCaptureByTaskID(id, code);
        case MonitorStop(watched, code) => var stopped := StopCapture(code);
        case DoCleanup(now) => CleanupHistory(now);
        case DoShutdown => ShutDown();
      }
    }

    /** Carries out a whole run. */
    method DispatchAll(es: seq<Event>, ghost w: World)
      requires Model() == w.s && Legal(w, cfg, es)
      modifies this
      ensures Model() == Run(w, cfg, es).s
    {
      ghost var now := w;
      var i := 0;
      while i < |es|
        invariant i <= |es| && Model() == now.s
        invariant Legal(now, cfg, es[i..]) && Run(now, cfg, es[i..]) == Run(w, cfg, es)
      {
        RunFirst(now, cfg, es[i..]);
        Dispatch(es[i], now);
        assert es[i..][1..] == es[i + 1..];
        now := Next(now, cfg, es[i]);
        i := i + 1;
      }
    }
  }

  lemma RunFirst(w: World, cfg: Config, es: seq<Event>)
    requires es != [] && Legal(w, cfg, es)
    ensures Kept(w) && Enabled(w, es[0]) && Legal(Next(w, cfg, es[0]), cfg, es[1..])
    ensures Run(w, cfg, es) == Run(Next(w, cfg, es[0]), cfg, es[1..])
  {}

  lemma StaleStep(history: seq<Task>, i: nat, cutoff: int)
    requires i < |history|
    ensures Stale(history[..i + 1], cutoff) == Stale(history[..i], cutoff) +
            if history[i].finishedAt != 0 && history[i].finishedAt < cutoff then {history[i].id} else {}
  {}
}
