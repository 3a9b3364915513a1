/** The capture-task protocol of USBPcapAI/internal/service/server.go. Every method that
    takes the server's lock is one step, and requests, runners, monitors and the
    periodic cleanup interleave in any order. Tasks are addressed by their number. */
module CaptureService {
  import opened Wrappers
  import Sequences

  datatype Status = Pending | Running | Completed | Idle | NoMatch | NoDevice | Stopped | Failed

  predicate IsFinal(s: Status) {
    !s.Pending? && !s.Running?
  }

  /** finishedAt is zero until the task has ended. */
  datatype Task = Task(id: nat, status: Status, errorCode: string, finishedAt: nat)

  /** done says that the channel is closed, cancelled that the context is. */
  datatype TaskState = TaskState(task: Task, stopCode: string, cancelled: bool, done: bool)

  /** ttl is the history's time to live, zero for none. */
  datatype Config = Config(maxHistory: nat, ttl: nat)

  /** states holds every task made, tasks the ids the server still knows. */
  datatype Service = Service(active: Option<nat>, states: map<nat, TaskState>, tasks: set<nat>,
                             history: seq<Task>, nextTaskID: nat)

  /** What the capture run came to. */
  datatype Outcome = Cancelled | CommandError(code: string) | OtherError | NothingMatched | SummaryError
                   | Captured(packets: nat)

  function FinalStatus(o: Outcome): Status {
    match o
    case Cancelled => Stopped
    case CommandError(code) => if code == "NO_MATCHED_DEVICE" then NoDevice else Failed
    case OtherError => Failed
    case NothingMatched => NoMatch
    case SummaryError => Failed
    case Captured(packets) => if packets == 0 then Idle else Completed
  }

  function FinalCode(o: Outcome, st: TaskState): string {
    match o
    case Cancelled => if st.stopCode == "" then "CAPTURE_STOPPED" else st.stopCode
    case CommandError(code) => code
    case OtherError => "CAPTURE_FAILED"
    case SummaryError => "SUMMARY_FAILED"
    case _ => st.task.errorCode
  }

  // ---------- history ----------

  function Fresh(history: seq<Task>, cutoff: int): (kept: seq<Task>)
  {
    if history == [] then []
    else
      var before := Fresh(history[..|history| - 1], cutoff);
      var t := history[|history| - 1];
      if t.finishedAt == 0 || t.finishedAt > cutoff then before + [t] else before
  }

  function Stale(history: seq<Task>, cutoff: int): set<nat> {
    set k | 0 <= k < |history| && history[k].finishedAt != 0 && history[k].finishedAt < cutoff :: history[k].id
  }

  function Ids(history: seq<Task>): (ids: seq<nat>)
    ensures |ids| == |history| && forall k :: 0 <= k < |ids| ==> ids[k] == history[k].id
  {
    seq(|history|, k requires 0 <= k < |history| => history[k].id)
  }

  function Cleaned(s: Service, cfg: Config, now: nat): Service {
    if cfg.ttl == 0 then s
    else s.(history := Fresh(s.history, now - cfg.ttl), tasks := s.tasks - Stale(s.history, now - cfg.ttl))
  }

  function Truncated(history: seq<Task>, n: nat): seq<Task> {
    if |history| > n then history[..n] else history
  }

  function Recorded(s: Service, cfg: Config, task: Task, now: nat): Service {
    var h := Truncated([task] + s.history, cfg.maxHistory);
    var known := set id | id in s.tasks && ((id in s.states && s.states[id].task.status.Running?) || id in Ids(h));
    Cleaned(s.(history := h, tasks := known), cfg, now)
  }

  // ---------- the steps ----------

  function NewTask(s: Service): Service {
    var id := s.nextTaskID + 1;
    s.(nextTaskID := id, states := s.states[id := TaskState(Task(id, Pending, "", 0), "", false, false)])
  }

  function Register(s: Service, id: nat): Service {
    s.(tasks := s.tasks + {id})
  }

  /** None is the refusal "capture already in progress". */
  function Begin(s: Service, id: nat): Option<Service>
    requires id in s.states
  {
    if s.active.Some? then None
    else
      var st := s.states[id];
      Some(s.(active := Some(id), states := s.states[id := st.(task := st.task.(status := Running))]))
  }

  function Drop(s: Service, id: nat): Service {
    s.(tasks := s.tasks - {id})
  }

  function Finalize(s: Service, id: nat, o: Outcome): Service
    requires id in s.states
  {
    var st := s.states[id];
    s.(states := s.states[id := st.(task := st.task.(status := FinalStatus(o), errorCode := FinalCode(o, st)))])
  }

  function End(s: Service, cfg: Config, id: nat, now: nat): Service
    requires id in s.states
  {
    var st := s.states[id];
    var task := st.task.(finishedAt := now);
    Recorded(s.(active := if s.active == Some(id) then None else s.active,
                states := s.states[id := st.(task := task)]),
             cfg, task, now)
  }

  function CloseDone(s: Service, id: nat): Service
    requires id in s.states
  {
    s.(states := s.states[id := s.states[id].(done := true)])
  }

  /** stopCapture: the active capture is cancelled, whichever it is. */
  function Stop(s: Service, code: string): Service
    requires s.active.Some? ==> s.active.value in s.states
  {
    if s.active.None? then s
    else
      var id := s.active.value;
      var st := s.states[id];
      s.(states := s.states[id := st.(stopCode := if id in s.tasks then code else st.stopCode, cancelled := true)])
  }

  function StopById(s: Service, id: nat, code: string): Service
    requires s.active.Some? ==> s.active.value in s.states
  {
    if s.active == Some(id) then Stop(s, code) else s
  }

  function Shutdown(s: Service): Service
    requires s.active.Some? ==> s.active.value in s.states
  {
    Stop(s, "SERVICE_STOPPING").(active := None)
  }

  // ---------- all interleavings ----------

  /** How far the request and runner of a task have got. */
  datatype Phase = Made | Registered | Refused | Dropped | Capturing | Finalized | Ended | Closed

  datatype Event =
    | DoNew
    | DoRegister(id: nat)
    | DoBegin(id: nat)
    | DoDrop(id: nat)
    | DoFinalize(id: nat, outcome: Outcome)
    | DoEnd(id: nat, now: nat)
    | DoClose(id: nat)
    | DoStop(code: string)
    | DoStopById(id: nat, code: string)
    | MonitorStop(watched: nat, code: string)
    | DoCleanup(now: nat)
    | DoShutdown

  /** What a finalized run came to, and the reason noted for stopping it by then, if any. */
  datatype Ending = Ending(outcome: Outcome, reason: string)

  /** log lists the ended tasks, newest first; clock is the latest time read; endings has
      every finalized run. */
  datatype World = World(s: Service, phase: map<nat, Phase>, log: seq<nat>, clock: nat, endings: map<nat, Ending>)

  function Boot(): World {
    World(Service(None, map[], {}, [], 0), map[], [], 1, map[])
  }

  predicate At(w: World, id: nat, p: Phase) {
    id in w.phase && w.phase[id] == p
  }

  /** Each goroutine's own order, a clock that does not go back, and a monitor for
      every capture that has begun, even after its end. */
  predicate Enabled(w: World, e: Event) {
    match e
    case DoNew => true
    case DoRegister(id) => At(w, id, Made)
    case DoBegin(id) => At(w, id, Registered)
    case DoDrop(id) => At(w, id, Refused)
    case DoFinalize(id, o) => At(w, id, Capturing) && (o.Cancelled? ==> id in w.s.states && w.s.states[id].cancelled)
    case DoEnd(id, now) => At(w, id, Finalized) && now >= w.clock
    case DoClose(id) => At(w, id, Ended)
    case MonitorStop(id, _) => id in w.phase && HasBegun(w.phase[id])
    case DoCleanup(now) => now >= w.clock
    case _ => true
  }

  predicate InCapture(p: Phase) {
    p.Capturing? || p.Finalized?
  }

  predicate HasBegun(p: Phase) {
    InCapture(p) || p.Ended? || p.Closed?
  }

  /** Bookkeeping every step keeps: the phases and states of the same tasks. */
  predicate Kept(w: World) {
    && w.phase.Keys == w.s.states.Keys
    && (forall id :: id in w.phase ==> id <= w.s.nextTaskID)
    && (w.s.active.Some? ==> w.s.active.value in w.phase)
  }

  function Next(w: World, cfg: Config, e: Event): World
    requires Enabled(w, e) && Kept(w)
  {
    match e
    case DoNew => w.(s := NewTask(w.s), phase := w.phase[w.s.nextTaskID + 1 := Made])
    case DoRegister(id) => w.(s := Register(w.s, id), phase := w.phase[id := Registered])
    case DoBegin(id) =>
      (match Begin(w.s, id)
       case None => w.(phase := w.phase[id := Refused])
       case Some(s) => w.(s := s, phase := w.phase[id := Capturing]))
    case DoDrop(id) => w.(s := Drop(w.s, id), phase := w.phase[id := Dropped])
    case DoFinalize(id, o) =>
      w.(s := Finalize(w.s, id, o), phase := w.phase[id := Finalized],
         endings := w.endings[id := Ending(o, w.s.states[id].stopCode)])
    case DoEnd(id, now) =>
      World(End(w.s, cfg, id, now), w.phase[id := Phase.Ended], [id] + w.log, now, w.endings)
    case DoClose(id) => w.(s := CloseDone(w.s, id), phase := w.phase[id := Closed])
    case DoStop(code) => w.(s := Stop(w.s, code))
    case DoStopById(id, code) => w.(s := StopById(w.s, id, code))
    case MonitorStop(_, code) => w.(s := Stop(w.s, code))
    case DoCleanup(now) => w.(s := Cleaned(w.s, cfg, now), clock := now)
    case DoShutdown => w.(s := Shutdown(w.s))
  }

  lemma KeptStep(w: World, cfg: Config, e: Event)
    requires Enabled(w, e) && Kept(w)
    ensures Kept(Next(w, cfg, e))
  {}

  // ---------- invariants ----------

  /** active is exactly the task between begin and end. */
  predicate Exclusive(w: World) {
    forall id :: id in w.phase ==> (InCapture(w.phase[id]) <==> w.s.active == Some(id))
  }

  predicate StateFits(p: Phase, st: TaskState) {
    && (st.done <==> p.Closed?)
    && (if p.Capturing? then st.task.status.Running?
        else if HasBegun(p) then IsFinal(st.task.status)
        else st.task.status.Pending?)
    && (st.task.finishedAt != 0 <==> p.Ended? || p.Closed?)
    && (st.task.status.Stopped? ==> st.cancelled && st.task.errorCode != "")
    && (st.task.errorCode != "" ==> IsFinal(st.task.status) && !Succeeded(st.task.status))
  }

  /** The outcomes that report no error. */
  predicate Succeeded(s: Status) {
    s.Completed? || s.Idle? || s.NoMatch?
  }

  predicate StatesFit(w: World) {
    forall id :: id in w.phase && id in w.s.states ==>
      StateFits(w.phase[id], w.s.states[id]) && w.s.states[id].task.id == id
  }

  predicate HasEnded(w: World, id: nat) {
    id in w.phase && (w.phase[id].Ended? || w.phase[id].Closed?)
  }

  /** Every ended task is in the log once, and nothing else. */
  ghost predicate LogOk(w: World) {
    && (forall i, j :: 0 <= i < j < |w.log| ==> w.log[i] != w.log[j])
    && (forall id :: id in w.log <==> HasEnded(w, id))
  }

  predicate Descending(history: seq<Task>) {
    forall i, j :: 0 <= i < j < |history| ==> history[i].finishedAt >= history[j].finishedAt
  }

  /** The history holds the tasks that ended last, newest first, as they ended. */
  predicate HistoryFits(history: seq<Task>, states: map<nat, TaskState>, log: seq<nat>, clock: nat, limit: nat) {
    && |history| <= limit && |history| <= |log|
    && Descending(history)
    && forall k :: 0 <= k < |history| ==>
         && history[k].id == log[k] && 0 < history[k].finishedAt <= clock
         && log[k] in states && states[log[k]].task == history[k]
  }

  predicate HistoryOk(w: World, cfg: Config) {
    w.clock > 0 && HistoryFits(w.s.history, w.s.states, w.log, w.clock, cfg.maxHistory)
  }

  /** The status and error code of a task whose run has been finalized. */
  predicate EndsAs(t: Task, e: Ending) {
    var o := e.outcome;
    && (t.status.Completed? <==> o.Captured? && o.packets >= 1)
    && (t.status.Idle? <==> o.Captured? && o.packets == 0)
    && (t.status.NoMatch? <==> o.NothingMatched?)
    && (t.status.NoDevice? <==> o == CommandError("NO_MATCHED_DEVICE"))
    && (t.status.Stopped? <==> o.Cancelled?)
    && (t.status.Failed? <==> (o.CommandError? && o.code != "NO_MATCHED_DEVICE") || o.OtherError? || o.SummaryError?)
    && (o.Captured? || o.NothingMatched? ==> t.errorCode == "")
    && (o.CommandError? ==> t.errorCode == o.code)
    && (o.OtherError? ==> t.errorCode == "CAPTURE_FAILED")
    && (o.SummaryError? ==> t.errorCode == "SUMMARY_FAILED")
    && (o.Cancelled? ==> t.errorCode == if e.reason == "" then "CAPTURE_STOPPED" else e.reason)
  }

  predicate IsFinalized(p: Phase) {
    p.Finalized? || p.Ended? || p.Closed?
  }

  predicate EndingsFit(w: World) {
    forall id :: id in w.phase && IsFinalized(w.phase[id]) ==>
      id in w.endings && id in w.s.states && EndsAs(w.s.states[id].task, w.endings[id])
  }

  /** The history is short of the allowed number only by tasks it does not have or that
      have been there for their time. */
  predicate Full(history: seq<Task>, states: map<nat, TaskState>, log: seq<nat>, clock: nat, cfg: Config) {
    forall k :: |history| <= k < |log| && k < cfg.maxHistory ==>
      Expired(log[k], states, clock, cfg)
  }

  predicate Expired(id: nat, states: map<nat, TaskState>, clock: nat, cfg: Config) {
    cfg.ttl > 0 && id in states && states[id].task.finishedAt <= clock - cfg.ttl
  }

  predicate HistoryFull(w: World, cfg: Config) {
    Full(w.s.history, w.s.states, w.log, w.clock, cfg)
  }

  /** The active task has begun and not ended, shutdown or not. */
  predicate ActiveRuns(w: World) {
    w.s.active.Some? ==> w.s.active.value in w.phase && InCapture(w.phase[w.s.active.value])
  }

  /** What every step keeps. */
  ghost predicate BooksOk(w: World, cfg: Config) {
    && Kept(w) && ActiveRuns(w) && StatesFit(w) && LogOk(w) && HistoryOk(w, cfg)
    && EndingsFit(w) && HistoryFull(w, cfg)
  }

  /** What every step keeps but a shutdown over an active capture. */
  ghost predicate Inv(w: World, cfg: Config) {
    BooksOk(w, cfg) && Exclusive(w)
  }

  lemma EndingsStep(w: World, cfg: Config, e: Event)
    requires Enabled(w, e) && Kept(w) && StatesFit(w) && EndingsFit(w)
    ensures EndingsFit(Next(w, cfg, e))
  {
    var n := Next(w, cfg, e);
    forall id | id in n.phase && IsFinalized(n.phase[id])
      ensures id in n.endings && id in n.s.states && EndsAs(n.s.states[id].task, n.endings[id])
    {
      if About(e, id) {
        EndingsSelf(w, cfg, e, id);
      } else {
        EndingsOther(w, cfg, e, id);
      }
    }
  }

  /** Of the task e is about. */
  lemma EndingsSelf(w: World, cfg: Config, e: Event, id: nat)
    requires Enabled(w, e) && Kept(w) && StatesFit(w) && EndingsFit(w) && About(e, id)
    ensures var n := Next(w, cfg, e);
      id in n.phase && IsFinalized(n.phase[id]) ==>
        id in n.endings && id in n.s.states && EndsAs(n.s.states[id].task, n.endings[id])
  {
    assert StateFits(w.phase[id], w.s.states[id]);
  }

  lemma EndingsOther(w: World, cfg: Config, e: Event, id: nat)
    requires Enabled(w, e) && Kept(w) && EndingsFit(w) && !About(e, id)
    ensures var n := Next(w, cfg, e);
      id in n.phase && IsFinalized(n.phase[id]) ==>
        id in n.endings && id in n.s.states && EndsAs(n.s.states[id].task, n.endings[id])
  {
    var n := Next(w, cfg, e);
    if id in n.phase && IsFinalized(n.phase[id]) {
      assert n.phase[id] == w.phase[id] && n.endings[id] == w.endings[id];
      assert n.s.states[id].task == w.s.states[id].task;
    }
  }

  lemma ActiveRunsStep(w: World, cfg: Config, e: Event)
    requires Enabled(w, e) && Kept(w) && ActiveRuns(w)
    ensures ActiveRuns(Next(w, cfg, e))
  {}

  lemma ExclusiveStep(w: World, cfg: Config, e: Event)
    requires Enabled(w, e) && Kept(w) && Exclusive(w) && (e.DoShutdown? ==> w.s.active.None?)
    ensures Exclusive(Next(w, cfg, e))
  {}

  /** The task an event is about, if it is one whose state the event changes. */
  predicate About(e: Event, id: nat) {
    match e
    case DoBegin(i) => i == id
    case DoFinalize(i, _) => i == id
    case DoEnd(i, _) => i == id
    case DoClose(i) => i == id
    case _ => false
  }

  lemma StateFitsSelf(w: World, cfg: Config, e: Event, id: nat)
    requires Enabled(w, e) && Kept(w) && StatesFit(w) && w.clock > 0 && About(e, id)
    ensures var n := Next(w, cfg, e);
      id in n.phase && id in n.s.states ==> StateFits(n.phase[id], n.s.states[id]) && n.s.states[id].task.id == id
  {
    assert StateFits(w.phase[id], w.s.states[id]);
  }

  lemma StateFitsOther(w: World, cfg: Config, e: Event, id: nat)
    requires Enabled(w, e) && Kept(w) && StatesFit(w) && !About(e, id)
    ensures var n := Next(w, cfg, e);
      id in n.phase && id in n.s.states ==> StateFits(n.phase[id], n.s.states[id]) && n.s.states[id].task.id == id
  {
    if id in w.phase {
      assert StateFits(w.phase[id], w.s.states[id]);
    }
  }

  lemma StatesFitStep(w: World, cfg: Config, e: Event)
    requires Enabled(w, e) && Kept(w) && StatesFit(w) && w.clock > 0
    ensures StatesFit(Next(w, cfg, e))
  {
    forall id ensures var n := Next(w, cfg, e);
      id in n.phase && id in n.s.states ==> StateFits(n.phase[id], n.s.states[id]) && n.s.states[id].task.id == id
    {
      if About(e, id) {
        StateFitsSelf(w, cfg, e, id);
      } else {
        StateFitsOther(w, cfg, e, id);
      }
    }
  }

  lemma LogStep(w: World, cfg: Config, e: Event)
    requires Enabled(w, e) && Kept(w) && LogOk(w)
    ensures LogOk(Next(w, cfg, e))
  {
    var n := Next(w, cfg, e);
    if e.DoEnd? {
      assert n.log[0] == e.id;
      assert forall k :: 0 <= k < |w.log| ==> n.log[k + 1] == w.log[k];
      assert e.id !in w.log;
      forall id ensures id in n.log <==> HasEnded(n, id) {
        assert id in n.log <==> id == e.id || id in w.log;
      }
    } else {
      forall id ensures HasEnded(n, id) <==> HasEnded(w, id) {}
    }
  }

  lemma {:induction false} FreshAll(history: seq<Task>, cutoff: int)
    requires forall k :: 0 <= k < |history| ==> history[k].finishedAt > cutoff
    ensures Fresh(history, cutoff) == history
  {
    if history != [] {
      var m := |history| - 1;
      FreshAll(history[..m], cutoff);
      Sequences.SnocTake(history, m);
      Sequences.TakeAll(history);
    }
  }

  lemma DescendingFront(history: seq<Task>, m: nat)
    requires Descending(history) && m <= |history|
    ensures Descending(history[..m])
  {}

  /** Old entries lie at the end of the history, so cleaning keeps a front part. */
  lemma {:induction false} FreshIsPrefix(history: seq<Task>, cutoff: int) returns (n: nat)
    requires Descending(history) && forall k :: 0 <= k < |history| ==> history[k].finishedAt > 0
    ensures n <= |history| && Fresh(history, cutoff) == history[..n]
    ensures forall k :: 0 <= k < |history| ==> (k < n <==> history[k].finishedAt > cutoff)
  {
    n := |history|;
    if history != [] {
      var m := |history| - 1;
      if history[m].finishedAt > cutoff {
        FreshAll(history, cutoff);
        Sequences.TakeAll(history);
      } else {
        var before := history[..m];
        DescendingFront(history, m);
        n := FreshIsPrefix(before, cutoff);
        assert before[..n] == history[..n];
        forall k | 0 <= k < |history| ensures k < n <==> history[k].finishedAt > cutoff {
          assert k < m ==> before[k] == history[k];
        }
      }
    }
  }

  lemma CleanedHistory(history: seq<Task>, states: map<nat, TaskState>, log: seq<nat>, clock: nat, limit: nat,
                       cutoff: int)
    requires HistoryFits(history, states, log, clock, limit)
    ensures HistoryFits(Fresh(history, cutoff), states, log, clock, limit)
  {
    var n := FreshIsPrefix(history, cutoff);
  }

  lemma TruncatedHistory(history: seq<Task>, states: map<nat, TaskState>, log: seq<nat>, clock: nat, limit: nat, n: nat)
    requires HistoryFits(history, states, log, clock, limit)
    ensures HistoryFits(Truncated(history, n), states, log, clock, n)
  {}

  lemma LongerHistory(history: seq<Task>, states: map<nat, TaskState>, log: seq<nat>, clock: nat, limit: nat,
                      st: TaskState, task: Task)
    requires HistoryFits(history, states, log, clock, limit) && task.id !in log && task.finishedAt >= clock > 0
    ensures HistoryFits([task] + history, states[task.id := st.(task := task)], [task.id] + log, task.finishedAt,
                        limit + 1)
  {}

  lemma HistoryEnd(w: World, cfg: Config, id: nat, now: nat)
    requires Kept(w) && StatesFit(w) && LogOk(w) && HistoryOk(w, cfg)
    requires At(w, id, Finalized) && now >= w.clock
    ensures HistoryOk(Next(w, cfg, DoEnd(id, now)), cfg)
  {
    var st := w.s.states[id];
    var task := st.task.(finishedAt := now);
    var states := w.s.states[id := st.(task := task)];
    var log := [id] + w.log;
    LongerHistory(w.s.history, w.s.states, w.log, w.clock, cfg.maxHistory, st, task);
    TruncatedHistory([task] + w.s.history, states, log, now, cfg.maxHistory + 1, cfg.maxHistory);
    CleanedHistory(Truncated([task] + w.s.history, cfg.maxHistory), states, log, now, cfg.maxHistory, now - cfg.ttl);
  }

  lemma SameTask(w: World, cfg: Config, e: Event, id: nat)
    requires Enabled(w, e) && Kept(w) && HasEnded(w, id) && !e.DoEnd?
    ensures id in Next(w, cfg, e).s.states && Next(w, cfg, e).s.states[id].task == w.s.states[id].task
  {}

  lemma HistoryStep(w: World, cfg: Config, e: Event)
    requires Enabled(w, e) && Kept(w) && StatesFit(w) && LogOk(w) && HistoryOk(w, cfg)
    ensures HistoryOk(Next(w, cfg, e), cfg)
  {
    if e.DoEnd? {
      HistoryEnd(w, cfg, e.id, e.now);
    } else if e.DoCleanup? {
      CleanedHistory(w.s.history, w.s.states, w.log, w.clock, cfg.maxHistory, e.now - cfg.ttl);
    } else {
      var n := Next(w, cfg, e);
      assert n.s.history == w.s.history && n.log == w.log && n.clock == w.clock;
      forall k | 0 <= k < |w.s.history|
        ensures w.log[k] in n.s.states && n.s.states[w.log[k]].task == w.s.states[w.log[k]].task
      {
        assert w.log[k] in w.log;
        SameTask(w, cfg, e, w.log[k]);
      }
    }
  }

  /** Cleaning drops nothing younger than the time to live. */
  lemma FullCleaned(history: seq<Task>, states: map<nat, TaskState>, log: seq<nat>, clock: nat, now: nat, cfg: Config)
    requires HistoryFits(history, states, log, now, cfg.maxHistory) && Full(history, states, log, clock, cfg)
    requires clock <= now && cfg.ttl > 0
    ensures Full(Fresh(history, now - cfg.ttl), states, log, now, cfg)
  {
    var n := FreshIsPrefix(history, now - cfg.ttl);
    forall k | n <= k < |log| && k < cfg.maxHistory
      ensures Expired(log[k], states, now, cfg)
    {
      if k < |history| {
        assert history[k].finishedAt <= now - cfg.ttl && states[log[k]].task == history[k];
      }
    }
  }

  /** Nor does a new entry drop more than what it pushes over the allowed number. */
  lemma FullLonger(history: seq<Task>, states: map<nat, TaskState>, log: seq<nat>, clock: nat, cfg: Config,
                   st: TaskState, task: Task, h: seq<Task>, states': map<nat, TaskState>, log': seq<nat>)
    requires Full(history, states, log, clock, cfg) && task.id !in log && task.finishedAt >= clock
    requires h == Truncated([task] + history, cfg.maxHistory)
    requires states' == states[task.id := st.(task := task)] && log' == [task.id] + log
    ensures Full(h, states', log', task.finishedAt, cfg)
  {
    forall k | |h| <= k < |log'| && k < cfg.maxHistory
      ensures Expired(log'[k], states', task.finishedAt, cfg)
    {
      assert log'[k] == log[k - 1] && log[k - 1] in log;
    }
  }

  lemma FullEnd(w: World, cfg: Config, id: nat, now: nat)
    requires Kept(w) && StatesFit(w) && LogOk(w) && HistoryOk(w, cfg) && HistoryFull(w, cfg)
    requires At(w, id, Finalized) && now >= w.clock
    ensures HistoryFull(Next(w, cfg, DoEnd(id, now)), cfg)
  {
    var st := w.s.states[id];
    var task := st.task.(finishedAt := now);
    var states := w.s.states[id := st.(task := task)];
    var log := [id] + w.log;
    var h := Truncated([task] + w.s.history, cfg.maxHistory);
    LongerHistory(w.s.history, w.s.states, w.log, w.clock, cfg.maxHistory, st, task);
    TruncatedHistory([task] + w.s.history, states, log, now, cfg.maxHistory + 1, cfg.maxHistory);
    FullLonger(w.s.history, w.s.states, w.log, w.clock, cfg, st, task, h, states, log);
    if cfg.ttl > 0 {
      FullCleaned(h, states, log, now, now, cfg);
    }
  }

  lemma FullStep(w: World, cfg: Config, e: Event)
    requires Enabled(w, e) && Kept(w) && StatesFit(w) && LogOk(w) && HistoryOk(w, cfg) && HistoryFull(w, cfg)
    ensures HistoryFull(Next(w, cfg, e), cfg)
  {
    if e.DoEnd? {
      FullEnd(w, cfg, e.id, e.now);
    } else if e.DoCleanup? {
      FullCleanup(w, cfg, e.now);
    } else {
      FullOther(w, cfg, e);
    }
  }

  lemma FullCleanup(w: World, cfg: Config, now: nat)
    requires Kept(w) && LogOk(w) && HistoryOk(w, cfg) && HistoryFull(w, cfg) && now >= w.clock
    ensures HistoryFull(Next(w, cfg, DoCleanup(now)), cfg)
  {
    var n := Next(w, cfg, DoCleanup(now));
    assert n.log == w.log && n.s.states == w.s.states && n.clock == now;
    if cfg.ttl > 0 {
      FullCleaned(w.s.history, w.s.states, w.log, w.clock, now, cfg);
    } else {
      assert n.s.history == w.s.history;
      assert Full(n.s.history, n.s.states, n.log, n.clock, cfg);
    }
  }

  lemma FullOther(w: World, cfg: Config, e: Event)
    requires Enabled(w, e) && Kept(w) && StatesFit(w) && LogOk(w) && HistoryFull(w, cfg) && !e.DoEnd? && !e.DoCleanup?
    ensures HistoryFull(Next(w, cfg, e), cfg)
  {
    var n := Next(w, cfg, e);
    assert n.s.history == w.s.history && n.log == w.log && n.clock == w.clock;
    forall k | |n.s.history| <= k < |n.log| && k < cfg.maxHistory
      ensures Expired(n.log[k], n.s.states, n.clock, cfg)
    {
      assert w.log[k] in w.log;
      SameTask(w, cfg, e, w.log[k]);
    }
  }

  lemma BooksStep(w: World, cfg: Config, e: Event)
    requires Enabled(w, e) && BooksOk(w, cfg)
    ensures BooksOk(Next(w, cfg, e), cfg)
  {
    KeptStep(w, cfg, e);
    ActiveRunsStep(w, cfg, e);
    StatesFitStep(w, cfg, e);
    LogStep(w, cfg, e);
    HistoryStep(w, cfg, e);
    EndingsStep(w, cfg, e);
    FullStep(w, cfg, e);
  }

  lemma InvStep(w: World, cfg: Config, e: Event)
    requires Enabled(w, e) && Inv(w, cfg) && (e.DoShutdown? ==> w.s.active.None?)
    ensures Inv(Next(w, cfg, e), cfg)
  {
    BooksStep(w, cfg, e);
    ExclusiveStep(w, cfg, e);
  }

  // ---------- whole runs ----------

  /** The steps can be taken one after the other. */
  ghost predicate Legal(w: World, cfg: Config, es: seq<Event>)
    decreases |es|
  {
    es == [] || (Kept(w) && Enabled(w, es[0]) && Legal(Next(w, cfg, es[0]), cfg, es[1..]))
  }

  ghost function Run(w: World, cfg: Config, es: seq<Event>): World
    requires Legal(w, cfg, es)
    decreases |es|
  {
    if es == [] then w else Run(Next(w, cfg, es[0]), cfg, es[1..])
  }

  /** Every shutdown finds no capture active. */
  ghost predicate Quiet(w: World, cfg: Config, es: seq<Event>)
    requires Legal(w, cfg, es)
    decreases |es|
  {
    es == [] || ((es[0].DoShutdown? ==> w.s.active.None?) && Quiet(Next(w, cfg, es[0]), cfg, es[1..]))
  }

  lemma {:induction false} RunKeepsBooks(w: World, cfg: Config, es: seq<Event>)
    requires Legal(w, cfg, es) && BooksOk(w, cfg)
    ensures BooksOk(Run(w, cfg, es), cfg)
    decreases |es|
  {
    if es != [] {
      BooksStep(w, cfg, es[0]);
      RunKeepsBooks(Next(w, cfg, es[0]), cfg, es[1..]);
    }
  }

  lemma {:induction false} RunKeepsInv(w: World, cfg: Config, es: seq<Event>)
    requires Legal(w, cfg, es) && Quiet(w, cfg, es) && Inv(w, cfg)
    ensures Inv(Run(w, cfg, es), cfg)
    decreases |es|
  {
    if es != [] {
      InvStep(w, cfg, es[0]);
      RunKeepsInv(Next(w, cfg, es[0]), cfg, es[1..]);
    }
  }

  /** After any interleaving, shutdowns included: the active task is between begin and
      end; each ended task has entered the history once; the history lists the last
      ended tasks without a gap, newest first, each once, and no more than allowed; and
      a closed done channel means a final status and an entry made. Only a cancelled
      capture is stopped, and only one that did not succeed carries an error code. */
  lemma ProtocolSafety(cfg: Config, es: seq<Event>)
    requires Legal(Boot(), cfg, es)
    ensures var w := Run(Boot(), cfg, es);
      && Kept(w) && ActiveRuns(w)
      && (forall i, j :: 0 <= i < j < |w.log| ==> w.log[i] != w.log[j])
      && (forall id :: HasEnded(w, id) <==> id in w.log)
      && |w.s.history| <= cfg.maxHistory && Ids(w.s.history) <= w.log && Descending(w.s.history)
      && (forall id :: id in w.s.states && w.s.states[id].done ==>
            IsFinal(w.s.states[id].task.status) && w.s.states[id].task.finishedAt != 0 && id in w.log)
      && (forall id :: id in w.s.states && w.s.states[id].task.status.Stopped? ==>
            w.s.states[id].cancelled && w.s.states[id].task.errorCode != "")
      && (forall id :: id in w.s.states && w.s.states[id].task.errorCode != "" ==>
            IsFinal(w.s.states[id].task.status) && !Succeeded(w.s.states[id].task.status))
  {
    RunKeepsBooks(Boot(), cfg, es);
    var w := Run(Boot(), cfg, es);
    assert Ids(w.s.history) == w.log[..|w.s.history|];
    assert forall id :: id in w.s.states ==> StateFits(w.phase[id], w.s.states[id]);
    forall id | id in w.s.states && w.s.states[id].done
      ensures IsFinal(w.s.states[id].task.status) && w.s.states[id].task.finishedAt != 0 && id in w.log
    {
      assert StateFits(w.phase[id], w.s.states[id]);
      assert HasEnded(w, id);
    }
  }

  /** How tasks end, over every interleaving: each that has ended is completed if its run
      captured a packet, idle if it captured none, and so on for each outcome, with the
      error code that goes with it. */
  lemma EndsAsItRan(cfg: Config, es: seq<Event>, id: nat)
    requires Legal(Boot(), cfg, es)
    ensures var w := Run(Boot(), cfg, es);
      HasEnded(w, id) ==> id in w.endings && id in w.s.states && EndsAs(w.s.states[id].task, w.endings[id])
  {
    RunKeepsBooks(Boot(), cfg, es);
  }

  /** And the history misses none of the last ended tasks, as many as are allowed, but
      those older than the time to live; without one it misses none. */
  lemma HistoryComplete(cfg: Config, es: seq<Event>)
    requires Legal(Boot(), cfg, es)
    ensures var w := Run(Boot(), cfg, es);
      && (cfg.ttl == 0 ==> |w.s.history| == if |w.log| < cfg.maxHistory then |w.log| else cfg.maxHistory)
      && forall k :: |w.s.history| <= k < |w.log| && k < cfg.maxHistory ==>
           w.log[k] in w.s.states && w.s.states[w.log[k]].task.finishedAt + cfg.ttl <= w.clock
  {
    RunKeepsBooks(Boot(), cfg, es);
    var w := Run(Boot(), cfg, es);
    var k := |w.s.history|;
    if k < |w.log| && k < cfg.maxHistory {
      assert Expired(w.log[k], w.s.states, w.clock, cfg);
    }
  }

  /** And if no shutdown came over an active capture: at most one task is between begin
      and end, and it is the active one. */
  lemma OneAtATime(cfg: Config, es: seq<Event>)
    requires Legal(Boot(), cfg, es) && Quiet(Boot(), cfg, es)
    ensures var w := Run(Boot(), cfg, es);
      && (forall i, j :: i in w.phase && j in w.phase && InCapture(w.phase[i]) && InCapture(w.phase[j]) ==> i == j)
      && (forall id :: id in w.phase ==> (InCapture(w.phase[id]) <==> w.s.active == Some(id)))
  {
    RunKeepsInv(Boot(), cfg, es);
  }

  /** The done channel is never closed twice. */
  lemma CloseOnce(w: World, cfg: Config, id: nat)
    requires BooksOk(w, cfg) && Enabled(w, DoClose(id))
    ensures !w.s.states[id].done && id in w.log && IsFinal(w.s.states[id].task.status)
    ensures !Enabled(Next(w, cfg, DoClose(id)), DoClose(id))
  {}

  /** Shutdown keeps active tied to the capture exactly when none is running: it clears
      active while the runner goes on. */
  lemma ShutdownExactly(w: World, cfg: Config)
    requires Inv(w, cfg)
    ensures Exclusive(Next(w, cfg, DoShutdown)) <==> w.s.active.None?
  {}

  /** With it, whatever the state, two tasks can be capturing at once. */
  lemma ShutdownOverlaps(w: World, cfg: Config, running: nat, waiting: nat)
    requires Inv(w, cfg) && At(w, running, Capturing) && At(w, waiting, Registered)
    ensures var n := Next(w, cfg, DoShutdown);
      && Kept(n) && Enabled(n, DoBegin(waiting))
      && At(Next(n, cfg, DoBegin(waiting)), running, Capturing)
      && At(Next(n, cfg, DoBegin(waiting)), waiting, Capturing)
  {}

  /** Reached without a shutdown over an active capture. */
  ghost predicate Reachable(cfg: Config, w: World) {
    exists es :: Legal(Boot(), cfg, es) && Quiet(Boot(), cfg, es) && Run(Boot(), cfg, es) == w
  }

  lemma {:induction false} RunSnoc(w: World, cfg: Config, es: seq<Event>, e: Event)
    requires Legal(w, cfg, es) && Quiet(w, cfg, es)
    requires var n := Run(w, cfg, es); Kept(n) && Enabled(n, e) && (e.DoShutdown? ==> n.s.active.None?)
    ensures Legal(w, cfg, es + [e]) && Quiet(w, cfg, es + [e])
    ensures Run(w, cfg, es + [e]) == Next(Run(w, cfg, es), cfg, e)
    decreases |es|
  {
    if es == [] {
      assert Legal(Next(w, cfg, e), cfg, [e][1..]) && Quiet(Next(w, cfg, e), cfg, [e][1..]);
      assert [] + [e] == [e];
    } else {
      RunSnoc(Next(w, cfg, es[0]), cfg, es[1..], e);
      assert (es + [e])[1..] == es[1..] + [e];
    }
  }

  lemma ReachNext(cfg: Config, w: World, e: Event) returns (n: World)
    requires Reachable(cfg, w) && Kept(w) && Enabled(w, e) && (e.DoShutdown? ==> w.s.active.None?)
    ensures n == Next(w, cfg, e) && Reachable(cfg, n) && Kept(n)
  {
    var es :| Legal(Boot(), cfg, es) && Quiet(Boot(), cfg, es) && Run(Boot(), cfg, es) == w;
    RunSnoc(Boot(), cfg, es, e);
    KeptStep(w, cfg, e);
    n := Next(w, cfg, e);
  }

  /** A state in which ShutdownOverlaps applies: two requests, one of them capturing. */
  lemma TwoRequests(cfg: Config) returns (w: World)
    ensures Reachable(cfg, w) && Kept(w) && At(w, 1, Capturing) && At(w, 2, Registered)
    ensures w.s.active == Some(1) && w.clock == 1 && 1 in w.s.tasks && w.s.history == []
    ensures w.s.states[1].task.status == Running && w.s.states[1].task.id == 1 && w.s.states[2].task.status == Pending
  {
    assert Legal(Boot(), cfg, []) && Quiet(Boot(), cfg, []) && Run(Boot(), cfg, []) == Boot();
    w := ReachNext(cfg, Boot(), DoNew);
    w := ReachNext(cfg, w, DoNew);
    w := ReachNext(cfg, w, DoRegister(1));
    w := ReachNext(cfg, w, DoRegister(2));
    w := ReachNext(cfg, w, DoBegin(1));
  }

  /** And from there, without any shutdown: the second request's task is forgotten when
      the first capture ends, yet captures; and the first one's monitor is still there. */
  lemma ForgottenCapture(cfg: Config) returns (w: World)
    ensures Reachable(cfg, w) && Kept(w) && HasEnded(w, 1) && At(w, 2, Capturing)
    ensures w.s.active == Some(2) && 2 !in w.s.tasks
    ensures Enabled(w, MonitorStop(1, "CAPTURE_IDLE_TIMEOUT"))
  {
    w := TwoRequests(cfg);
    w := ReachNext(cfg, w, DoFinalize(1, Captured(5)));
    var s := w.s;
    w := ReachNext(cfg, w, DoEnd(1, 1));
    RecordedKeeps(s.(active := None, states := w.s.states), cfg, w.s.states[1].task, 1, 2);
    w := ReachNext(cfg, w, DoBegin(2));
  }

  // ---------- stopping ----------

  /** A monitor's stop cancels its own capture exactly when that is the active one;
      otherwise it cancels the one that is. */
  lemma MonitorStopHits(w: World, cfg: Config, watched: nat, code: string, id: nat)
    requires BooksOk(w, cfg) && Enabled(w, MonitorStop(watched, code)) && id in w.s.states
    ensures var n := Next(w, cfg, MonitorStop(watched, code)).s.states[id];
      && (n.cancelled <==> w.s.states[id].cancelled || w.s.active == Some(id))
      && n.task == w.s.states[id].task
      && n.stopCode == (if w.s.active == Some(id) && id in w.s.tasks then code else w.s.states[id].stopCode)
  {}

  /** So a monitor that outlives its capture stops the next one. */
  lemma StaleMonitor(w: World, cfg: Config, past: nat, current: nat, code: string)
    requires Inv(w, cfg) && HasEnded(w, past) && At(w, current, Capturing)
    ensures Enabled(w, MonitorStop(past, code)) && past != current
    ensures Next(w, cfg, MonitorStop(past, code)).s.states[current].cancelled
  {
    MonitorStopHits(w, cfg, past, code, current);
  }

  /** A stop by number cancels the task of that number, if it is the active one, and no
      other. */
  lemma StopByIdHits(w: World, cfg: Config, target: nat, code: string, id: nat)
    requires BooksOk(w, cfg) && id in w.s.states
    ensures var n := Next(w, cfg, DoStopById(target, code)).s.states[id];
      && (n.cancelled <==> w.s.states[id].cancelled || (id == target && w.s.active == Some(target)))
      && n.task == w.s.states[id].task
      && n.stopCode == (if id == target && w.s.active == Some(target) && id in w.s.tasks then code
                        else w.s.states[id].stopCode)
  {}

  /** A shutdown cancels the active task, notes why if the task is known, and leaves none
      active; nothing else changes. */
  lemma ShutdownHits(w: World, cfg: Config, id: nat)
    requires BooksOk(w, cfg) && id in w.s.states
    ensures var n := Next(w, cfg, DoShutdown).s;
      && n.active == None && n.tasks == w.s.tasks && n.history == w.s.history
      && (n.states[id].cancelled <==> w.s.states[id].cancelled || w.s.active == Some(id))
      && n.states[id].task == w.s.states[id].task
      && n.states[id].stopCode == (if w.s.active == Some(id) && id in w.s.tasks then "SERVICE_STOPPING"
                                   else w.s.states[id].stopCode)
  {}

  /** A new task is unlike any before, pends, and is not known until it is registered. A
      task begins exactly when none is active, and is the active one then. */
  lemma MadeAndBegun(w: World, cfg: Config, id: nat)
    requires BooksOk(w, cfg)
    ensures var n := Next(w, cfg, DoNew).s;
      && n.nextTaskID == w.s.nextTaskID + 1 && n.nextTaskID !in w.s.states && n.tasks == w.s.tasks
      && n.states == w.s.states[n.nextTaskID := TaskState(Task(n.nextTaskID, Pending, "", 0), "", false, false)]
    ensures At(w, id, Registered) ==>
      var n := Next(w, cfg, DoBegin(id));
      && (At(n, id, Capturing) <==> w.s.active == None) && (At(n, id, Refused) <==> w.s.active != None)
      && n.s.active == (if w.s.active == None then Some(id) else w.s.active)
      && n.s.states[id].task.status == (if w.s.active == None then Running else Pending)
  {
    if At(w, id, Registered) {
      assert StateFits(w.phase[id], w.s.states[id]);
    }
  }

  // ---------- which tasks the server knows ----------

  predicate Unfinished(p: Phase) {
    p.Registered? || p.Refused? || InCapture(p)
  }

  lemma RecordedKeeps(s: Service, cfg: Config, task: Task, now: nat, id: nat)
    requires id in s.states && id !in Ids(s.history) && id != task.id
    ensures id in Recorded(s, cfg, task, now).tasks <==> id in s.tasks && s.states[id].task.status.Running?
  {}

  lemma UnfinishedNotInHistory(w: World, cfg: Config, id: nat)
    requires BooksOk(w, cfg) && id in w.phase && Unfinished(w.phase[id])
    ensures id !in Ids(w.s.history) && forall k :: 0 <= k < |w.s.history| ==> w.s.history[k].id != id
  {}

  /** A task whose capture has not ended is forgotten by exactly one kind of step: the
      end of another capture while its own does not run. One that has been stays
      forgotten. With one capture at a time, that is a task that has not begun. */
  lemma KnownExactly(w: World, cfg: Config, e: Event, id: nat)
    requires BooksOk(w, cfg) && Enabled(w, e)
    requires id in w.phase && Unfinished(w.phase[id]) && Unfinished(Next(w, cfg, e).phase[id])
    ensures id in Next(w, cfg, e).s.tasks <==> id in w.s.tasks && (e.DoEnd? ==> w.phase[id].Capturing?)
    ensures Exclusive(w) && e.DoEnd? ==> !InCapture(w.phase[id])
  {
    UnfinishedNotInHistory(w, cfg, id);
    if e.DoEnd? {
      assert id != e.id && StateFits(w.phase[id], w.s.states[id]);
      var st := w.s.states[e.id];
      var task := st.task.(finishedAt := e.now);
      var active := if w.s.active == Some(e.id) then None else w.s.active;
      RecordedKeeps(w.s.(active := active, states := w.s.states[e.id := st.(task := task)]), cfg, task, e.now, id);
    }
  }

  /** Registration makes a task known, dropping it unknown; nothing else but the end of a
      capture and the cleanup changes what is known. */
  lemma KnownOtherwise(w: World, cfg: Config, e: Event, id: nat)
    requires Enabled(w, e) && Kept(w) && !e.DoEnd? && !e.DoCleanup?
    ensures id in Next(w, cfg, e).s.tasks <==> e == DoRegister(id) || (id in w.s.tasks && e != DoDrop(id))
  {}

  /** Once a capture ends, an ended task stays known exactly as long as it is among the
      first of the history, the new one in front, and not older than the time to live. */
  lemma KnownFinished(w: World, cfg: Config, id: nat, now: nat, other: nat)
    requires BooksOk(w, cfg) && Enabled(w, DoEnd(id, now)) && HasEnded(Next(w, cfg, DoEnd(id, now)), other)
    ensures var n := Next(w, cfg, DoEnd(id, now));
            var first := [id] + Ids(w.s.history);
      && other in n.s.states
      && (other in n.s.tasks <==>
            && other in w.s.tasks && other in (if |first| > cfg.maxHistory then first[..cfg.maxHistory] else first)
            && (cfg.ttl == 0 || n.s.states[other].task.finishedAt + cfg.ttl >= now))
  {
    var task := w.s.states[id].task.(finishedAt := now);
    assert task.id == id;
    FirstIds(task, w.s.history, cfg.maxHistory);
    KnownIn(w, cfg, id, now, Truncated([task] + w.s.history, cfg.maxHistory), other);
  }

  lemma FirstIds(task: Task, history: seq<Task>, n: nat)
    ensures var first := [task.id] + Ids(history);
      Ids(Truncated([task] + history, n)) == if |first| > n then first[..n] else first
  {}

  lemma KnownIn(w: World, cfg: Config, id: nat, now: nat, h: seq<Task>, other: nat)
    requires BooksOk(w, cfg) && Enabled(w, DoEnd(id, now)) && HasEnded(Next(w, cfg, DoEnd(id, now)), other)
    requires h == Truncated([w.s.states[id].task.(finishedAt := now)] + w.s.history, cfg.maxHistory)
    ensures var n := Next(w, cfg, DoEnd(id, now));
      && other in n.s.states
      && (other in n.s.tasks <==> other in w.s.tasks && other in Ids(h)
                                  && (cfg.ttl == 0 || n.s.states[other].task.finishedAt + cfg.ttl >= now))
  {
    var n := Next(w, cfg, DoEnd(id, now));
    if other in w.phase {
      assert StateFits(w.phase[other], w.s.states[other]);
    }
    forall k | 0 <= k < |h| && h[k].id == other ensures h[k] == n.s.states[other].task {}
    if other in Ids(h) {
      var k :| 0 <= k < |h| && Ids(h)[k] == other;
      assert h[k].id == other;
    }
  }

  /** What listTasks returns. */
  function ListTasks(s: Service): seq<Task>
    requires s.active.Some? ==> s.active.value in s.states
  {
    (if s.active.Some? && s.active.value in s.tasks then [s.states[s.active.value].task] else []) + s.history
  }

  /** No task is listed twice: the active one is never in the history yet. */
  lemma ListedOnce(w: World, cfg: Config)
    requires BooksOk(w, cfg)
    ensures forall i, j :: 0 <= i < j < |ListTasks(w.s)| ==> ListTasks(w.s)[i].id != ListTasks(w.s)[j].id
    ensures |ListTasks(w.s)| <= cfg.maxHistory + 1
  {}

  /** Listed are the active task, if it is known, and those of the history; the active one
      comes first. */
  lemma ListedExactly(w: World, cfg: Config, t: Task)
    requires BooksOk(w, cfg)
    ensures t in ListTasks(w.s) <==> t in w.s.history || (w.s.active.Some? && w.s.active.value in w.s.tasks
                                                          && t == w.s.states[w.s.active.value].task)
    ensures w.s.active.Some? && w.s.active.value in w.s.tasks ==>
            ListTasks(w.s) != [] && ListTasks(w.s)[0] == w.s.states[w.s.active.value].task
  {}

  /** Cleaning drops from the history exactly the tasks finished at or before the
      cutoff, and forgets exactly those finished before it. */
  lemma CleaningExactly(w: World, cfg: Config, now: nat, k: nat)
    requires BooksOk(w, cfg) && now >= w.clock && cfg.ttl > 0 && k < |w.s.history|
    ensures var t, n := w.s.history[k], Cleaned(w.s, cfg, now);
      && (t.id in Ids(n.history) <==> t.finishedAt > now - cfg.ttl)
      && (t.id in n.tasks <==> t.id in w.s.tasks && t.finishedAt >= now - cfg.ttl)
  {
    var cutoff := now - cfg.ttl;
    var n := FreshIsPrefix(w.s.history, cutoff);
    var t := w.s.history[k];
    assert forall i :: 0 <= i < |w.s.history| ==> w.s.history[i].id == w.log[i];
    assert forall i :: 0 <= i < |w.s.history| && w.s.history[i].id == t.id ==> i == k;
    if k < n {
      assert Ids(w.s.history[..n])[k] == t.id;
    }
  }
}
