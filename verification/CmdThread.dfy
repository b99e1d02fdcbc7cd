/** The command thread of core/rtw_cmd.c as a step system: any number of submitters, one worker,
    the queue semaphore, re-queueing at the head for the LPS wake-up, the completion object on
    the submitter's stack, the drain when the thread leaves, and the next thread started on the same
    queue.  One step is one critical section or one access to shared memory.

    While the chip sleeps, registering CMD_ALIVE fails and the command goes back to the head; the
    next CPWM report raises the semaphore if CMD_ALIVE is registered. */
module CmdThread {

  const MAX_CMDSZ := 1024

  /** Where the submitter of a command is in rtw_enqueue_cmd and after it. */
  datatype Submitter = New | Passed | Inserted | Waiting | Woken | Returned

  /** Which list or hand holds the command. */
  datatype Place = Outside | InQueue | InHand | Gone

  /** A command: its fixed attributes, its two threads' progress, what has been released how
      often, and its submit context.  sctx is the pointer to the waiter's stack frame; wild says
      that the waiter cleared it in an object already freed. */
  datatype Cmd = Cmd(
    extra: bool, waited: bool, size: nat, noIo: bool, allowed: bool, known: bool,
    submitter: Submitter, place: Place,
    bufFreed: nat, parmFreed: nat, objFreed: nat,
    sctx: bool, completed: nat, detached: nat, wild: bool)

  /** Program counter of rtw_cmd_thread. */
  datatype Worker =
    | Parked | Up | Peek | Next | Take
    | Have(id: nat) | Ready(id: nat) | PutBack(id: nat) | Exec(id: nat) | Post(id: nat) | Free(id: nat)
    | Leaving | Stopping | Drain | DrainHave(id: nat) | DrainPost(id: nat) | DrainFree(id: nat)
    | Exited

  /** asleep: the firmware is in power save and its last report was below S2.  Two history variables:
      leftPs says that since the chip last went to sleep or reported, the driver has taken it to be
      awake without a report; drained is how many commands had been accepted when the last drain ended. */
  datatype State = State(
    cmds: seq<Cmd>, queue: seq<nat>, sema: nat, pc: Worker,
    running: bool, stopped: bool, hwInit: bool, asleep: bool, cmdAlive: bool, leftPs: bool,
    accepted: seq<nat>, retired: seq<nat>, drained: nat)

  datatype Event =
    | Submit(c: Cmd)
    | Filter(id: nat) | Insert(id: nat) | UpSema(id: nat) | Wake(id: nat) | Detach(id: nat)
    | StopUp | CpwmUp | Sleep | LeavePs | SetHwInit(on: bool) | StopDriver | StartDriver
    | Down | DownFails | CheckStop | CheckQueue | CheckStopAgain | Dequeue
    | Decide | Register | Requeue | Execute | Signal | Release
    | Unregister | ClearRunning | DrainTake | DrainBuffer | DrainSignal | DrainRelease | Restart

  // ---------------------------------------------------------------- helpers

  function Hand(s: State): seq<nat> {
    match s.pc
    case Have(id) => [id] case Ready(id) => [id] case PutBack(id) => [id]
    case Exec(id) => [id] case Post(id) => [id] case Free(id) => [id]
    case DrainHave(id) => [id] case DrainPost(id) => [id] case DrainFree(id) => [id]
    case _ => []
  }

  predicate SameHistory(s: State, t: State) {
    t.leftPs == s.leftPs && t.accepted == s.accepted && t.retired == s.retired && t.drained == s.drained
  }

  function Put(s: State, id: nat, c: Cmd): (r: State)
    requires id < |s.cmds|
    ensures SameHistory(s, r) && r.pc == s.pc
  {
    s.(cmds := s.cmds[id := c])
  }

  /** rtw_cmd_filter */
  predicate Filtered(s: State, c: Cmd) {
    (!s.hwInit && !c.allowed && !c.noIo) || !s.running
  }

  function FreeBuf(c: Cmd): Cmd { if c.extra then c.(bufFreed := c.bufFreed + 1) else c }

  /** rtw_free_cmd_obj: the parameter block, then the object. */
  function FreeObj(c: Cmd): Cmd { c.(parmFreed := c.parmFreed + 1, objFreed := c.objFreed + 1) }

  /** rtw_sctx_done_err under sctx_mutex. */
  function Done(c: Cmd): Cmd { if c.sctx then c.(completed := c.completed + 1, sctx := false) else c }

  // ---------------------------------------------------------------- the submitter

  predicate Fresh(c: Cmd) {
    c == c.(submitter := New, place := Outside, bufFreed := 0, parmFreed := 0, objFreed := 0,
            sctx := c.waited, completed := 0, detached := 0, wild := false)
    && (c.extra ==> c.known)
  }

  /** The filter and the size check of rtw_enqueue_cmd.  A command that fails either is freed
      there; but the answer is the filter's, so after a failed size check the submitter goes on
      as if the command had been queued. */
  function OnFilter(s: State, id: nat): (r: State)
    requires id < |s.cmds|
    ensures SameHistory(s, r) && r.pc == s.pc
  {
    Put(s, id, Answer(s.cmds[id], !Filtered(s, s.cmds[id])))
  }

  function Answer(c: Cmd, ok: bool): Cmd {
    if !ok || c.size > MAX_CMDSZ then TurnedAway(c, ok) else c.(submitter := Passed)
  }

  /** A command freed instead of queued; told says that its submitter believes it was queued. */
  function TurnedAway(c: Cmd, told: bool): Cmd {
    FreeObj(FreeBuf(c)).(submitter := if told && c.waited then Waiting else Returned)
  }

  /** _rtw_enqueue_cmd at the tail. */
  function OnInsert(s: State, id: nat): (r: State)
    requires id < |s.cmds|
    ensures r.leftPs == s.leftPs && r.accepted == s.accepted + [id] && r.retired == s.retired && r.pc == s.pc
  {
    Put(s, id, s.cmds[id].(submitter := Inserted, place := InQueue))
      .(queue := s.queue + [id], accepted := s.accepted + [id])
  }

  function OnUp(s: State, id: nat): (r: State)
    requires id < |s.cmds|
    ensures SameHistory(s, r) && r.pc == s.pc
  {
    var c := s.cmds[id];
    Put(s, id, c.(submitter := if c.waited then Waiting else Returned)).(sema := s.sema + 1)
  }

  /** After rtw_sctx_wait, under sctx_mutex: clear the command's pointer if it is still pending. */
  function OnDetach(s: State, id: nat): (r: State)
    requires id < |s.cmds|
    ensures SameHistory(s, r) && r.pc == s.pc
  {
    Put(s, id, Detached(s.cmds[id]))
  }

  function Detached(c: Cmd): Cmd {
    if c.completed == 0 then
      c.(sctx := false, detached := c.detached + 1, wild := c.objFreed > 0, submitter := Returned)
    else c.(submitter := Returned)
  }

  // ---------------------------------------------------------------- the worker

  function OnDequeue(s: State): (r: State)
    requires s.queue != [] ==> s.queue[0] < |s.cmds|
    ensures SameHistory(s, r) && !r.pc.Exited?
  {
    if s.queue == [] then s.(pc := Parked, cmdAlive := false)
    else Put(s, s.queue[0], s.cmds[s.queue[0]].(place := InHand)).(queue := s.queue[1..], pc := Have(s.queue[0]))
  }

  /** The size, the command code and the filter. */
  function OnDecide(s: State): (r: State)
    requires s.pc.Have? && s.pc.id < |s.cmds|
    ensures SameHistory(s, r) && !r.pc.Exited?
  {
    var id := s.pc.id;
    var c := s.cmds[id];
    if c.size > MAX_CMDSZ || !c.known then s.(pc := Post(id))
    else if Filtered(s, c) then Put(s, id, FreeBuf(c)).(pc := Post(id))
    else s.(pc := Ready(id))
  }

  /** Under the power lock: a command that needs no chip access gives CMD_ALIVE up, any other
      registers it, which fails while the chip sleeps. */
  function OnRegister(s: State): (r: State)
    requires s.pc.Ready? && s.pc.id < |s.cmds|
    ensures SameHistory(s, r) && !r.pc.Exited?
  {
    var id := s.pc.id;
    if s.cmds[id].noIo then s.(cmdAlive := false, pc := Exec(id))
    else s.(cmdAlive := true, pc := if s.asleep then PutBack(id) else Exec(id))
  }

  /** _rtw_enqueue_cmd at the head. */
  function OnRequeue(s: State): (r: State)
    requires s.pc.PutBack? && s.pc.id < |s.cmds|
    ensures SameHistory(s, r) && !r.pc.Exited?
  {
    var id := s.pc.id;
    Put(s, id, s.cmds[id].(place := InQueue)).(queue := [id] + s.queue, pc := Parked)
  }

  /** The extra buffer of the command in hand is released: by its handler, or by the drain. */
  function OnFreeBuf(s: State, pc: Worker): (r: State)
    requires Hand(s) != [] && Hand(s)[0] < |s.cmds|
    ensures SameHistory(s, r) && r.pc == pc
  {
    Put(s, Hand(s)[0], FreeBuf(s.cmds[Hand(s)[0]])).(pc := pc)
  }

  /** Its completion is signalled, under sctx_mutex. */
  function OnSignal(s: State, pc: Worker): (r: State)
    requires Hand(s) != [] && Hand(s)[0] < |s.cmds|
    ensures SameHistory(s, r) && r.pc == pc
  {
    Put(s, Hand(s)[0], Done(s.cmds[Hand(s)[0]])).(pc := pc)
  }

  function OnRelease(s: State, id: nat, pc: Worker): (r: State)
    requires id < |s.cmds|
    ensures r.leftPs == s.leftPs && r.accepted == s.accepted && r.pc == pc
  {
    Put(s, id, FreeObj(s.cmds[id]).(place := Gone)).(pc := pc, retired := s.retired + [id])
  }

  function OnDrainTake(s: State): (r: State)
    requires s.queue != [] ==> s.queue[0] < |s.cmds|
    ensures r.leftPs == s.leftPs && r.accepted == s.accepted && r.retired == s.retired
    ensures r.pc.Exited? <==> s.queue == []
  {
    if s.queue == [] then s.(pc := Exited, drained := |s.accepted|)
    else Put(s, s.queue[0], s.cmds[s.queue[0]].(place := InHand)).(queue := s.queue[1..], pc := DrainHave(s.queue[0]))
  }

  // ---------------------------------------------------------------- one step

  predicate At(s: State, id: nat, stage: Submitter) {
    id < |s.cmds| && s.cmds[id].submitter == stage
  }

  predicate Possible(s: State, e: Event) {
    match e
    case Submit(c) => Fresh(c)
    case Filter(id) => At(s, id, New)
    case Insert(id) => At(s, id, Passed)
    case UpSema(id) => At(s, id, Inserted)
    case Wake(id) => At(s, id, Waiting)
    case Detach(id) => At(s, id, Woken)
    case Down => s.pc.Parked? && s.sema > 0
    case DownFails => s.pc.Parked?
    case CheckStop => s.pc.Up?
    case CheckQueue => s.pc.Peek?
    case CheckStopAgain => s.pc.Next?
    case Dequeue => s.pc.Take? && (s.queue != [] ==> s.queue[0] < |s.cmds|)
    case Decide => s.pc.Have? && s.pc.id < |s.cmds|
    case Register => s.pc.Ready? && s.pc.id < |s.cmds|
    case Requeue => s.pc.PutBack? && s.pc.id < |s.cmds|
    case Execute => s.pc.Exec? && s.pc.id < |s.cmds|
    case Signal => s.pc.Post? && s.pc.id < |s.cmds|
    case Release => s.pc.Free? && s.pc.id < |s.cmds|
    case Unregister => s.pc.Leaving?
    case ClearRunning => s.pc.Stopping?
    case DrainTake => s.pc.Drain? && (s.queue != [] ==> s.queue[0] < |s.cmds|)
    case DrainBuffer => s.pc.DrainHave? && s.pc.id < |s.cmds|
    case DrainSignal => s.pc.DrainPost? && s.pc.id < |s.cmds|
    case DrainRelease => s.pc.DrainFree? && s.pc.id < |s.cmds|
    case Restart => s.pc.Exited?
    case _ => true
  }

  predicate BySubmitter(e: Event) {
    e.Submit? || e.Filter? || e.Insert? || e.UpSema? || e.Wake? || e.Detach?
  }

  predicate FromOutside(e: Event) {
    e.StopUp? || e.CpwmUp? || e.Sleep? || e.LeavePs? || e.SetHwInit? || e.StopDriver? || e.StartDriver?
  }

  function SubmitterStep(s: State, e: Event): (r: State)
    requires Possible(s, e) && BySubmitter(e)
    ensures r.pc == s.pc && s.accepted <= r.accepted && r.retired == s.retired && r.leftPs == s.leftPs
  {
    match e
    case Submit(c) => s.(cmds := s.cmds + [c])
    case Filter(id) => OnFilter(s, id)
    case Insert(id) => OnInsert(s, id)
    case UpSema(id) => OnUp(s, id)
    case Wake(id) => Put(s, id, s.cmds[id].(submitter := Woken))
    case Detach(id) => OnDetach(s, id)
  }

  /** The driver, its timers and the firmware. */
  function OutsideStep(s: State, e: Event): (r: State)
    requires FromOutside(e)
    ensures r.pc == s.pc && r.accepted == s.accepted && r.retired == s.retired
    ensures r.leftPs <==> e.LeavePs? || (s.leftPs && !e.Sleep? && !e.CpwmUp?)
  {
    match e
    case StopUp => s.(sema := s.sema + 1)
    case CpwmUp => s.(asleep := false, leftPs := false, sema := s.sema + if s.cmdAlive then 1 else 0)
    case LeavePs => s.(asleep := false, leftPs := true)
    case Sleep => s.(asleep := true, leftPs := false)
    case SetHwInit(on) => s.(hwInit := on)
    case StopDriver => s.(stopped := true)
    case StartDriver => s.(stopped := false)
  }

  function WorkerStep(s: State, e: Event): (r: State)
    requires Possible(s, e) && !BySubmitter(e) && !FromOutside(e)
    ensures r.accepted == s.accepted && r.leftPs == s.leftPs
    ensures (s.pc.Exited? ==> e.Restart?) && (r.pc.Exited? ==> e.DrainTake? && s.queue == [])
  {
    match e
    case Down => s.(sema := s.sema - 1, pc := Up)
    case DownFails => s.(pc := Leaving)
    case CheckStop => s.(pc := if s.stopped then Leaving else Peek)
    case CheckQueue => s.(pc := if s.queue == [] then Parked else Next)
    case CheckStopAgain => s.(pc := if s.stopped then Leaving else Take)
    case Dequeue => OnDequeue(s)
    case Decide => OnDecide(s)
    case Register => OnRegister(s)
    case Requeue => OnRequeue(s)
    case Execute => OnFreeBuf(s, Post(s.pc.id))
    case Signal => OnSignal(s, Free(s.pc.id))
    case Release => OnRelease(s, s.pc.id, Next)
    case Unregister => s.(cmdAlive := false, pc := Stopping)
    case ClearRunning => s.(running := false, pc := Drain)
    case DrainTake => OnDrainTake(s)
    case DrainBuffer => OnFreeBuf(s, DrainPost(s.pc.id))
    case DrainSignal => OnSignal(s, DrainFree(s.pc.id))
    case DrainRelease => OnRelease(s, s.pc.id, Drain)
    case Restart => s.(pc := Parked, running := true)
  }

  function Step(s: State, e: Event): State
    requires Possible(s, e)
  {
    if BySubmitter(e) then SubmitterStep(s, e) else if FromOutside(e) then OutsideStep(s, e) else WorkerStep(s, e)
  }

  predicate IsStep(s: State, e: Event, t: State) { Possible(s, e) && t == Step(s, e) }

  /** The first thread has set cmdthd_running and is about to take the semaphore for the first time. */
  ghost predicate Starting(s: State) {
    && s.cmds == [] && s.queue == [] && s.sema == 0 && s.pc == Parked && s.running
    && !s.leftPs && s.accepted == [] && s.retired == [] && s.drained == 0
  }

  // ---------------------------------------------------------------- the invariant

  /** How far the worker is with the command in its hand. */
  datatype Stage = Elsewhere | Unreleased | Released | Signalled

  function StageOf(s: State, id: nat): Stage {
    if Hand(s) != [id] then Elsewhere
    else if s.pc.Have? || s.pc.Ready? || s.pc.PutBack? || s.pc.Exec? || s.pc.DrainHave? then Unreleased
    else if s.pc.Post? || s.pc.DrainPost? then Released
    else Signalled
  }

  /** Freed in rtw_enqueue_cmd, never queued. */
  predicate Rejected(c: Cmd) { c.place.Outside? && !c.submitter.New? && !c.submitter.Passed? }

  predicate Oversized(c: Cmd) { c.size > MAX_CMDSZ }

  /** What has been released, and how often. */
  predicate FreedOk(c: Cmd, g: Stage) {
    && c.bufFreed == (if c.extra && (Rejected(c) || c.place.Gone? || g.Released? || g.Signalled?) then 1 else 0)
    && c.parmFreed == c.objFreed == (if Rejected(c) || c.place.Gone? then 1 else 0)
  }

  /** The handshake between the worker and a waiter that may time out. */
  predicate SctxOk(c: Cmd, g: Stage) {
    && (c.sctx <==> c.waited && c.completed + c.detached == 0)
    && c.completed + c.detached <= (if c.waited && (!c.place.Outside? || Oversized(c)) then 1 else 0)
    && (c.wild <==> c.detached == 1 && c.place.Outside?) && (c.place.Outside? ==> c.completed == 0)
    && (c.completed == 1 ==> c.place.Gone? || g.Signalled?)
    && (c.place.Gone? || g.Signalled? ==> !c.sctx)
    && (c.detached == 1 ==> c.submitter.Returned?)
    && (c.submitter.Returned? && !c.place.Outside? ==> !c.sctx)
  }

  predicate CmdOk(c: Cmd, g: Stage) {
    && (c.place.InHand? <==> !g.Elsewhere?)
    && (c.submitter.New? || c.submitter.Passed? ==> c.place.Outside?)
    && (c.submitter.Inserted? ==> !c.place.Outside?)
    && (c.submitter.Waiting? || c.submitter.Woken? ==> (c.place.Outside? <==> Oversized(c)))
    && (c.submitter.Waiting? || c.submitter.Woken? ==> c.waited)
    && (c.extra ==> c.known) && (c.submitter.Passed? || !c.place.Outside? ==> !Oversized(c))
    && FreedOk(c, g) && SctxOk(c, g)
  }

  predicate CmdsOk(s: State) {
    forall id :: 0 <= id < |s.cmds| ==> CmdOk(s.cmds[id], StageOf(s, id))
  }

  predicate NoDup(q: seq<nat>) { forall i, j :: 0 <= i < j < |q| ==> q[i] != q[j] }

  /** The queue holds exactly the queued commands, once each, and nothing accepted is lost,
      repeated or reordered. */
  predicate QueueOk(s: State) {
    && s.accepted == s.retired + Hand(s) + s.queue
    && NoDup(s.queue)
    && (forall id :: id in s.queue ==> id < |s.cmds| && s.cmds[id].place.InQueue?)
    && (forall id :: 0 <= id < |s.cmds| && s.cmds[id].place.InQueue? ==> id in s.queue)
    && (forall id :: id in Hand(s) ==> id < |s.cmds|)
    && (forall id :: id in s.retired ==> id < |s.cmds| && s.cmds[id].place.Gone?)
    && (forall id :: 0 <= id < |s.cmds| && s.cmds[id].place.Gone? ==> id in s.retired)
  }

  predicate SomeInserted(s: State) { exists id :: 0 <= id < |s.cmds| && s.cmds[id].submitter.Inserted? }

  /** The command needs the chip, which sleeps (or did, until the driver took it to be awake), and
      CMD_ALIVE is registered, so that the next report raises the semaphore. */
  predicate AwaitsReport(s: State, id: nat) {
    id < |s.cmds| && !s.cmds[id].noIo && s.cmdAlive && (s.asleep || s.leftPs)
  }

  /** No lost wake-up; none may get lost while a command is put back; and a command queued while there
      is no thread leaves one for the next. */
  predicate WakeupOk(s: State) {
    && (s.pc.Parked? && s.queue != [] ==> s.sema > 0 || SomeInserted(s) || AwaitsReport(s, s.queue[0]))
    && (s.pc.PutBack? ==> s.sema > 0 || AwaitsReport(s, s.pc.id))
    && (s.pc.Exited? && s.queue != [] ==> s.sema > 0 || SomeInserted(s))
    && (s.leftPs ==> !s.asleep)
    && (s.pc.Exec? && s.pc.id < |s.cmds| ==> (s.cmdAlive <==> !s.cmds[s.pc.id].noIo))
  }

  /** While the worker is in its loop it accepts; when it is gone, what was accepted by the end of its
      drain has been retired. */
  predicate ExitOk(s: State) {
    && (s.running <==> !(s.pc.Drain? || s.pc.DrainHave? || s.pc.DrainPost? || s.pc.DrainFree? || s.pc.Exited?))
    && (s.pc.Exited? ==> |s.retired| == s.drained)
  }

  predicate Inv(s: State) {
    CmdsOk(s) && QueueOk(s) && WakeupOk(s) && ExitOk(s)
  }
}
