/** Every interleaving of submitters, timeouts, the worker and the drain keeps the invariant of
    CmdThread; what follows from it for a whole run. */
module CmdThreadRun {
  import opened CmdThread

  // ---------------------------------------------------------------- framing

  predicate ExitPc(pc: Worker) { pc.Drain? || pc.DrainHave? || pc.DrainPost? || pc.DrainFree? || pc.Exited? }

  /** One command changes, the queue and the worker stay as they are. */
  lemma OneCmdKeeps(s: State, t: State, id: nat)
    requires Inv(s) && id < |s.cmds| == |t.cmds| && t == Put(s, id, t.cmds[id]).(sema := t.sema)
    requires CmdOk(t.cmds[id], StageOf(s, id))
    requires t.cmds[id].place == s.cmds[id].place
    requires t.cmds[id].noIo == s.cmds[id].noIo
    requires t.sema > 0 || (t.sema == s.sema && (s.cmds[id].submitter.Inserted? ==> t.cmds[id].submitter.Inserted?))
    ensures Inv(t)
  {
    hide CmdOk, NoDup, WakeupOk, SomeInserted;
    OneCmdWakes(s, t, id);
  }

  lemma OneCmdWakes(s: State, t: State, id: nat)
    requires WakeupOk(s) && id < |s.cmds| == |t.cmds| && t == Put(s, id, t.cmds[id]).(sema := t.sema)
    requires t.cmds[id].noIo == s.cmds[id].noIo
    requires t.sema > 0 || (t.sema == s.sema && (s.cmds[id].submitter.Inserted? ==> t.cmds[id].submitter.Inserted?))
    ensures WakeupOk(t)
  {
    if SomeInserted(s) && t.sema == s.sema == 0 {
      var k :| 0 <= k < |s.cmds| && s.cmds[k].submitter.Inserted?;
      assert t.cmds[k].submitter.Inserted?;
    }
  }

  /** The worker moves and may change the command in its hand; the queue stays as it is. */
  lemma WorkerKeeps(s: State, t: State)
    requires Inv(s) && t == s.(cmds := t.cmds, pc := t.pc, sema := t.sema, cmdAlive := t.cmdAlive) && WakeupOk(t)
    requires |t.cmds| == |s.cmds| && !s.pc.Exited? && !t.pc.Exited? && (ExitPc(s.pc) <==> ExitPc(t.pc))
    requires Hand(t) == Hand(s)
    requires forall id :: 0 <= id < |s.cmds| && Hand(s) != [id] ==> t.cmds[id] == s.cmds[id]
    requires forall id :: id in Hand(s) ==> id < |t.cmds| && CmdOk(t.cmds[id], StageOf(t, id))
                                            && t.cmds[id].place.InHand?
    ensures Inv(t)
  {
    hide CmdOk, NoDup, WakeupOk;
    forall id | 0 <= id < |t.cmds| ensures CmdOk(t.cmds[id], StageOf(t, id))
    {
      if Hand(s) == [id] { assert id in Hand(s); }
    }
    forall id | 0 <= id < |t.cmds| && Hand(s) == [id]
      ensures t.cmds[id].place.InHand? && s.cmds[id].place.InHand?
    {
      assert id in Hand(s);
      HandOk(s, id);
    }
  }

  lemma HandOk(s: State, id: nat)
    requires Inv(s) && id in Hand(s)
    ensures id < |s.cmds| && Hand(s) == [id] && CmdOk(s.cmds[id], StageOf(s, id))
    ensures s.cmds[id].place.InHand?
  {
    hide NoDup, WakeupOk, FreedOk, SctxOk;
  }

  // ---------------------------------------------------------------- the submitter's steps

  lemma SubmitKeeps(s: State, c: Cmd)
    requires Inv(s) && Fresh(c)
    ensures Inv(Step(s, Submit(c)))
  {
    hide NoDup, CmdOk, Fresh;
    var t := Step(s, Submit(c));
    assert |s.cmds| !in Hand(s);
    FreshCmd(c);
    if SomeInserted(s) {
      var k :| 0 <= k < |s.cmds| && s.cmds[k].submitter.Inserted?;
      assert t.cmds[k].submitter.Inserted?;
    }
  }

  lemma FreshCmd(c: Cmd)
    requires Fresh(c)
    ensures CmdOk(c, Elsewhere) && c.place.Outside?
  {
  }

  predicate SamePlace(d: Cmd, c: Cmd) { d.place == c.place && d.noIo == c.noIo }

  lemma FilterKeeps(s: State, id: nat)
    requires Inv(s) && At(s, id, New)
    ensures Inv(OnFilter(s, id))
  {
    hide CmdOk, NoDup, Answer, WakeupOk;
    FilterCmd(s.cmds[id], StageOf(s, id));
    OneCmdKeeps(s, OnFilter(s, id), id);
  }

  /** Freed before it was queued; or oversized and its submitter none the wiser; or let through. */
  lemma FilterCmd(c: Cmd, g: Stage)
    requires CmdOk(c, g) && c.submitter.New?
    ensures forall ok :: CmdOk(Answer(c, ok), g) && SamePlace(Answer(c, ok), c)
  {
  }

  lemma InsertKeeps(s: State, id: nat)
    requires Inv(s) && At(s, id, Passed)
    ensures Inv(OnInsert(s, id))
  {
    hide NoDup, CmdOk;
    var t := OnInsert(s, id);
    assert CmdOk(s.cmds[id], StageOf(s, id));
    NotYetQueued(s, id);
    InsertCmd(s.cmds[id]);
    assert t.cmds[id].submitter.Inserted?;
    NoDupAppend(s.queue, id);
  }

  lemma NotYetQueued(s: State, id: nat)
    requires Inv(s) && At(s, id, Passed)
    ensures s.cmds[id].place.Outside? && StageOf(s, id).Elsewhere?
  {
    hide NoDup, WakeupOk, FreedOk, SctxOk;
    assert CmdOk(s.cmds[id], StageOf(s, id));
  }

  lemma InsertCmd(c: Cmd)
    requires CmdOk(c, Elsewhere) && c.submitter.Passed?
    ensures CmdOk(c.(submitter := Inserted, place := InQueue), Elsewhere)
  {
  }

  lemma NoDupAppend(q: seq<nat>, id: nat)
    requires NoDup(q) && id !in q
    ensures NoDup(q + [id]) && NoDup([id] + q)
  {
  }

  lemma UpKeeps(s: State, id: nat)
    requires Inv(s) && At(s, id, Inserted)
    ensures Inv(OnUp(s, id))
  {
    hide CmdOk, NoDup, WakeupOk;
    UpCmd(s.cmds[id], StageOf(s, id));
    OneCmdKeeps(s, OnUp(s, id), id);
  }

  lemma UpCmd(c: Cmd, g: Stage)
    requires CmdOk(c, g) && c.submitter.Inserted?
    ensures CmdOk(c.(submitter := if c.waited then Waiting else Returned), g)
  {
  }

  lemma WakeKeeps(s: State, id: nat)
    requires Inv(s) && At(s, id, Waiting)
    ensures Inv(Put(s, id, s.cmds[id].(submitter := Woken)))
  {
    hide CmdOk, NoDup, WakeupOk;
    WakeCmd(s.cmds[id], StageOf(s, id));
    OneCmdKeeps(s, Put(s, id, s.cmds[id].(submitter := Woken)), id);
  }

  lemma WakeCmd(c: Cmd, g: Stage)
    requires CmdOk(c, g) && c.submitter.Waiting?
    ensures CmdOk(c.(submitter := Woken), g)
  {
  }

  lemma DetachKeeps(s: State, id: nat)
    requires Inv(s) && At(s, id, Woken)
    ensures Inv(OnDetach(s, id))
  {
    hide CmdOk, NoDup, WakeupOk, Detached;
    DetachCmd(s.cmds[id], StageOf(s, id));
    OneCmdKeeps(s, OnDetach(s, id), id);
  }

  /** The pointer is cleared in a live object, unless the command was oversized. */
  lemma DetachCmd(c: Cmd, g: Stage)
    requires CmdOk(c, g) && c.submitter.Woken?
    ensures CmdOk(Detached(c), g) && SamePlace(Detached(c), c)
  {
  }

  // ---------------------------------------------------------------- the worker's steps

  lemma DequeueKeeps(s: State)
    requires Inv(s) && s.pc.Take? && (s.queue != [] ==> s.queue[0] < |s.cmds|)
    ensures Inv(OnDequeue(s))
  {
    if s.queue == [] { WorkerKeeps(s, OnDequeue(s)); } else { TakeHead(s, OnDequeue(s)); }
  }

  lemma DrainTakeKeeps(s: State)
    requires Inv(s) && s.pc.Drain? && (s.queue != [] ==> s.queue[0] < |s.cmds|)
    ensures Inv(OnDrainTake(s))
  {
    hide CmdOk, NoDup;
    if s.queue != [] { TakeHead(s, OnDrainTake(s)); }
  }

  /** Taking the head of the queue into the worker's hand. */
  lemma TakeHead(s: State, t: State)
    requires Inv(s) && s.queue != [] && Hand(s) == [] && s.queue[0] < |s.cmds|
    requires t == Put(s, s.queue[0], s.cmds[s.queue[0]].(place := InHand))
                    .(queue := s.queue[1..], pc := t.pc)
    requires t.pc in {Have(s.queue[0]), DrainHave(s.queue[0])} && !s.pc.Exited? && (ExitPc(s.pc) <==> ExitPc(t.pc))
    ensures Inv(t)
  {
    hide NoDup, CmdOk, WakeupOk;
    var h := s.queue[0];
    assert s.queue == [h] + t.queue;
    assert h in s.queue && CmdOk(s.cmds[h], Elsewhere);
    TakeCmd(s.cmds[h]);
    NoDupTail(s.queue);
    assert CmdsOk(t);
    assert t.accepted == t.retired + Hand(t) + t.queue;
    forall id | id in t.queue ensures id in s.queue && id != h {}
    forall id | 0 <= id < |t.cmds| && t.cmds[id].place.InQueue? ensures id in t.queue {
      assert id in s.queue && id != h;
    }
    HandNotParked(s, t);
  }

  lemma HandNotParked(s: State, t: State)
    requires WakeupOk(s) && (t.pc.Have? || t.pc.DrainHave?) && t.leftPs == s.leftPs && t.asleep == s.asleep
    ensures WakeupOk(t)
  {
  }

  lemma TakeCmd(c: Cmd)
    requires CmdOk(c, Elsewhere) && c.place.InQueue?
    ensures CmdOk(c.(place := InHand), Unreleased)
  {
  }

  lemma NoDupTail(q: seq<nat>)
    requires NoDup(q) && q != []
    ensures NoDup(q[1..]) && q[0] !in q[1..]
  {
  }

  lemma DecideKeeps(s: State)
    requires Inv(s) && s.pc.Have? && s.pc.id < |s.cmds|
    ensures Inv(OnDecide(s))
  {
    hide Inv, CmdOk, Filtered, FreeBuf, Put;
    HaveOk(s);
    var c := s.cmds[s.pc.id];
    if !c.known { UnknownKeeps(s); } else if Filtered(s, c) { DropKeeps(s); } else { ReadyKeeps(s); }
  }

  lemma HaveOk(s: State)
    requires Inv(s) && s.pc.Have? && s.pc.id < |s.cmds|
    ensures CmdOk(s.cmds[s.pc.id], Unreleased) && s.cmds[s.pc.id].place.InHand?
    ensures !Oversized(s.cmds[s.pc.id])
  {
    hide NoDup, WakeupOk, CmdOk;
    assert s.pc.id in Hand(s);
    HandOk(s, s.pc.id);
    DecideCmd(s.cmds[s.pc.id]);
  }

  lemma UnknownKeeps(s: State)
    requires Inv(s) && s.pc.Have? && s.pc.id < |s.cmds| && !s.cmds[s.pc.id].known
    ensures Inv(s.(pc := Post(s.pc.id)))
  {
    hide CmdOk, NoDup;
    HaveOk(s);
    DecideCmd(s.cmds[s.pc.id]);
    WorkerKeeps(s, s.(pc := Post(s.pc.id)));
  }

  lemma DropKeeps(s: State)
    requires Inv(s) && s.pc.Have? && s.pc.id < |s.cmds|
    ensures Inv(Put(s, s.pc.id, FreeBuf(s.cmds[s.pc.id])).(pc := Post(s.pc.id)))
  {
    hide CmdOk, NoDup, FreeBuf;
    HaveOk(s);
    DecideCmd(s.cmds[s.pc.id]);
    WorkerKeeps(s, Put(s, s.pc.id, FreeBuf(s.cmds[s.pc.id])).(pc := Post(s.pc.id)));
  }

  lemma ReadyKeeps(s: State)
    requires Inv(s) && s.pc.Have? && s.pc.id < |s.cmds|
    ensures Inv(s.(pc := Ready(s.pc.id)))
  {
    hide CmdOk, NoDup;
    HaveOk(s);
    WorkerKeeps(s, s.(pc := Ready(s.pc.id)));
  }

  /** A command that goes on to post_process has lost its buffer; one of an unknown code has none, and
      none in the queue is oversized. */
  lemma DecideCmd(c: Cmd)
    requires CmdOk(c, Unreleased) && c.place.InHand?
    ensures CmdOk(FreeBuf(c), Released) && !Oversized(c) && (!c.known ==> CmdOk(c, Released))
    ensures FreeBuf(c).place == c.place && FreeBuf(c).noIo == c.noIo
  {
  }

  lemma RegisterKeeps(s: State)
    requires Inv(s) && s.pc.Ready? && s.pc.id < |s.cmds|
    ensures Inv(OnRegister(s))
  {
    hide Inv, CmdOk, NoDup, WakeupOk, OnRegister;
    assert s.pc.id in Hand(s);
    HandOk(s, s.pc.id);
    RegisterWakes(s);
    WorkerKeeps(s, OnRegister(s));
  }

  lemma RegisterWakes(s: State)
    requires Inv(s) && s.pc.Ready? && s.pc.id < |s.cmds|
    ensures var t := OnRegister(s);
      && WakeupOk(t) && t == s.(cmdAlive := t.cmdAlive, pc := t.pc)
      && (t.pc == PutBack(s.pc.id) || t.pc == Exec(s.pc.id))
  {
    hide CmdOk, NoDup, CmdsOk, QueueOk, ExitOk;
  }

  lemma ExecuteKeeps(s: State)
    requires Inv(s) && s.pc.Exec? && s.pc.id < |s.cmds|
    ensures Inv(OnFreeBuf(s, Post(s.pc.id)))
  {
    hide CmdOk, NoDup, FreeBuf;
    assert s.pc.id in Hand(s);
    HandOk(s, s.pc.id);
    DecideCmd(s.cmds[s.pc.id]);
    WorkerKeeps(s, OnFreeBuf(s, Post(s.pc.id)));
  }

  /** Back at the head for the LPS wake-up: the order of the commands does not change, and the wake-up
      is not lost even if the report came between the failed registration and the insertion. */
  lemma RequeueKeeps(s: State)
    requires Inv(s) && s.pc.PutBack? && s.pc.id < |s.cmds|
    ensures Inv(OnRequeue(s)) && OnRequeue(s).accepted == s.accepted
  {
    var h := s.pc.id;
    var t := OnRequeue(s);
    assert h in Hand(s);
    HandOk(s, h);
    PutBackCmd(s.cmds[h]);
    hide CmdOk;
    assert t.queue[0] == h && t.cmds[h].noIo == s.cmds[h].noIo;
    assert h !in s.queue;
    NoDupAppend(s.queue, h);
    assert CmdsOk(t);
    assert t.accepted == t.retired + Hand(t) + t.queue;
  }

  lemma PutBackCmd(c: Cmd)
    requires CmdOk(c, Unreleased) && c.place.InHand?
    ensures CmdOk(c.(place := InQueue), Elsewhere)
  {
  }

  lemma SignalKeeps(s: State)
    requires Inv(s) && s.pc.Post? && s.pc.id < |s.cmds|
    ensures Inv(OnSignal(s, Free(s.pc.id)))
  {
    hide CmdOk, NoDup, Done;
    assert s.pc.id in Hand(s);
    HandOk(s, s.pc.id);
    DoneCmd(s.cmds[s.pc.id]);
    WorkerKeeps(s, OnSignal(s, Free(s.pc.id)));
  }

  lemma DrainSignalKeeps(s: State)
    requires Inv(s) && s.pc.DrainPost? && s.pc.id < |s.cmds|
    ensures Inv(OnSignal(s, DrainFree(s.pc.id)))
  {
    hide CmdOk, NoDup, Done;
    assert s.pc.id in Hand(s);
    HandOk(s, s.pc.id);
    DoneCmd(s.cmds[s.pc.id]);
    WorkerKeeps(s, OnSignal(s, DrainFree(s.pc.id)));
  }

  /** The completion is signalled if its waiter is still there, and the pointer cleared. */
  lemma DoneCmd(c: Cmd)
    requires CmdOk(c, Released)
    ensures CmdOk(Done(c), Signalled) && Done(c).place == c.place
  {
  }

  lemma DrainBufferKeeps(s: State)
    requires Inv(s) && s.pc.DrainHave? && s.pc.id < |s.cmds|
    ensures Inv(OnFreeBuf(s, DrainPost(s.pc.id)))
  {
    hide CmdOk, NoDup, FreeBuf;
    assert s.pc.id in Hand(s);
    HandOk(s, s.pc.id);
    DecideCmd(s.cmds[s.pc.id]);
    WorkerKeeps(s, OnFreeBuf(s, DrainPost(s.pc.id)));
  }

  /** The command in hand is freed and retired. */
  lemma ReleaseKeeps(s: State, pc: Worker)
    requires Inv(s) && (s.pc.Free? || s.pc.DrainFree?) && s.pc.id < |s.cmds|
    requires pc == if s.pc.Free? then Next else Drain
    ensures Inv(OnRelease(s, s.pc.id, pc))
  {
    hide CmdOk, NoDup, FreeObj;
    var h := s.pc.id;
    var t := OnRelease(s, h, pc);
    assert h in Hand(s);
    HandOk(s, h);
    ReleaseCmd(s.cmds[h]);
    assert h !in s.queue;
    assert CmdsOk(t);
    assert t.accepted == t.retired + Hand(t) + t.queue;
  }

  lemma ReleaseCmd(c: Cmd)
    requires CmdOk(c, Signalled)
    ensures CmdOk(FreeObj(c).(place := Gone), Elsewhere)
    ensures FreeObj(c).submitter == c.submitter && FreeObj(c).noIo == c.noIo
  {
  }

  lemma WalkKeeps(s: State, e: Event)
    requires Inv(s) && Possible(s, e)
    requires e in {Down, DownFails, CheckStop, CheckQueue, CheckStopAgain, Unregister}
    ensures Inv(Step(s, e))
  {
    hide Inv, CmdOk, NoDup, WakeupOk, ExitPc, Step;
    WalkStep(s, e);
    WorkerKeeps(s, Step(s, e));
  }

  /** Between two commands. */
  lemma WalkStep(s: State, e: Event)
    requires Inv(s) && Possible(s, e)
    requires e in {Down, DownFails, CheckStop, CheckQueue, CheckStopAgain, Unregister}
    ensures var t := Step(s, e);
      && t == s.(pc := t.pc, sema := t.sema, cmdAlive := t.cmdAlive) && WakeupOk(t)
      && !s.pc.Exited? && !t.pc.Exited? && !ExitPc(s.pc) && !ExitPc(t.pc) && Hand(s) == Hand(t) == []
  {
    hide CmdsOk, QueueOk, ExitOk, WakeupOk, SubmitterStep, OutsideStep;
    var t := WorkerStep(s, e);
    match e {
      case Down => assert t.pc.Up?;
      case DownFails => assert t.pc.Leaving?;
      case CheckStop => assert t.pc.Leaving? || t.pc.Peek?;
      case CheckQueue => assert t.pc.Next? || (t.pc.Parked? && t.queue == []);
      case CheckStopAgain => assert t.pc.Leaving? || t.pc.Take?;
      case Unregister => assert t.pc.Stopping?;
      case _ =>
    }
    Unhurried(s, t);
  }

  lemma Unhurried(s: State, t: State)
    requires WakeupOk(s) && t.leftPs == s.leftPs && t.asleep == s.asleep
    requires !t.pc.PutBack? && !t.pc.Exec? && !t.pc.Exited? && (t.pc.Parked? ==> t.queue == [])
    ensures WakeupOk(t)
  {
  }

  lemma ClearRunningKeeps(s: State)
    requires Inv(s) && s.pc.Stopping?
    ensures Inv(Step(s, ClearRunning))
  {
    hide CmdOk, NoDup;
  }

  /** The next thread finds what was queued while there was none, and the wake-up for it. */
  lemma RestartKeeps(s: State)
    requires Inv(s) && s.pc.Exited?
    ensures Inv(Step(s, Restart))
  {
    hide CmdOk, NoDup;
    var t := Step(s, Restart);
    assert forall id :: StageOf(t, id) == StageOf(s, id);
  }

  lemma OutsideKeeps(s: State, e: Event)
    requires Inv(s) && (e in {StopUp, CpwmUp, Sleep, LeavePs, StopDriver, StartDriver} || e.SetHwInit?)
    ensures Inv(Step(s, e))
  {
    hide CmdsOk, QueueOk, ExitOk, SomeInserted;
    SameQueue(s, Step(s, e));
  }

  lemma SameQueue(s: State, t: State)
    requires CmdsOk(s) && QueueOk(s) && ExitOk(s)
    requires t.cmds == s.cmds && t.queue == s.queue && t.pc == s.pc && t.running == s.running
    requires t.accepted == s.accepted && t.retired == s.retired && t.drained == s.drained
    ensures CmdsOk(t) && QueueOk(t) && ExitOk(t) && (SomeInserted(t) <==> SomeInserted(s))
  {
    hide CmdOk, NoDup;
    assert forall id :: StageOf(t, id) == StageOf(s, id);
  }

  // ---------------------------------------------------------------- runs

  /** MAIN: every step of every thread keeps the invariant. */
  lemma StepKeeps(s: State, e: Event)
    requires Inv(s) && Possible(s, e)
    ensures Inv(Step(s, e))
  {
    hide Inv, OnFilter, OnInsert, OnUp, OnDetach, OnDequeue, OnDecide, OnRegister, OnRequeue, OnRelease,
      OnDrainTake, OnFreeBuf, OnSignal, Put, Done, FreeBuf;
    match e
    case Submit(c) => SubmitKeeps(s, c);
    case Filter(id) => FilterKeeps(s, id);
    case Insert(id) => InsertKeeps(s, id);
    case UpSema(id) => UpKeeps(s, id);
    case Wake(id) => WakeKeeps(s, id);
    case Detach(id) => DetachKeeps(s, id);
    case Dequeue => DequeueKeeps(s);
    case Decide => DecideKeeps(s);
    case Register => RegisterKeeps(s);
    case Requeue => RequeueKeeps(s);
    case Execute => ExecuteKeeps(s);
    case Signal => SignalKeeps(s);
    case Release => ReleaseKeeps(s, Next);
    case ClearRunning => ClearRunningKeeps(s);
    case DrainTake => DrainTakeKeeps(s);
    case DrainBuffer => DrainBufferKeeps(s);
    case DrainSignal => DrainSignalKeeps(s);
    case DrainRelease => ReleaseKeeps(s, Drain);
    case Down => WalkKeeps(s, e);
    case DownFails => WalkKeeps(s, e);
    case CheckStop => WalkKeeps(s, e);
    case CheckQueue => WalkKeeps(s, e);
    case CheckStopAgain => WalkKeeps(s, e);
    case Unregister => WalkKeeps(s, e);
    case Restart => RestartKeeps(s);
    case _ => OutsideKeeps(s, e);
  }

  /** The events es lead from s to t. */
  ghost predicate Leads(s: State, es: seq<Event>, t: State) {
    if es == [] then s == t
    else
      var front, last := es[..|es| - 1], es[|es| - 1];
      exists m :: Leads(s, front, m) && IsStep(m, last, t)
  }

  /** t is reached from a start state by the events es, through any number of lives of the thread. */
  ghost predicate Reaches(es: seq<Event>, t: State) {
    exists s :: Starting(s) && Leads(s, es, t)
  }

  lemma {:induction false} LeadsKeeps(s: State, es: seq<Event>, t: State)
    requires Inv(s) && Leads(s, es, t)
    ensures Inv(t)
    decreases |es|
  {
    hide Inv, Step, Possible;
    if es != [] {
      var front, last := es[..|es| - 1], es[|es| - 1];
      var m :| Leads(s, front, m) && IsStep(m, last, t);
      LeadsKeeps(s, front, m);
      StepKeeps(m, last);
    }
  }

  lemma RunKeeps(es: seq<Event>, t: State)
    requires Reaches(es, t)
    ensures Inv(t)
  {
    hide Leads;
    var s :| Starting(s) && Leads(s, es, t);
    LeadsKeeps(s, es, t);
  }

  // ---------------------------------------------------------------- what every run guarantees

  /** MAIN: a submit context is used only while it is there.  The worker touches only commands that are
      still allocated, and signals through a pointer only while its waiter has not returned. */
  lemma HandshakeSafe(es: seq<Event>, t: State, id: nat)
    requires Reaches(es, t) && id < |t.cmds|
    ensures id in Hand(t) ==> t.cmds[id].objFreed == t.cmds[id].parmFreed == 0
    ensures id in Hand(t) && t.cmds[id].sctx ==> t.cmds[id].waited && !t.cmds[id].submitter.Returned?
  {
    RunKeeps(es, t);
    assert CmdOk(t.cmds[id], StageOf(t, id));
    if id in Hand(t) { HandOk(t, id); }
  }

  /** MAIN: a waiter that gives up clears the pointer of a command that is still allocated exactly when
      the command is not oversized: an oversized one has been freed although its submitter was told
      that it was queued.  A write after the free happens only so. */
  lemma GiveUpExactly(es: seq<Event>, t: State, id: nat)
    requires Reaches(es, t) && At(t, id, Woken) && t.cmds[id].completed == 0
    ensures t.cmds[id].objFreed == 0 <==> !Oversized(t.cmds[id])
    ensures Step(t, Detach(id)).cmds[id].wild <==> Oversized(t.cmds[id])
  {
    RunKeeps(es, t);
    assert CmdOk(t.cmds[id], StageOf(t, id));
  }

  lemma WildOnlyOversized(es: seq<Event>, t: State, id: nat)
    requires Reaches(es, t) && id < |t.cmds|
    ensures t.cmds[id].wild ==> t.cmds[id].waited && Oversized(t.cmds[id]) && id !in t.accepted
    ensures t.cmds[id].waited && Oversized(t.cmds[id]) && t.cmds[id].detached == 1 ==> t.cmds[id].wild
  {
    RunKeeps(es, t);
    AcceptedPlaces(t, id);
    assert CmdOk(t.cmds[id], StageOf(t, id));
  }

  /** MAIN: of an accepted waited command whose submitter is back, the completion was signalled
      or the waiter detached, and not both; nobody is signalled twice. */
  lemma SignalledOrDetached(es: seq<Event>, t: State, id: nat)
    requires Reaches(es, t) && id < |t.cmds| && t.cmds[id].waited
    ensures t.cmds[id].completed + t.cmds[id].detached <= 1
    ensures id in t.accepted && t.cmds[id].submitter.Returned? ==> t.cmds[id].completed + t.cmds[id].detached == 1
    ensures id in t.retired ==> t.cmds[id].completed + t.cmds[id].detached == 1
  {
    RunKeeps(es, t);
    AcceptedPlaces(t, id);
    assert CmdOk(t.cmds[id], StageOf(t, id));
  }

  /** The history of the queue and the commands' places agree. */
  lemma AcceptedPlaces(t: State, id: nat)
    requires Inv(t) && id < |t.cmds|
    ensures id in t.accepted <==> !t.cmds[id].place.Outside?
    ensures id in t.retired <==> t.cmds[id].place.Gone?
  {
    assert CmdOk(t.cmds[id], StageOf(t, id));
    assert id in t.accepted <==> id in t.retired || id in Hand(t) || id in t.queue;
    if id in Hand(t) { HandOk(t, id); }
    if t.cmds[id].place.InHand? { assert Hand(t)[0] == id; }
  }

  /** MAIN: retired commands, the one in hand and the queue are at every moment the accepted
      commands in the order they were accepted, re-queueing included. */
  lemma OrderKept(es: seq<Event>, t: State)
    requires Reaches(es, t)
    ensures t.accepted == t.retired + Hand(t) + t.queue && |Hand(t)| <= 1
  {
    RunKeeps(es, t);
  }

  /** Of the chip's falling asleep, its reports, and the driver's taking it to be awake without one, the
      last was of the third kind. */
  predicate LeftLast(es: seq<Event>) {
    if es == [] then false
    else
      var last := es[|es| - 1];
      last.LeavePs? || (!last.Sleep? && !last.CpwmUp? && LeftLast(es[..|es| - 1]))
  }

  /** MAIN: a parked worker with work to do will be woken: the semaphore is up, or a submitter is about
      to raise it, or the head of the queue needs the chip and CMD_ALIVE is registered, so that the next
      CPWM report raises it.  In this last case the chip sleeps, and the report is still to come, exactly
      when the driver was not the last to declare it awake. */
  lemma NoLostWakeup(es: seq<Event>, t: State)
    requires Reaches(es, t) && t.pc.Parked? && t.queue != []
    ensures t.sema > 0 || SomeInserted(t)
            || (t.queue[0] < |t.cmds| && !t.cmds[t.queue[0]].noIo && t.cmdAlive && (t.asleep <==> !LeftLast(es)))
  {
    RunKeeps(es, t);
    LeftPsExactly(es, t);
  }

  /** And that report does wake it: if neither of the other two causes is there, the report leaves the chip
      awake, the semaphore up and the command at the head. */
  lemma ReportWakes(es: seq<Event>, t: State)
    requires Reaches(es, t) && t.pc.Parked? && t.queue != [] && t.sema == 0 && !SomeInserted(t)
    ensures var u := Step(t, CpwmUp); Reaches(es + [CpwmUp], u) && !u.asleep && u.sema == 1 && u.queue == t.queue
  {
    hide CmdsOk, QueueOk, ExitOk, SomeInserted;
    RunKeeps(es, t);
    Extend(es, t, CpwmUp);
  }

  lemma LeftPsExactly(es: seq<Event>, t: State)
    requires Reaches(es, t)
    ensures t.leftPs <==> LeftLast(es)
  {
    hide Leads, LeftLast;
    var s :| Starting(s) && Leads(s, es, t);
    LeftPsFrom(s, es, t);
  }

  lemma {:induction false} LeftPsFrom(s: State, es: seq<Event>, t: State)
    requires !s.leftPs && Leads(s, es, t)
    ensures t.leftPs <==> LeftLast(es)
    decreases |es|
  {
    hide Possible, Step;
    if es != [] {
      var front, last := es[..|es| - 1], es[|es| - 1];
      var m :| Leads(s, front, m) && IsStep(m, last, t);
      LeftPsFrom(s, front, m);
      LeftPsStep(m, last);
    }
  }

  lemma LeftPsStep(s: State, e: Event)
    requires Possible(s, e)
    ensures Step(s, e).leftPs <==> e.LeavePs? || (s.leftPs && !e.Sleep? && !e.CpwmUp?)
  {
    hide Possible, SubmitterStep, OutsideStep, WorkerStep;
  }

  /** MAIN: the extra buffer is released at most once, before the parameter block that points to
      it, and has been by the time the command is gone, on every path. */
  lemma BufferReleasedOnce(es: seq<Event>, t: State, id: nat)
    requires Reaches(es, t) && id < |t.cmds| && t.cmds[id].extra
    ensures t.cmds[id].parmFreed <= t.cmds[id].bufFreed <= 1
    ensures id in t.retired || Rejected(t.cmds[id]) ==>
      t.cmds[id].bufFreed == t.cmds[id].parmFreed == t.cmds[id].objFreed == 1
    ensures t.pc == Have(id) || t.pc == DrainHave(id) ==> t.cmds[id].bufFreed == 0
  {
    RunKeeps(es, t);
    AcceptedPlaces(t, id);
    assert CmdOk(t.cmds[id], StageOf(t, id));
  }

  /** MAIN: when the thread is gone, the commands accepted before its drain found the queue empty have
      been retired, with their buffers, and exactly those; the others are still queued. */
  lemma StrandedExactly(es: seq<Event>, t: State, id: nat)
    requires Reaches(es, t) && t.pc.Exited? && id in t.accepted
    ensures t.drained <= |t.accepted| && t.retired == t.accepted[..t.drained] && t.queue == t.accepted[t.drained..]
    ensures id < |t.cmds| && (id in t.retired <==> id !in t.queue)
    ensures t.cmds[id].extra ==> (t.cmds[id].bufFreed == 1 <==> id in t.retired)
  {
    RunKeeps(es, t);
    assert id in t.retired || id in t.queue;
    AcceptedPlaces(t, id);
    assert CmdOk(t.cmds[id], StageOf(t, id));
  }

  /** MAIN: a command queued while there is no thread is retired, and its buffer released, by the time
      the next thread has gone; and only if one is started. */
  lemma RetiredByNext(es: seq<Event>, t: State, fs: seq<Event>, u: State, id: nat)
    requires Reaches(es, t) && t.pc.Exited? && id in t.queue && Leads(t, fs, u) && u.pc.Exited?
    ensures id in u.accepted && (id in u.retired <==> Restart in fs)
    ensures id < |u.cmds| && (u.cmds[id].extra ==> (u.cmds[id].bufFreed == 1 <==> Restart in fs))
  {
    hide Leads;
    RunKeeps(es, t);
    NextLife(t, fs, u);
    QueuedOnce(t, id);
    assert id in u.accepted && (Restart in fs ==> id in u.retired);
    LeadsKeeps(t, fs, u);
    BufferAtExit(u, id);
  }

  lemma QueuedOnce(t: State, id: nat)
    requires Inv(t) && id in t.queue
    ensures id in t.accepted && id !in t.retired
  {
    hide CmdOk, NoDup, WakeupOk;
  }

  lemma BufferAtExit(u: State, id: nat)
    requires Inv(u) && u.pc.Exited? && id in u.accepted
    ensures id < |u.cmds| && (u.cmds[id].extra ==> (u.cmds[id].bufFreed == 1 <==> id in u.retired))
  {
    assert id in u.retired || id in u.queue;
    AcceptedPlaces(u, id);
    assert CmdOk(u.cmds[id], StageOf(u, id));
  }

  /** What becomes of the commands accepted when there was no thread. */
  lemma {:induction false} NextLife(t: State, fs: seq<Event>, u: State)
    requires Inv(t) && t.pc.Exited? && Leads(t, fs, u)
    ensures t.accepted <= u.accepted
    ensures Restart !in fs ==> u.pc.Exited? && u.retired == t.retired
    ensures Restart in fs && u.pc.Exited? ==> t.accepted <= u.retired
    decreases |fs|
  {
    hide Inv, Possible, Step;
    if fs != [] {
      var front, last := fs[..|fs| - 1], fs[|fs| - 1];
      assert fs == front + [last];
      var m :| Leads(t, front, m) && IsStep(m, last, u);
      NextLife(t, front, m);
      LeadsKeeps(t, front, m);
      LifeStep(m, last);
    }
  }

  lemma LifeStep(s: State, e: Event)
    requires Inv(s) && Possible(s, e)
    ensures var t := Step(s, e);
      && s.accepted <= t.accepted
      && (s.pc.Exited? && !e.Restart? ==> t.pc.Exited? && t.retired == s.retired)
      && (e.Restart? ==> !t.pc.Exited?)
      && (!s.pc.Exited? && t.pc.Exited? ==> t.retired == t.accepted)
  {
    hide Inv, Possible, SubmitterStep, OutsideStep, WorkerStep;
    if Step(s, e).pc.Exited? && e.DrainTake? { DrainEnds(s); }
  }

  lemma DrainEnds(s: State)
    requires Inv(s) && Possible(s, DrainTake) && s.queue == []
    ensures Step(s, DrainTake).retired == s.accepted
  {
    hide CmdsOk, WakeupOk, ExitOk, NoDup;
  }

  /** Before the hardware is up only commands that need no chip, or are allowed early, go through. */
  predicate Early(c: Cmd) { c.allowed || c.noIo }

  predicate MayRun(hwInit: bool, c: Cmd) { c.known && (hwInit || Early(c)) }

  /** MAIN: a command is queued exactly if the thread runs, the hardware is up or the command may go early,
      and it is not oversized. */
  lemma QueuedExactly(s: State, id: nat)
    requires At(s, id, New)
    ensures var c := Step(s, Filter(id)).cmds[id];
      c.submitter.Passed? <==> s.running && (s.hwInit || Early(s.cmds[id])) && s.cmds[id].size <= MAX_CMDSZ
  {
  }

  /** MAIN: and once taken from the queue it is handled exactly if its code has a handler and the hardware is
      up, now, or it may go early. */
  lemma HandledExactly(es: seq<Event>, t: State)
    requires Reaches(es, t) && t.pc.Have? && t.pc.id < |t.cmds|
    ensures OnDecide(t).pc == if MayRun(t.hwInit, t.cmds[t.pc.id]) then Ready(t.pc.id) else Post(t.pc.id)
  {
    hide CmdOk, FreeBuf;
    RunKeeps(es, t);
    HaveOk(t);
    HaveRuns(t);
  }

  /** At once, unless it needs the chip and the chip sleeps. */
  lemma PutBackExactly(s: State)
    requires s.pc.Ready? && s.pc.id < |s.cmds|
    ensures OnRegister(s).pc == if s.asleep && !s.cmds[s.pc.id].noIo then PutBack(s.pc.id) else Exec(s.pc.id)
  {
  }

  lemma HaveRuns(t: State)
    requires Inv(t) && t.pc.Have?
    ensures t.running
  {
    hide CmdsOk, QueueOk, WakeupOk;
  }

  /** Only a submitter already past the filter can still queue a command then. */
  lemma NoneAcceptedAfterExit(es: seq<Event>, t: State, id: nat)
    requires Reaches(es, t) && t.pc.Exited? && At(t, id, New)
    ensures Rejected(OnFilter(t, id).cmds[id])
  {
    RunKeeps(es, t);
    assert CmdOk(t.cmds[id], StageOf(t, id));
  }

  lemma Extend(es: seq<Event>, s: State, e: Event)
    requires Reaches(es, s) && Possible(s, e)
    ensures Reaches(es + [e], Step(s, e))
  {
    hide Possible, Step, Starting;
    var s0 :| Starting(s0) && Leads(s0, es, s);
    assert (es + [e])[..|es|] == es;
    assert IsStep(s, e, Step(s, e)) && Leads(s0, es + [e], Step(s, e));
  }

  /** A run in which it happens: the submitter passes the filter, the thread leaves and drains,
      and the insert comes last. */
  lemma StrandedRun() returns (es: seq<Event>, t: State)
    ensures Reaches(es, t) && t.pc.Exited? && t.queue == [0] && |t.cmds| == 1
    ensures t.cmds[0].extra && t.cmds[0].bufFreed == 0
    ensures t == State([NewCmd(true, false, 0).(submitter := Inserted, place := InQueue)], [0], 0, Exited,
                       false, false, true, false, false, false, [0], [], 0)
  {
    hide Inv, Reaches;
    es, t := First(NewCmd(true, false, 0));
    es, t := Go(es, t, Filter(0));
    es, t := ExitRun(es, t);
    es, t := Go(es, t, Insert(0));
  }

  /** And how it goes on if a thread is started again: the command's own wake-up is waiting for it. */
  lemma RestartedRun() returns (es: seq<Event>, t: State)
    ensures Reaches(es, t) && t.retired == [0] && |t.cmds| == 1 && t.cmds[0].extra && t.cmds[0].bufFreed == 1
  {
    hide Inv, Reaches;
    es, t := StrandedRun();
    es, t := Go(es, t, UpSema(0));
    es, t := Go(es, t, Restart);
    es, t := WokenRun(es, t);
    es, t := DoneRun(es, t);
  }

  /** The only command is taken, run and retired. */
  lemma DoneRun(es0: seq<Event>, s: State) returns (es: seq<Event>, t: State)
    requires Reaches(es0, s) && s.pc.Take? && s.queue == [0] && |s.cmds| == 1 && !s.asleep && s.running && s.hwInit
    requires s.cmds[0].known && s.cmds[0].size == 0 && !s.cmds[0].noIo && s.cmds[0].extra && s.cmds[0].bufFreed == 0
    ensures Reaches(es, t) && t.retired == s.retired + [0]
    ensures |t.cmds| == 1 && t.cmds[0].extra && t.cmds[0].bufFreed == 1
  {
    hide Inv, Reaches;
    es, t := Go(es0, s, Dequeue);
    es, t := Go(es, t, Decide);
    es, t := Go(es, t, Register);
    es, t := HandledRun(es, t);
  }

  lemma HandledRun(es0: seq<Event>, s: State) returns (es: seq<Event>, t: State)
    requires Reaches(es0, s) && Holding(s, Exec(0), 0)
    ensures Reaches(es, t) && t.retired == s.retired + [0] && Holding(t, Next, 1)
  {
    hide Inv, Reaches, Step, Possible, Holding;
    Handle(s);
    es, t := Go(es0, s, Execute);
    SignalOnly(t);
    es, t := Go(es, t, Signal);
    LetGo(t);
    es, t := Go(es, t, Release);
  }

  /** The worker is at pc with the only command, whose buffer has been released n times. */
  predicate Holding(s: State, pc: Worker, n: nat) {
    s.pc == pc && |s.cmds| == 1 && s.cmds[0].extra && s.cmds[0].bufFreed == n
  }

  lemma Handle(s: State)
    requires Holding(s, Exec(0), 0)
    ensures Possible(s, Execute) && Holding(Step(s, Execute), Post(0), 1) && Step(s, Execute).retired == s.retired
  {
  }

  lemma SignalOnly(s: State)
    requires Holding(s, Post(0), 1)
    ensures Possible(s, Signal) && Holding(Step(s, Signal), Free(0), 1) && Step(s, Signal).retired == s.retired
  {
  }

  lemma LetGo(s: State)
    requires Holding(s, Free(0), 1)
    ensures Possible(s, Release) && Holding(Step(s, Release), Next, 1) && Step(s, Release).retired == s.retired + [0]
  {
  }

  /** The parked thread gives up, and finds nothing to drain. */
  lemma ExitRun(es0: seq<Event>, s: State) returns (es: seq<Event>, t: State)
    requires Reaches(es0, s) && s.pc.Parked? && s.queue == []
    ensures Reaches(es, t) && t == s.(pc := Exited, running := false, cmdAlive := false, drained := |s.accepted|)
  {
    hide Inv, Reaches;
    es, t := Go(es0, s, DownFails);
    es, t := Go(es, t, Unregister);
    es, t := Go(es, t, ClearRunning);
    es, t := Go(es, t, DrainTake);
  }

  /** A run with a write after the free: the waiter of an oversized command gives up. */
  lemma OversizedRun() returns (es: seq<Event>, t: State)
    ensures Reaches(es, t) && |t.cmds| == 1 && t.cmds[0].wild && t.cmds[0].objFreed == 1
  {
    hide Inv, Reaches;
    es, t := First(NewCmd(false, true, MAX_CMDSZ + 1));
    es, t := Go(es, t, Filter(0));
    es, t := Go(es, t, Wake(0));
    es, t := Go(es, t, Detach(0));
  }

  /** A run in which the driver takes the chip to be awake without a report: the command put back at the
      head could be run, but the worker stays parked until someone else raises the semaphore. */
  lemma LeftAsleepRun() returns (es: seq<Event>, t: State)
    ensures Reaches(es, t) && t.pc.Parked? && t.queue == [0] && !t.asleep && t.sema == 0 && !SomeInserted(t)
    ensures LeftLast(es)
  {
    hide Inv, Reaches;
    es, t := AsleepRun();
    es, t := WokenRun(es, t);
    es, t := TakenRun(es, t);
    es, t := Go(es, t, LeavePs);
  }

  lemma WokenRun(es0: seq<Event>, s: State) returns (es: seq<Event>, t: State)
    requires Reaches(es0, s) && s.pc.Parked? && s.sema == 1 && s.queue != [] && !s.stopped
    ensures Reaches(es, t) && t == s.(pc := Take, sema := 0)
  {
    hide Inv, Reaches;
    es, t := Go(es0, s, Down);
    es, t := Go(es, t, CheckStop);
    es, t := Go(es, t, CheckQueue);
    es, t := Go(es, t, CheckStopAgain);
  }

  /** One command queued, its semaphore up, the chip asleep. */
  lemma AsleepRun() returns (es: seq<Event>, t: State)
    ensures Reaches(es, t)
    ensures t == State([NewCmd(false, false, 0).(submitter := Returned, place := InQueue)], [0], 1, Parked,
                       true, false, true, true, false, false, [0], [], 0)
  {
    hide Inv, Reaches;
    es, t := First(NewCmd(false, false, 0));
    es, t := Go(es, t, Filter(0));
    es, t := Go(es, t, Insert(0));
    es, t := Go(es, t, UpSema(0));
    es, t := Go(es, t, Sleep);
  }

  /** The head is taken, cannot be run while the chip sleeps, and is put back. */
  lemma TakenRun(es0: seq<Event>, s: State) returns (es: seq<Event>, t: State)
    requires Reaches(es0, s) && s.pc.Take? && s.queue == [0] && |s.cmds| == 1 && s.asleep && s.running && s.hwInit
    requires s.cmds[0].known && s.cmds[0].size == 0 && !s.cmds[0].noIo
    ensures Reaches(es, t) && t == s.(pc := Parked, cmdAlive := true, cmds := [s.cmds[0].(place := InQueue)])
  {
    hide Inv, Reaches;
    es, t := Go(es0, s, Dequeue);
    es, t := Go(es, t, Decide);
    es, t := Go(es, t, Register);
    es, t := Go(es, t, Requeue);
  }

  function NewCmd(extra: bool, waited: bool, size: nat): Cmd {
    Cmd(extra, waited, size, false, false, true, New, Outside, 0, 0, 0, waited, 0, 0, false)
  }

  /** A started thread and one command submitted to it. */
  lemma First(c: Cmd) returns (es: seq<Event>, t: State)
    requires Fresh(c)
    ensures Reaches(es, t) && t == State([c], [], 0, Parked, true, false, true, false, false, false, [], [], 0)
  {
    var s := State([], [], 0, Parked, true, false, true, false, false, false, [], [], 0);
    assert Starting(s) && Leads(s, [], s);
    assert Reaches([], s);
    es, t := Go([], s, Submit(c));
  }

  lemma Go(es: seq<Event>, s: State, e: Event) returns (fs: seq<Event>, t: State)
    requires Reaches(es, s) && Possible(s, e)
    ensures fs == es + [e] && t == Step(s, e) && Reaches(fs, t)
  {
    Extend(es, s, e);
    fs, t := es + [e], Step(s, e);
  }
}
