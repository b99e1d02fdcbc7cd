/** struct cmd_priv and the code that updates it: the pieces of rtw_enqueue_cmd, the tail of the
    commands that wait, and the pieces of rtw_cmd_thread.  Each method is one step of CmdThread, taken
    in a state some interleaving reaches; its contract says what holds of the command at that point. */
module CmdPriv {
  import opened CmdThread
  import opened CmdThreadRun

  class CommandThread {
    var cmds: seq<Cmd>
    var queue: seq<nat>
    var sema: nat
    var pc: Worker
    var running: bool
    var stopped: bool
    var hwInit: bool
    var asleep: bool
    var cmdAlive: bool
    ghost var leftPs: bool
    ghost var accepted: seq<nat>
    ghost var retired: seq<nat>
    ghost var drained: nat

    ghost function View(): State
      reads this
    {
      State(cmds, queue, sema, pc, running, stopped, hwInit, asleep, cmdAlive, leftPs, accepted, retired, drained)
    }

    constructor (hwInit: bool)
      ensures Starting(View()) && Inv(View())
    {
      cmds, queue, sema, pc, running := [], [], 0, Parked, true;
      stopped, asleep, cmdAlive, this.hwInit := false, false, false, hwInit;
      leftPs, accepted, retired, drained := false, [], [], 0;
    }

    // ---------------------------------------------------------------- submitters

    method CmdFilter(c: Cmd) returns (fail: bool)
      ensures fail == Filtered(View(), c) == !(running && (hwInit || Early(c)))
    {
      var allow := c.allowed;
      if c.noIo {
        allow := true;
      }
      fail := (!hwInit && !allow) || !running;
    }

    method MfreeBuf(id: nat)
      requires id < |cmds|
      modifies this`cmds
      ensures cmds == old(cmds)[id := FreeBuf(old(cmds)[id])]
    {
      if cmds[id].extra {
        cmds := cmds[id := cmds[id].(bufFreed := cmds[id].bufFreed + 1)];
      }
    }

    method FreeCmdObj(id: nat)
      requires id < |cmds|
      modifies this`cmds
      ensures cmds == old(cmds)[id := FreeObj(old(cmds)[id])]
    {
      cmds := cmds[id := cmds[id].(parmFreed := cmds[id].parmFreed + 1)];
      cmds := cmds[id := cmds[id].(objFreed := cmds[id].objFreed + 1)];
    }

    /** rtw_enqueue_cmd up to the queue lock.  A command not let through has been released, all of it
        and once; but the answer is "failed" only if the filter said so. */
    method EnqueueCmd(id: nat) returns (ok: bool)
      requires Inv(View()) && At(View(), id, New)
      modifies this`cmds
      ensures Inv(View()) && View() == OnFilter(old(View()), id)
      ensures ok <==> running && (hwInit || Early(old(cmds)[id]))
      ensures Answered(cmds[id], ok) && id !in accepted
    {
      hide Inv, CmdOk, Filtered, TurnedAway, Answered, Oversized;
      ghost var s := View();
      FilterAnswer(s, id);
      FilterKeeps(s, id);
      var fail := CmdFilter(cmds[id]);
      ok := !fail;
      if fail || cmds[id].size > MAX_CMDSZ {
        TurnAway(id, ok);
      } else {
        cmds := cmds[id := cmds[id].(submitter := Passed)];
      }
      NotAccepted(View(), id);
    }

    method TurnAway(id: nat, told: bool)
      requires id < |cmds|
      modifies this`cmds
      ensures cmds == old(cmds)[id := TurnedAway(old(cmds)[id], told)]
    {
      hide FreeBuf, FreeObj;
      MfreeBuf(id);
      ghost var c := cmds[id];
      FreeCmdObj(id);
      assert FreeObj(c).waited == old(cmds)[id].waited by { WaitedKept(old(cmds)[id]); }
      cmds := cmds[id := cmds[id].(submitter := if told && cmds[id].waited then Waiting else Returned)];
    }

    /** _rtw_enqueue_cmd at the tail, for a submitter.  Until it raises the semaphore, it is the one who
        will wake the worker. */
    method InsertTail(id: nat)
      requires Inv(View()) && At(View(), id, Passed)
      modifies this`queue, this`accepted, this`cmds
      ensures Inv(View()) && View() == OnInsert(old(View()), id)
      ensures accepted == retired + Hand(View()) + queue && SomeInserted(View())
    {
      hide Inv, CmdOk;
      ghost var s := View();
      queue := queue + [id];
      accepted := accepted + [id];
      cmds := cmds[id := cmds[id].(submitter := Inserted, place := InQueue)];
      InsertKeeps(s, id);
      Ordered(View());
      assert cmds[id].submitter.Inserted?;
    }

    method UpQueueSema(id: nat)
      requires Inv(View()) && At(View(), id, Inserted)
      modifies this`sema, this`cmds
      ensures Inv(View()) && View() == OnUp(old(View()), id)
      ensures sema > 0 && (cmds[id].submitter.Waiting? ==> !Oversized(cmds[id]))
    {
      hide Inv, CmdOk;
      ghost var s := View();
      sema := sema + 1;
      cmds := cmds[id := cmds[id].(submitter := if cmds[id].waited then Waiting else Returned)];
      UpKeeps(s, id);
      InsertedOk(s, id);
    }

    /** After rtw_sctx_wait, holding sctx_mutex.  Afterwards nobody points at the waiter's frame; the
        pointer is cleared in freed memory exactly if the command was oversized. */
    method WaitTail(id: nat)
      requires Inv(View()) && At(View(), id, Woken)
      modifies this`cmds
      ensures Inv(View()) && View() == OnDetach(old(View()), id)
      ensures !cmds[id].sctx && cmds[id].completed + cmds[id].detached == 1
      ensures cmds[id].wild <==> Oversized(cmds[id])
    {
      hide Inv, CmdOk, Oversized, Detached;
      DetachKeeps(View(), id);
      DetachOutcome(View(), id);
      var c := GiveUp(cmds[id]);
      cmds := cmds[id := c];
    }

    method GiveUp(c: Cmd) returns (d: Cmd)
      ensures d == Detached(c)
    {
      d := c;
      if c.completed == 0 {
        d := d.(sctx := false, detached := c.detached + 1, wild := c.objFreed > 0);
      }
      d := d.(submitter := Returned);
    }

    // ---------------------------------------------------------------- the worker

    /** rtw_dequeue_cmd: the first accepted command that has not been retired. */
    method DequeueCmd() returns (id: int)
      requires Inv(View()) && Hand(View()) == []
      modifies this`queue, this`cmds
      ensures id < 0 ==> retired == accepted
      ensures id >= 0 ==> |retired| < |accepted| && id == accepted[|retired|]
      ensures Pulled(id, old(queue), old(cmds), queue, cmds)
      ensures View() == old(View()).(queue := queue, cmds := cmds)
    {
      Ordered(View());
      Taken(View());
      hide Inv;
      if queue == [] {
        return -1;
      }
      id := queue[0];
      queue := queue[1..];
      cmds := cmds[id := cmds[id].(place := InHand)];
    }

    /** rtw_cmd_thread's loop head: the stop flags and the queue.  It goes back to sleep only on an empty
        queue, and goes on only while the driver runs. */
    method LoopHead()
      requires Inv(View()) && (pc.Up? || pc.Peek? || pc.Next?)
      modifies this`pc
      ensures Inv(View())
      ensures IsStep(old(View()), LookAround(old(pc)), View())
      ensures if old(pc).Peek? then pc == if queue == [] then Parked else Next
              else pc == if stopped then Leaving else if old(pc).Up? then Peek else Take
    {
      hide Inv, SubmitterStep, OutsideStep;
      ghost var s := View();
      match pc
      case Up =>
        pc := if stopped then Leaving else Peek;
        StepKeeps(s, CheckStop);
      case Peek =>
        pc := if queue == [] then Parked else Next;
        StepKeeps(s, CheckQueue);
      case Next =>
        pc := if stopped then Leaving else Take;
        StepKeeps(s, CheckStopAgain);
    }

    /** Commands are taken in the order in which they were accepted; with none left CMD_ALIVE is given up. */
    method TakeNext()
      requires Inv(View()) && pc.Take?
      modifies this`queue, this`cmds, this`pc, this`cmdAlive
      ensures Inv(View()) && IsStep(old(View()), Dequeue, View())
      ensures InTurn(View()) && (pc.Have? || (pc.Parked? && !cmdAlive))
    {
      hide Inv, OnDequeue, Pulled, InTurn, IsStep;
      ghost var s := View();
      var id := DequeueCmd();
      if id < 0 {
        pc, cmdAlive := Parked, false;
      } else {
        pc := Have(id);
      }
      DequeueIs(s, id, queue, cmds);
      DequeueTurn(s, View());
    }

    /** Size, command code and filter.  What goes straight to post_process holds no buffer any more. */
    method DecideCmd()
      requires Inv(View()) && pc.Have? && pc.id < |cmds|
      modifies this`cmds, this`pc
      ensures Inv(View()) && View() == OnDecide(old(View()))
      ensures pc == if MayRun(hwInit, old(cmds[pc.id])) then Ready(old(pc).id) else Post(old(pc).id)
      ensures pc.Post? ==> BufGone(cmds[pc.id])
    {
      hide Inv, CmdOk, MayRun, Early;
      ghost var s := View();
      var id := pc.id;
      DecideOutcome(s);
      var fail := CmdFilter(cmds[id]);
      if cmds[id].size > MAX_CMDSZ || !cmds[id].known {
        pc := Post(id);
      } else if fail {
        MfreeBuf(id);
        pc := Post(id);
      } else {
        pc := Ready(id);
      }
    }

    /** The LPS part, under the power lock.  A command is put back only if a report to come will wake
        the worker for it. */
    method RegisterAlive()
      requires Inv(View()) && pc.Ready? && pc.id < |cmds|
      modifies this`cmdAlive, this`pc
      ensures Inv(View()) && View() == OnRegister(old(View()))
      ensures pc == if asleep && !cmds[old(pc).id].noIo then PutBack(old(pc).id) else Exec(old(pc).id)
      ensures pc.PutBack? ==> AwaitsReport(View(), pc.id)
      ensures pc.Exec? ==> (cmdAlive <==> !cmds[pc.id].noIo)
    {
      hide Inv;
      ghost var s := View();
      var id := pc.id;
      if cmds[id].noIo {
        cmdAlive, pc := false, Exec(id);
      } else {
        cmdAlive := true;
        pc := if asleep then PutBack(id) else Exec(id);
      }
      RegisterKeeps(s);
    }

    /** _rtw_enqueue_cmd at the head.  The command keeps its turn, and the wake-up is there or registered. */
    method RequeueHead()
      requires Inv(View()) && pc.PutBack? && pc.id < |cmds|
      modifies this`cmds, this`queue, this`pc
      ensures Inv(View()) && View() == OnRequeue(old(View()))
      ensures |retired| < |accepted| && queue[0] == accepted[|retired|] == old(pc).id
      ensures sema > 0 || AwaitsReport(View(), queue[0])
    {
      hide Inv, CmdOk;
      ghost var s := View();
      PutBackWakes(s);
      var id := pc.id;
      cmds := cmds[id := cmds[id].(place := InQueue)];
      queue := [id] + queue;
      pc := Parked;
      RequeueKeeps(s);
      Ordered(View());
    }

    /** The handler runs, and releases the extra buffer: until then it was there, now it is not. */
    method ExecuteCmd()
      requires Inv(View()) && pc.Exec? && pc.id < |cmds|
      modifies this`cmds, this`pc
      ensures Inv(View()) && View() == OnFreeBuf(old(View()), Post(old(pc).id))
      ensures old(cmds[pc.id].bufFreed) == 0 && BufGone(cmds[pc.id])
    {
      hide Inv, CmdOk;
      ghost var s := View();
      HandBuffer(s);
      MfreeBuf(pc.id);
      pc := Post(pc.id);
      ExecuteKeeps(s);
    }

    /** rtw_sctx_done or rtw_sctx_done_err, holding sctx_mutex. */
    method SctxDone(id: nat)
      requires id < |cmds|
      modifies this`cmds
      ensures cmds == old(cmds)[id := Done(old(cmds)[id])]
    {
      if cmds[id].sctx {
        cmds := cmds[id := cmds[id].(completed := cmds[id].completed + 1)];
        cmds := cmds[id := cmds[id].(sctx := false)];
      }
    }

    /** post_process: the pointer is followed only to a waiter that is still there, and afterwards the
        command points at no frame; a waited command is then signalled or detached, not both. */
    method PostProcess()
      requires Inv(View()) && (pc.Post? || pc.DrainPost?) && (pc.id < |cmds|)
      modifies this`cmds, this`pc
      ensures Inv(View())
      ensures View() == OnSignal(old(View()), if old(pc).Post? then Free(old(pc).id) else DrainFree(old(pc).id))
      ensures old(cmds[pc.id].sctx) ==> old(cmds[pc.id].waited && !cmds[pc.id].submitter.Returned?)
      ensures !cmds[pc.id].sctx && cmds[pc.id].completed + cmds[pc.id].detached == Num(cmds[pc.id].waited)
    {
      hide Inv, CmdOk;
      ghost var s := View();
      FrameThere(s);
      SctxDone(pc.id);
      var draining := pc.DrainPost?;
      pc := if draining then DrainFree(pc.id) else Free(pc.id);
      if draining { DrainSignalKeeps(s); } else { SignalKeeps(s); }
      Settled(View());
    }

    /** The command is freed and retired: everything of it exactly once, and in its turn. */
    method Retire()
      requires Inv(View()) && (pc.Free? || pc.DrainFree?) && (pc.id < |cmds|)
      modifies this`cmds, this`retired, this`pc
      ensures Inv(View()) && View() == OnRelease(old(View()), old(pc).id, if old(pc).Free? then Next else Drain)
      ensures AllFreed(cmds[old(pc).id]) && |retired| <= |accepted| && retired == accepted[..|retired|]
    {
      hide Inv, CmdOk;
      ghost var s := View();
      var id := pc.id;
      var draining := pc.DrainFree?;
      ReleaseKeeps(s, if draining then Drain else Next);
      FreeCmdObj(id);
      cmds := cmds[id := cmds[id].(place := Gone)];
      retired := retired + [id];
      pc := if draining then Drain else Next;
      assert cmds == s.cmds[id := FreeObj(s.cmds[id]).(place := Gone)];
      Ordered(View());
      GoneFreed(View(), id);
    }

    /** The drain loop at thread exit takes the next command, or ends; when it ends, everything accepted
        so far has been retired. */
    method DrainNext()
      requires Inv(View()) && pc.Drain?
      modifies this`cmds, this`queue, this`pc, this`drained
      ensures Inv(View()) && IsStep(old(View()), DrainTake, View())
      ensures InTurn(View()) && (pc.DrainHave? || pc.Exited?)
    {
      hide Inv, OnDrainTake, Pulled, InTurn, IsStep;
      ghost var s := View();
      var id := DequeueCmd();
      if id < 0 {
        pc, drained := Exited, |accepted|;
      } else {
        pc := DrainHave(id);
      }
      DrainTakeIs(s, id, queue, cmds);
      DrainTurn(s, View());
    }

    /** A drained command still has its buffer, and loses it here. */
    method DrainFreeBuf()
      requires Inv(View()) && pc.DrainHave? && pc.id < |cmds|
      modifies this`cmds, this`pc
      ensures Inv(View()) && View() == OnFreeBuf(old(View()), DrainPost(old(pc).id))
      ensures old(cmds[pc.id].bufFreed) == 0 && BufGone(cmds[pc.id])
    {
      hide Inv, CmdOk;
      ghost var s := View();
      HandBuffer(s);
      MfreeBuf(pc.id);
      pc := DrainPost(pc.id);
      DrainBufferKeeps(s);
    }

    /** The next thread on the same queue.  If commands were queued while there was none, the wake-up for
        them is there, or about to come. */
    method Restart()
      requires Inv(View()) && pc.Exited?
      modifies this`running, this`pc
      ensures Inv(View()) && IsStep(old(View()), Event.Restart, View())
      ensures queue == accepted[|retired|..] && (queue != [] ==> sema > 0 || SomeInserted(View()))
    {
      hide Inv, CmdOk;
      ghost var s := View();
      running, pc := true, Parked;
      RestartKeeps(s);
      Ordered(View());
      WakeupLeft(s);
    }
  }

  // ---------------------------------------------------------------- what holds at each point

  function Num(b: bool): nat { if b then 1 else 0 }

  predicate BufGone(c: Cmd) { c.bufFreed == Num(c.extra) }

  predicate AllFreed(c: Cmd) { BufGone(c) && c.parmFreed == 1 && c.objFreed == 1 }

  /** The head of the queue, with its command now in the worker's hand; or -1 for an empty queue. */
  predicate Pulled(id: int, q: seq<nat>, cs: seq<Cmd>, q': seq<nat>, cs': seq<Cmd>) {
    if q == [] then id == -1 && q' == [] && cs' == cs
    else id == q[0] && id < |cs| && q' == q[1..] && cs' == cs[id := cs[id].(place := InHand)]
  }

  /** The worker has in hand the first accepted command that has not been retired; it has none exactly
      when everything accepted has been retired. */
  predicate InTurn(s: State) {
    && |s.retired| <= |s.accepted|
    && (if s.retired == s.accepted then Hand(s) == []
        else |s.retired| < |s.accepted| && Hand(s) == [s.accepted[|s.retired|]])
  }

  lemma DequeueTurn(s: State, t: State)
    requires Inv(s) && IsStep(s, Dequeue, t)
    ensures Inv(t) && InTurn(t) && (t.pc.Have? || (t.pc.Parked? && !t.cmdAlive))
  {
    hide CmdsOk, WakeupOk, ExitOk, NoDup;
    StepKeeps(s, Dequeue);
  }

  lemma DrainTurn(s: State, t: State)
    requires Inv(s) && IsStep(s, DrainTake, t)
    ensures Inv(t) && InTurn(t) && (t.pc.DrainHave? || t.pc.Exited?)
  {
    hide CmdsOk, WakeupOk, ExitOk, NoDup;
    StepKeeps(s, DrainTake);
  }

  function LookAround(pc: Worker): Event {
    if pc.Up? then CheckStop else if pc.Peek? then CheckQueue else CheckStopAgain
  }

  lemma DequeueIs(s: State, id: int, q: seq<nat>, cs: seq<Cmd>)
    requires s.pc.Take? && Pulled(id, s.queue, s.cmds, q, cs)
    ensures var t := s.(queue := q, cmds := cs);
      IsStep(s, Dequeue, if id < 0 then t.(pc := Parked, cmdAlive := false) else t.(pc := Have(id)))
  {
  }

  lemma DrainTakeIs(s: State, id: int, q: seq<nat>, cs: seq<Cmd>)
    requires s.pc.Drain? && Pulled(id, s.queue, s.cmds, q, cs)
    ensures var t := s.(queue := q, cmds := cs);
      IsStep(s, DrainTake, if id < 0 then t.(pc := Exited, drained := |s.accepted|) else t.(pc := DrainHave(id)))
  {
  }

  lemma Ordered(s: State)
    requires Inv(s)
    ensures s.accepted == s.retired + Hand(s) + s.queue
    ensures |s.retired| <= |s.accepted| && s.retired == s.accepted[..|s.retired|]
    ensures s.queue != [] && Hand(s) == [] ==> s.accepted[|s.retired|] == s.queue[0]
  {
    hide CmdsOk, WakeupOk, ExitOk, NoDup;
  }

  lemma Taken(s: State)
    requires Inv(s)
    ensures forall k :: 0 <= k < |s.queue| ==> s.queue[k] < |s.cmds|
  {
    hide CmdsOk, WakeupOk, ExitOk, NoDup;
    assert forall k :: 0 <= k < |s.queue| ==> s.queue[k] in s.queue;
  }

  /** What rtw_enqueue_cmd has done with a command up to the queue lock: let it through, exactly if the
      answer is good and it is not oversized, or freed all of it; the submitter of an oversized one
      goes on to wait all the same. */
  predicate Answered(c: Cmd, ok: bool) {
    && (c.submitter.Passed? <==> ok && !Oversized(c))
    && (c.submitter.Waiting? <==> ok && Oversized(c) && c.waited)
    && (!c.submitter.Passed? ==> AllFreed(c))
  }

  lemma FilterAnswer(s: State, id: nat)
    requires Inv(s) && At(s, id, New)
    ensures forall ok :: Answered(Answer(s.cmds[id], ok), ok) && Answer(s.cmds[id], ok).place.Outside?
  {
    hide QueueOk, WakeupOk, ExitOk, CmdOk, Answered, Answer;
    assert CmdOk(s.cmds[id], StageOf(s, id));
    forall ok ensures Answered(Answer(s.cmds[id], ok), ok) && Answer(s.cmds[id], ok).place.Outside?
    {
      NewAnswered(s.cmds[id], StageOf(s, id), ok);
    }
  }

  lemma NewAnswered(c: Cmd, g: Stage, ok: bool)
    requires CmdOk(c, g) && c.submitter.New?
    ensures Answered(Answer(c, ok), ok) && Answer(c, ok).place.Outside?
  {
    hide SctxOk;
  }

  lemma WaitedKept(c: Cmd)
    ensures FreeObj(FreeBuf(c)).waited == c.waited
  {
  }

  lemma NotAccepted(s: State, id: nat)
    requires Inv(s) && id < |s.cmds| && s.cmds[id].place.Outside?
    ensures id !in s.accepted
  {
    hide *;
    AcceptedPlaces(s, id);
  }

  lemma InsertedOk(s: State, id: nat)
    requires Inv(s) && At(s, id, Inserted)
    ensures !Oversized(s.cmds[id])
  {
    hide QueueOk, WakeupOk, ExitOk, SctxOk, FreedOk;
    assert CmdOk(s.cmds[id], StageOf(s, id));
  }

  lemma DetachOutcome(s: State, id: nat)
    requires Inv(s) && At(s, id, Woken)
    ensures var c := Detached(s.cmds[id]);
      !c.sctx && c.completed + c.detached == 1 && (c.wild <==> Oversized(c))
  {
    hide Inv, CmdOk;
    WokenOk(s, id);
  }

  lemma WokenOk(s: State, id: nat)
    requires Inv(s) && At(s, id, Woken)
    ensures var c := s.cmds[id];
      && c.detached == 0 && c.completed <= 1 && !c.wild && (c.sctx <==> c.completed == 0)
      && (c.completed == 1 ==> !Oversized(c)) && (c.completed == 0 ==> (c.objFreed > 0 <==> Oversized(c)))
  {
    hide QueueOk, WakeupOk, ExitOk;
    assert CmdOk(s.cmds[id], StageOf(s, id));
  }

  lemma DecideOutcome(s: State)
    requires Inv(s) && s.pc.Have? && s.pc.id < |s.cmds|
    ensures var t := OnDecide(s);
      && Inv(t) && t.pc == (if MayRun(s.hwInit, s.cmds[s.pc.id]) then Ready(s.pc.id) else Post(s.pc.id))
      && |t.cmds| == |s.cmds| && (t.pc.Post? ==> BufGone(t.cmds[t.pc.id]))
  {
    hide Inv, CmdOk, FreeBuf;
    DecideKeeps(s);
    HandBuffer(OnDecide(s));
    HaveOk(s);
    HaveRuns(s);
  }

  lemma HandBuffer(s: State)
    requires Inv(s) && (s.pc.Exec? || s.pc.DrainHave? || s.pc.Post? || s.pc.Ready?) && s.pc.id < |s.cmds|
    ensures if s.pc.Post? then BufGone(s.cmds[s.pc.id]) else s.cmds[s.pc.id].bufFreed == 0
    ensures BufGone(FreeBuf(s.cmds[s.pc.id])) || s.pc.Post?
  {
    hide QueueOk, WakeupOk, ExitOk, SctxOk;
    assert CmdOk(s.cmds[s.pc.id], StageOf(s, s.pc.id));
  }

  lemma PutBackWakes(s: State)
    requires Inv(s) && s.pc.PutBack?
    ensures s.sema > 0 || AwaitsReport(s, s.pc.id)
  {
    hide CmdsOk, QueueOk, ExitOk, SomeInserted;
  }

  lemma WakeupLeft(s: State)
    requires Inv(s) && s.pc.Exited?
    ensures s.queue != [] ==> s.sema > 0 || SomeInserted(s)
    ensures SomeInserted(Step(s, Restart)) <==> SomeInserted(s)
  {
    hide CmdsOk, QueueOk, ExitOk;
  }

  lemma FrameThere(s: State)
    requires Inv(s) && (s.pc.Post? || s.pc.DrainPost?) && s.pc.id < |s.cmds|
    ensures s.cmds[s.pc.id].sctx ==> s.cmds[s.pc.id].waited && !s.cmds[s.pc.id].submitter.Returned?
  {
    hide QueueOk, WakeupOk, ExitOk, FreedOk;
    assert CmdOk(s.cmds[s.pc.id], StageOf(s, s.pc.id));
  }

  lemma Settled(s: State)
    requires Inv(s) && (s.pc.Free? || s.pc.DrainFree?) && s.pc.id < |s.cmds|
    ensures !s.cmds[s.pc.id].sctx && s.cmds[s.pc.id].completed + s.cmds[s.pc.id].detached == Num(s.cmds[s.pc.id].waited)
  {
    hide QueueOk, WakeupOk, ExitOk, FreedOk;
    assert CmdOk(s.cmds[s.pc.id], StageOf(s, s.pc.id));
  }

  lemma GoneFreed(s: State, id: nat)
    requires Inv(s) && id < |s.cmds| && s.cmds[id].place.Gone?
    ensures AllFreed(s.cmds[id])
  {
    hide QueueOk, WakeupOk, ExitOk, SctxOk;
    assert CmdOk(s.cmds[id], StageOf(s, id));
  }
}
