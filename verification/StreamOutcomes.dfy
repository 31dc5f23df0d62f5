/** What runs of the streaming protocol report, and what they hold at once. */
module StreamOutcomes {
  import opened ParallelStream
  import opened ParallelStreamProofs

  // ---------------------------------------------------------------- what a run reports

  /** A parse failed in the first `i` steps. */
  ghost predicate ParseFailed(steps: seq<Step>, i: nat)
    requires i <= |steps|
  {
    exists j :: 0 <= j < i && steps[j].Parse? && !steps[j].ok
  }

  /** In the first `i` steps the consumer was shown a chunk and refused it. */
  ghost predicate Refused(states: seq<State>, steps: seq<Step>, i: nat)
    requires i <= |steps| < |states|
  {
    exists j :: 0 <= j < i && RefusedAt(states[j], steps[j], states[j + 1])
  }

  ghost predicate RefusedAt(s: State, step: Step, after: State) {
    (step == Handle(false) || step == Drain(false)) && |after.seen| == |s.seen| + 1
  }

  /** What the state owes to a history with or without a failed parse and a refusal. */
  ghost predicate Owes(s: State, parseFailed: bool, refused: bool) {
    && (s.errored <==> parseFailed || refused)
    && (refused <==> !s.Running() && s.coord.phase.result == Error(ConsumerFailed))
    && (!s.Running() && s.coord.phase.result == Error(WorkerFailed) ==> parseFailed)
    && (FailureSent(s) || FailureHeld(s) ==> parseFailed)
  }

  lemma OwesStep(c: Config, s: State, step: Step, parseFailed: bool, refused: bool)
    requires Enabled(c, s, step) && Owes(s, parseFailed, refused)
    ensures var s' := Apply(c, s, step);
            Owes(s', parseFailed || (step.Parse? && !step.ok), refused || RefusedAt(s, step, s'))
  {
    if IsWorkerStep(step) {
      WorkerOwes(c, s, step, parseFailed, refused);
    } else if step.Receive? {
      ReceiveOwes(s, parseFailed, refused);
    } else if step.Handle? || step.Drain? {
      DeliveryOwes(c, s, step, parseFailed, refused);
    }
  }

  lemma WorkerOwes(c: Config, s: State, step: Step, parseFailed: bool, refused: bool)
    requires Enabled(c, s, step) && IsWorkerStep(step) && Owes(s, parseFailed, refused)
    ensures Owes(Apply(c, s, step), parseFailed || (step.Parse? && !step.ok), refused)
    ensures Apply(c, s, step).seen == s.seen
  {
    var s' := Apply(c, s, step);
    assert s'.coord == s.coord && s'.seen == s.seen;
    if FailureHeld(s') && !(step.Parse? && !step.ok) {
      var v :| 0 <= v < |s'.workers| && s'.workers[v].Sending? && !s'.workers[v].msg.ok;
      assert v != step.w ==> s'.workers[v] == s.workers[v];
    }
    if step.Send? && s.Running() {
      forall j | 0 <= j < |s'.channel| && !s'.channel[j].ok ensures FailureSent(s) || FailureHeld(s) {
        if j < |s.channel| { assert s.channel[j] == s'.channel[j]; }
      }
    }
  }

  lemma ReceiveOwes(s: State, parseFailed: bool, refused: bool)
    requires s.coord.phase.Receiving? && Owes(s, parseFailed, refused)
    ensures Owes(ReceiveNext(s), parseFailed, refused)
  {
    var s' := ReceiveNext(s);
    if FailureSent(s') && s.channel != [] && (exists j :: 0 <= j < |s'.channel| && !s'.channel[j].ok) {
      var j :| 0 <= j < |s'.channel| && !s'.channel[j].ok;
      assert s.channel[j + 1] == s'.channel[j];
    }
  }

  lemma DeliveryOwes(c: Config, s: State, step: Step, parseFailed: bool, refused: bool)
    requires Enabled(c, s, step) && (step.Handle? || step.Drain?) && Owes(s, parseFailed, refused)
    ensures Owes(Apply(c, s, step), parseFailed, refused || RefusedAt(s, step, Apply(c, s, step)))
  {
    if step.Handle? {
      HandleOwes(c, s, step.accepted, parseFailed);
    } else {
      DrainOwes(c, s, step.accepted, parseFailed);
    }
  }

  /** A message that failed stops the loop with the worker's failure; a chunk that is shown and
      refused stops it with the consumer's. */
  lemma HandleOwes(c: Config, s: State, accepted: bool, parseFailed: bool)
    requires s.coord.phase.Handling? && Owes(s, parseFailed, false)
    ensures var s' := HandleMessage(c, s, accepted);
            Owes(s', parseFailed, RefusedAt(s, Handle(accepted), s'))
  {
    var msg, co, s' := s.coord.phase.msg, s.coord, HandleMessage(c, s, accepted);
    assert s'.workers == s.workers;
    assert FailureHeld(s') == FailureHeld(s);
    if !msg.ok {
      assert FailureSent(s) && s'.seen == s.seen;
    } else if !c.ordered || msg.id == co.nextSeq {
      assert s'.seen == s.seen + [msg.id];
      assert s'.channel == (if accepted then s.channel else []);
    } else {
      assert s'.seen == s.seen && (s'.channel == s.channel || s'.channel == []);
    }
  }

  lemma DrainOwes(c: Config, s: State, accepted: bool, parseFailed: bool)
    requires s.coord.phase.Draining? && Owes(s, parseFailed, false)
    ensures var s' := DrainNext(c, s, accepted);
            Owes(s', parseFailed, RefusedAt(s, Drain(accepted), s'))
  {
    var s' := DrainNext(c, s, accepted);
    assert s'.workers == s.workers;
    assert FailureHeld(s') == FailureHeld(s);
    if s.coord.nextSeq in s.coord.pending {
      assert s'.seen == s.seen + [s.coord.nextSeq] && s'.channel == (if accepted then s.channel else []);
    } else {
      assert s'.seen == s.seen && s'.channel == s.channel;
    }
  }

  lemma {:induction false} RunOwes(c: Config, states: seq<State>, steps: seq<Step>, i: nat)
    requires IsRun(c, states, steps) && i <= |steps|
    ensures Owes(states[i], ParseFailed(steps, i), Refused(states, steps, i))
  {
    if i > 0 {
      RunOwes(c, states, steps, i - 1);
      OwesStep(c, states[i - 1], steps[i - 1], ParseFailed(steps, i - 1), Refused(states, steps, i - 1));
    }
  }

  /** What every run reports once its receive loop has ended: the consumer's failure exactly if
      the consumer was shown a chunk and refused it; a worker's exactly if some parse failed and
      nothing was refused; and success exactly if there was neither. */
  lemma OutcomeExact(c: Config, states: seq<State>, steps: seq<Step>)
    requires c.Valid() && IsRun(c, states, steps) && !states[|steps|].Running()
    ensures var result := states[|steps|].coord.phase.result;
            var parseFailed, refused := ParseFailed(steps, |steps|), Refused(states, steps, |steps|);
            && (result == Error(ConsumerFailed) <==> refused)
            && (result == Error(WorkerFailed) <==> parseFailed && !refused)
            && (result == Success <==> !parseFailed && !refused)
  {
    RunInv(c, states, steps, |steps|);
    RunOwes(c, states, steps, |steps|);
    OutcomeOf(c, states[|steps|], ParseFailed(steps, |steps|), Refused(states, steps, |steps|));
  }

  lemma OutcomeOf(c: Config, s: State, parseFailed: bool, refused: bool)
    requires Settled(c, s) && !s.Running() && Owes(s, parseFailed, refused)
    ensures var result := s.coord.phase.result;
            && (result == Error(ConsumerFailed) <==> refused)
            && (result == Error(WorkerFailed) <==> parseFailed && !refused)
            && (result == Success <==> !parseFailed && !refused)
  {
    match s.coord.phase.result
    case Success =>
    case Error(failure) => assert failure == WorkerFailed || failure == ConsumerFailed;
  }

  predicate HasFailed(s: State, w: nat) {
    w < |s.workers| && (s.workers[w].Exited? || (s.workers[w].Sending? && !s.workers[w].msg.ok))
  }

  lemma FailedStep(c: Config, s: State, step: Step, w: nat)
    requires Enabled(c, s, step) && HasFailed(s, w)
    ensures HasFailed(Apply(c, s, step), w)
  {
    if IsWorkerStep(step) {
      assert step.w != w ==> Apply(c, s, step).workers[w] == s.workers[w];
    } else {
      assert Apply(c, s, step).workers == s.workers;
    }
  }

  lemma FirstFailed(c: Config, s: State, w: nat)
    requires Enabled(c, s, Parse(w, false))
    ensures HasFailed(Apply(c, s, Parse(w, false)), w)
  {
  }

  lemma {:induction false} FailedStays(c: Config, states: seq<State>, steps: seq<Step>, i: nat, k: nat, w: nat)
    requires IsRun(c, states, steps) && i < k <= |steps| && steps[i] == Parse(w, false)
    ensures HasFailed(states[k], w)
  {
    if i + 1 < k {
      FailedStays(c, states, steps, i, k - 1, w);
      FailedStep(c, states[k - 1], steps[k - 1], w);
    } else {
      FirstFailed(c, states[i], w);
    }
  }

  /** A worker whose parse failed parses nothing more. */
  lemma OneFailureEach(c: Config, states: seq<State>, steps: seq<Step>, i: nat, k: nat, w: nat)
    requires IsRun(c, states, steps) && i < k < |steps| && steps[i] == Parse(w, false)
    ensures !(steps[k].Parse? && steps[k].w == w)
  {
    FailedStays(c, states, steps, i, k, w);
    assert Enabled(c, states[k], steps[k]);
  }

  /** A worker waits exactly while its chunk is more than the window ahead of the published
      position. */
  lemma WindowExact(c: Config, states: seq<State>, steps: seq<Step>, i: nat, w: nat)
    requires c.Valid() && c.ordered && IsRun(c, states, steps) && i < |states|
    requires w < |states[i].workers| && states[i].workers[w].Waiting?
    ensures Enabled(c, states[i], Pass(w))
            <==> states[i].dispatch.None? || states[i].workers[w].id <= states[i].dispatch.value + c.maxReorder
  {
    RunInv(c, states, steps, i);
    HeldMember(states[i].workers, w, states[i].workers[w].id);
    assert Copies(states[i], states[i].workers[w].id) > 0;
  }

  lemma {:induction false} WindowSize(ids: set<nat>, low: nat, width: nat)
    requires InWindow(ids, low, width)
    ensures |ids| <= width
  {
    if width == 0 {
      assert ids == {};
    } else {
      WindowSize(ids - {low + width}, low, width - 1);
    }
  }

  lemma ChannelStep(c: Config, s: State, step: Step)
    requires Enabled(c, s, step) && |s.channel| <= c.capacity
    ensures |Apply(c, s, step).channel| <= c.capacity
  {
    if !step.Send? { assert |Apply(c, s, step).channel| <= |s.channel|; }
  }

  /** What is held at once is bounded in every state of every run: the channel by its capacity,
      the parsed chunks of workers by the threads, and the buffer of an ordered stream, while it
      receives, by the reorder window. */
  lemma {:induction false} HeldBounded(c: Config, states: seq<State>, steps: seq<Step>, i: nat)
    requires c.Valid() && IsRun(c, states, steps) && i < |states|
    ensures |states[i].channel| <= c.capacity && |states[i].workers| == c.threads
    ensures c.ordered && states[i].coord.phase.Receiving? ==> |states[i].coord.pending| <= c.maxReorder
    ensures !c.ordered ==> states[i].coord.pending == {}
  {
    RunInv(c, states, steps, i);
    if i > 0 {
      HeldBounded(c, states, steps, i - 1);
      ChannelStep(c, states[i - 1], steps[i - 1]);
    }
    var co := states[i].coord;
    if c.ordered && co.phase.Receiving? { WindowSize(co.pending, co.nextSeq, c.maxReorder); }
  }

  /** Liveness: no run is longer than `7 * chunks + threads + 3` steps, and a run that cannot be
      extended has finished with every worker gone and the right verdict: success exactly when
      no step of it was a failed parse or a refusal of the consumer, and then every chunk was
      delivered exactly once, in order when `ordered`, leaving nothing pending. */
  lemma RunsFinish(c: Config, states: seq<State>, steps: seq<Step>)
    requires c.Valid() && IsRun(c, states, steps)
    ensures |steps| <= 7 * c.Chunks() + c.threads + 3
    ensures var s := states[|steps|];
            (forall step :: !Enabled(c, s, step)) ==>
              && s.coord.phase.Finished? && AllExited(s.workers)
              && (s.coord.phase.result.Success?
                  <==> !ParseFailed(steps, |steps|) && !Refused(states, steps, |steps|))
              && (s.coord.phase.result.Success? ==> Complete(c, s))
  {
    RunInv(c, states, steps, |steps|);
    var s := states[|steps|];
    if s.coord.phase.Finished? { OutcomeExact(c, states, steps); } else { var step := NotStuck(c, s); }
  }
}
