/** The coordinator's own loop body, as the code runs it: one received message, then the
    flush of everything that has become next in sequence. */
module Reorderer {
  import opened Wrappers
  import opened ParallelStream

  /** The machine steps the coordinator takes for the message in its hand, up to the next
      receive or stop; `accepts` is the consumer's answer for each chunk. */
  ghost function Deliver(c: Config, s: State, accepts: nat -> bool): State
    decreases if s.coord.phase.Handling? then 2 else 1, |s.coord.pending|
  {
    if s.coord.phase.Handling? then
      var s' := HandleMessage(c, s, accepts(s.coord.phase.msg.id));
      if s'.coord.phase.Draining? then Deliver(c, s', accepts) else s'
    else if s.coord.phase.Draining? then
      var s' := DrainNext(c, s, accepts(s.coord.nextSeq));
      if s'.coord.phase.Draining? then Deliver(c, s', accepts) else s'
    else s
  }

  /** `Deliver` is a run of enabled machine steps. */
  lemma {:induction false} DeliverIsRun(c: Config, s: State, accepts: nat -> bool)
    returns (steps: seq<Step>, states: seq<State>)
    requires s.coord.phase.Handling? || s.coord.phase.Draining?
    ensures |states| == |steps| + 1 && states[0] == s && states[|steps|] == Deliver(c, s, accepts)
    ensures forall i :: 0 <= i < |steps| ==>
              && (steps[i].Handle? || steps[i].Drain?) && Enabled(c, states[i], steps[i])
              && states[i + 1] == Apply(c, states[i], steps[i])
    decreases if s.coord.phase.Handling? then 2 else 1, |s.coord.pending|
  {
    var step := if s.coord.phase.Handling? then Handle(accepts(s.coord.phase.msg.id))
      else Drain(accepts(s.coord.nextSeq));
    var s' := Apply(c, s, step);
    if s'.coord.phase.Draining? {
      var restSteps, restStates := DeliverIsRun(c, s', accepts);
      steps, states := [step] + restSteps, [s] + restStates;
    } else {
      steps, states := [step], [s, s'];
    }
  }

  /** The consumer was shown these chunks one after the other and took all but perhaps the last;
      that one it refused exactly if the loop stops for it. */
  ghost predicate Shown(before: seq<nat>, after: seq<nat>, accepts: nat -> bool, refused: bool) {
    && before <= after && (forall i :: |before| <= i < |after| - 1 ==> accepts(after[i]))
    && (refused <==> before < after && !accepts(after[|after| - 1]))
  }

  /** What delivering means for the consumer and for what is reported. */
  lemma {:induction false} DeliverMeans(c: Config, s: State, accepts: nat -> bool)
    requires s.coord.phase.Handling? || s.coord.phase.Draining?
    ensures var d := Deliver(c, s, accepts);
            && Shown(s.seen, d.seen, accepts, d.coord.phase == Stopped(Error(ConsumerFailed)))
            && (d.coord.phase == Stopped(Error(WorkerFailed)) <==> s.coord.phase.Handling? && !s.coord.phase.msg.ok)
    decreases if s.coord.phase.Handling? then 2 else 1, |s.coord.pending|
  {
    var n := if s.coord.phase.Handling? then s.coord.phase.msg.id else s.coord.nextSeq;
    var s' := if s.coord.phase.Handling? then HandleMessage(c, s, accepts(n)) else DrainNext(c, s, accepts(n));
    OneShown(c, s, n, accepts);
    if s'.coord.phase.Draining? {
      DeliverMeans(c, s', accepts);
      var d := Deliver(c, s', accepts);
      assert d.seen[|s.seen|] == n;
    }
  }

  /** One step shows at most one chunk, and goes on only if that was taken. */
  lemma OneShown(c: Config, s: State, n: nat, accepts: nat -> bool)
    requires s.coord.phase.Handling? || s.coord.phase.Draining?
    requires n == if s.coord.phase.Handling? then s.coord.phase.msg.id else s.coord.nextSeq
    ensures var s' := if s.coord.phase.Handling? then HandleMessage(c, s, accepts(n)) else DrainNext(c, s, accepts(n));
            && (s'.seen == s.seen || s'.seen == s.seen + [n])
            && (s'.coord.phase.Draining? ==> s'.seen == s.seen + [n] && accepts(n))
            && (s'.coord.phase == Stopped(Error(ConsumerFailed)) <==> s'.seen == s.seen + [n] && !accepts(n))
            && (s'.coord.phase == Stopped(Error(WorkerFailed)) <==> s.coord.phase.Handling? && !s.coord.phase.msg.ok)
  {
    assert s.seen != s.seen + [n];
  }

  class Coordinating {
    var nextSeq: nat
    var pending: set<nat>
    var reorderBytes: int
    var seen: seq<nat>
    var dispatch: Option<nat>

    /** The object's fields are the coordinator's part of machine state `s`. */
    ghost predicate Represents(s: State)
      reads this
    {
      && nextSeq == s.coord.nextSeq && pending == s.coord.pending && reorderBytes == s.coord.reorderBytes
      && seen == s.seen && dispatch == s.dispatch
    }

    /** The loop body for one message; `Some` means the receive loop returns. */
    method OnMessage(c: Config, msg: Message, accepts: nat -> bool, ghost s: State) returns (stop: Option<Outcome>)
      requires Represents(s) && s.coord.phase == Handling(msg)
      modifies this
      ensures Represents(Deliver(c, s, accepts))
      ensures match stop
              case None => Deliver(c, s, accepts).coord.phase == Receiving
              case Some(outcome) => Deliver(c, s, accepts).coord.phase == Stopped(outcome)
    {
      if !msg.ok { return Some(Error(WorkerFailed)); }
      if !c.ordered {
        seen := seen + [msg.id];
        return if accepts(msg.id) then None else Some(Error(ConsumerFailed));
      }
      if msg.id != nextSeq {
        reorderBytes := SaturatingAdd(reorderBytes, c.Size(msg.id));
        if c.strict && reorderBytes > SaturatingMul(c.maxReorder, c.allowance) {
          return Some(Error(ReorderLimit));
        }
        pending := pending + {msg.id};
        return None;
      }
      seen := seen + [msg.id];
      if !accepts(msg.id) { return Some(Error(ConsumerFailed)); }
      nextSeq := nextSeq + 1;
      stop := Flush(c, accepts, HandleMessage(c, s, true));
    }

    /** Consume everything now in sequence, then publish the new position. */
    method Flush(c: Config, accepts: nat -> bool, ghost s: State) returns (stop: Option<Outcome>)
      requires Represents(s) && s.coord.phase.Draining?
      modifies this
      ensures Represents(Deliver(c, s, accepts))
      ensures match stop
              case None => Deliver(c, s, accepts).coord.phase == Receiving
              case Some(outcome) => Deliver(c, s, accepts).coord.phase == Stopped(outcome)
    {
      ghost var now := s;
      while nextSeq in pending
        invariant now.coord.phase.Draining? && Represents(now)
        invariant Deliver(c, now, accepts) == Deliver(c, s, accepts)
        decreases |pending|
      {
        pending := pending - {nextSeq};
        reorderBytes := reorderBytes - c.Size(nextSeq);
        seen := seen + [nextSeq];
        if !accepts(nextSeq) { return Some(Error(ConsumerFailed)); }
        now := DrainNext(c, now, true);
        nextSeq := nextSeq + 1;
      }
      dispatch := Some(nextSeq);
      return None;
    }
  }
}
