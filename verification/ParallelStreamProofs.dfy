/** Safety, progress and outcome of the streaming protocol, over every run. */
module ParallelStreamProofs {
  import opened Wrappers
  import opened ParallelStream

  // ---------------------------------------------------------------- conservation

  /** How many copies of chunk `id` one worker holds. */
  function HeldBy(w: Worker, id: nat): nat {
    match w
    case Idle => 0
    case Waiting(i) => if i == id then 1 else 0
    case Parsing(i) => if i == id then 1 else 0
    case Sending(msg) => if msg.id == id then 1 else 0
    case Exited => 0
  }

  function Held(workers: seq<Worker>, id: nat): nat {
    if workers == [] then 0 else HeldBy(workers[0], id) + Held(workers[1..], id)
  }

  function InHand(phase: Phase, id: nat): nat {
    if phase.Handling? && phase.msg.id == id then 1 else 0
  }

  /** The number of places chunk `id` is in. */
  function Copies(s: State, id: nat): nat {
    multiset(s.queue)[id] + Held(s.workers, id) + ChannelIds(s.channel)[id] + InHand(s.coord.phase, id)
    + (if id in s.coord.pending then 1 else 0) + multiset(s.seen)[id] + s.lost[id]
  }

  lemma {:induction false} HeldUpdate(workers: seq<Worker>, w: nat, to: Worker, id: nat)
    requires w < |workers|
    ensures Held(workers[w := to], id) == Held(workers, id) - HeldBy(workers[w], id) + HeldBy(to, id)
  {
    if w > 0 {
      HeldUpdate(workers[1..], w - 1, to, id);
      assert workers[w := to][1..] == workers[1..][w - 1 := to];
    } else {
      assert workers[w := to][1..] == workers[1..];
    }
  }

  lemma {:induction false} HeldMember(workers: seq<Worker>, w: nat, id: nat)
    requires w < |workers|
    ensures HeldBy(workers[w], id) <= Held(workers, id)
  {
    if w > 0 { HeldMember(workers[1..], w - 1, id); }
  }

  lemma {:induction false} HeldSomewhere(workers: seq<Worker>, id: nat) returns (w: nat)
    requires Held(workers, id) > 0
    ensures w < |workers| && HeldBy(workers[w], id) > 0
  {
    if HeldBy(workers[0], id) > 0 {
      w := 0;
    } else {
      var v := HeldSomewhere(workers[1..], id);
      w := v + 1;
    }
  }

  lemma ChannelAppend(channel: seq<Message>, msg: Message)
    ensures ChannelIds(channel + [msg]) == ChannelIds(channel) + multiset{msg.id}
  {
    var ids := seq(|channel|, j requires 0 <= j < |channel| => channel[j].id);
    var more := channel + [msg];
    assert seq(|more|, j requires 0 <= j < |more| => more[j].id) == ids + [msg.id];
  }

  lemma ChannelTail(channel: seq<Message>)
    requires channel != []
    ensures ChannelIds(channel) == multiset{channel[0].id} + ChannelIds(channel[1..])
  {
    var ids := seq(|channel|, j requires 0 <= j < |channel| => channel[j].id);
    var rest := channel[1..];
    assert ids == [channel[0].id] + seq(|rest|, j requires 0 <= j < |rest| => rest[j].id);
  }

  lemma TakeConserves(c: Config, s: State, w: nat, id: nat)
    requires Enabled(c, s, Pop(w)) && s.queue != []
    ensures Copies(PopQueue(c, s, w), id) == Copies(s, id)
  {
    var last, s' := |s.queue| - 1, PopQueue(c, s, w);
    assert s.queue == s'.queue + [s.queue[last]];
    assert multiset(s.queue)[id] == multiset(s'.queue)[id] + HeldBy(s'.workers[w], id);
    HeldUpdate(s.workers, w, s'.workers[w], id);
  }

  lemma PopConserves(c: Config, s: State, w: nat, id: nat)
    requires Enabled(c, s, Pop(w))
    ensures Copies(PopQueue(c, s, w), id) == Copies(s, id)
  {
    if s.queue != [] { TakeConserves(c, s, w, id); } else { HeldUpdate(s.workers, w, Exited, id); }
  }

  lemma SendConserves(c: Config, s: State, w: nat, id: nat)
    requires Enabled(c, s, Send(w))
    ensures Copies(SendBatch(s, w), id) == Copies(s, id)
  {
    var msg, s' := s.workers[w].msg, SendBatch(s, w);
    assert s'.queue == s.queue && s'.coord == s.coord && s'.seen == s.seen;
    HeldUpdate(s.workers, w, s'.workers[w], id);
    assert HeldBy(s'.workers[w], id) == 0;
    if s.Running() { ChannelAppend(s.channel, msg); }
  }

  lemma ReceiveConserves(s: State, id: nat)
    requires s.coord.phase.Receiving?
    ensures Copies(ReceiveNext(s), id) == Copies(s, id)
  {
    if s.channel != [] { ChannelTail(s.channel); }
  }

  /** Stopping only moves chunks: what the channel held and what is dropped counts as lost. */
  lemma StopConserves(s: State, coord: Coordinator, result: Outcome, dropped: multiset<nat>, id: nat)
    requires coord.phase.Handling? || coord.phase.Draining?
    ensures Copies(Stop(s, coord, result, dropped), id) + InHand(coord.phase, id)
            == Copies(s.(coord := coord), id) + dropped[id]
  {
    assert ChannelIds([]) == multiset{};
  }

  function Buffered(co: Coordinator, id: nat): nat { if id in co.pending then 1 else 0 }

  /** A new coordinator state counts for what it holds itself. */
  lemma CoordMoves(s: State, co: Coordinator, id: nat)
    ensures Copies(s.(coord := co), id) + InHand(s.coord.phase, id) + Buffered(s.coord, id)
            == Copies(s, id) + InHand(co.phase, id) + Buffered(co, id)
  {
  }

  /** Showing a chunk to the consumer makes one copy more. */
  lemma ShowOne(s: State, n: nat, id: nat)
    ensures Copies(s.(seen := s.seen + [n]), id) == Copies(s, id) + if n == id then 1 else 0
  {
    assert multiset(s.seen + [n])[id] == multiset(s.seen)[id] + if n == id then 1 else 0;
  }

  lemma HandleConserves(c: Config, s: State, accepted: bool, id: nat)
    requires s.coord.phase.Handling? && s.coord.phase.msg.id !in s.coord.pending
    ensures Copies(HandleMessage(c, s, accepted), id) == Copies(s, id)
  {
    var msg, co := s.coord.phase.msg, s.coord;
    if !msg.ok {
      StopConserves(s, co, Error(WorkerFailed), multiset{msg.id}, id);
    } else if !c.ordered || msg.id == co.nextSeq {
      InTurnConserves(c, s, accepted, id);
    } else {
      AheadConserves(c, s, accepted, id);
    }
  }

  /** The message in hand is shown to the consumer. */
  lemma InTurnConserves(c: Config, s: State, accepted: bool, id: nat)
    requires s.coord.phase.Handling? && s.coord.phase.msg.ok
    requires c.ordered ==> s.coord.phase.msg.id == s.coord.nextSeq
    ensures Copies(HandleMessage(c, s, accepted), id) == Copies(s, id)
  {
    var co, shown, s' := s.coord, s.(seen := s.seen + [s.coord.phase.msg.id]), HandleMessage(c, s, accepted);
    ShowOne(s, co.phase.msg.id, id);
    if accepted {
      assert s' == shown.(coord := s'.coord) && s'.coord.pending == co.pending;
      CoordMoves(shown, s'.coord, id);
    } else {
      assert s' == Stop(shown.(errored := true), co, Error(ConsumerFailed), multiset{});
      StopConserves(shown.(errored := true), co, Error(ConsumerFailed), multiset{}, id);
    }
  }

  /** The message in hand goes to the buffer. */
  lemma AheadConserves(c: Config, s: State, accepted: bool, id: nat)
    requires s.coord.phase.Handling? && s.coord.phase.msg.ok && s.coord.phase.msg.id !in s.coord.pending
    requires c.ordered && s.coord.phase.msg.id != s.coord.nextSeq
    ensures Copies(HandleMessage(c, s, accepted), id) == Copies(s, id)
  {
    var msg, co, s' := s.coord.phase.msg, s.coord, HandleMessage(c, s, accepted);
    var bytes := SaturatingAdd(co.reorderBytes, c.Size(msg.id));
    if c.strict && bytes > SaturatingMul(c.maxReorder, c.allowance) {
      StopConserves(s, co.(reorderBytes := bytes), Error(ReorderLimit), multiset{msg.id}, id);
    } else {
      assert s' == s.(coord := s'.coord) && s'.coord.pending == co.pending + {msg.id};
      CoordMoves(s, s'.coord, id);
    }
  }

  lemma DrainConserves(c: Config, s: State, accepted: bool, id: nat)
    requires s.coord.phase.Draining?
    ensures Copies(DrainNext(c, s, accepted), id) == Copies(s, id)
  {
    if s.coord.nextSeq in s.coord.pending {
      FlushOneConserves(c, s, accepted, id);
    } else {
      var s' := DrainNext(c, s, accepted);
      assert s' == s.(coord := s'.coord).(dispatch := s'.dispatch);
      CoordMoves(s, s'.coord, id);
    }
  }

  /** The next chunk leaves the buffer for the consumer. */
  lemma FlushOneConserves(c: Config, s: State, accepted: bool, id: nat)
    requires s.coord.phase.Draining? && s.coord.nextSeq in s.coord.pending
    ensures Copies(DrainNext(c, s, accepted), id) == Copies(s, id)
  {
    var co, shown, s' := s.coord, s.(seen := s.seen + [s.coord.nextSeq]), DrainNext(c, s, accepted);
    ShowOne(s, co.nextSeq, id);
    var co' := co.(pending := co.pending - {co.nextSeq}, reorderBytes := co.reorderBytes - c.Size(co.nextSeq));
    if accepted {
      assert s' == shown.(coord := s'.coord);
      CoordMoves(shown, s'.coord, id);
    } else {
      var refused := shown.(errored := true);
      assert s' == Stop(refused, co', Error(ConsumerFailed), multiset{});
      CoordMoves(refused, co', id);
      StopConserves(refused, co', Error(ConsumerFailed), multiset{}, id);
    }
  }

  /** No step creates, duplicates or forgets a chunk. */
  lemma Conservation(c: Config, s: State, step: Step, id: nat)
    requires Enabled(c, s, step)
    requires step.Handle? ==> s.coord.phase.msg.id !in s.coord.pending
    ensures Copies(Apply(c, s, step), id) == Copies(s, id)
  {
    match step
    case Pop(w) => PopConserves(c, s, w, id);
    case Pass(w) => HeldUpdate(s.workers, w, if s.dispatch.None? then Exited else Parsing(s.workers[w].id), id);
    case Parse(w, ok) => HeldUpdate(s.workers, w, Sending(Message(s.workers[w].id, ok)), id);
    case Send(w) => SendConserves(c, s, w, id);
    case Receive => ReceiveConserves(s, id);
    case Handle(accepted) => HandleConserves(c, s, accepted, id);
    case Drain(accepted) => DrainConserves(c, s, accepted, id);
    case CloseDispatch =>
    case Join =>
  }

  // ---------------------------------------------------------------- the invariant

  ghost predicate Shape(c: Config, s: State) {
    && |s.workers| == c.threads
    && |s.queue| <= c.Chunks()
    && (forall j :: 0 <= j < |s.queue| ==> s.queue[j] == c.Chunks() - 1 - j)
    && (s.Running() ==> s.lost == multiset{})
    && (!s.Running() ==> s.channel == [])
    && (s.dispatch.Some? <==> s.Running() || s.coord.phase.Stopped?)
    && (s.coord.phase.Finished? ==> AllExited(s.workers))
  }

  ghost predicate Once(c: Config, s: State) {
    forall id: nat :: Copies(s, id) == if id < c.Chunks() then 1 else 0
  }

  /** What the consumer has seen, and what the reorder buffer may hold. */
  ghost predicate Order(c: Config, s: State) {
    if c.ordered then
      && (forall j :: 0 <= j < |s.seen| ==> s.seen[j] == j)
      && (s.Running() ==> InOrder(c, s.coord, s.dispatch, |s.seen|))
    else
      && s.coord.pending == {} && !s.coord.phase.Draining?
      && forall w :: 0 <= w < |s.workers| ==> !s.workers[w].Waiting?
  }

  ghost predicate InOrder(c: Config, co: Coordinator, dispatch: Option<nat>, delivered: nat) {
    && co.nextSeq == delivered
    && dispatch.Some? && dispatch.value <= co.nextSeq
    && (!co.phase.Draining? ==> dispatch.value == co.nextSeq && co.nextSeq !in co.pending)
    && (forall id :: id in co.pending ==> co.nextSeq <= id <= dispatch.value + c.maxReorder)
    && co.reorderBytes == c.Total(co.pending)
  }

  /** Past the dispatch gate: inside the window of the published position. */
  predicate Admitted(c: Config, s: State, id: nat) {
    c.ordered && s.Running() && s.dispatch.Some? ==> id <= s.dispatch.value + c.maxReorder
  }

  predicate Fits(c: Config, id: nat) {
    c.strict ==> c.Size(id) <= c.allowance
  }

  predicate MessageOk(c: Config, s: State, msg: Message) {
    Admitted(c, s, msg.id) && (if msg.ok then Fits(c, msg.id) else s.errored)
  }

  predicate WorkerOk(c: Config, s: State, w: Worker) {
    match w
    case Parsing(id) => Admitted(c, s, id)
    case Sending(msg) => MessageOk(c, s, msg)
    case _ => true
  }

  ghost predicate InFlight(c: Config, s: State) {
    && (forall w :: 0 <= w < |s.workers| ==> WorkerOk(c, s, s.workers[w]))
    && (forall j :: 0 <= j < |s.channel| ==> MessageOk(c, s, s.channel[j]))
    && (s.coord.phase.Handling? ==> MessageOk(c, s, s.coord.phase.msg))
    && (forall id :: id in s.coord.pending ==> Fits(c, id))
  }

  /** A failure is on its way to the coordinator. */
  predicate FailureSent(s: State) {
    || (exists j :: 0 <= j < |s.channel| && !s.channel[j].ok)
    || (s.coord.phase.Handling? && !s.coord.phase.msg.ok)
  }

  predicate FailureHeld(s: State) {
    exists w :: 0 <= w < |s.workers| && s.workers[w].Sending? && !s.workers[w].msg.ok
  }

  ghost predicate Failures(s: State) {
    s.Running() ==>
      && (s.errored ==> FailureSent(s) || FailureHeld(s))
      && ((exists w :: 0 <= w < |s.workers| && s.workers[w].Exited?) && s.queue != [] ==> FailureSent(s))
  }

  /** Every chunk exactly once; in order when `ordered`; nothing left behind. */
  ghost predicate Complete(c: Config, s: State) {
    && |s.seen| == c.Chunks()
    && (forall id: nat :: multiset(s.seen)[id] == if id < c.Chunks() then 1 else 0)
    && (c.ordered ==> forall j :: 0 <= j < |s.seen| ==> s.seen[j] == j)
    && s.coord.pending == {} && s.queue == []
  }

  ghost predicate Settled(c: Config, s: State) {
    !s.Running() ==>
      && s.coord.phase.result != Error(ReorderLimit)
      && (s.coord.phase.result.Error? <==> s.errored)
      && (s.coord.phase.result.Success? ==> AllExited(s.workers) && Complete(c, s))
  }

  ghost predicate Inv(c: Config, s: State) {
    Shape(c, s) && Once(c, s) && Order(c, s) && InFlight(c, s) && Failures(s) && Settled(c, s)
  }

  // ---------------------------------------------------------------- sizes

  lemma {:induction false} TotalInsert(c: Config, ids: set<nat>, id: nat, n: nat)
    requires id !in ids
    ensures c.TotalBelow(ids + {id}, n) == c.TotalBelow(ids, n) + if id < n then c.Size(id) else 0
  {
    if n > 0 { TotalInsert(c, ids, id, n - 1); }
  }

  lemma {:induction false} TotalRemove(c: Config, ids: set<nat>, id: nat, n: nat)
    requires id in ids
    ensures c.TotalBelow(ids - {id}, n) == c.TotalBelow(ids, n) - if id < n then c.Size(id) else 0
  {
    if n > 0 { TotalRemove(c, ids, id, n - 1); }
  }

  function Overlap(low: nat, width: nat, n: nat): nat {
    if n <= low + 1 then 0 else if n <= low + width + 1 then n - low - 1 else width
  }

  lemma MulMonotone(a: nat, b: nat, m: nat)
    requires a <= b
    ensures a * m <= b * m
    ensures a < b ==> a * m + m <= b * m
  {
    assert (b - a) * m >= 0 && b * m == a * m + (b - a) * m;
    if a < b { assert (b - a) * m == (b - a - 1) * m + m; }
  }

  /** At most `width` chunks fit a window, so their sizes add up to at most `width` allowances. */
  lemma {:induction false} WindowTotal(c: Config, ids: set<nat>, low: nat, width: nat, n: nat)
    requires InWindow(ids, low, width)
    requires forall id :: id in ids ==> c.Size(id) <= c.allowance
    ensures c.TotalBelow(ids, n) <= Overlap(low, width, n) * c.allowance
  {
    if n > 0 {
      WindowTotal(c, ids, low, width, n - 1);
      MulMonotone(Overlap(low, width, n - 1), Overlap(low, width, n), c.allowance);
    }
  }

  // ---------------------------------------------------------------- preservation

  predicate IsWorkerStep(step: Step) {
    step.Pop? || step.Pass? || step.Parse? || step.Send?
  }

  lemma WorkerShape(c: Config, s: State, step: Step)
    requires Shape(c, s) && Enabled(c, s, step) && IsWorkerStep(step)
    ensures Shape(c, Apply(c, s, step))
  {
    var s' := Apply(c, s, step);
    assert s'.coord == s.coord && s'.dispatch == s.dispatch && |s'.workers| == |s.workers|;
    assert s'.queue <= s.queue;
  }

  /** A step of the coordinator that keeps queue, workers and dispatch keeps their shape. */
  lemma SameShape(c: Config, s: State, after: State)
    requires Shape(c, s) && s.Running()
    requires after.queue == s.queue && after.workers == s.workers && after.dispatch == s.dispatch
    requires after.Running() ==> after.lost == s.lost
    requires !after.Running() ==> after.coord.phase.Stopped? && after.channel == []
    ensures Shape(c, after)
  {
  }

  lemma HandleShape(c: Config, s: State, accepted: bool)
    requires Shape(c, s) && s.coord.phase.Handling?
    ensures Shape(c, HandleMessage(c, s, accepted))
  {
    SameShape(c, s, HandleMessage(c, s, accepted));
  }

  lemma DrainShape(c: Config, s: State, accepted: bool)
    requires Shape(c, s) && s.coord.phase.Draining?
    ensures Shape(c, DrainNext(c, s, accepted))
  {
  }

  lemma ShapePreserved(c: Config, s: State, step: Step)
    requires Shape(c, s) && Enabled(c, s, step)
    ensures Shape(c, Apply(c, s, step))
  {
    if IsWorkerStep(step) {
      WorkerShape(c, s, step);
    } else if step.Handle? {
      HandleShape(c, s, step.accepted);
    } else if step.Drain? {
      DrainShape(c, s, step.accepted);
    }
  }

  /** A chunk in the coordinator's hand is nowhere else. */
  lemma InHandOnly(c: Config, s: State)
    requires Once(c, s) && s.coord.phase.Handling?
    ensures s.coord.phase.msg.id !in s.coord.pending && s.coord.phase.msg.id !in s.seen
    ensures s.coord.phase.msg.id < c.Chunks()
  {
    var id := s.coord.phase.msg.id;
    assert Copies(s, id) <= 1;
    assert id in s.seen ==> multiset(s.seen)[id] >= 1;
  }

  lemma OncePreserved(c: Config, s: State, step: Step)
    requires Once(c, s) && Enabled(c, s, step)
    ensures Once(c, Apply(c, s, step))
  {
    if step.Handle? { InHandOnly(c, s); }
    forall id: nat ensures Copies(Apply(c, s, step), id) == if id < c.Chunks() then 1 else 0 {
      Conservation(c, s, step, id);
    }
  }

  lemma PrefixMembers(seen: seq<nat>, id: nat)
    requires forall j :: 0 <= j < |seen| ==> seen[j] == j
    ensures id in seen <==> id < |seen|
  {
    if id < |seen| { assert seen[id] == id; }
  }

  /** A batch received out of turn is ahead of the cursor, inside the window, and adding its
      size neither saturates nor, in strict mode, exceeds the reorder limit. */
  lemma ReorderAccounting(c: Config, s: State)
    requires c.Valid() && Once(c, s) && Order(c, s) && InFlight(c, s)
    requires c.ordered && s.coord.phase.Handling? && s.coord.phase.msg.ok
    requires s.coord.phase.msg.id != s.coord.nextSeq
    ensures var id, co := s.coord.phase.msg.id, s.coord;
            && co.nextSeq < id <= co.nextSeq + c.maxReorder
            && id !in co.pending
            && SaturatingAdd(co.reorderBytes, c.Size(id)) == c.Total(co.pending + {id})
            && c.Total(co.pending + {id}) <= USIZE_MAX
            && (c.strict ==> c.Total(co.pending + {id}) <= c.maxReorder * c.allowance)
  {
    var id, co := s.coord.phase.msg.id, s.coord;
    InHandOnly(c, s);
    PrefixMembers(s.seen, id);
    TotalInsert(c, co.pending, id, c.Chunks());
    assert InWindow(co.pending + {id}, co.nextSeq, c.maxReorder);
    if c.strict {
      WindowTotal(c, co.pending + {id}, co.nextSeq, c.maxReorder, c.Chunks());
      MulMonotone(Overlap(co.nextSeq, c.maxReorder, c.Chunks()), c.maxReorder, c.allowance);
    }
  }

  lemma HandleOrder(c: Config, s: State, accepted: bool)
    requires c.Valid() && Once(c, s) && Order(c, s) && InFlight(c, s) && s.coord.phase.Handling?
    ensures Order(c, HandleMessage(c, s, accepted))
    ensures HandleMessage(c, s, accepted).coord.phase != Stopped(Error(ReorderLimit))
  {
    if c.ordered && s.coord.phase.msg.ok && s.coord.phase.msg.id != s.coord.nextSeq { ReorderAccounting(c, s); }
  }

  lemma DrainOrder(c: Config, s: State, accepted: bool)
    requires Order(c, s) && s.coord.phase.Draining?
    ensures Order(c, DrainNext(c, s, accepted))
  {
    if s.coord.nextSeq in s.coord.pending { TotalRemove(c, s.coord.pending, s.coord.nextSeq, c.Chunks()); }
  }

  lemma OrderPreserved(c: Config, s: State, step: Step)
    requires c.Valid() && Enabled(c, s, step)
    requires Once(c, s) && Order(c, s) && InFlight(c, s)
    ensures Order(c, Apply(c, s, step))
  {
    match step
    case Handle(accepted) => HandleOrder(c, s, accepted);
    case Drain(accepted) => DrainOrder(c, s, accepted);
    case _ =>
  }

  lemma SendInFlight(c: Config, s: State, w: nat)
    requires InFlight(c, s) && w < |s.workers| && s.workers[w].Sending?
    ensures InFlight(c, SendBatch(s, w))
  {
    var s' := SendBatch(s, w);
    assert WorkerOk(c, s, s.workers[w]);
    assert forall v :: 0 <= v < |s'.workers| && v != w ==> s'.workers[v] == s.workers[v];
  }

  lemma WorkerInFlight(c: Config, s: State, step: Step)
    requires InFlight(c, s) && Enabled(c, s, step) && IsWorkerStep(step) && (step.Pop? ==> Order(c, s))
    ensures InFlight(c, Apply(c, s, step))
  {
    if step.Send? {
      SendInFlight(c, s, step.w);
    } else {
      var s' := Apply(c, s, step);
      assert WorkerOk(c, s, s.workers[step.w]);
      assert forall v :: 0 <= v < |s'.workers| && v != step.w ==> s'.workers[v] == s.workers[v];
      assert WorkerOk(c, s', s'.workers[step.w]);
    }
  }

  lemma HandleInFlight(c: Config, s: State, accepted: bool)
    requires InFlight(c, s) && s.coord.phase.Handling?
    ensures InFlight(c, HandleMessage(c, s, accepted))
  {
    var s' := HandleMessage(c, s, accepted);
    forall w | 0 <= w < |s.workers| ensures WorkerOk(c, s', s.workers[w]) { assert WorkerOk(c, s, s.workers[w]); }
    forall j | 0 <= j < |s.channel| ensures MessageOk(c, s', s.channel[j]) { assert MessageOk(c, s, s.channel[j]); }
  }

  lemma InFlightPreserved(c: Config, s: State, step: Step)
    requires InFlight(c, s) && Order(c, s) && Enabled(c, s, step)
    ensures InFlight(c, Apply(c, s, step))
  {
    if IsWorkerStep(step) {
      WorkerInFlight(c, s, step);
    } else if step.Handle? {
      HandleInFlight(c, s, step.accepted);
    }
  }

  lemma SendFailures(s: State, w: nat)
    requires Failures(s) && s.Running() && w < |s.workers| && s.workers[w].Sending?
    ensures Failures(SendBatch(s, w))
  {
    var s' := SendBatch(s, w);
    assert s'.channel[|s.channel|] == s.workers[w].msg;
    if FailureSent(s) {
      if !(s.coord.phase.Handling? && !s.coord.phase.msg.ok) {
        var j :| 0 <= j < |s.channel| && !s.channel[j].ok;
        assert !s'.channel[j].ok;
      }
    } else if FailureHeld(s) {
      var v :| 0 <= v < |s.workers| && s.workers[v].Sending? && !s.workers[v].msg.ok;
      assert v != w ==> s'.workers[v] == s.workers[v];
    }
  }

  lemma WorkerFailures(c: Config, s: State, step: Step)
    requires Shape(c, s) && Failures(s) && Enabled(c, s, step) && IsWorkerStep(step)
    ensures Failures(Apply(c, s, step))
  {
    if step.Send? {
      if s.Running() { SendFailures(s, step.w); }
    } else if s.Running() {
      var s' := Apply(c, s, step);
      assert FailureSent(s') == FailureSent(s);
      if FailureHeld(s) {
        var v :| 0 <= v < |s.workers| && s.workers[v].Sending? && !s.workers[v].msg.ok;
        assert s'.workers[v] == s.workers[v];
      }
      if step.Parse? && !step.ok { assert s'.workers[step.w].Sending? && !s'.workers[step.w].msg.ok; }
      assert forall w :: 0 <= w < |s'.workers| && s'.workers[w].Exited? && s'.queue != [] ==> s.workers[w].Exited?;
    }
  }

  lemma DeliveryFailures(c: Config, s: State, step: Step)
    requires Failures(s) && Enabled(c, s, step) && (step.Handle? || step.Drain?)
    ensures Failures(Apply(c, s, step))
  {
    if Apply(c, s, step).Running() {
      DeliveryKeeps(c, s, step);
      SameFailures(s, Apply(c, s, step));
    }
  }

  /** A delivery that goes on leaves channel and workers alone. */
  lemma DeliveryKeeps(c: Config, s: State, step: Step)
    requires Enabled(c, s, step) && (step.Handle? || step.Drain?) && Apply(c, s, step).Running()
    ensures var s' := Apply(c, s, step);
            && s.Running() && s'.channel == s.channel && s'.workers == s.workers && s'.queue == s.queue
            && s'.errored == s.errored && (s.coord.phase.Handling? ==> s.coord.phase.msg.ok)
            && !s'.coord.phase.Handling?
  {
  }

  lemma SameFailures(s: State, after: State)
    requires Failures(s) && s.Running() && (s.coord.phase.Handling? ==> s.coord.phase.msg.ok)
    requires after.channel == s.channel && after.workers == s.workers && after.queue == s.queue
    requires after.errored == s.errored
    ensures Failures(after)
  {
    assert FailureSent(s) ==> FailureSent(after);
    assert FailureHeld(after) == FailureHeld(s);
  }

  lemma FailuresPreserved(c: Config, s: State, step: Step)
    requires Shape(c, s) && Failures(s) && Enabled(c, s, step)
    ensures Failures(Apply(c, s, step))
  {
    if IsWorkerStep(step) {
      WorkerFailures(c, s, step);
    } else if step.Handle? || step.Drain? {
      DeliveryFailures(c, s, step);
    }
  }

  lemma {:induction false} DescendingCount(n: nat, id: nat)
    ensures multiset(Descending(n))[id] == if id < n then 1 else 0
  {
    if n > 0 {
      assert Descending(n) == [n - 1] + Descending(n - 1);
      DescendingCount(n - 1, id);
    }
  }

  lemma {:induction false} HeldByNone(workers: seq<Worker>, id: nat)
    requires forall w :: 0 <= w < |workers| ==> HeldBy(workers[w], id) == 0
    ensures Held(workers, id) == 0
  {
    if workers != [] { HeldByNone(workers[1..], id); }
  }

  /** When the channel runs dry with every sender gone and no failure, the consumer has it all. */
  lemma StopComplete(c: Config, s: State)
    requires c.Valid() && Inv(c, s) && s.coord.phase.Receiving? && s.channel == [] && AllExited(s.workers)
    ensures !s.errored && Complete(c, ReceiveNext(s))
  {
    assert s.workers[0].Exited?;
    assert s.queue == [];
    assert ChannelIds(s.channel) == multiset{};
    var n := c.Chunks();
    forall id: nat
      ensures multiset(s.seen)[id] + (if id in s.coord.pending then 1 else 0) == if id < n then 1 else 0
    {
      HeldByNone(s.workers, id);
      assert Copies(s, id) == if id < n then 1 else 0;
    }
    if c.ordered {
      PrefixMembers(s.seen, s.coord.nextSeq);
      assert s.coord.nextSeq !in multiset(s.seen);
      assert forall id :: id in s.coord.pending ==> s.coord.nextSeq < id < n;
    }
    forall id: nat ensures multiset(s.seen)[id] == multiset(Descending(n))[id] { DescendingCount(n, id); }
    assert multiset(s.seen) == multiset(Descending(n));
    assert |multiset(s.seen)| == |s.seen| && |multiset(Descending(n))| == n;
  }

  lemma SettledPreserved(c: Config, s: State, step: Step)
    requires c.Valid() && Inv(c, s) && Enabled(c, s, step)
    ensures Settled(c, Apply(c, s, step))
  {
    if step.Receive? {
      if s.channel == [] { StopComplete(c, s); }
    } else if step.Handle? {
      HandleSettled(c, s, step.accepted);
    } else if step.Drain? {
      DrainSettled(c, s, step.accepted);
    } else if !s.Running() {
      StaysSettled(c, s, step);
    }
  }

  lemma HandleSettled(c: Config, s: State, accepted: bool)
    requires c.Valid() && Inv(c, s) && s.coord.phase.Handling?
    ensures Settled(c, HandleMessage(c, s, accepted))
  {
    if c.ordered && s.coord.phase.msg.id != s.coord.nextSeq && s.coord.phase.msg.ok { ReorderAccounting(c, s); }
  }

  lemma DrainSettled(c: Config, s: State, accepted: bool)
    requires s.coord.phase.Draining?
    ensures Settled(c, DrainNext(c, s, accepted))
  {
  }

  /** After the receive loop only workers that have not left can still do anything. */
  lemma StaysSettled(c: Config, s: State, step: Step)
    requires Settled(c, s) && Enabled(c, s, step) && !s.Running()
    ensures Settled(c, Apply(c, s, step))
  {
  }

  lemma InvPreserved(c: Config, s: State, step: Step)
    requires c.Valid() && Inv(c, s) && Enabled(c, s, step)
    ensures Inv(c, Apply(c, s, step))
  {
    ShapePreserved(c, s, step);
    OncePreserved(c, s, step);
    OrderPreserved(c, s, step);
    InFlightPreserved(c, s, step);
    FailuresPreserved(c, s, step);
    SettledPreserved(c, s, step);
  }

  lemma InitInv(c: Config)
    requires c.Valid()
    ensures Inv(c, Init(c))
  {
    var s := Init(c);
    forall id: nat ensures Copies(s, id) == if id < c.Chunks() then 1 else 0 {
      DescendingCount(c.Chunks(), id);
      HeldByNone(s.workers, id);
      assert ChannelIds([]) == multiset{};
    }
    NothingPending(c, c.Chunks());
  }

  lemma {:induction false} NothingPending(c: Config, n: nat)
    ensures c.TotalBelow({}, n) == 0
  {
    if n > 0 { NothingPending(c, n - 1); }
  }

  // ---------------------------------------------------------------- progress

  /** The queue is an upper end of the chunk numbers. */
  lemma QueueUpward(c: Config, s: State, low: nat, high: nat)
    requires Shape(c, s) && low in s.queue && low < high < c.Chunks()
    ensures high in s.queue
  {
    assert s.queue[c.Chunks() - 1 - high] == high;
  }

  /** The worker holding the chunk the coordinator waits for is never the blocked one. */
  lemma NextHolderMoves(c: Config, s: State, blocked: nat) returns (step: Step)
    requires c.Valid() && Inv(c, s) && s.coord.phase.Receiving? && s.channel == []
    requires blocked < |s.workers| && s.workers[blocked].Waiting?
    requires !InsideWindow(c, s.dispatch, s.workers[blocked].id)
    ensures Enabled(c, s, step)
  {
    var next, id := s.coord.nextSeq, s.workers[blocked].id;
    HeldMember(s.workers, blocked, id);
    assert Copies(s, id) <= 1 && id !in multiset(s.queue);
    assert id < c.Chunks() && next < id;
    if next in s.queue { QueueUpward(c, s, next, id); }
    assert next !in multiset(s.queue);
    PrefixMembers(s.seen, next);
    assert next !in multiset(s.seen);
    assert ChannelIds(s.channel) == multiset{};
    assert Copies(s, next) == 1;
    var w := HeldSomewhere(s.workers, next);
    step := if s.workers[w].Waiting? then Pass(w) else if s.workers[w].Parsing? then Parse(w, false) else Send(w);
  }

  /** A live worker can move, or is waiting on a chunk whose holder can. */
  lemma WorkerMoves(c: Config, s: State, w: nat) returns (step: Step)
    requires c.Valid() && Inv(c, s) && w < |s.workers| && !s.workers[w].Exited?
    requires s.coord.phase.Joining? || (s.coord.phase.Receiving? && s.channel == [])
    ensures Enabled(c, s, step)
  {
    match s.workers[w]
    case Idle => step := Pop(w);
    case Parsing(_) => step := Parse(w, false);
    case Sending(_) => step := Send(w);
    case Waiting(id) =>
      step := Pass(w);
      if !InsideWindow(c, s.dispatch, id) { step := NextHolderMoves(c, s, w); }
  }

  /** No reachable unfinished state is stuck. */
  lemma NotStuck(c: Config, s: State) returns (step: Step)
    requires c.Valid() && Inv(c, s) && !s.coord.phase.Finished?
    ensures Enabled(c, s, step)
  {
    var phase := s.coord.phase;
    if phase.Handling? {
      step := Handle(true);
    } else if phase.Draining? {
      step := Drain(true);
    } else if phase.Stopped? {
      step := CloseDispatch;
    } else if phase.Receiving? && s.channel != [] {
      step := Receive;
    } else if AllExited(s.workers) {
      step := if phase.Receiving? then Receive else Join;
    } else {
      var w :| 0 <= w < |s.workers| && !s.workers[w].Exited?;
      step := WorkerMoves(c, s, w);
    }
  }

  function WorkerRank(w: Worker): nat {
    match w
    case Exited => 0
    case Idle => 1
    case Sending(_) => 5
    case Parsing(_) => 6
    case Waiting(_) => 7
  }

  function WorkersRank(workers: seq<Worker>): nat {
    if workers == [] then 0 else WorkerRank(workers[0]) + WorkersRank(workers[1..])
  }

  function PhaseRank(phase: Phase): nat {
    match phase
    case Finished(_) => 0
    case Joining(_) => 1
    case Stopped(_) => 2
    case Receiving => 3
    case Draining => 4
    case Handling(_) => 5
  }

  function Measure(s: State): nat {
    7 * |s.queue| + WorkersRank(s.workers) + 3 * |s.channel| + PhaseRank(s.coord.phase) + |s.coord.pending|
  }

  lemma {:induction false} RankUpdate(workers: seq<Worker>, w: nat, to: Worker)
    requires w < |workers|
    ensures WorkersRank(workers[w := to]) == WorkersRank(workers) - WorkerRank(workers[w]) + WorkerRank(to)
  {
    if w > 0 {
      RankUpdate(workers[1..], w - 1, to);
      assert workers[w := to][1..] == workers[1..][w - 1 := to];
    } else {
      assert workers[w := to][1..] == workers[1..];
    }
  }

  lemma PopMeasureFalls(c: Config, s: State, w: nat)
    requires Enabled(c, s, Pop(w))
    ensures Measure(PopQueue(c, s, w)) < Measure(s)
  {
    RankUpdate(s.workers, w, PopQueue(c, s, w).workers[w]);
  }

  lemma SendMeasureFalls(c: Config, s: State, w: nat)
    requires Enabled(c, s, Send(w))
    ensures Measure(SendBatch(s, w)) < Measure(s)
  {
    RankUpdate(s.workers, w, SendBatch(s, w).workers[w]);
  }

  lemma WorkerMeasureFalls(c: Config, s: State, step: Step)
    requires Enabled(c, s, step) && IsWorkerStep(step)
    ensures Measure(Apply(c, s, step)) < Measure(s)
  {
    match step
    case Pop(w) => PopMeasureFalls(c, s, w);
    case Pass(w) => RankUpdate(s.workers, w, PassWindow(s, w).workers[w]);
    case Parse(w, ok) => RankUpdate(s.workers, w, ParseChunk(s, w, ok).workers[w]);
    case Send(w) => SendMeasureFalls(c, s, w);
    case _ =>
  }

  lemma HandleMeasureFalls(c: Config, s: State, accepted: bool)
    requires s.coord.phase.Handling?
    ensures Measure(HandleMessage(c, s, accepted)) < Measure(s)
  {
  }

  lemma DrainMeasureFalls(c: Config, s: State, accepted: bool)
    requires s.coord.phase.Draining?
    ensures Measure(DrainNext(c, s, accepted)) < Measure(s)
  {
    var next := s.coord.nextSeq;
    if next in s.coord.pending { assert |s.coord.pending - {next}| == |s.coord.pending| - 1; }
  }

  /** Every step makes the measure smaller, whatever the schedule and the failures. */
  lemma MeasureFalls(c: Config, s: State, step: Step)
    requires Enabled(c, s, step)
    ensures Measure(Apply(c, s, step)) < Measure(s)
  {
    if IsWorkerStep(step) {
      WorkerMeasureFalls(c, s, step);
    } else if step.Handle? {
      HandleMeasureFalls(c, s, step.accepted);
    } else if step.Drain? {
      DrainMeasureFalls(c, s, step.accepted);
    } else {
      assert step.Receive? && s.channel != [] ==> |ReceiveNext(s).channel| == |s.channel| - 1;
    }
  }

  lemma {:induction false} IdleRank(workers: seq<Worker>)
    requires forall w :: 0 <= w < |workers| ==> workers[w].Idle?
    ensures WorkersRank(workers) == |workers|
  {
    if workers != [] { IdleRank(workers[1..]); }
  }

  // ---------------------------------------------------------------- runs

  /** A run: from the initial state, one enabled step after another, under any schedule. */
  ghost predicate IsRun(c: Config, states: seq<State>, steps: seq<Step>) {
    && |states| == |steps| + 1
    && states[0] == Init(c)
    && forall i :: 0 <= i < |steps| ==>
      Enabled(c, states[i], steps[i]) && states[i + 1] == Apply(c, states[i], steps[i])
  }

  lemma {:induction false} RunInv(c: Config, states: seq<State>, steps: seq<Step>, i: nat)
    requires c.Valid() && IsRun(c, states, steps) && i < |states|
    ensures Inv(c, states[i]) && Measure(states[i]) + i <= 7 * c.Chunks() + c.threads + 3
  {
    if i == 0 {
      InitInv(c);
      IdleRank(states[0].workers);
    } else {
      RunInv(c, states, steps, i - 1);
      InvPreserved(c, states[i - 1], steps[i - 1]);
      MeasureFalls(c, states[i - 1], steps[i - 1]);
    }
  }

  /** Safety of ordered streaming in every reachable state: the consumer has seen exactly the
      chunks `0..k-1` in order, the buffer stays inside the window ahead of the cursor, the
      byte counter is the size of the buffer (so it never underflows), and the reorder limit
      never fires. */
  lemma OrderedSafety(c: Config, states: seq<State>, steps: seq<Step>, i: nat)
    requires c.Valid() && c.ordered && IsRun(c, states, steps) && i < |states|
    ensures var s, co := states[i], states[i].coord;
            && (forall j :: 0 <= j < |s.seen| ==> s.seen[j] == j)
            && (!s.Running() ==> co.phase.result != Error(ReorderLimit))
            && (s.Running() ==>
                  && |s.seen| == co.nextSeq
                  && co.reorderBytes == c.Total(co.pending) >= 0
                  && (forall id :: id in co.pending ==> co.nextSeq <= id <= co.nextSeq + c.maxReorder)
                  && (!co.phase.Draining? ==> InWindow(co.pending, co.nextSeq, c.maxReorder)))
  {
    RunInv(c, states, steps, i);
  }
}
