/** The ordered parallel streaming protocol of `run_bytes_stream_core`.

    Workers pop chunk numbers from a shared queue, wait for the dispatch window,
    parse, and send through a bounded channel; the coordinator receives, reorders,
    calls the consumer and publishes its position. Every shared access is one step
    of the machine below, so every interleaving of the threads is a run of it. */
module ParallelStream {
  import opened Wrappers

  const USIZE_MAX: nat := 0xFFFF_FFFF_FFFF_FFFF

  function SaturatingAdd(a: int, b: int): int {
    if a + b > USIZE_MAX then USIZE_MAX else a + b
  }

  function SaturatingMul(a: int, b: int): int {
    if a * b > USIZE_MAX then USIZE_MAX else a * b
  }

  /** What one call fixes: the memory size of each chunk's batch (so `|sizes|` is the
      number of chunks), the thread count, and the options. */
  datatype Config = Config(
    sizes: seq<nat>, threads: nat, capacity: nat, maxReorder: nat,
    ordered: bool, strict: bool, allowance: nat)
  {
    function Chunks(): nat { |sizes| }

    function Size(id: nat): nat { if id < |sizes| then sizes[id] else 0 }

    /** Total size of the chunks in `ids` numbered below `n`. */
    function TotalBelow(ids: set<nat>, n: nat): nat {
      if n == 0 then 0 else TotalBelow(ids, n - 1) + (if n - 1 in ids then Size(n - 1) else 0)
    }

    function Total(ids: set<nat>): nat { TotalBelow(ids, Chunks()) }

    /** `threads.max(1)`, `max_in_flight.max(1)` and the `max_reorder` default make all
        three positive. Chunk numbers are `usize` values, and the batches that fit one
        reorder window live in memory together, so their sizes add up below `usize::MAX`. */
    ghost predicate Valid() {
      && threads >= 1 && capacity >= 1 && maxReorder >= 1
      && |sizes| <= USIZE_MAX
      && forall ids: set<nat>, low: nat :: InWindow(ids, low, maxReorder) ==> Total(ids) <= USIZE_MAX
    }
  }

  /** Every id lies in `(low, low + width]`. */
  ghost predicate InWindow(ids: set<nat>, low: nat, width: nat) {
    forall id :: id in ids ==> low < id <= low + width
  }

  datatype Message = Message(id: nat, ok: bool)

  /** Where a worker thread stands in its loop. */
  datatype Worker =
    | Idle                  // about to pop the queue
    | Waiting(id: nat)      // blocked on the dispatch window
    | Parsing(id: nat)
    | Sending(msg: Message) // about to send, or blocked on a full channel
    | Exited

  datatype Failure = WorkerFailed | ConsumerFailed | ReorderLimit

  datatype Outcome = Success | Error(failure: Failure)

  /** Where the coordinator stands. */
  datatype Phase =
    | Receiving
    | Handling(msg: Message)
    | Draining              // next-in-sequence delivered; flushing `pending`
    | Stopped(result: Outcome)   // receiver dropped
    | Joining(result: Outcome)   // dispatch guard dropped too
    | Finished(result: Outcome)
  {
    predicate Running() { Receiving? || Handling? || Draining? }
  }

  /** `reorderBytes` is a `usize` in the source; it is an `int` here so that an underflow
      of the plain subtraction in `DrainNext` would show as a negative value. */
  datatype Coordinator = Coordinator(phase: Phase, nextSeq: nat, pending: set<nat>, reorderBytes: int)

  /** `seen`, `lost` and `errored` are history: the consumer calls in order, the chunks
      dropped on an error path, and whether any parse or consumer call has failed. */
  datatype State = State(
    queue: seq<nat>, workers: seq<Worker>, channel: seq<Message>, dispatch: Option<nat>,
    coord: Coordinator, seen: seq<nat>, lost: multiset<nat>, errored: bool)
  {
    predicate Running() { coord.phase.Running() }
  }

  datatype Step =
    | Pop(w: nat)
    | Pass(w: nat)
    | Parse(w: nat, ok: bool)
    | Send(w: nat)
    | Receive
    | Handle(accepted: bool)  // `accepted` is the consumer's answer, if it is asked
    | Drain(accepted: bool)
    | CloseDispatch
    | Join

  function Descending(n: nat): (r: seq<nat>)
    ensures |r| == n && forall j :: 0 <= j < n ==> r[j] == n - 1 - j
  {
    seq(n, j requires 0 <= j < n => n - 1 - j)
  }

  function Init(c: Config): State {
    State(Descending(c.Chunks()), seq(c.threads, _ => Idle), [], Some(0),
          Coordinator(Receiving, 0, {}, 0), [], multiset{}, false)
  }

  predicate AllExited(workers: seq<Worker>) {
    forall w :: 0 <= w < |workers| ==> workers[w].Exited?
  }

  predicate InsideWindow(c: Config, dispatch: Option<nat>, id: nat) {
    dispatch.None? || id < SaturatingAdd(dispatch.value, SaturatingAdd(c.maxReorder, 1))
  }

  predicate Enabled(c: Config, s: State, step: Step) {
    match step
    case Pop(w) => w < |s.workers| && s.workers[w].Idle?
    case Pass(w) => w < |s.workers| && s.workers[w].Waiting? && InsideWindow(c, s.dispatch, s.workers[w].id)
    case Parse(w, ok) =>
      && w < |s.workers| && s.workers[w].Parsing?
      && (ok ==> !c.strict || c.Size(s.workers[w].id) <= c.allowance)
    case Send(w) => w < |s.workers| && s.workers[w].Sending? && (s.Running() ==> |s.channel| < c.capacity)
    case Receive => s.coord.phase.Receiving? && (s.channel != [] || AllExited(s.workers))
    case Handle(_) => s.coord.phase.Handling?
    case Drain(_) => s.coord.phase.Draining?
    case CloseDispatch => s.coord.phase.Stopped?
    case Join => s.coord.phase.Joining? && AllExited(s.workers)
  }

  function Apply(c: Config, s: State, step: Step): State
    requires Enabled(c, s, step)
  {
    match step
    case Pop(w) => PopQueue(c, s, w)
    case Pass(w) => PassWindow(s, w)
    case Parse(w, ok) => ParseChunk(s, w, ok)
    case Send(w) => SendBatch(s, w)
    case Receive => ReceiveNext(s)
    case Handle(accepted) => HandleMessage(c, s, accepted)
    case Drain(accepted) => DrainNext(c, s, accepted)
    case CloseDispatch => s.(coord := s.coord.(phase := Joining(s.coord.phase.result)), dispatch := None)
    case Join => s.(coord := s.coord.(phase := Finished(s.coord.phase.result)))
  }

  /** The queue holds the chunk numbers in reverse, so popping its end yields them in order. */
  function PopQueue(c: Config, s: State, w: nat): State
    requires w < |s.workers|
  {
    if s.queue == [] then s.(workers := s.workers[w := Exited])
    else
      var last := |s.queue| - 1;
      var id := s.queue[last];
      s.(queue := s.queue[..last], workers := s.workers[w := if c.ordered then Waiting(id) else Parsing(id)])
  }

  function PassWindow(s: State, w: nat): State
    requires w < |s.workers| && s.workers[w].Waiting?
  {
    var id := s.workers[w].id;
    if s.dispatch.None? then s.(workers := s.workers[w := Exited], lost := s.lost + multiset{id})
    else s.(workers := s.workers[w := Parsing(id)])
  }

  function ParseChunk(s: State, w: nat, ok: bool): State
    requires w < |s.workers| && s.workers[w].Parsing?
  {
    s.(workers := s.workers[w := Sending(Message(s.workers[w].id, ok))], errored := s.errored || !ok)
  }

  /** A send fails once the receiver is gone; a worker also leaves after sending a failure. */
  function SendBatch(s: State, w: nat): State
    requires w < |s.workers| && s.workers[w].Sending?
  {
    var msg := s.workers[w].msg;
    if !s.Running() then s.(workers := s.workers[w := Exited], lost := s.lost + multiset{msg.id})
    else s.(workers := s.workers[w := if msg.ok then Idle else Exited], channel := s.channel + [msg])
  }

  /** Leaving the receive loop drops the receiver and whatever the channel still holds. */
  function Stop(s: State, coord: Coordinator, result: Outcome, dropped: multiset<nat>): State {
    s.(coord := coord.(phase := Stopped(result)), channel := [],
       lost := s.lost + dropped + ChannelIds(s.channel))
  }

  function ReceiveNext(s: State): State {
    if s.channel == [] then Stop(s, s.coord, Success, multiset{})
    else s.(coord := s.coord.(phase := Handling(s.channel[0])), channel := s.channel[1..])
  }

  function HandleMessage(c: Config, s: State, accepted: bool): State
    requires s.coord.phase.Handling?
  {
    var msg, co := s.coord.phase.msg, s.coord;
    if !msg.ok then Stop(s, co, Error(WorkerFailed), multiset{msg.id})
    else if !c.ordered || msg.id == co.nextSeq then
      var s' := s.(seen := s.seen + [msg.id]);
      if !accepted then Stop(s'.(errored := true), co, Error(ConsumerFailed), multiset{})
      else if c.ordered then s'.(coord := co.(phase := Draining, nextSeq := co.nextSeq + 1))
      else s'.(coord := co.(phase := Receiving))
    else
      var bytes := SaturatingAdd(co.reorderBytes, c.Size(msg.id));
      if c.strict && bytes > SaturatingMul(c.maxReorder, c.allowance) then
        Stop(s, co.(reorderBytes := bytes), Error(ReorderLimit), multiset{msg.id})
      else
        s.(coord := co.(phase := Receiving, reorderBytes := bytes, pending := co.pending + {msg.id}))
  }

  /** One round of the flush loop, or its exit, which publishes the new position. */
  function DrainNext(c: Config, s: State, accepted: bool): State {
    var co := s.coord;
    if co.nextSeq in co.pending then
      var s' := s.(seen := s.seen + [co.nextSeq]);
      var co' := co.(pending := co.pending - {co.nextSeq}, reorderBytes := co.reorderBytes - c.Size(co.nextSeq));
      if accepted then s'.(coord := co'.(nextSeq := co.nextSeq + 1))
      else Stop(s'.(errored := true), co', Error(ConsumerFailed), multiset{})
    else s.(coord := co.(phase := Receiving), dispatch := Some(co.nextSeq))
  }

  function ChannelIds(channel: seq<Message>): multiset<nat> {
    multiset(seq(|channel|, j requires 0 <= j < |channel| => channel[j].id))
  }
}
