/**
  `publisher_loop` as code over the shared queue object. Between its two locked sections, and
  while it sleeps, anything else may happen: handlers enqueue, wallets act, and the chain
  executes anybody's transactions, those of earlier turns included. Whatever happens, the
  loop's effect is that of the corresponding steps of the pipeline's step system.
 */
module PublisherLoop {
  import opened Results
  import opened Bytes
  import opened Wire
  import opened Pinboard
  import opened AnnounceService
  import opened Pipeline
  import opened PipelineQueue

  // ---- What happens outside the lock ----

  /**
    A handler running on a waiting wallet's request or on somebody else's, the chain executing
    a broadcast transaction, or a step that touches neither the queue nor the chain's log.
   */
  datatype Event =
    | Request(req: AnnounceRequest, wallet: Option<Bytes32>)
    | Executes(tx: nat, ix: Instruction)
    | Elsewhere(step: Step)

  predicate TouchesNeither(step: Step) {
    step.StartPayment? || step.Tick? || step.OtherTx? || step.Watch? ||
    step.StopOnSight? || step.SelfAnnounce? || step.StopOnOwnPost?
  }

  function EventSteps(b58: Base58, e: Event): seq<Step> {
    match e
    case Executes(tx, _) => [Execute(tx)]
    case Elsewhere(step) => [step]
    case Request(req, wallet) =>
      match RequestToNoteEntry(b58, req)
      case Err(_) => []
      case Ok(entry) => [if wallet.Some? then HandleRequest(wallet.value) else HandleOther(entry)]
  }

  function AllSteps(b58: Base58, events: seq<Event>): seq<Step> {
    if events == [] then [] else AllSteps(b58, events[..|events| - 1]) + EventSteps(b58, events[|events| - 1])
  }

  /** A wallet asks once, for its own note; the chain executes what was broadcast, once. */
  ghost predicate Possible(b58: Base58, s: System, e: Event) {
    match e
    case Executes(tx, ix) => tx < |s.txs| && s.txs[tx].state.Unprocessed? && s.txs[tx].ix == ix
    case Elsewhere(step) => TouchesNeither(step)
    case Request(req, None) => true
    case Request(req, Some(r)) =>
      r in s.wallets && !s.wallets[r].requested && RequestToNoteEntry(b58, req) == Ok(s.wallets[r].note)
  }

  ghost predicate AllPossible(b58: Base58, s: System, events: seq<Event>) {
    events != [] ==>
      var before := events[..|events| - 1];
      AllPossible(b58, s, before) && Possible(b58, Run(s, AllSteps(b58, before)), events[|events| - 1])
  }

  // ---- The steps a turn stands for ----

  /** `sent` says whether the call gets as far as broadcasting; the other fields are what happens around it. */
  datatype Turn = Turn(
    asleep: seq<Event>, beforeSend: seq<Event>, sent: bool, inCall: seq<Event>,
    report: Result<string, string>, beforeLock: seq<Event>)

  function ReportStep(report: Result<string, string>): Step {
    match report case Ok(signature) => ReportOk(signature) case Err(e) => ReportErr(e)
  }

  function UpToDrain(b58: Base58, t: Turn): seq<Step> {
    AllSteps(b58, t.asleep) + [Drain]
  }

  function UpToSend(b58: Base58, t: Turn): seq<Step> {
    UpToDrain(b58, t) + AllSteps(b58, t.beforeSend) + if t.sent then [Broadcast] else []
  }

  function UpToReport(b58: Base58, t: Turn): seq<Step> {
    UpToSend(b58, t) + AllSteps(b58, t.inCall) + [ReportStep(t.report)]
  }

  /** A turn with nothing pending ends at once; any other drains, sends, reports and marks one batch. */
  ghost function TurnSteps(b58: Base58, s: System, t: Turn): seq<Step> {
    if Run(s, AllSteps(b58, t.asleep)).queue.pending == [] then AllSteps(b58, t.asleep)
    else UpToReport(b58, t) + AllSteps(b58, t.beforeLock) + [Mark]
  }

  /** Success is reported only for an executed transaction (`send_and_confirm_transaction`). */
  ghost predicate Truthful(s: System, report: Result<string, string>) {
    report.Ok? ==> s.publisher.Sent? && s.publisher.tx < |s.txs| && s.txs[s.publisher.tx].state.Landed?
  }

  ghost predicate PossibleTurn(b58: Base58, s: System, t: Turn) {
    && AllPossible(b58, s, t.asleep)
    && (Run(s, AllSteps(b58, t.asleep)).queue.pending != [] ==> PossibleCall(b58, s, t))
  }

  ghost predicate PossibleCall(b58: Base58, s: System, t: Turn) {
    && AllPossible(b58, Run(s, UpToDrain(b58, t)), t.beforeSend)
    && AllPossible(b58, Run(s, UpToSend(b58, t)), t.inCall)
    && Truthful(Run(s, UpToSend(b58, t) + AllSteps(b58, t.inCall)), t.report)
    && AllPossible(b58, Run(s, UpToReport(b58, t)), t.beforeLock)
  }

  ghost function LoopSteps(b58: Base58, s: System, turns: seq<Turn>): seq<Step> {
    if turns == [] then []
    else
      var before := LoopSteps(b58, s, turns[..|turns| - 1]);
      before + TurnSteps(b58, Run(s, before), turns[|turns| - 1])
  }

  /** The objects are in the state the steps lead to. */
  ghost predicate InStep(s: System, queue: AnnounceQueue, chain: Program)
    reads queue, chain
  {
    s.queue == queue.State() && s.log == chain.log && Valid(queue.State())
  }

  lemma Extend(s: System, steps: seq<Step>, step: Step)
    ensures Run(s, steps + [step]) == Apply(Run(s, steps), step)
  {
    hide Apply;
    RunAppend(s, steps, [step]);
    RunSingle(Run(s, steps), step);
  }

  lemma FullQueueRefuses(q: Queue, entry: Note)
    ensures |q.pending| >= q.maxPending ==> Enqueued(q, entry) == q
  {
  }

  // ---- The code ----

  /** One event, with the handler's and the program's code run on the objects. */
  method Happen(queue: AnnounceQueue, chain: Program, b58: Base58, e: Event, ghost s: System)
    requires InStep(s, queue, chain) && Possible(b58, s, e)
    modifies queue, chain
    ensures InStep(Run(s, EventSteps(b58, e)), queue, chain)
    ensures Run(s, EventSteps(b58, e)).publisher == s.publisher
  {
    hide Run, Enqueued, Guard, Circulating, Sees;
    match e
    case Request(req, wallet) =>
      var r := PostAnnounce(queue, b58, req);
      match RequestToNoteEntry(b58, req) {
        case Err(_) => Nothing(s);
        case Ok(entry) =>
          FullQueueRefuses(s.queue, entry);
          RunSingle(s, if wallet.Some? then HandleRequest(wallet.value) else HandleOther(entry));
      }
    case Executes(tx, ix) =>
      RunSingle(s, Execute(tx));
      match ix {
        case Post(note) => var r := chain.Post(note);
        case PostBatch(entries) => var r := chain.PostBatch(entries);
      }
    case Elsewhere(step) =>
      RunSingle(s, step);
  }

  lemma Nothing(s: System)
    ensures Run(s, []) == s
  {
  }

  /** Whatever happens while the lock is free. */
  method World(queue: AnnounceQueue, chain: Program, b58: Base58, events: seq<Event>, ghost s: System)
    requires InStep(s, queue, chain) && AllPossible(b58, s, events)
    modifies queue, chain
    ensures InStep(Run(s, AllSteps(b58, events)), queue, chain)
    ensures Run(s, AllSteps(b58, events)).publisher == s.publisher
  {
    hide Run, EventSteps, Possible;
    Nothing(s);
    AllPrefixesPossible(b58, s, events);
    for i := 0 to |events|
      invariant InStep(Run(s, AllSteps(b58, events[..i])), queue, chain)
      invariant Run(s, AllSteps(b58, events[..i])).publisher == s.publisher
    {
      assert events[..i + 1][..i] == events[..i];
      assert AllPossible(b58, s, events[..i + 1]);
      RunAppend(s, AllSteps(b58, events[..i]), EventSteps(b58, events[i]));
      Happen(queue, chain, b58, events[i], Run(s, AllSteps(b58, events[..i])));
    }
    assert events[..|events|] == events;
  }

  lemma {:induction false} AllPrefixesPossible(b58: Base58, s: System, events: seq<Event>)
    requires AllPossible(b58, s, events)
    ensures forall i | 0 <= i <= |events| :: AllPossible(b58, s, events[..i])
  {
    hide Possible;
    assert events[..|events|] == events;
    if events != [] {
      var before := events[..|events| - 1];
      AllPrefixesPossible(b58, s, before);
      forall i | 0 <= i < |events|
        ensures AllPossible(b58, s, events[..i])
      {
        assert events[..i] == before[..i];
      }
    }
  }

  lemma AfterDrain(s: System)
    requires s.publisher.Idle? && s.queue.pending != []
    ensures Apply(s, Drain) ==
            s.(queue := AfterTake(s.queue, MAX_BATCH),
               publisher := Drained(s.queue.pending[..TakeCount(s.queue, MAX_BATCH)]))
  {
  }

  lemma AfterSend(s: System, sent: bool)
    requires s.publisher.Drained?
    ensures var s' := Run(s, if sent then [Broadcast] else []);
            && s'.queue == s.queue && s'.log == s.log && InFlight(s'.publisher) == InFlight(s.publisher)
            && (if sent then
                  s'.publisher.Sent? &&
                  s'.txs == s.txs + [Tx(PostBatch(Entries(s.publisher.batch)), Service(s.publisher.batch), Unprocessed)]
                else s'.publisher.Drained?)
  {
    hide Run;
    Nothing(s);
    RunSingle(s, Broadcast);
  }

  function Outcome(report: Result<string, string>): BatchStatus {
    match report case Ok(signature) => Confirmed(signature) case Err(e) => Failed(e)
  }

  lemma AfterReport(s: System, report: Result<string, string>)
    requires (s.publisher.Drained? || s.publisher.Sent?) && Truthful(s, report)
    ensures Apply(s, ReportStep(report)) ==
            s.(publisher := Returned(InFlight(s.publisher), Outcome(report), InFlightTx(s.publisher)))
  {
  }

  lemma AfterMark(s: System)
    requires s.publisher.Returned?
    ensures var s' := Apply(s, Mark);
            && s'.queue == MarkedAll(s.queue, Ids(s.publisher.batch), s.publisher.outcome)
            && s'.publisher == Idle && s'.log == s.log
  {
    hide MarkedAll;
  }

  /** The part of a turn that runs without the lock: build the instruction, send it, await the report. */
  method Publish(queue: AnnounceQueue, chain: Program, b58: Base58, entries: seq<Note>, t: Turn,
                 ghost batch: seq<Queued>, ghost s: System)
    returns (report: Result<string, string>)
    requires PossibleCall(b58, s, t) && entries == Entries(batch)
    requires InStep(Run(s, UpToDrain(b58, t)), queue, chain) && Run(s, UpToDrain(b58, t)).publisher == Drained(batch)
    modifies queue, chain
    ensures var s' := Run(s, UpToReport(b58, t) + AllSteps(b58, t.beforeLock));
            && InStep(s', queue, chain)
            && s'.publisher.Returned? && s'.publisher.batch == batch && s'.publisher.outcome == Outcome(report)
  {
    hide Run, Apply, AllPossible, AllSteps, ReportStep, Truthful, Outcome, Entries;
    ghost var s2 := Run(s, UpToDrain(b58, t));
    var ix := PostBatch(entries);
    World(queue, chain, b58, t.beforeSend, s2);
    ghost var s3 := Run(s2, AllSteps(b58, t.beforeSend));
    RunAppend(s, UpToDrain(b58, t), AllSteps(b58, t.beforeSend));
    RunAppend(s, UpToDrain(b58, t) + AllSteps(b58, t.beforeSend), if t.sent then [Broadcast] else []);
    AfterSend(s3, t.sent);
    assert t.sent ==> Run(s, UpToSend(b58, t)).txs[|s3.txs|].ix == ix;

    World(queue, chain, b58, t.inCall, Run(s, UpToSend(b58, t)));
    RunAppend(s, UpToSend(b58, t), AllSteps(b58, t.inCall));
    Extend(s, UpToSend(b58, t) + AllSteps(b58, t.inCall), ReportStep(t.report));
    AfterReport(Run(s, UpToSend(b58, t) + AllSteps(b58, t.inCall)), t.report);
    report := t.report;

    World(queue, chain, b58, t.beforeLock, Run(s, UpToReport(b58, t)));
    RunAppend(s, UpToReport(b58, t), AllSteps(b58, t.beforeLock));
  }

  /** One turn of the loop. */
  method PublisherTurn(queue: AnnounceQueue, chain: Program, b58: Base58, t: Turn, ghost s: System)
    requires InStep(s, queue, chain) && s.publisher == Idle && PossibleTurn(b58, s, t)
    modifies queue, chain
    ensures InStep(Run(s, TurnSteps(b58, s, t)), queue, chain)
    ensures Run(s, TurnSteps(b58, s, t)).publisher == Idle
  {
    hide Run, Apply, Enqueued, MarkedAll, AllPossible, AllSteps, ReportStep, Truthful, UpToReport, PossibleCall;
    World(queue, chain, b58, t.asleep, s);
    ghost var s1 := Run(s, AllSteps(b58, t.asleep));

    var drained := queue.TakePending(MAX_BATCH);
    if drained == [] {
      return;
    }
    Extend(s, AllSteps(b58, t.asleep), Drain);
    AfterDrain(s1);
    var ids, entries := Ids(drained), Entries(drained);

    // The lock is released here.
    var report := Publish(queue, chain, b58, entries, t, drained, s);

    // The lock is taken again.
    ghost var steps := UpToReport(b58, t) + AllSteps(b58, t.beforeLock);
    AfterMark(Run(s, steps));
    MarkBatch(queue, ids, Outcome(report));
    Extend(s, steps, Mark);
  }

  /** Every turn can take place in the state its predecessors leave. */
  ghost predicate PossibleTurns(b58: Base58, s: System, turns: seq<Turn>) {
    forall i | 0 <= i < |turns| :: PossibleTurn(b58, Run(s, LoopSteps(b58, s, turns[..i])), turns[i])
  }

  /** The loop, for any finite number of turns: exactly the steps the turns stand for. */
  method PublisherLoop(queue: AnnounceQueue, chain: Program, b58: Base58, turns: seq<Turn>, ghost timeout: nat)
    requires queue.State() == EmptyQueue(queue.maxPending, queue.maxStatuses) && Valid(queue.State())
    requires chain.log == [] && PossibleTurns(b58, Init(queue.maxPending, queue.maxStatuses, timeout), turns)
    modifies queue, chain
    ensures var s0 := Init(queue.maxPending, queue.maxStatuses, timeout);
            var s := Run(s0, LoopSteps(b58, s0, turns));
            InStep(s, queue, chain) && s.publisher == Idle
  {
    hide TurnSteps, PossibleTurn;
    ghost var s0 := Init(queue.maxPending, queue.maxStatuses, timeout);
    for i := 0 to |turns|
      invariant InStep(Run(s0, LoopSteps(b58, s0, turns[..i])), queue, chain)
      invariant Run(s0, LoopSteps(b58, s0, turns[..i])).publisher == Idle
    {
      assert turns[..i + 1][..i] == turns[..i];
      ghost var before := LoopSteps(b58, s0, turns[..i]);
      RunAppend(s0, before, TurnSteps(b58, Run(s0, before), turns[i]));
      PublisherTurn(queue, chain, b58, turns[i], Run(s0, before));
    }
    assert turns[..|turns|] == turns;
  }

  // ---- A transaction may land in a later turn ----

  /** A turn that sends its one request's batch and is told of a failure. */
  function FailedTurn(req: AnnounceRequest, reason: string): Turn {
    Turn([Request(req, None)], [], true, [], Err(reason), [])
  }

  /** A turn that only sleeps, while the transaction lands. */
  function LateTurn(e: Note, reason: string): Turn {
    Turn([Executes(0, PostBatch([e]))], [], false, [], Err(reason), [])
  }

  /** Two turns of the loop after which a batch is marked failed and yet is in the log. */
  lemma LateLandingHappens(
      b58: Base58, req: AnnounceRequest, e: Note, reason: string, maxPending: nat, maxStatuses: nat, timeout: nat)
    requires RequestToNoteEntry(b58, req) == Ok(e)
    ensures var s0 := Init(maxPending, maxStatuses, timeout);
            var turns := [FailedTurn(req, reason), LateTurn(e, reason)];
            var s := Run(s0, LoopSteps(b58, s0, turns));
            && PossibleTurns(b58, s0, turns)
            && s.log == [e] && s.finished == [Finished([Queued(0, e)], Failed(reason), Some(0))]
  {
    hide Run, Apply, TurnSteps, PossibleTurn;
    var s0 := Init(maxPending, maxStatuses, timeout);
    var t1, t2 := FailedTurn(req, reason), LateTurn(e, reason);
    var turns := [t1, t2];
    Nothing(s0);
    FailedTurnSteps(b58, s0, req, e, reason);
    var s1 := Run(s0, TurnSteps(b58, s0, t1));
    LateTurnSteps(b58, s1, e, reason);
    assert turns[..1] == [t1] && turns[..0] == [] && [t1][..0] == [];
    assert LoopSteps(b58, s0, []) == [];
    assert LoopSteps(b58, s0, [t1]) == [] + TurnSteps(b58, s0, t1) == TurnSteps(b58, s0, t1);
    RunAppend(s0, LoopSteps(b58, s0, [t1]), TurnSteps(b58, s1, t2));
  }

  lemma FailedTurnSteps(b58: Base58, s: System, req: AnnounceRequest, e: Note, reason: string)
    requires RequestToNoteEntry(b58, req) == Ok(e)
    requires Valid(s.queue) && s.queue.pending == [] && s.queue.nextId == 0 && s.publisher.Idle?
    requires s.txs == [] && s.log == [] && s.finished == []
    ensures PossibleTurn(b58, s, FailedTurn(req, reason))
    ensures var s' := Run(s, TurnSteps(b58, s, FailedTurn(req, reason)));
            && s'.txs == [Tx(PostBatch([e]), Service([Queued(0, e)]), Unprocessed)] && s'.log == []
            && s'.finished == [Finished([Queued(0, e)], Failed(reason), Some(0))] && s'.queue.pending == []
  {
    hide Run, Apply;
    var t := FailedTurn(req, reason);
    assert ServiceAccepts(e);
    OneEvent(b58, s, Request(req, None));
    assert AllSteps(b58, t.asleep) == [HandleOther(e)];
    RunSingle(s, HandleOther(e));
    RunPair(s, HandleOther(e), Drain);
    assert UpToDrain(b58, t) == [HandleOther(e), Drain];
    var s2 := Run(s, UpToDrain(b58, t));
    RunAppend(s, UpToDrain(b58, t), [Broadcast]);
    RunSingle(s2, Broadcast);
    assert UpToSend(b58, t) == UpToDrain(b58, t) + [Broadcast];
    var s3 := Run(s, UpToSend(b58, t));
    RunAppend(s, UpToSend(b58, t), [ReportErr(reason), Mark]);
    RunPair(s3, ReportErr(reason), Mark);
    assert UpToReport(b58, t) + AllSteps(b58, []) + [Mark] == UpToSend(b58, t) + [ReportErr(reason), Mark];
    FailsUnmarked(s, e, reason);
    assert TurnSteps(b58, s, t) == UpToSend(b58, t) + [ReportErr(reason), Mark];
  }

  lemma OneEvent(b58: Base58, s: System, e: Event)
    ensures AllSteps(b58, [e]) == EventSteps(b58, e)
    ensures AllPossible(b58, s, [e]) <==> Possible(b58, s, e)
    ensures AllPossible(b58, s, [])
  {
    hide EventSteps, Possible;
    assert [e][..0] == [] && AllSteps(b58, []) == [];
    Nothing(s);
  }

  lemma FailsUnmarked(s: System, e: Note, reason: string)
    requires ServiceAccepts(e) && Valid(s.queue) && s.queue.pending == [] && s.queue.nextId == 0 && s.publisher.Idle?
    requires s.txs == [] && s.log == [] && s.finished == []
    ensures Apply(s, HandleOther(e)).queue.pending == [Queued(0, e)]
    ensures var s' := Apply(Apply(Apply(Apply(Apply(s, HandleOther(e)), Drain), Broadcast), ReportErr(reason)), Mark);
            && s'.txs == [Tx(PostBatch([e]), Service([Queued(0, e)]), Unprocessed)] && s'.log == []
            && s'.finished == [Finished([Queued(0, e)], Failed(reason), Some(0))] && s'.queue.pending == []
  {
    hide MarkedAll, Enqueued, Ids;
    EnqueuedFrame(s.queue, e);
    var s2 := Apply(Apply(s, HandleOther(e)), Drain);
    assert s2.publisher == Drained([Queued(0, e)]) && s2.queue.pending == [];
    MarkedAllFrame(s2.queue, Ids([Queued(0, e)]), Failed(reason));
    assert Entries([Queued(0, e)]) == [e];
  }

  lemma LateTurnSteps(b58: Base58, s: System, e: Note, reason: string)
    requires s.txs == [Tx(PostBatch([e]), Service([Queued(0, e)]), Unprocessed)] && s.log == [] && s.queue.pending == []
    requires |e.metadata| <= Pinboard.MAX_METADATA_LEN
    ensures PossibleTurn(b58, s, LateTurn(e, reason))
    ensures var s' := Run(s, TurnSteps(b58, s, LateTurn(e, reason)));
            s'.log == [e] && s'.finished == s.finished
  {
    hide Run;
    OneEvent(b58, s, Executes(0, PostBatch([e])));
    RunSingle(s, Execute(0));
  }
}
