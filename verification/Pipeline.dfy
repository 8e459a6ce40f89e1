/**
  The decoupled announcement pipeline (section 5.8 of sRFC-0042) as a step system: HTTP
  handlers, the publisher loop with the queue lock released during the RPC call, the chain,
  and the wallets that watch it. A step that is not enabled leaves the state unchanged,
  so `Run(Init(...), steps)` over all `steps` ranges over every interleaving.
 */
module Pipeline {
  import opened Results
  import opened Bytes
  import opened Wire
  import opened Pinboard
  import opened Dedup
  import opened AnnounceService

  const MAX_BATCH: nat := 40
  const SCHEME_ID_V1: U16 := 1

  /** Who signed a transaction; the service's carry the batch they were built from. */
  datatype Origin = Service(batch: seq<Queued>) | Wallet | Other

  datatype TxState = Unprocessed | Landed(at: nat) | Rejected(error: PinboardError)

  /** A broadcast transaction: it may execute at any later time, or never. */
  datatype Tx = Tx(ix: Instruction, origin: Origin, state: TxState)

  /** Where `publisher_loop` stands; only `Idle -> Drained` and `Returned -> Idle` hold the lock. */
  datatype Publisher =
    | Idle
    | Drained(batch: seq<Queued>)
    | Sent(batch: seq<Queued>, tx: nat)
    | Returned(batch: seq<Queued>, outcome: BatchStatus, carrier: Option<nat>)

  /** A marked batch; `carrier` is its transaction, if the call got as far as broadcasting one. */
  datatype Finished = Finished(batch: seq<Queued>, outcome: BatchStatus, carrier: Option<nat>)

  /** A wallet waiting for its announcement: `view` is how much of the log it has watched. */
  datatype WalletState = WalletState(
    note: Note, submittedAt: nat, requested: bool, view: nat, selfPost: Option<nat>, done: bool)

  /**
    `accepted`, `finished` and `others` are history: what the service took in, what it finished
    with, and every note that parties other than the waiting wallets have offered.
   */
  datatype System = System(
    queue: Queue,
    publisher: Publisher,
    txs: seq<Tx>,
    log: seq<Note>,
    wallets: map<Bytes32, WalletState>,
    now: nat,
    timeout: nat,
    accepted: seq<Note>,
    finished: seq<Finished>,
    others: seq<Note>)

  datatype Step =
    | StartPayment(note: Note)
    | Tick(elapsed: nat)
    | HandleRequest(r: Bytes32)
    | HandleOther(entry: Note)
    | Drain
    | Broadcast
    | ReportOk(signature: string)
    | ReportErr(reason: string)
    | Mark
    | Execute(tx: nat)
    | OtherTx(ix: Instruction)
    | Watch(r: Bytes32, upTo: nat)
    | StopOnSight(r: Bytes32)
    | SelfAnnounce(r: Bytes32)
    | StopOnOwnPost(r: Bytes32)

  // ---- Vocabulary ----

  function Entries(batch: seq<Queued>): (notes: seq<Note>)
    ensures |notes| == |batch|
  {
    seq(|batch|, i requires 0 <= i < |batch| => batch[i].entry)
  }

  function Ids(batch: seq<Queued>): (ids: seq<nat>)
    ensures |ids| == |batch|
  {
    seq(|batch|, i requires 0 <= i < |batch| => batch[i].id)
  }

  /** The batch the publisher holds between its two locked sections. */
  function InFlight(p: Publisher): seq<Queued> {
    match p
    case Idle => []
    case Drained(batch) => batch
    case Sent(batch, _) => batch
    case Returned(batch, _, _) => batch
  }

  /** The transaction that carries it, once there is one. */
  function InFlightTx(p: Publisher): Option<nat> {
    match p
    case Sent(_, tx) => Some(tx)
    case Returned(_, _, tx) => tx
    case _ => None
  }

  /** Notes in broadcast transactions that have not executed. */
  function Airborne(txs: seq<Tx>): multiset<Note> {
    if txs == [] then multiset{}
    else (if txs[0].state.Unprocessed? then multiset(NotesOf(txs[0].ix)) else multiset{}) + Airborne(txs[1..])
  }

  /** Every copy of a note that is on the chain or may still reach it. */
  function Circulating(s: System): multiset<Note> {
    multiset(Entries(s.queue.pending))
    + (if s.publisher.Drained? then multiset(Entries(s.publisher.batch)) else multiset{})
    + Airborne(s.txs)
    + multiset(s.log)
  }

  /** `R` is sampled afresh for each payment. */
  ghost predicate Fresh(s: System, r: Bytes32) {
    r !in s.wallets && forall n | n in Circulating(s) :: n.ephemeralPub != r
  }

  /** `request_to_note_entry` accepts the request made from this announcement. */
  predicate ServiceAccepts(note: Note) {
    note.schemeId != 0 && |note.metadata| <= AnnounceService.MAX_METADATA_LEN
  }

  /** `should_self_announce`. */
  predicate ShouldSelfAnnounce(matchingNoteSeen: bool, elapsed: nat, timeout: nat) {
    !matchingNoteSeen && elapsed >= timeout
  }

  // ---- Steps ----

  function Init(maxPending: nat, maxStatuses: nat, timeout: nat): System {
    System(EmptyQueue(maxPending, maxStatuses), Idle, [], [], map[], 0, timeout, [], [], [])
  }

  function Submit(s: System, note: Note): System {
    if ServiceAccepts(note) && |s.queue.pending| < s.queue.maxPending
    then s.(queue := Enqueued(s.queue, note), accepted := s.accepted + [note])
    else s
  }

  function Executed(s: System, i: nat): System
    requires i < |s.txs|
  {
    match Guard(s.txs[i].ix)
    case None => s.(log := s.log + NotesOf(s.txs[i].ix), txs := s.txs[i := s.txs[i].(state := Landed(|s.log|))])
    case Some(e) => s.(txs := s.txs[i := s.txs[i].(state := Rejected(e))])
  }

  /** Whether the wallet's own view of the chain shows its `R`. */
  predicate Sees(s: System, w: WalletState) {
    SeenIn(if w.view <= |s.log| then s.log[..w.view] else s.log, w.note.ephemeralPub)
  }

  ghost function Apply(s: System, step: Step): System {
    match step
    case StartPayment(note) =>
      if note.schemeId == SCHEME_ID_V1 && |note.metadata| <= AnnounceService.MAX_METADATA_LEN &&
         Fresh(s, note.ephemeralPub)
      then s.(wallets := s.wallets[note.ephemeralPub := WalletState(note, s.now, false, |s.log|, None, false)])
      else s
    case Tick(elapsed) => s.(now := s.now + elapsed)
    case HandleRequest(r) =>
      if r in s.wallets && !s.wallets[r].requested
      then Submit(s.(wallets := s.wallets[r := s.wallets[r].(requested := true)]), s.wallets[r].note)
      else s
    case HandleOther(entry) =>
      Submit(s.(others := s.others + [entry]), entry)
    case Drain =>
      if s.publisher.Idle? && s.queue.pending != []
      then s.(queue := AfterTake(s.queue, MAX_BATCH),
              publisher := Drained(s.queue.pending[..TakeCount(s.queue, MAX_BATCH)]))
      else s
    case Broadcast =>
      if s.publisher.Drained?
      then s.(txs := s.txs + [Tx(PostBatch(Entries(s.publisher.batch)), Service(s.publisher.batch), Unprocessed)],
              publisher := Sent(s.publisher.batch, |s.txs|))
      else s
    case ReportOk(signature) =>
      if s.publisher.Sent? && s.publisher.tx < |s.txs| && s.txs[s.publisher.tx].state.Landed?
      then s.(publisher := Returned(s.publisher.batch, Confirmed(signature), Some(s.publisher.tx)))
      else s
    case ReportErr(reason) =>
      if s.publisher.Drained? || s.publisher.Sent?
      then s.(publisher := Returned(InFlight(s.publisher), Failed(reason), InFlightTx(s.publisher)))
      else s
    case Mark =>
      if s.publisher.Returned?
      then s.(queue := MarkedAll(s.queue, Ids(s.publisher.batch), s.publisher.outcome),
              publisher := Idle,
              finished := s.finished + [Finished(s.publisher.batch, s.publisher.outcome, s.publisher.carrier)])
      else s
    case Execute(i) =>
      if i < |s.txs| && s.txs[i].state.Unprocessed? then Executed(s, i) else s
    case OtherTx(ix) =>
      s.(txs := s.txs + [Tx(ix, Other, Unprocessed)], others := s.others + NotesOf(ix))
    case Watch(r, upTo) =>
      if r in s.wallets && s.wallets[r].view <= upTo <= |s.log|
      then s.(wallets := s.wallets[r := s.wallets[r].(view := upTo)])
      else s
    case StopOnSight(r) =>
      if r in s.wallets && Sees(s, s.wallets[r])
      then s.(wallets := s.wallets[r := s.wallets[r].(done := true)])
      else s
    case SelfAnnounce(r) =>
      if r in s.wallets && !s.wallets[r].done && s.wallets[r].selfPost.None? &&
         s.wallets[r].submittedAt <= s.now &&
         ShouldSelfAnnounce(Sees(s, s.wallets[r]), s.now - s.wallets[r].submittedAt, s.timeout)
      then s.(txs := s.txs + [Tx(Post(s.wallets[r].note), Wallet, Unprocessed)],
              wallets := s.wallets[r := s.wallets[r].(selfPost := Some(|s.txs|))])
      else s
    case StopOnOwnPost(r) =>
      if r in s.wallets && s.wallets[r].selfPost.Some? && s.wallets[r].selfPost.value < |s.txs| &&
         s.txs[s.wallets[r].selfPost.value].state.Landed?
      then s.(wallets := s.wallets[r := s.wallets[r].(done := true)])
      else s
  }

  ghost function Run(s: System, steps: seq<Step>): System {
    if steps == [] then s else Apply(Run(s, steps[..|steps| - 1]), steps[|steps| - 1])
  }

  lemma {:induction false} RunAppend(s: System, a: seq<Step>, b: seq<Step>)
    ensures Run(s, a + b) == Run(Run(s, a), b)
  {
    if b == [] {
      assert a + b == a;
    } else {
      RunAppend(s, a, b[..|b| - 1]);
      assert (a + b)[..|a + b| - 1] == a + b[..|b| - 1];
    }
  }

  lemma RunSingle(s: System, a: Step)
    ensures Run(s, [a]) == Apply(s, a)
  {
    hide Apply;
    assert Run(s, []) == s && [a][..0] == [];
  }

  lemma RunPair(s: System, a: Step, b: Step)
    ensures Run(s, [a, b]) == Apply(Apply(s, a), b)
  {
    hide Apply;
    RunSingle(s, a);
    assert [a, b][..1] == [a];
  }
}
