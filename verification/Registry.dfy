/**
  The on-chain meta-address registry (section 5.6 of sRFC-0042): `register`, `update` and
  `close` with their account constraints, as a state machine over the account map and the
  event log. A failed transaction changes nothing.
 */
module Registry {
  import opened Results
  import opened Bytes

  type Key = Bytes32

  datatype Payload = Payload(version: Byte, bSpend: Bytes32, bScan: Bytes32, flags: Byte)

  /** `MetaAddressEntry`. */
  datatype Entry = Entry(
    registrant: Key, schemeId: U16, bump: Byte, version: Byte, bSpend: Bytes32, bScan: Bytes32, flags: Byte)

  datatype Event =
    | MetaAddressRegistered(registrant: Key, schemeId: U16, payload: Payload)
    | MetaAddressUpdated(registrant: Key, schemeId: U16, payload: Payload)
    | MetaAddressClosed(registrant: Key, schemeId: U16)

  /** `AccountConstraint` stands for every check Anchor makes before a handler runs. */
  datatype RegistryError = AccountConstraint | InvalidSchemeId | InvalidVersion | InvalidFlags

  /** Program-derived addresses, from the seeds and a bump; `bump` picks the canonical one. */
  datatype Pda = Pda(derive: (Key, U16, Byte) -> Key, bump: (Key, U16) -> Byte)

  type Pair = (Key, U16)

  /**
    No two of the named (registrant, scheme) pairs share a derived address. There are more
    pairs than addresses, so this can hold of the pairs in use, but not of all pairs.
   */
  ghost predicate Separate(pda: Pda, named: set<Pair>) {
    forall k: Key, s: U16, b: Byte, k': Key, s': U16, b': Byte ::
      (k, s) in named && (k', s') in named && pda.derive(k, s, b) == pda.derive(k', s', b') ==> k == k' && s == s'
  }

  /** The one address of a (registrant, scheme) pair. */
  function Home(pda: Pda, registrant: Key, schemeId: U16): Key {
    pda.derive(registrant, schemeId, pda.bump(registrant, schemeId))
  }

  datatype Instruction =
    | Register(schemeId: U16, payload: Payload)
    | Update(schemeId: U16, payload: Payload)
    | Close(schemeId: U16)

  /** The accounts a transaction names are the sender's choice; only `signers` is vouched for. */
  datatype Transaction = Transaction(signers: set<Key>, registrant: Key, entry: Key, ix: Instruction)

  /** The pair a transaction is about. */
  function Names(tx: Transaction): Pair {
    (tx.registrant, tx.ix.schemeId)
  }

  ghost predicate AllNamed(txs: seq<Transaction>, named: set<Pair>) {
    forall i | 0 <= i < |txs| :: Names(txs[i]) in named
  }

  datatype State = State(accounts: map<Key, Entry>, events: seq<Event>)

  // ---- One transaction ----

  /** Signer, `init` with seeds; or `seeds` with the stored bump and `has_one = registrant`. */
  predicate ConstraintsHold(pda: Pda, st: State, tx: Transaction) {
    && tx.registrant in tx.signers
    && if tx.ix.Register? then
         tx.entry == Home(pda, tx.registrant, tx.ix.schemeId) && tx.entry !in st.accounts
       else
         && tx.entry in st.accounts
         && tx.entry == pda.derive(tx.registrant, tx.ix.schemeId, st.accounts[tx.entry].bump)
         && st.accounts[tx.entry].registrant == tx.registrant
  }

  function PayloadError(schemeId: U16, payload: Payload): Option<RegistryError> {
    if schemeId == 0 then Some(InvalidSchemeId)
    else if payload.version != 1 then Some(InvalidVersion)
    else if payload.flags != 0 then Some(InvalidFlags)
    else None
  }

  function Outcome(pda: Pda, st: State, tx: Transaction): Option<RegistryError> {
    if !ConstraintsHold(pda, st, tx) then Some(AccountConstraint)
    else
      match tx.ix
      case Register(schemeId, payload) => PayloadError(schemeId, payload)
      case Update(schemeId, payload) => PayloadError(schemeId, payload)
      case Close(_) => None
  }

  /** The state after a transaction; events name the registrant stored in the account. */
  function After(pda: Pda, st: State, tx: Transaction): State {
    if Outcome(pda, st, tx).Some? then st
    else
      match tx.ix
      case Register(schemeId, p) =>
        State(st.accounts[tx.entry := Entry(tx.registrant, schemeId, pda.bump(tx.registrant, schemeId),
                                            p.version, p.bSpend, p.bScan, p.flags)],
              st.events + [MetaAddressRegistered(tx.registrant, schemeId, p)])
      case Update(schemeId, p) =>
        var e := st.accounts[tx.entry];
        State(st.accounts[tx.entry := e.(version := p.version, bSpend := p.bSpend, bScan := p.bScan, flags := p.flags)],
              st.events + [MetaAddressUpdated(e.registrant, schemeId, p)])
      case Close(schemeId) =>
        State(st.accounts - {tx.entry},
              st.events + [MetaAddressClosed(st.accounts[tx.entry].registrant, schemeId)])
  }

  function AfterAll(pda: Pda, txs: seq<Transaction>): State {
    if txs == [] then State(map[], [])
    else After(pda, AfterAll(pda, txs[..|txs| - 1]), txs[|txs| - 1])
  }

  /** The program: accounts are created, overwritten field by field, and closed in place. */
  class Program {
    const pda: Pda
    var accounts: map<Key, Entry>
    var events: seq<Event>

    ghost function Current(): State
      reads this
    {
      State(accounts, events)
    }

    constructor (pda: Pda)
      ensures this.pda == pda && Current() == AfterAll(pda, [])
    {
      this.pda := pda;
      accounts := map[];
      events := [];
    }

    /** One handler run behind Anchor's account validation. */
    method Process(tx: Transaction) returns (r: Option<RegistryError>)
      modifies this
      ensures r == Outcome(pda, old(Current()), tx) && Current() == After(pda, old(Current()), tx)
    {
      if !ConstraintsHold(pda, State(accounts, events), tx) {
        return Some(AccountConstraint);
      }
      match tx.ix {
        case Register(schemeId, payload) => r := Register(tx.entry, tx.registrant, schemeId, payload);
        case Update(schemeId, payload) => r := Update(tx.entry, schemeId, payload);
        case Close(schemeId) =>
          events := events + [MetaAddressClosed(accounts[tx.entry].registrant, schemeId)];
          accounts := accounts - {tx.entry};
          r := None;
      }
    }

    method Register(entry: Key, registrant: Key, schemeId: U16, payload: Payload) returns (r: Option<RegistryError>)
      modifies this
      ensures r == PayloadError(schemeId, payload)
      ensures r.Some? ==> Current() == old(Current())
      ensures r.None? ==>
                && accounts == old(accounts)[
                     entry := Entry(registrant, schemeId, pda.bump(registrant, schemeId),
                                    payload.version, payload.bSpend, payload.bScan, payload.flags)]
                && events == old(events) + [MetaAddressRegistered(registrant, schemeId, payload)]
    {
      if schemeId == 0 {
        return Some(InvalidSchemeId);
      }
      if payload.version != 1 {
        return Some(InvalidVersion);
      }
      if payload.flags != 0 {
        return Some(InvalidFlags);
      }
      accounts := accounts[entry := Entry(registrant, schemeId, pda.bump(registrant, schemeId),
                                          payload.version, payload.bSpend, payload.bScan, payload.flags)];
      events := events + [MetaAddressRegistered(accounts[entry].registrant, schemeId, payload)];
      return None;
    }

    method Update(entry: Key, schemeId: U16, payload: Payload) returns (r: Option<RegistryError>)
      requires entry in accounts
      modifies this
      ensures r == PayloadError(schemeId, payload)
      ensures r.Some? ==> Current() == old(Current())
      ensures r.None? ==>
                && accounts == old(accounts)[
                     entry := old(accounts)[entry].(version := payload.version, bSpend := payload.bSpend,
                                                    bScan := payload.bScan, flags := payload.flags)]
                && events == old(events) + [MetaAddressUpdated(old(accounts)[entry].registrant, schemeId, payload)]
    {
      if schemeId == 0 {
        return Some(InvalidSchemeId);
      }
      if payload.version != 1 {
        return Some(InvalidVersion);
      }
      if payload.flags != 0 {
        return Some(InvalidFlags);
      }
      accounts := accounts[entry := accounts[entry].(version := payload.version)];
      accounts := accounts[entry := accounts[entry].(bSpend := payload.bSpend)];
      accounts := accounts[entry := accounts[entry].(bScan := payload.bScan)];
      accounts := accounts[entry := accounts[entry].(flags := payload.flags)];
      events := events + [MetaAddressUpdated(accounts[entry].registrant, schemeId, payload)];
      return None;
    }
  }

  // ---- Replaying the events ----

  type View = map<Pair, Payload>

  /** One event on a strict replica: it fails on an event that cannot follow the ones before. */
  function Replayed(view: View, e: Event): Option<View> {
    match e
    case MetaAddressRegistered(k, s, p) => if (k, s) in view then None else Some(view[(k, s) := p])
    case MetaAddressUpdated(k, s, p) => if (k, s) in view then Some(view[(k, s) := p]) else None
    case MetaAddressClosed(k, s) => if (k, s) in view then Some(view - {(k, s)}) else None
  }

  function Replay(events: seq<Event>): Option<View> {
    if events == [] then Some(map[])
    else
      match Replay(events[..|events| - 1])
      case None => None
      case Some(view) => Replayed(view, events[|events| - 1])
  }

  function PayloadOf(e: Entry): Payload {
    Payload(e.version, e.bSpend, e.bScan, e.flags)
  }

  /** What the chain holds for a pair, at its address. */
  function Lookup(pda: Pda, st: State, registrant: Key, schemeId: U16): Option<Payload> {
    var home := Home(pda, registrant, schemeId);
    if home in st.accounts && st.accounts[home].registrant == registrant && st.accounts[home].schemeId == schemeId
    then Some(PayloadOf(st.accounts[home]))
    else None
  }

  /** Every account is a named pair's, sits at that pair's address and holds a valid v1 entry. */
  ghost predicate WellPlaced(pda: Pda, st: State, named: set<Pair>) {
    forall a | a in st.accounts ::
      var e := st.accounts[a];
      && (e.registrant, e.schemeId) in named
      && a == Home(pda, e.registrant, e.schemeId) && e.bump == pda.bump(e.registrant, e.schemeId)
      && e.schemeId != 0 && e.version == 1 && e.flags == 0
  }

  ghost predicate Mirrors(pda: Pda, st: State, view: View) {
    forall k: Key, s: U16 ::
      if (k, s) in view then Lookup(pda, st, k, s) == Some(view[(k, s)]) else Lookup(pda, st, k, s) == None
  }

  // ---- When addresses can be separate ----

  /** Numbers the elements of a finite set. */
  lemma {:induction false} Numbering(named: set<Pair>) returns (number: Pair -> nat)
    ensures forall p | p in named :: number(p) < |named|
    ensures forall p, q | p in named && q in named && number(p) == number(q) :: p == q
  {
    if named == {} {
      number := (_: Pair) => 0;
    } else {
      var x :| x in named;
      var rest := Numbering(named - {x});
      var n := |named| - 1;
      number := (p: Pair) => if p == x then n else rest(p);
    }
  }

  lemma {:induction false} NatsBelow(s: set<nat>, n: nat)
    requires forall x | x in s :: x < n
    ensures |s| <= n
  {
    if n > 0 {
      NatsBelow(s - {n - 1}, n - 1);
    }
  }

  lemma {:induction false} ImageSize(named: set<Pair>, f: Pair -> nat)
    requires forall p, q | p in named && q in named && f(p) == f(q) :: p == q
    ensures |set p | p in named :: f(p)| == |named|
  {
    if named != {} {
      var x :| x in named;
      var image := set p | p in named - {x} :: f(p);
      ImageSize(named - {x}, f);
      assert (set p | p in named :: f(p)) == image + {f(x)};
      assert f(x) !in image;
    }
  }

  function AddressOf(n: nat): Key {
    LeBytes(n, 32)
  }

  lemma FewCanBeSeparate(named: set<Pair>) returns (pda: Pda)
    requires |named| <= Pow256(32)
    ensures Separate(pda, named)
  {
    var number := Numbering(named);
    pda := Pda((k: Key, s: U16, _: Byte) => AddressOf(number((k, s))), (_: Key, _: U16) => 0);
    forall p, q | p in named && q in named && AddressOf(number(p)) == AddressOf(number(q))
      ensures p == q
    {
      LeValueOfBytes(number(p), 32);
      LeValueOfBytes(number(q), 32);
    }
  }

  lemma ManyCannotBeSeparate(pda: Pda, named: set<Pair>)
    requires Separate(pda, named)
    ensures |named| <= Pow256(32)
  {
    var address := (p: Pair) => LeValue(pda.derive(p.0, p.1, 0));
    forall p, q | p in named && q in named && address(p) == address(q)
      ensures p == q
    {
      LeBytesOfValue(pda.derive(p.0, p.1, 0));
      LeBytesOfValue(pda.derive(q.0, q.1, 0));
    }
    ImageSize(named, address);
    var image := set p | p in named :: address(p);
    forall x | x in image
      ensures x < Pow256(32)
    {
      var p :| p in named && address(p) == x;
      LeBytesOfValue(pda.derive(p.0, p.1, 0));
    }
    NatsBelow(image, Pow256(32));
  }

  /** The assumption can be met exactly by sets of at most 2^256 pairs, one for each address. */
  lemma SeparateExactly(named: set<Pair>)
    ensures (exists pda :: Separate(pda, named)) <==> |named| <= Pow256(32)
  {
    hide Separate, Pow256;
    if |named| <= Pow256(32) {
      var pda := FewCanBeSeparate(named);
    }
    if exists pda :: Separate(pda, named) {
      var pda :| Separate(pda, named);
      ManyCannotBeSeparate(pda, named);
    }
  }

  /** An existing account satisfies the constraints exactly at the home of the named pair. */
  lemma ConstraintsAtHome(pda: Pda, st: State, tx: Transaction, named: set<Pair>)
    requires Separate(pda, named) && Names(tx) in named && WellPlaced(pda, st, named)
    ensures ConstraintsHold(pda, st, tx) <==>
            && tx.registrant in tx.signers
            && tx.entry == Home(pda, tx.registrant, tx.ix.schemeId)
            && (tx.ix.Register? <==> tx.entry !in st.accounts)
    ensures ConstraintsHold(pda, st, tx) && !tx.ix.Register? ==>
              st.accounts[tx.entry].registrant == tx.registrant && st.accounts[tx.entry].schemeId == tx.ix.schemeId
  {
  }

  lemma AfterKeepsPlaced(pda: Pda, st: State, tx: Transaction, named: set<Pair>)
    requires Separate(pda, named) && Names(tx) in named && WellPlaced(pda, st, named)
    ensures WellPlaced(pda, After(pda, st, tx), named)
  {
    ConstraintsAtHome(pda, st, tx, named);
  }

  /** A transaction changes at most the pair it names, and only with that registrant's signature. */
  lemma OnlyTheSignerChanges(pda: Pda, st: State, tx: Transaction, named: set<Pair>, k: Key, s: U16)
    requires Separate(pda, named) && Names(tx) in named && WellPlaced(pda, st, named)
    ensures Lookup(pda, After(pda, st, tx), k, s) != Lookup(pda, st, k, s) ==>
              k in tx.signers && k == tx.registrant && s == tx.ix.schemeId
  {
    ConstraintsAtHome(pda, st, tx, named);
    if Home(pda, k, s) == tx.entry && ConstraintsHold(pda, st, tx) {
      assert Home(pda, k, s) == Home(pda, tx.registrant, tx.ix.schemeId);
    }
  }

  lemma MirrorStep(pda: Pda, st: State, tx: Transaction, named: set<Pair>, view: View)
    requires Separate(pda, named) && Names(tx) in named && WellPlaced(pda, st, named)
    requires Mirrors(pda, st, view) && Replay(st.events) == Some(view)
    ensures var st' := After(pda, st, tx);
            Replay(st'.events).Some? && Mirrors(pda, st', Replay(st'.events).value)
  {
    var st' := After(pda, st, tx);
    if Outcome(pda, st, tx).None? {
      ConstraintsAtHome(pda, st, tx, named);
      var k0, s0 := tx.registrant, tx.ix.schemeId;
      assert Lookup(pda, st, k0, s0).Some? <==> (k0, s0) in view;
      assert st'.events[..|st'.events| - 1] == st.events;
      var view' := Replay(st'.events).value;
      forall k: Key, s: U16
        ensures if (k, s) in view' then Lookup(pda, st', k, s) == Some(view'[(k, s)])
                else Lookup(pda, st', k, s) == None
      {
        OnlyTheSignerChanges(pda, st, tx, named, k, s);
        assert if (k, s) in view then Lookup(pda, st, k, s) == Some(view[(k, s)]) else Lookup(pda, st, k, s) == None;
      }
    }
  }

  /**
    After any transactions, replaying the event log never gets stuck and yields exactly the
    live entries; each sits at its own pair's address, with a non-zero scheme, version 1, flags 0.
   */
  lemma {:induction false} EventsReplayToAccounts(pda: Pda, txs: seq<Transaction>, named: set<Pair>)
    requires Separate(pda, named) && AllNamed(txs, named)
    ensures var st := AfterAll(pda, txs);
            WellPlaced(pda, st, named) && Replay(st.events).Some? && Mirrors(pda, st, Replay(st.events).value)
  {
    hide After, Mirrors, WellPlaced;
    if txs == [] {
      EmptyMirrors(pda, named);
    } else {
      var st, tx := AfterAll(pda, txs[..|txs| - 1]), txs[|txs| - 1];
      EventsReplayToAccounts(pda, txs[..|txs| - 1], named);
      AfterKeepsPlaced(pda, st, tx, named);
      MirrorStep(pda, st, tx, named, Replay(st.events).value);
    }
  }

  lemma EmptyMirrors(pda: Pda, named: set<Pair>)
    ensures WellPlaced(pda, State(map[], []), named) && Mirrors(pda, State(map[], []), map[])
  {
  }

  /**
    The event log alone decides what becomes of a transaction, and each check that fails gives its
    own error: it must be signed by the registrant, name the pair's address, and register a pair
    that is not live or change one that is; then every scheme but 0 is allowed, with version 1
    and flags 0, which `close` does not check.
   */
  lemma SucceedsExactly(pda: Pda, txs: seq<Transaction>, tx: Transaction, named: set<Pair>)
    requires Separate(pda, named) && AllNamed(txs, named) && Names(tx) in named
    ensures var st := AfterAll(pda, txs);
            && Replay(st.events).Some?
            && Outcome(pda, st, tx) ==
               if tx.registrant !in tx.signers
                  || tx.entry != Home(pda, tx.registrant, tx.ix.schemeId)
                  || (tx.ix.Register? <==> (tx.registrant, tx.ix.schemeId) in Replay(st.events).value)
               then Some(AccountConstraint)
               else if tx.ix.Close? then None
               else if tx.ix.schemeId == 0 then Some(InvalidSchemeId)
               else if tx.ix.payload.version != 1 then Some(InvalidVersion)
               else if tx.ix.payload.flags != 0 then Some(InvalidFlags)
               else None
  {
    EventsReplayToAccounts(pda, txs, named);
    var st := AfterAll(pda, txs);
    ConstraintsAtHome(pda, st, tx, named);
    assert Lookup(pda, st, tx.registrant, tx.ix.schemeId).Some? <==>
           (tx.registrant, tx.ix.schemeId) in Replay(st.events).value;
  }

  /** A transaction that succeeds leaves its pair with exactly its payload, or with nothing, and one event. */
  lemma SuccessTakesEffect(pda: Pda, txs: seq<Transaction>, tx: Transaction, named: set<Pair>)
    requires Separate(pda, named) && AllNamed(txs, named) && Names(tx) in named
    requires Outcome(pda, AfterAll(pda, txs), tx) == None
    ensures var st' := AfterAll(pda, txs + [tx]);
            && Lookup(pda, st', tx.registrant, tx.ix.schemeId) ==
               (if tx.ix.Close? then None else Some(tx.ix.payload))
            && st'.events == AfterAll(pda, txs).events + [
                 match tx.ix
                 case Register(s, p) => MetaAddressRegistered(tx.registrant, s, p)
                 case Update(s, p) => MetaAddressUpdated(tx.registrant, s, p)
                 case Close(s) => MetaAddressClosed(tx.registrant, s)]
  {
    EventsReplayToAccounts(pda, txs, named);
    ConstraintsAtHome(pda, AfterAll(pda, txs), tx, named);
    assert (txs + [tx])[..|txs|] == txs;
  }
}
