/** The service as a state machine: one poller writing blocks in three separately committed
    steps, a prune thread, failures between any two steps, retries, restarts
    (ingester/serve.py, ingester/ingest.py, ingester/storage.py). */
module Pipeline {
  import opened Wrappers
  import opened Decimal
  import opened Records
  import opened Storage
  import opened HarvestResolver
  import opened Ingest

  // ---------- States ----------

  // Where the poller stands inside a block; Logging is after the last block of a range, when
  // the log of unknown selectors is still to be written.
  datatype Pc = Fetching | WritingTxs(b: Batch) | WritingActions(b: Batch) | WritingCursor | Logging

  // `next` is next_block; `kamis` is the resolver's map, None for a process without one;
  // `receipt` is the leftover receipt variable of the running process_block_range call.
  datatype Poller =
    | Down
    | Idle(next: nat, kamis: Option<KamiMap>)
    | Scanning(next: nat, end: nat, at: nat, kamis: Option<KamiMap>, receipt: Option<Receipt>, pc: Pc)

  // The smallest and largest cursor values ever committed.
  datatype Span = Span(first: nat, last: nat)

  // The last three components are history: nothing the service does depends on them.
  datatype State = State(
    db: Db, poller: Poller,
    span: Option<Span>,      // cursor values committed so far
    cutoff: Option<int>,     // the largest prune cutoff so far
    exact: bool)             // no receipt fetch has failed so far

  const INIT := State(Db(map[], map[], None), Down, None, None, true)

  // ---------- Events ----------

  datatype Event =
    | Start(head: nat, kamis: Option<KamiMap>)    // a process starts and reads the cursor
    | BeginRange(end: nat)                        // the poller calls process_block_range
    | Fetch(fetches: seq<Option<Receipt>>)        // a block is fetched, decoded and stitched
    | FetchFails                                  // fetching or decoding raises
    | WriteTxs(budget: nat)                       // upsert_raw_txs, which fails after budget rows
    | WriteActions(budget: nat)                   // upsert_actions, likewise
    | WriteCursor(fails: bool)                    // set_cursor
    | LogUnknown(fails: bool)                     // the range ends, or log_unknown raises
    | Resume                                      // the outer handler re-reads the cursor
    | Crash                                       // the process dies
    | PruneTo(cutoff: int)                        // the prune thread's transaction commits

  function NextFrom(cursor: Option<nat>, otherwise: nat): nat {
    if cursor.Some? then cursor.value + 1 else otherwise
  }

  function ObserveBatch(h: HarvestHash, kamis: Option<KamiMap>, actions: seq<Action>): Option<KamiMap> {
    if kamis.None? then None else Some(Observe(h, kamis.value, actions))
  }

  function StitchedBatch(kamis: Option<KamiMap>, b: Batch): Batch {
    if kamis.None? then b else b.(actions := Stitch(kamis.value, b.actions))
  }

  function Extend(span: Option<Span>, n: nat): Option<Span> {
    if span.None? then Some(Span(n, n))
    else Some(Span(if n < span.value.first then n else span.value.first, if n > span.value.last then n else span.value.last))
  }

  function Later(cutoff: Option<int>, c: int): Option<int> {
    if cutoff.None? || cutoff.value < c then Some(c) else cutoff
  }

  // The range is abandoned: the poller will retry it from next_block.
  function Abandon(s: State): State
    requires s.poller.Scanning?
  {
    s.(poller := Idle(s.poller.next, s.poller.kamis))
  }

  function FetchStep(w: World, s: State, fetches: seq<Option<Receipt>>): State
    requires s.poller.Scanning? && Honest(w.chain(s.poller.at), fetches)
  {
    var p, b := s.poller, w.chain(s.poller.at);
    var progress := ScanTxs(w.cfg, p.at, b, fetches, p.receipt, |b.txs|);
    var s' := s.(exact := s.exact && forall i | 0 <= i < |fetches| :: fetches[i].Some?);
    if progress.None? then Abandon(s')
    else
      var kamis := ObserveBatch(w.cfg.hash, p.kamis, progress.value.batch.actions);
      var batch := StitchedBatch(kamis, progress.value.batch);
      s'.(poller := p.(kamis := kamis, receipt := progress.value.receipt,
                       pc := if batch == Batch([], []) then WritingCursor else WritingTxs(batch)))
  }

  function WriteTxsStep(s: State, budget: nat): State
    requires s.poller.Scanning? && s.poller.pc.WritingTxs?
  {
    var b := s.poller.pc.b;
    var s' := s.(db := s.db.(rawTx := InsertOrIgnore(s.db.rawTx, KeyedTxs(Written(b.txs, budget)))));
    if |b.txs| <= budget then s'.(poller := s.poller.(pc := WritingActions(b))) else Abandon(s')
  }

  function WriteActionsStep(s: State, budget: nat): State
    requires s.poller.Scanning? && s.poller.pc.WritingActions?
  {
    var b := s.poller.pc.b;
    var s' := s.(db := s.db.(kamiAction := InsertOrIgnore(s.db.kamiAction, KeyedActions(Written(b.actions, budget)))));
    if |b.actions| <= budget then s'.(poller := s.poller.(pc := WritingCursor)) else Abandon(s')
  }

  function WriteCursorStep(s: State, fails: bool): State
    requires s.poller.Scanning?
  {
    if fails then Abandon(s)
    else
      var p := s.poller;
      s.(db := s.db.(cursor := Some(p.at)), span := Extend(s.span, p.at),
         poller := if p.at >= p.end then p.(pc := Logging) else p.(at := p.at + 1, pc := Fetching))
  }

  // The successor of s under e, None when e is not possible in s.
  ghost function Step(w: World, s: State, e: Event): Option<State> {
    var p := s.poller;
    match e
    case Start(head, kamis) =>
      if p.Down? && (kamis.Some? ==> IsBootstrap(w.cfg.hash, s.db.kamiAction, kamis.value)) then
        Some(s.(poller := Idle(NextFrom(s.db.cursor, head), kamis)))
      else None
    case BeginRange(end) =>
      if p.Idle? && p.next <= end then Some(s.(poller := Scanning(p.next, end, p.next, p.kamis, None, Fetching)))
      else None
    case Fetch(fetches) =>
      if p.Scanning? && p.pc.Fetching? && Honest(w.chain(p.at), fetches) then Some(FetchStep(w, s, fetches)) else None
    case FetchFails => if p.Scanning? && p.pc.Fetching? then Some(Abandon(s)) else None
    case WriteTxs(budget) => if p.Scanning? && p.pc.WritingTxs? then Some(WriteTxsStep(s, budget)) else None
    case WriteActions(budget) =>
      if p.Scanning? && p.pc.WritingActions? then Some(WriteActionsStep(s, budget)) else None
    case WriteCursor(fails) => if p.Scanning? && p.pc.WritingCursor? then Some(WriteCursorStep(s, fails)) else None
    case LogUnknown(fails) =>
      if p.Scanning? && p.pc.Logging? then
        Some(if fails then Abandon(s) else s.(poller := Idle(p.end + 1, p.kamis)))
      else None
    case Resume =>
      if p.Idle? then
        var db := NextFrom(s.db.cursor, 0);
        Some(s.(poller := Idle(if db > p.next then db else p.next, p.kamis)))
      else None
    case Crash => if p.Down? then None else Some(s.(poller := Down))
    case PruneTo(c) => Some(s.(db := Prune(s.db, c), cutoff := Later(s.cutoff, c)))
  }

  // The state after a run of events, None when some event was not possible.
  ghost function Exec(w: World, s: State, es: seq<Event>): Option<State> {
    if es == [] then Some(s)
    else
      var prior := Exec(w, s, es[..|es| - 1]);
      if prior.None? then None else Step(w, prior.value, es[|es| - 1])
  }

  // ---------- The invariant ----------

  ghost predicate IsCleanTx(w: World, exact: bool, r: RawTx, n: nat, i: nat) {
    var clean := CleanBatch(w, n).txs;
    i < |clean| && TxAgrees(exact, r, clean[i])
  }

  ghost predicate IsCleanAction(w: World, exact: bool, a: Action, n: nat, i: nat) {
    var clean := CleanBatch(w, n).actions;
    i < |clean| && ActionAgrees(w.cfg.hash, exact, a, clean[i])
  }

  ghost predicate IsStoredTx(w: World, exact: bool, h: string, r: RawTx) {
    r.txHash == h && exists i: nat :: IsCleanTx(w, exact, r, r.blockNumber, i)
  }

  ghost predicate IsStoredAction(w: World, exact: bool, id: string, a: Action) {
    a.Id() == id && exists i: nat :: IsCleanAction(w, exact, a, a.blockNumber, i)
  }

  // Every stored row is one of the chain's rows, stored under its own key.
  ghost predicate TxsFaithful(w: World, exact: bool, t: map<string, RawTx>) {
    forall h | h in t :: IsStoredTx(w, exact, h, t[h])
  }

  ghost predicate ActionsFaithful(w: World, exact: bool, t: map<string, Action>) {
    forall id | id in t :: IsStoredAction(w, exact, id, t[id])
  }

  // Older than some prune so far.
  predicate Expired(timestamp: int, cutoff: Option<int>) {
    cutoff.Some? && timestamp < cutoff.value
  }

  ghost predicate TxsStored(w: World, s: State, n: nat) {
    Expired(w.chain(n).timestamp, s.cutoff)
    || forall i | 0 <= i < |CleanBatch(w, n).txs| :: CleanBatch(w, n).txs[i].txHash in s.db.rawTx
  }

  ghost predicate ActionsStored(w: World, s: State, n: nat) {
    Expired(w.chain(n).timestamp, s.cutoff)
    || forall i | 0 <= i < |CleanBatch(w, n).actions| :: CleanBatch(w, n).actions[i].Id() in s.db.kamiAction
  }

  // Every row of block n is in the database, unless a prune has reached the block's time.
  ghost predicate Covered(w: World, s: State, n: nat) {
    TxsStored(w, s, n) && ActionsStored(w, s, n)
  }

  // Every action row that no prune has reached has its transaction row.
  ghost predicate NoOrphans(s: State) {
    forall id | id in s.db.kamiAction ::
      Expired(s.db.kamiAction[id].blockTimestamp, s.cutoff) || s.db.kamiAction[id].txHash in s.db.rawTx
  }

  ghost predicate SpanCovered(w: World, s: State) {
    && (s.db.cursor.Some? <==> s.span.Some?)
    && (s.span.Some? ==>
          && s.span.value.first <= s.db.cursor.value <= s.span.value.last
          && forall n: nat | s.span.value.first <= n <= s.span.value.last :: Covered(w, s, n))
  }

  predicate NextInSpan(s: State, next: nat) {
    s.db.cursor.Some? ==> s.span.Some? && s.span.value.first <= next <= s.db.cursor.value + 1
  }

  ghost predicate MapSound(w: World, kamis: Option<KamiMap>) {
    kamis.Some? ==> Sound(w.cfg.hash, kamis.value)
  }

  ghost predicate PcOk(w: World, s: State, at: nat, pc: Pc) {
    match pc
    case Fetching => true
    case WritingTxs(b) => BatchAgrees(w.cfg.hash, s.exact, b, CleanBatch(w, at))
    case WritingActions(b) => BatchAgrees(w.cfg.hash, s.exact, b, CleanBatch(w, at)) && TxsStored(w, s, at)
    case WritingCursor => Covered(w, s, at)
    case Logging => true
  }

  ghost predicate PollerOk(w: World, s: State) {
    match s.poller
    case Down => true
    case Idle(next, kamis) => NextInSpan(s, next) && MapSound(w, kamis)
    case Scanning(next, end, at, kamis, _, pc) =>
      && NextInSpan(s, next) && MapSound(w, kamis) && PcOk(w, s, at, pc)
      && next <= at <= end
      && (if pc.Logging? then at == end && s.db.cursor == Some(end)
          else at > next ==> s.db.cursor == Some(at - 1))
  }

  ghost predicate Inv(w: World, s: State) {
    && TxsFaithful(w, s.exact, s.db.rawTx)
    && ActionsFaithful(w, s.exact, s.db.kamiAction)
    && NoOrphans(s)
    && SpanCovered(w, s)
    && PollerOk(w, s)
  }

  // ---------- Lemmas about the stored rows ----------

  lemma CleanKeyed(w: World, n: nat)
    requires ValidWorld(w)
    ensures WellKeyed(w, n, |w.chain(n).txs|, CleanBatch(w, n))
  {
    CleanWellKeyed(w, n, |w.chain(n).txs|);
  }

  // A transaction hash determines its block.
  lemma SameBlock(w: World, n: nat, i: nat, m: nat, j: nat)
    requires ValidWorld(w)
    requires i < |CleanBatch(w, n).txs| && j < |CleanBatch(w, m).txs|
    requires CleanBatch(w, n).txs[i].txHash == CleanBatch(w, m).txs[j].txHash
    ensures n == m && i == j
  {
    CleanKeyed(w, n);
    CleanKeyed(w, m);
    assert CleanTxRow(w, n, |w.chain(n).txs|, CleanBatch(w, n).txs[i]);
    assert CleanTxRow(w, m, |w.chain(m).txs|, CleanBatch(w, m).txs[j]);
  }

  // So does an action key.
  lemma SameAction(w: World, n: nat, i: nat, m: nat, j: nat)
    requires ValidWorld(w)
    requires i < |CleanBatch(w, n).actions| && j < |CleanBatch(w, m).actions|
    requires CleanBatch(w, n).actions[i].Id() == CleanBatch(w, m).actions[j].Id()
    ensures n == m && i == j
  {
    CleanKeyed(w, n);
    CleanKeyed(w, m);
    var a, b := CleanBatch(w, n).actions[i], CleanBatch(w, m).actions[j];
    RowIdInjective(a.txHash, a.subIndex, b.txHash, b.subIndex);
    assert CleanActionRow(w, n, |w.chain(n).txs|, a);
    assert CleanActionRow(w, m, |w.chain(m).txs|, b);
  }

  // A stored row with the key of a row of block n carries block n's time.
  lemma StoredTxTime(w: World, s: State, n: nat, i: nat)
    requires ValidWorld(w) && TxsFaithful(w, s.exact, s.db.rawTx)
    requires i < |CleanBatch(w, n).txs| && CleanBatch(w, n).txs[i].txHash in s.db.rawTx
    ensures s.db.rawTx[CleanBatch(w, n).txs[i].txHash].blockTimestamp == w.chain(n).timestamp
  {
    var h := CleanBatch(w, n).txs[i].txHash;
    var r := s.db.rawTx[h];
    var j: nat :| IsCleanTx(w, s.exact, r, r.blockNumber, j);
    SameBlock(w, n, i, r.blockNumber, j);
    CleanKeyed(w, n);
    assert CleanTxRow(w, n, |w.chain(n).txs|, CleanBatch(w, n).txs[j]);
  }

  lemma StoredActionTime(w: World, s: State, n: nat, i: nat)
    requires ValidWorld(w) && ActionsFaithful(w, s.exact, s.db.kamiAction)
    requires i < |CleanBatch(w, n).actions| && CleanBatch(w, n).actions[i].Id() in s.db.kamiAction
    ensures s.db.kamiAction[CleanBatch(w, n).actions[i].Id()].blockTimestamp == w.chain(n).timestamp
  {
    var id := CleanBatch(w, n).actions[i].Id();
    var a := s.db.kamiAction[id];
    var j: nat :| IsCleanAction(w, s.exact, a, a.blockNumber, j);
    SameAction(w, n, i, a.blockNumber, j);
    CleanKeyed(w, n);
    assert CleanActionRow(w, n, |w.chain(n).txs|, CleanBatch(w, n).actions[j]);
  }

  // An action row and its transaction row carry the same time.
  lemma PartnerTime(w: World, s: State, id: string)
    requires ValidWorld(w) && Inv(w, s)
    requires id in s.db.kamiAction && s.db.kamiAction[id].txHash in s.db.rawTx
    ensures s.db.rawTx[s.db.kamiAction[id].txHash].blockTimestamp == s.db.kamiAction[id].blockTimestamp
  {
    var a := s.db.kamiAction[id];
    var n := a.blockNumber;
    var i: nat :| IsCleanAction(w, s.exact, a, n, i);
    CleanKeyed(w, n);
    assert CleanActionRow(w, n, |w.chain(n).txs|, CleanBatch(w, n).actions[i]);
    assert HasTx(CleanBatch(w, n).txs, a.txHash);
    var y :| 0 <= y < |CleanBatch(w, n).txs| && CleanBatch(w, n).txs[y].txHash == a.txHash;
    StoredTxTime(w, s, n, y);
  }

  // ---------- The invariant is preserved ----------

  lemma CoveredMonotone(w: World, s: State, s': State)
    requires s.cutoff == s'.cutoff
    requires s.db.rawTx.Keys <= s'.db.rawTx.Keys && s.db.kamiAction.Keys <= s'.db.kamiAction.Keys
    ensures forall n: nat :: TxsStored(w, s, n) ==> TxsStored(w, s', n)
    ensures forall n: nat :: Covered(w, s, n) ==> Covered(w, s', n)
  {
  }

  // Inserting part of a block's rows keeps the table faithful; inserting all of them
  // leaves them all stored.
  lemma InsertTxs(w: World, exact: bool, t: map<string, RawTx>, n: nat, txs: seq<RawTx>, budget: nat)
    requires ValidWorld(w) && TxsFaithful(w, exact, t)
    requires |txs| == |CleanBatch(w, n).txs|
    requires forall i | 0 <= i < |txs| :: TxAgrees(exact, txs[i], CleanBatch(w, n).txs[i])
    ensures var t' := InsertOrIgnore(t, KeyedTxs(Written(txs, budget)));
            && TxsFaithful(w, exact, t')
            && (|txs| <= budget ==> forall i | 0 <= i < |txs| :: CleanBatch(w, n).txs[i].txHash in t')
            && (forall h | h in t' && h !in t :: t'[h].blockNumber == n)
  {
    var clean, rows := CleanBatch(w, n).txs, KeyedTxs(Written(txs, budget));
    var t' := InsertOrIgnore(t, rows);
    forall h | h in t'
      ensures IsStoredTx(w, exact, h, t'[h])
      ensures h !in t ==> t'[h].blockNumber == n
    {
      if h !in t {
        var i: nat :| i < |rows| && rows[i] == (h, t'[h]);
        CleanKeyed(w, n);
        assert CleanTxRow(w, n, |w.chain(n).txs|, clean[i]);
        assert IsCleanTx(w, exact, t'[h], n, i);
      }
    }
    if |txs| <= budget {
      forall i | 0 <= i < |txs| ensures clean[i].txHash in t' {
        assert rows[i].0 == clean[i].txHash;
      }
    }
  }

  lemma InsertActions(w: World, exact: bool, t: map<string, Action>, n: nat, actions: seq<Action>, budget: nat)
    requires ValidWorld(w) && ActionsFaithful(w, exact, t)
    requires |actions| == |CleanBatch(w, n).actions|
    requires forall i | 0 <= i < |actions| :: ActionAgrees(w.cfg.hash, exact, actions[i], CleanBatch(w, n).actions[i])
    ensures var t' := InsertOrIgnore(t, KeyedActions(Written(actions, budget)));
            && ActionsFaithful(w, exact, t')
            && (|actions| <= budget ==> forall i | 0 <= i < |actions| :: CleanBatch(w, n).actions[i].Id() in t')
            && (forall id | id in t' && id !in t ::
                  t'[id].blockNumber == n && t'[id].blockTimestamp == w.chain(n).timestamp
                  && HasTx(CleanBatch(w, n).txs, t'[id].txHash))
  {
    var clean, rows := CleanBatch(w, n).actions, KeyedActions(Written(actions, budget));
    var t' := InsertOrIgnore(t, rows);
    CleanKeyed(w, n);
    forall id | id in t'
      ensures IsStoredAction(w, exact, id, t'[id])
      ensures id !in t ==> t'[id].blockNumber == n && t'[id].blockTimestamp == w.chain(n).timestamp
                           && HasTx(CleanBatch(w, n).txs, t'[id].txHash)
    {
      if id !in t {
        var i: nat :| i < |rows| && rows[i] == (id, t'[id]);
        assert CleanActionRow(w, n, |w.chain(n).txs|, clean[i]);
        assert IsCleanAction(w, exact, t'[id], n, i);
      }
    }
    if |actions| <= budget {
      forall i | 0 <= i < |actions| ensures clean[i].Id() in t' {
        assert rows[i].0 == clean[i].Id();
      }
    }
  }

  lemma ReplacePoller(w: World, s: State, p: Poller)
    requires Inv(w, s) && PollerOk(w, s.(poller := p))
    ensures Inv(w, s.(poller := p))
  {
    CoveredMonotone(w, s, s.(poller := p));
  }

  lemma AbandonInv(w: World, s: State)
    requires Inv(w, s) && s.poller.Scanning?
    ensures Inv(w, Abandon(s))
  {
    ReplacePoller(w, s, Idle(s.poller.next, s.poller.kamis));
  }

  // Adding rows to the tables keeps the invariant if the new rows keep its row part.
  lemma GrowDb(w: World, s: State, txs: map<string, RawTx>, actions: map<string, Action>)
    requires Inv(w, s)
    requires s.db.rawTx.Keys <= txs.Keys && TxsFaithful(w, s.exact, txs)
    requires s.db.kamiAction.Keys <= actions.Keys && ActionsFaithful(w, s.exact, actions)
    requires NoOrphans(s.(db := Db(txs, actions, s.db.cursor)))
    ensures Inv(w, s.(db := Db(txs, actions, s.db.cursor)))
  {
    CoveredMonotone(w, s, s.(db := Db(txs, actions, s.db.cursor)));
  }

  lemma WriteTxsInv(w: World, s: State, budget: nat)
    requires ValidWorld(w) && Inv(w, s) && s.poller.Scanning? && s.poller.pc.WritingTxs?
    ensures Inv(w, WriteTxsStep(s, budget))
  {
    var p, b := s.poller, s.poller.pc.b;
    var txs := InsertOrIgnore(s.db.rawTx, KeyedTxs(Written(b.txs, budget)));
    InsertTxs(w, s.exact, s.db.rawTx, p.at, b.txs, budget);
    TxsWritten(w, s, txs, |b.txs| <= budget);
  }

  lemma TxsWritten(w: World, s: State, txs: map<string, RawTx>, all: bool)
    requires ValidWorld(w) && Inv(w, s) && s.poller.Scanning? && s.poller.pc.WritingTxs?
    requires forall h | h in s.db.rawTx :: h in txs
    requires TxsFaithful(w, s.exact, txs)
    requires all ==> forall i | 0 <= i < |CleanBatch(w, s.poller.at).txs| :: CleanBatch(w, s.poller.at).txs[i].txHash in txs
    ensures var grown := s.(db := s.db.(rawTx := txs));
            Inv(w, if all then grown.(poller := s.poller.(pc := WritingActions(s.poller.pc.b))) else Abandon(grown))
  {
    var grown := s.(db := s.db.(rawTx := txs));
    GrowDb(w, s, txs, s.db.kamiAction);
    if all {
      assert TxsStored(w, grown, s.poller.at);
      ReplacePoller(w, grown, s.poller.(pc := WritingActions(s.poller.pc.b)));
    } else {
      AbandonInv(w, grown);
    }
  }

  lemma WriteActionsInv(w: World, s: State, budget: nat)
    requires ValidWorld(w) && Inv(w, s) && s.poller.Scanning? && s.poller.pc.WritingActions?
    ensures Inv(w, WriteActionsStep(s, budget))
  {
    var p, b := s.poller, s.poller.pc.b;
    var actions := InsertOrIgnore(s.db.kamiAction, KeyedActions(Written(b.actions, budget)));
    InsertActions(w, s.exact, s.db.kamiAction, p.at, b.actions, budget);
    ActionsWritten(w, s, actions, |b.actions| <= budget);
  }

  lemma ActionsWritten(w: World, s: State, actions: map<string, Action>, all: bool)
    requires ValidWorld(w) && Inv(w, s) && s.poller.Scanning? && s.poller.pc.WritingActions?
    requires forall id | id in s.db.kamiAction :: id in actions && actions[id] == s.db.kamiAction[id]
    requires ActionsFaithful(w, s.exact, actions)
    requires forall id | id in actions && id !in s.db.kamiAction ::
               && actions[id].blockTimestamp == w.chain(s.poller.at).timestamp
               && HasTx(CleanBatch(w, s.poller.at).txs, actions[id].txHash)
    requires all ==> forall i | 0 <= i < |CleanBatch(w, s.poller.at).actions| ::
               CleanBatch(w, s.poller.at).actions[i].Id() in actions
    ensures var grown := s.(db := s.db.(kamiAction := actions));
            Inv(w, if all then grown.(poller := s.poller.(pc := WritingCursor)) else Abandon(grown))
  {
    var grown := s.(db := s.db.(kamiAction := actions));
    assert TxsStored(w, s, s.poller.at);
    assert NoOrphans(grown);
    GrowDb(w, s, s.db.rawTx, actions);
    if all {
      assert ActionsStored(w, grown, s.poller.at);
      ReplacePoller(w, grown, s.poller.(pc := WritingCursor));
    } else {
      AbandonInv(w, grown);
    }
  }

  lemma WriteCursorInv(w: World, s: State, fails: bool)
    requires ValidWorld(w) && Inv(w, s) && s.poller.Scanning? && s.poller.pc.WritingCursor?
    ensures Inv(w, WriteCursorStep(s, fails))
  {
    CoveredMonotone(w, s, WriteCursorStep(s, fails));
  }

  lemma PruneKeepsBlock(w: World, s: State, c: int, n: nat)
    requires ValidWorld(w) && Inv(w, s)
    ensures var s' := s.(db := Prune(s.db, c), cutoff := Later(s.cutoff, c));
            && (TxsStored(w, s, n) ==> TxsStored(w, s', n))
            && (ActionsStored(w, s, n) ==> ActionsStored(w, s', n))
  {
    var s' := s.(db := Prune(s.db, c), cutoff := Later(s.cutoff, c));
    if w.chain(n).timestamp >= c {
      var clean := CleanBatch(w, n);
      forall i | 0 <= i < |clean.txs| && clean.txs[i].txHash in s.db.rawTx ensures clean.txs[i].txHash in s'.db.rawTx {
        StoredTxTime(w, s, n, i);
      }
      forall i | 0 <= i < |clean.actions| && clean.actions[i].Id() in s.db.kamiAction
        ensures clean.actions[i].Id() in s'.db.kamiAction
      {
        StoredActionTime(w, s, n, i);
      }
    }
  }

  lemma PruneKeepsCoverage(w: World, s: State, c: int)
    requires ValidWorld(w) && Inv(w, s)
    ensures var s' := s.(db := Prune(s.db, c), cutoff := Later(s.cutoff, c));
            && (forall n: nat :: TxsStored(w, s, n) ==> TxsStored(w, s', n))
            && (forall n: nat :: Covered(w, s, n) ==> Covered(w, s', n))
  {
    var s' := s.(db := Prune(s.db, c), cutoff := Later(s.cutoff, c));
    forall n: nat
      ensures TxsStored(w, s, n) ==> TxsStored(w, s', n)
      ensures Covered(w, s, n) ==> Covered(w, s', n)
    {
      PruneKeepsBlock(w, s, c, n);
    }
  }

  lemma PruneKeepsPartners(w: World, s: State, c: int)
    requires ValidWorld(w) && Inv(w, s)
    ensures NoOrphans(s.(db := Prune(s.db, c), cutoff := Later(s.cutoff, c)))
  {
    var s' := s.(db := Prune(s.db, c), cutoff := Later(s.cutoff, c));
    forall id | id in s'.db.kamiAction
      ensures Expired(s'.db.kamiAction[id].blockTimestamp, s'.cutoff) || s'.db.kamiAction[id].txHash in s'.db.rawTx
    {
      if s.db.kamiAction[id].txHash in s.db.rawTx {
        PartnerTime(w, s, id);
      }
    }
  }

  // What the poller and the span rely on survives if every stored block stays stored.
  lemma CoverageSuffices(w: World, s: State, s': State)
    requires SpanCovered(w, s) && PollerOk(w, s)
    requires s'.poller == s.poller && s'.span == s.span && s'.exact == s.exact && s'.db.cursor == s.db.cursor
    requires forall n: nat :: TxsStored(w, s, n) ==> TxsStored(w, s', n)
    requires forall n: nat :: Covered(w, s, n) ==> Covered(w, s', n)
    ensures SpanCovered(w, s') && PollerOk(w, s')
  {
  }

  lemma PruneFaithful(w: World, s: State, c: int)
    requires TxsFaithful(w, s.exact, s.db.rawTx) && ActionsFaithful(w, s.exact, s.db.kamiAction)
    ensures TxsFaithful(w, s.exact, PruneTxs(s.db.rawTx, c)) && ActionsFaithful(w, s.exact, PruneActions(s.db.kamiAction, c))
  {
  }

  lemma PruneInv(w: World, s: State, c: int)
    requires ValidWorld(w) && Inv(w, s)
    ensures Inv(w, s.(db := Prune(s.db, c), cutoff := Later(s.cutoff, c)))
  {
    PruneFaithful(w, s, c);
    PruneKeepsCoverage(w, s, c);
    PruneKeepsPartners(w, s, c);
    CoverageSuffices(w, s, s.(db := Prune(s.db, c), cutoff := Later(s.cutoff, c)));
  }

  lemma StoredPair(w: World, exact: bool, id: string, a: Action)
    requires ValidWorld(w) && IsStoredAction(w, exact, id, a)
    ensures PairOk(w.cfg.hash, a)
  {
    var i: nat :| IsCleanAction(w, exact, a, a.blockNumber, i);
    CleanKeyed(w, a.blockNumber);
    assert CleanActionRow(w, a.blockNumber, |w.chain(a.blockNumber).txs|, CleanBatch(w, a.blockNumber).actions[i]);
  }

  // The pair invariant of the stitched table holds in every state that satisfies Inv.
  lemma StoredPairs(w: World, exact: bool, t: map<string, Action>)
    requires ValidWorld(w) && ActionsFaithful(w, exact, t)
    ensures PairInvariant(w.cfg.hash, t)
  {
    forall id | id in t ensures PairOk(w.cfg.hash, t[id]) {
      StoredPair(w, exact, id, t[id]);
    }
  }

  lemma Weaken(w: World, s: State, exact: bool)
    requires Inv(w, s) && (exact ==> s.exact)
    ensures Inv(w, s.(exact := exact))
  {
    var s' := s.(exact := exact);
    CoveredMonotone(w, s, s');
    forall h | h in s.db.rawTx ensures IsStoredTx(w, exact, h, s.db.rawTx[h]) {
      var r := s.db.rawTx[h];
      var i: nat :| IsCleanTx(w, s.exact, r, r.blockNumber, i);
      assert IsCleanTx(w, exact, r, r.blockNumber, i);
    }
    forall id | id in s.db.kamiAction ensures IsStoredAction(w, exact, id, s.db.kamiAction[id]) {
      var a := s.db.kamiAction[id];
      var i: nat :| IsCleanAction(w, s.exact, a, a.blockNumber, i);
      assert IsCleanAction(w, exact, a, a.blockNumber, i);
    }
  }

  // Stitching with a sound map keeps a batch in agreement with the clean one.
  lemma StitchAgrees(w: World, exact: bool, kamis: Option<KamiMap>, b: Batch, clean: Batch)
    requires MapSound(w, kamis) && BatchAgrees(w.cfg.hash, exact, b, clean)
    ensures BatchAgrees(w.cfg.hash, exact, StitchedBatch(kamis, b), clean)
  {
    if kamis.Some? {
      forall i | 0 <= i < |b.actions|
        ensures ActionAgrees(w.cfg.hash, exact, StitchRow(kamis.value, b.actions[i]), clean.actions[i])
      {
        assert ActionAgrees(w.cfg.hash, exact, b.actions[i], clean.actions[i]);
      }
    }
  }

  lemma FetchInv(w: World, s: State, fetches: seq<Option<Receipt>>)
    requires ValidWorld(w) && Inv(w, s)
    requires s.poller.Scanning? && s.poller.pc.Fetching? && Honest(w.chain(s.poller.at), fetches)
    ensures Inv(w, FetchStep(w, s, fetches))
  {
    var p, b := s.poller, w.chain(s.poller.at);
    var ok := forall i | 0 <= i < |fetches| :: fetches[i].Some?;
    var s' := s.(exact := s.exact && ok);
    Weaken(w, s, s.exact && ok);
    var progress := ScanTxs(w.cfg, p.at, b, fetches, p.receipt, |b.txs|);
    if progress.None? {
      AbandonInv(w, s');
    } else {
      ScanAgrees(w.cfg, p.at, b, fetches, p.receipt, |b.txs|);
      Fetched(w, s', ok, progress.value.batch, progress.value.receipt);
    }
  }

  lemma Fetched(w: World, s: State, ok: bool, batch: Batch, receipt: Option<Receipt>)
    requires ValidWorld(w) && Inv(w, s) && s.poller.Scanning? && s.poller.pc.Fetching? && (s.exact ==> ok)
    requires BatchAgrees(w.cfg.hash, ok, batch, CleanBatch(w, s.poller.at))
    ensures var kamis := ObserveBatch(w.cfg.hash, s.poller.kamis, batch.actions);
            var stitched := StitchedBatch(kamis, batch);
            Inv(w, s.(poller := s.poller.(kamis := kamis, receipt := receipt,
                        pc := if stitched == Batch([], []) then WritingCursor else WritingTxs(stitched))))
  {
    var p, clean := s.poller, CleanBatch(w, s.poller.at);
    var kamis := ObserveBatch(w.cfg.hash, p.kamis, batch.actions);
    if p.kamis.Some? {
      ObserveSound(w.cfg.hash, p.kamis.value, batch.actions);
    }
    assert BatchAgrees(w.cfg.hash, s.exact, batch, clean);
    StitchAgrees(w, s.exact, kamis, batch, clean);
    var stitched := StitchedBatch(kamis, batch);
    var p' := p.(kamis := kamis, receipt := receipt,
                 pc := if stitched == Batch([], []) then WritingCursor else WritingTxs(stitched));
    assert PcOk(w, s.(poller := p'), p.at, p'.pc);
    ReplacePoller(w, s, p');
  }

  lemma StartInv(w: World, s: State, head: nat, kamis: Option<KamiMap>)
    requires ValidWorld(w) && Inv(w, s) && Step(w, s, Start(head, kamis)).Some?
    ensures Inv(w, Step(w, s, Start(head, kamis)).value)
  {
    if kamis.Some? {
      StoredPairs(w, s.exact, s.db.kamiAction);
      BootstrapSound(w.cfg.hash, s.db.kamiAction, kamis.value);
    }
    ReplacePoller(w, s, Idle(NextFrom(s.db.cursor, head), kamis));
  }

  // Events that move only the poller.
  lemma QuietInv(w: World, s: State, e: Event)
    requires ValidWorld(w) && Inv(w, s) && Step(w, s, e).Some?
    requires e.BeginRange? || e.FetchFails? || e.LogUnknown? || e.Resume? || e.Crash?
    ensures Inv(w, Step(w, s, e).value)
  {
    ReplacePoller(w, s, Step(w, s, e).value.poller);
  }

  lemma StepInv(w: World, s: State, e: Event)
    requires ValidWorld(w) && Inv(w, s) && Step(w, s, e).Some?
    ensures Inv(w, Step(w, s, e).value)
  {
    match e
    case Start(head, kamis) => StartInv(w, s, head, kamis);
    case Fetch(fetches) => FetchInv(w, s, fetches);
    case WriteTxs(budget) => WriteTxsInv(w, s, budget);
    case WriteActions(budget) => WriteActionsInv(w, s, budget);
    case WriteCursor(fails) => WriteCursorInv(w, s, fails);
    case PruneTo(c) => PruneInv(w, s, c);
    case _ => QuietInv(w, s, e);
  }

  // Every reachable state satisfies the invariant, whatever the interleaving of block
  // writes, failures, retries, restarts and prunes.
  lemma {:induction false} Safety(w: World, es: seq<Event>)
    requires ValidWorld(w) && Exec(w, INIT, es).Some?
    ensures Inv(w, Exec(w, INIT, es).value)
  {
    if es != [] {
      Safety(w, es[..|es| - 1]);
      StepInv(w, Exec(w, INIT, es[..|es| - 1]).value, es[|es| - 1]);
    }
  }
}
