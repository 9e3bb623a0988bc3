/** The service's own loops over the store (process_block_range in ingester/ingest.py,
    _poller_loop and _prune_loop in ingester/serve.py), shown to do nothing but steps of the
    state machine. Everything the environment decides is an argument: receipts, faults, the
    chain head, and the sweeps of the prune thread that fall between two storage calls. */
module Service {
  import opened Wrappers
  import opened Records
  import opened Storage
  import opened HarvestResolver
  import opened Ingest
  import opened Pipeline

  const MAX_CATCHUP: nat := 50

  // One call of prune_older_than by the prune thread.
  datatype Sweep = Sweep(cutoff: int, fault: PruneFault)

  // Fetching and decoding a block raises, or its receipt fetches come back like this.
  datatype FetchOutcome = Raises | Fetched(fetches: seq<Option<Receipt>>)

  datatype BlockFaults = BlockFaults(
    fetch: FetchOutcome, txBudget: nat, actionBudget: nat, cursorFails: bool,
    beforeTxs: seq<Sweep>, beforeActions: seq<Sweep>, beforeCursor: seq<Sweep>)

  ghost predicate Admissible(w: World, n: nat, f: BlockFaults) {
    f.fetch.Fetched? ==> Honest(w.chain(n), f.fetch.fetches)
  }

  // `s` describes the running service: its store, and its poller's variables.
  ghost predicate Describes(s: State, store: Store)
    reads store
  {
    s.db == store.Contents()
  }

  // ---------- Runs ----------

  lemma ExecSnoc(w: World, s: State, es: seq<Event>, e: Event)
    ensures Exec(w, s, es + [e]) ==
            if Exec(w, s, es).None? then None else Step(w, Exec(w, s, es).value, e)
  {
    assert (es + [e])[..|es|] == es;
  }

  lemma {:induction false} ExecAppend(w: World, s: State, es: seq<Event>, fs: seq<Event>)
    requires Exec(w, s, es).Some?
    ensures Exec(w, s, es + fs) == Exec(w, Exec(w, s, es).value, fs)
  {
    if fs == [] {
      assert es + fs == es;
    } else {
      var init, last := fs[..|fs| - 1], fs[|fs| - 1];
      ExecAppend(w, s, es, init);
      assert es + fs == (es + init) + [last];
      ExecSnoc(w, s, es + init, last);
    }
  }

  lemma ExecTwo(w: World, s: State, es: seq<Event>, s1: State, fs: seq<Event>, s2: State)
    requires Exec(w, s, es) == Some(s1) && Exec(w, s1, fs) == Some(s2)
    ensures Exec(w, s, es + fs) == Some(s2)
  {
    ExecAppend(w, s, es, fs);
  }

  lemma ExecOne(w: World, s: State, e: Event)
    ensures Exec(w, s, [e]) == Step(w, s, e)
  {
    ExecSnoc(w, s, [], e);
    assert [] + [e] == [e];
  }

  // ---------- What the faults decide ----------

  // The committed prunes of some sweeps; a failed one leaves no trace.
  function PruneEvents(sweeps: seq<Sweep>): seq<Event> {
    if sweeps == [] then []
    else
      var last := sweeps[|sweeps| - 1];
      PruneEvents(sweeps[..|sweeps| - 1]) + if last.fault.NoFault? then [PruneTo(last.cutoff)] else []
  }

  function FetchEvent(fetch: FetchOutcome): Event {
    match fetch
    case Raises => FetchFails
    case Fetched(fetches) => Fetch(fetches)
  }

  function TxsEvents(f: BlockFaults): seq<Event> {
    PruneEvents(f.beforeTxs) + [WriteTxs(f.txBudget)]
  }

  function ActionsEvents(f: BlockFaults): seq<Event> {
    PruneEvents(f.beforeActions) + [WriteActions(f.actionBudget)]
  }

  function CursorEvents(f: BlockFaults): seq<Event> {
    PruneEvents(f.beforeCursor) + [WriteCursor(f.cursorFails)]
  }

  // The writes of a batch, up to the first that fails.
  function WriteEvents(b: Batch, f: BlockFaults): seq<Event> {
    if b == Batch([], []) then CursorEvents(f)
    else if f.txBudget < |b.txs| then TxsEvents(f)
    else if f.actionBudget < |b.actions| then TxsEvents(f) + ActionsEvents(f)
    else TxsEvents(f) + ActionsEvents(f) + CursorEvents(f)
  }

  // Every row fits and the cursor is committed.
  predicate WritesOk(b: Batch, f: BlockFaults) {
    && (b == Batch([], []) || (|b.txs| <= f.txBudget && |b.actions| <= f.actionBudget))
    && !f.cursorFails
  }

  // What scanning block n comes to, None where it raises.
  function Scanned(w: World, n: nat, fetch: FetchOutcome, receipt: Option<Receipt>): Option<Progress> {
    if fetch.Raises? || |fetch.fetches| != |w.chain(n).txs| then None
    else ScanTxs(w.cfg, n, w.chain(n), fetch.fetches, receipt, |w.chain(n).txs|)
  }

  // Block n is fetched, decoded, written and committed.
  predicate BlockOk(w: World, n: nat, f: BlockFaults, receipt: Option<Receipt>) {
    var p := Scanned(w, n, f.fetch, receipt);
    p.Some? && WritesOk(p.value.batch, f)
  }

  // What happens to block n, given the last MUSU receipt so far: the one after it, or None.
  type Blocks = (nat, Option<Receipt>) -> Option<Option<Receipt>>

  function BlocksOf(w: World, faults: nat -> BlockFaults): Blocks {
    (n: nat, receipt: Option<Receipt>) =>
      if BlockOk(w, n, faults(n), receipt) then Some(Scanned(w, n, faults(n).fetch, receipt).value.receipt) else None
  }

  // The first block of a range that fails, end + 1 if none does.
  function FirstNone(blocks: Blocks, n: nat, end: nat, receipt: Option<Receipt>): (k: nat)
    requires n <= end + 1
    ensures n <= k <= end + 1
    decreases end + 1 - n
  {
    if n > end || blocks(n, receipt).None? then n else FirstNone(blocks, n + 1, end, blocks(n, receipt).value)
  }

  function FirstFailure(w: World, n: nat, end: nat, faults: nat -> BlockFaults, receipt: Option<Receipt>): (k: nat)
    requires n <= end + 1
    ensures n <= k <= end + 1
  {
    FirstNone(BlocksOf(w, faults), n, end, receipt)
  }

  // next_block, and the cursor row.
  datatype Position = Position(next: nat, cursor: Option<nat>)

  function Min(a: nat, b: nat): nat {
    if a <= b then a else b
  }

  function RangeEnd(next: nat, head: nat): (end: nat)
    requires next <= head
    ensures next <= end <= head && end < next + MAX_CATCHUP
  {
    Min(head, next + MAX_CATCHUP - 1)
  }

  // Where a call of process_block_range leaves the cursor, and whether it returns.
  function RangeCursor(w: World, start: nat, end: nat, faults: nat -> BlockFaults, cursor: Option<nat>): Option<nat>
    requires start <= end
  {
    var k := FirstFailure(w, start, end, faults, None);
    if k == start then cursor else Some(k - 1)
  }

  predicate RangeOk(w: World, start: nat, end: nat, faults: nat -> BlockFaults, logFails: bool)
    requires start <= end
  {
    FirstFailure(w, start, end, faults, None) > end && !logFails
  }

  // What one turn of the poller loop meets: block_number fails; something outside the two
  // inner handlers raises; or the chain head is `head`, and the range meets these faults.
  datatype Turn =
    | HeadFails
    | Escapes
    | HeadAt(head: nat, faults: nat -> BlockFaults, logFails: bool)

  // One turn: next_block stays on failure, moves past the range on success, and catches up
  // with the cursor after an escape.
  function AfterTurn(w: World, turn: Turn, p: Position): Position {
    match turn
    case HeadFails => p
    case Escapes => p.(next := if p.cursor.Some? && p.cursor.value + 1 > p.next then p.cursor.value + 1 else p.next)
    case HeadAt(head, faults, logFails) =>
      if p.next > head then p
      else
        var end := RangeEnd(p.next, head);
        Position(if RangeOk(w, p.next, end, faults, logFails) then end + 1 else p.next,
                 RangeCursor(w, p.next, end, faults, p.cursor))
  }

  function AfterTurns(w: World, turns: seq<Turn>, p: Position): Position {
    if turns == [] then p else AfterTurn(w, turns[|turns| - 1], AfterTurns(w, turns[..|turns| - 1], p))
  }

  // How many cursors a run commits.
  function Commits(es: seq<Event>): nat {
    if es == [] then 0 else Commits(es[..|es| - 1]) + if es[|es| - 1] == WriteCursor(false) then 1 else 0
  }

  lemma {:induction false} CommitsAppend(es: seq<Event>, fs: seq<Event>)
    ensures Commits(es + fs) == Commits(es) + Commits(fs)
  {
    if fs == [] {
      assert es + fs == es;
    } else {
      CommitsAppend(es, fs[..|fs| - 1]);
      assert (es + fs)[..|es + fs| - 1] == es + fs[..|fs| - 1];
    }
  }

  lemma {:induction false} PrunesCommitNothing(sweeps: seq<Sweep>)
    ensures Commits(PruneEvents(sweeps)) == 0
  {
    if sweeps != [] {
      var last := sweeps[|sweeps| - 1];
      PrunesCommitNothing(sweeps[..|sweeps| - 1]);
      CommitsAppend(PruneEvents(sweeps[..|sweeps| - 1]), if last.fault.NoFault? then [PruneTo(last.cutoff)] else []);
      assert Commits([PruneTo(last.cutoff)]) == 0;
    }
  }

  // A failure-free write of a block commits once; any other not at all.
  lemma WritesCommit(b: Batch, f: BlockFaults)
    ensures Commits(WriteEvents(b, f)) == if WritesOk(b, f) then 1 else 0
  {
    PrunesCommitNothing(f.beforeTxs);
    PrunesCommitNothing(f.beforeActions);
    PrunesCommitNothing(f.beforeCursor);
    OneMore(PruneEvents(f.beforeTxs), WriteTxs(f.txBudget));
    OneMore(PruneEvents(f.beforeActions), WriteActions(f.actionBudget));
    OneMore(PruneEvents(f.beforeCursor), WriteCursor(f.cursorFails));
    CommitsAppend(TxsEvents(f), ActionsEvents(f));
    CommitsAppend(TxsEvents(f) + ActionsEvents(f), CursorEvents(f));
  }

  lemma OneMore(es: seq<Event>, e: Event)
    ensures Commits(es + [e]) == Commits(es) + if e == WriteCursor(false) then 1 else 0
  {
    assert (es + [e])[..|es|] == es;
  }

  // ---------- The prune thread ----------

  // Some sweeps of the prune thread; a failed one is logged and leaves no trace.
  method PruneSweeps(w: World, store: Store, sweeps: seq<Sweep>, ghost s: State) returns (ghost es: seq<Event>, ghost s': State)
    requires Describes(s, store)
    modifies store
    ensures es == PruneEvents(sweeps)
    ensures Exec(w, s, es) == Some(s') && Describes(s', store)
    ensures s'.poller == s.poller && s'.db.cursor == s.db.cursor
  {
    es, s' := [], s;
    for i := 0 to |sweeps|
      invariant es == PruneEvents(sweeps[..i])
      invariant Exec(w, s, es) == Some(s') && Describes(s', store)
      invariant s'.poller == s.poller && s'.db.cursor == s.db.cursor
    {
      assert sweeps[..i + 1][..i] == sweeps[..i];
      var r := store.PruneOlderThan(sweeps[i].cutoff, sweeps[i].fault);
      if r.Ok? {
        ExecSnoc(w, s, es, PruneTo(sweeps[i].cutoff));
        es, s' := es + [PruneTo(sweeps[i].cutoff)], Step(w, s', PruneTo(sweeps[i].cutoff)).value;
      }
    }
    assert sweeps[..|sweeps|] == sweeps;
  }

  // ---------- One block ----------

  // Fetch, decode, observe, stitch.
  method FetchBlock(w: World, n: nat, fetch: FetchOutcome, resolver: Resolver, receipt: Option<Receipt>, ghost s: State)
    returns (r: Option<Batch>, receipt': Option<Receipt>)
    requires s.poller.Scanning? && s.poller.pc.Fetching? && s.poller.at == n
    requires s.poller.kamis == Some(resolver.kamis) && s.poller.receipt == receipt
    requires resolver.hash == w.cfg.hash
    requires fetch.Fetched? ==> Honest(w.chain(n), fetch.fetches)
    modifies resolver
    ensures Step(w, s, FetchEvent(fetch)).Some?
    ensures var s', p' := Step(w, s, FetchEvent(fetch)).value, s.poller.(kamis := Some(resolver.kamis), receipt := receipt');
            && s'.db == s.db
            && s'.poller ==
               if r.None? then Idle(s.poller.next, Some(resolver.kamis))
               else if r.value == Batch([], []) then p'.(pc := WritingCursor)
               else p'.(pc := WritingTxs(r.value))
    ensures var p := Scanned(w, n, fetch, receipt);
            && (r.Some? <==> p.Some?)
            && (r.Some? ==> && receipt' == p.value.receipt && r.value.txs == p.value.batch.txs
                            && |r.value.actions| == |p.value.batch.actions|)
  {
    receipt' := receipt;
    if fetch.Raises? {
      return None, receipt;
    }
    var progress, stats := CollectRows(w.cfg, n, w.chain(n), fetch.fetches, receipt);
    if progress.None? {
      return None, receipt;
    }
    receipt' := progress.value.receipt;
    var batch := progress.value.batch;
    var actions := new Action[|batch.actions|](i requires 0 <= i < |batch.actions| => batch.actions[i]);
    assert actions[..] == batch.actions;
    if actions.Length > 0 {
      resolver.ObserveActions(actions);
      var stitched := resolver.StitchBatch(actions);
    }
    r := Some(Batch(batch.txs, actions[..]));
    assert ObserveBatch(w.cfg.hash, s.poller.kamis, batch.actions) == Some(resolver.kamis);
    assert StitchedBatch(Some(resolver.kamis), batch) == r.value;
  }

  // The machine's write steps, given the table they lead to.
  lemma TxsWrittenTo(w: World, t: State, batch: Batch, budget: nat, rawTx: map<string, RawTx>) returns (s': State)
    requires t.poller.Scanning? && t.poller.pc == WritingTxs(batch)
    requires rawTx == InsertOrIgnore(t.db.rawTx, KeyedTxs(Written(batch.txs, budget)))
    ensures Step(w, t, WriteTxs(budget)) == Some(s') && s'.db == t.db.(rawTx := rawTx)
    ensures s'.poller == if |batch.txs| <= budget then t.poller.(pc := WritingActions(batch)) else Idle(t.poller.next, t.poller.kamis)
  {
    s' := WriteTxsStep(t, budget);
  }

  lemma ActionsWrittenTo(w: World, t: State, batch: Batch, budget: nat, kamiAction: map<string, Action>) returns (s': State)
    requires t.poller.Scanning? && t.poller.pc == WritingActions(batch)
    requires kamiAction == InsertOrIgnore(t.db.kamiAction, KeyedActions(Written(batch.actions, budget)))
    ensures Step(w, t, WriteActions(budget)) == Some(s') && s'.db == t.db.(kamiAction := kamiAction)
    ensures s'.poller == if |batch.actions| <= budget then t.poller.(pc := WritingCursor) else Idle(t.poller.next, t.poller.kamis)
  {
    s' := WriteActionsStep(t, budget);
  }

  // upsert_raw_txs, after whatever sweeps come first.
  method WriteTxsCall(w: World, batch: Batch, f: BlockFaults, store: Store, ghost s: State)
    returns (ok: bool, ghost s': State)
    requires Describes(s, store) && s.poller.Scanning? && s.poller.pc == WritingTxs(batch)
    modifies store
    ensures ok <==> |batch.txs| <= f.txBudget
    ensures Exec(w, s, TxsEvents(f)) == Some(s') && Describes(s', store) && s'.db.cursor == s.db.cursor
    ensures s'.poller == if ok then s.poller.(pc := WritingActions(batch)) else Idle(s.poller.next, s.poller.kamis)
  {
    hide Step;
    ghost var es, t := PruneSweeps(w, store, f.beforeTxs, s);
    ok := store.UpsertRawTxs(batch.txs, f.txBudget);
    s' := TxsWrittenTo(w, t, batch, f.txBudget, store.rawTx);
    ExecSnoc(w, s, es, WriteTxs(f.txBudget));
  }

  // upsert_actions, likewise.
  method WriteActionsCall(w: World, batch: Batch, f: BlockFaults, store: Store, ghost s: State)
    returns (ok: bool, ghost s': State)
    requires Describes(s, store) && s.poller.Scanning? && s.poller.pc == WritingActions(batch)
    modifies store
    ensures ok <==> |batch.actions| <= f.actionBudget
    ensures Exec(w, s, ActionsEvents(f)) == Some(s') && Describes(s', store) && s'.db.cursor == s.db.cursor
    ensures s'.poller == if ok then s.poller.(pc := WritingCursor) else Idle(s.poller.next, s.poller.kamis)
  {
    hide Step;
    ghost var es, t := PruneSweeps(w, store, f.beforeActions, s);
    ok := store.UpsertActions(batch.actions, f.actionBudget);
    s' := ActionsWrittenTo(w, t, batch, f.actionBudget, store.kamiAction);
    ExecSnoc(w, s, es, WriteActions(f.actionBudget));
  }

  // The poller after the last write of block n.
  function Committed(p: Poller, n: nat): Poller
    requires p.Scanning?
  {
    if n >= p.end then p.(pc := Logging) else p.(at := n + 1, pc := Fetching)
  }

  // set_cursor, likewise.
  method WriteCursorCall(w: World, n: nat, f: BlockFaults, store: Store, ghost s: State)
    returns (ok: bool, ghost s': State)
    requires Describes(s, store) && s.poller.Scanning? && s.poller.at == n && s.poller.pc.WritingCursor?
    modifies store
    ensures ok <==> !f.cursorFails
    ensures Exec(w, s, CursorEvents(f)) == Some(s') && Describes(s', store)
    ensures s'.db.cursor == if ok then Some(n) else s.db.cursor
    ensures s'.poller == if ok then Committed(s.poller, n) else Idle(s.poller.next, s.poller.kamis)
  {
    ghost var es, t := PruneSweeps(w, store, f.beforeCursor, s);
    ok := store.SetCursor(n, f.cursorFails);
    s' := WriteCursorStep(t, f.cursorFails);
    ExecSnoc(w, s, es, WriteCursor(f.cursorFails));
  }

  // The first two storage calls, for a batch that is not empty.
  method WriteRows(w: World, batch: Batch, f: BlockFaults, store: Store, ghost s: State)
    returns (ok: bool, ghost s': State)
    requires Describes(s, store) && s.poller.Scanning? && s.poller.pc == WritingTxs(batch)
    modifies store
    ensures ok <==> |batch.txs| <= f.txBudget && |batch.actions| <= f.actionBudget
    ensures var es := if f.txBudget < |batch.txs| then TxsEvents(f) else TxsEvents(f) + ActionsEvents(f);
            Exec(w, s, es) == Some(s')
    ensures Describes(s', store) && s'.db.cursor == s.db.cursor
    ensures s'.poller == if ok then s.poller.(pc := WritingCursor) else Idle(s.poller.next, s.poller.kamis)
  {
    ok, s' := WriteTxsCall(w, batch, f, store, s);
    if ok {
      ghost var t := s';
      ok, s' := WriteActionsCall(w, batch, f, store, t);
      ExecTwo(w, s, TxsEvents(f), t, ActionsEvents(f), s');
    }
  }

  // The three storage calls of a block.
  method WriteBlock(w: World, n: nat, batch: Batch, f: BlockFaults, store: Store, ghost s: State)
    returns (ok: bool, ghost s': State)
    requires Describes(s, store) && s.poller.Scanning? && s.poller.at == n
    requires s.poller.pc == if batch == Batch([], []) then WritingCursor else WritingTxs(batch)
    modifies store
    ensures ok <==> WritesOk(batch, f)
    ensures Exec(w, s, WriteEvents(batch, f)) == Some(s') && Describes(s', store)
    ensures s'.db.cursor == if ok then Some(n) else s.db.cursor
    ensures s'.poller == if ok then Committed(s.poller, n) else Idle(s.poller.next, s.poller.kamis)
  {
    if batch.txs != [] || batch.actions != [] {
      ok, s' := WriteRows(w, batch, f, store, s);
      if !ok {
        return;
      }
      ghost var t := s';
      ok, s' := WriteCursorCall(w, n, f, store, t);
      ExecTwo(w, s, TxsEvents(f) + ActionsEvents(f), t, CursorEvents(f), s');
    } else {
      ok, s' := WriteCursorCall(w, n, f, store, s);
    }
  }

  // One block of the range.
  method ProcessBlock(w: World, n: nat, f: BlockFaults, store: Store, resolver: Resolver, receipt: Option<Receipt>, ghost s: State)
    returns (ok: bool, receipt': Option<Receipt>, ghost es: seq<Event>, ghost s': State)
    requires Describes(s, store) && s.poller.Scanning? && s.poller.pc.Fetching? && s.poller.at == n
    requires s.poller.kamis == Some(resolver.kamis) && s.poller.receipt == receipt
    requires resolver.hash == w.cfg.hash && Admissible(w, n, f)
    modifies store, resolver
    ensures ok <==> BlockOk(w, n, f, receipt)
    ensures Exec(w, s, es) == Some(s') && Describes(s', store) && Commits(es) == if ok then 1 else 0
    ensures s'.db.cursor == if ok then Some(n) else s.db.cursor
    ensures ok ==> receipt' == Scanned(w, n, f.fetch, receipt).value.receipt
    ensures s'.poller == if ok then Committed(s.poller.(kamis := Some(resolver.kamis), receipt := receipt'), n)
                         else Idle(s.poller.next, Some(resolver.kamis))
  {
    var batch;
    batch, receipt' := FetchBlock(w, n, f.fetch, resolver, receipt, s);
    es, s' := [FetchEvent(f.fetch)], Step(w, s, FetchEvent(f.fetch)).value;
    ExecOne(w, s, FetchEvent(f.fetch));
    assert es[..0] == [] && Commits(es) == 0;
    if batch.None? {
      return false, receipt', es, s';
    }
    ghost var t := s';
    ok, s' := WriteBlock(w, n, batch.value, f, store, t);
    ExecTwo(w, s, es, t, WriteEvents(batch.value, f), s');
    WritesCommit(batch.value, f);
    CommitsAppend(es, WriteEvents(batch.value, f));
    es := es + WriteEvents(batch.value, f);
  }

  // ---------- A range of blocks ----------

  // The invariant of the block loop, about to process block n.
  ghost predicate RangeAt(w: World, s: State, start: nat, end: nat, blocks: Blocks, k: nat, n: nat,
                          kamis: KamiMap, receipt: Option<Receipt>, es: seq<Event>, s': State)
  {
    && start <= n <= end + 1 && FirstNone(blocks, n, end, receipt) == k
    && Exec(w, s, es) == Some(s') && Commits(es) == n - start
    && s'.db.cursor == (if n == start then s.db.cursor else Some(n - 1))
    && s'.poller == Scanning(start, end, Min(n, end), Some(kamis), receipt, if n > end then Logging else Fetching)
  }

  lemma RangeStep(w: World, s: State, start: nat, end: nat, blocks: Blocks, k: nat, n: nat,
                  kamis: KamiMap, receipt: Option<Receipt>, es: seq<Event>, t: State,
                  kamis': KamiMap, receipt': Option<Receipt>, fs: seq<Event>, s': State)
    requires RangeAt(w, s, start, end, blocks, k, n, kamis, receipt, es, t) && n <= end
    requires blocks(n, receipt) == Some(receipt')
    requires Exec(w, t, fs) == Some(s') && Commits(fs) == 1 && s'.db.cursor == Some(n)
    requires s'.poller == Committed(t.poller.(kamis := Some(kamis'), receipt := receipt'), n)
    ensures RangeAt(w, s, start, end, blocks, k, n + 1, kamis', receipt', es + fs, s')
  {
    hide Step;
    ExecTwo(w, s, es, t, fs, s');
    CommitsAppend(es, fs);
  }

  lemma RangeBegins(w: World, s: State, start: nat, end: nat, blocks: Blocks, kamis: KamiMap)
    returns (es: seq<Event>, s': State)
    requires s.poller == Idle(start, Some(kamis)) && start <= end
    ensures RangeAt(w, s, start, end, blocks, FirstNone(blocks, start, end, None), start, kamis, None, es, s')
    ensures s'.db == s.db
  {
    es, s' := [BeginRange(end)], Step(w, s, BeginRange(end)).value;
    ExecOne(w, s, BeginRange(end));
    OneMore([], BeginRange(end));
    assert [] + es == es;
  }

  // What a call of process_block_range has done when it is over.
  ghost predicate RangeDone(w: World, s: State, start: nat, end: nat, k: nat, kamis: KamiMap, ok: bool, es: seq<Event>, s': State) {
    && start <= k && Exec(w, s, es) == Some(s') && Commits(es) == k - start
    && s'.db.cursor == (if k == start then s.db.cursor else Some(k - 1))
    && s'.poller == Idle(if ok then end + 1 else start, Some(kamis))
  }

  lemma RangeFails(w: World, s: State, start: nat, end: nat, blocks: Blocks, k: nat, n: nat,
                   kamis: KamiMap, receipt: Option<Receipt>, es: seq<Event>, t: State,
                   kamis': KamiMap, fs: seq<Event>, s': State)
    requires RangeAt(w, s, start, end, blocks, k, n, kamis, receipt, es, t) && n <= end
    requires blocks(n, receipt).None?
    requires Exec(w, t, fs) == Some(s') && Commits(fs) == 0 && s'.db.cursor == t.db.cursor
    requires s'.poller == Idle(start, Some(kamis'))
    ensures k == n && RangeDone(w, s, start, end, k, kamis', false, es + fs, s')
  {
    hide Step;
    ExecTwo(w, s, es, t, fs, s');
    CommitsAppend(es, fs);
  }

  lemma RangeEnds(w: World, s: State, start: nat, end: nat, blocks: Blocks, k: nat,
                  kamis: KamiMap, receipt: Option<Receipt>, es: seq<Event>, t: State, logFails: bool)
    returns (es': seq<Event>, s': State)
    requires RangeAt(w, s, start, end, blocks, k, end + 1, kamis, receipt, es, t)
    ensures k == end + 1 && RangeDone(w, s, start, end, k, kamis, !logFails, es', s') && s'.db == t.db
  {
    ExecSnoc(w, s, es, LogUnknown(logFails));
    OneMore(es, LogUnknown(logFails));
    es', s' := es + [LogUnknown(logFails)], Step(w, t, LogUnknown(logFails)).value;
  }

  // One turn of the block loop.
  method RangeBlock(w: World, start: nat, end: nat, faults: nat -> BlockFaults, n: nat, receipt: Option<Receipt>,
                    store: Store, resolver: Resolver, ghost blocks: Blocks, ghost s: State, ghost es0: seq<Event>,
                    ghost s0: State, ghost k: nat)
    returns (ok: bool, receipt': Option<Receipt>, ghost es: seq<Event>, ghost s': State)
    requires Describes(s0, store) && resolver.hash == w.cfg.hash && n <= end && Admissible(w, n, faults(n))
    requires blocks == BlocksOf(w, faults)
    requires RangeAt(w, s, start, end, blocks, k, n, resolver.kamis, receipt, es0, s0)
    modifies store, resolver
    ensures Describes(s', store)
    ensures ok ==> RangeAt(w, s, start, end, blocks, k, n + 1, resolver.kamis, receipt', es, s')
    ensures !ok ==> k <= end && RangeDone(w, s, start, end, k, resolver.kamis, false, es, s')
  {
    ghost var kamis, fs := resolver.kamis, [];
    ok, receipt', fs, s' := ProcessBlock(w, n, faults(n), store, resolver, receipt, s0);
    es := es0 + fs;
    if ok {
      RangeStep(w, s, start, end, blocks, k, n, kamis, receipt, es0, s0, resolver.kamis, receipt', fs, s');
    } else {
      RangeFails(w, s, start, end, blocks, k, n, kamis, receipt, es0, s0, resolver.kamis, fs, s');
    }
  }

  // The block loop, up to the first failure.
  method ProcessBlocks(w: World, start: nat, end: nat, faults: nat -> BlockFaults, store: Store, resolver: Resolver,
                       ghost blocks: Blocks, ghost s: State, ghost es0: seq<Event>, ghost s0: State, ghost k: nat)
    returns (ok: bool, ghost receipt': Option<Receipt>, ghost es: seq<Event>, ghost s': State)
    requires Describes(s0, store) && resolver.hash == w.cfg.hash && blocks == BlocksOf(w, faults)
    requires start <= end && RangeAt(w, s, start, end, blocks, k, start, resolver.kamis, None, es0, s0)
    requires forall n: nat :: Admissible(w, n, faults(n))
    modifies store, resolver
    ensures Describes(s', store)
    ensures ok ==> RangeAt(w, s, start, end, blocks, k, end + 1, resolver.kamis, receipt', es, s')
    ensures !ok ==> k <= end && RangeDone(w, s, start, end, k, resolver.kamis, false, es, s')
  {
    hide Step, FirstNone, BlocksOf;
    es, s', ok := es0, s0, true;
    var receipt: Option<Receipt> := None;
    var n := start;
    while n <= end
      invariant ok && n <= end + 1 && Describes(s', store)
      invariant RangeAt(w, s, start, end, blocks, k, n, resolver.kamis, receipt, es, s')
    {
      assert Admissible(w, n, faults(n));
      ok, receipt, es, s' := RangeBlock(w, start, end, faults, n, receipt, store, resolver, blocks, s, es, s', k);
      if !ok {
        return ok, receipt, es, s';
      }
      n := n + 1;
    }
    receipt' := receipt;
  }

  // process_block_range: a run of the machine that commits every block before the first
  // failure, one after the other, and nothing else; it returns iff nothing failed.
  method ProcessBlockRange(w: World, start: nat, end: nat, faults: nat -> BlockFaults, logFails: bool,
                           store: Store, resolver: Resolver, ghost s: State)
    returns (ok: bool, ghost es: seq<Event>, ghost s': State)
    requires Describes(s, store) && s.poller == Idle(start, Some(resolver.kamis)) && start <= end
    requires resolver.hash == w.cfg.hash
    requires forall n: nat :: Admissible(w, n, faults(n))
    modifies store, resolver
    ensures Describes(s', store)
    ensures ok <==> RangeOk(w, start, end, faults, logFails)
    ensures RangeDone(w, s, start, end, FirstFailure(w, start, end, faults, None), resolver.kamis, ok, es, s')
  {
    ghost var k := FirstFailure(w, start, end, faults, None);
    ghost var blocks := BlocksOf(w, faults);
    es, s' := RangeBegins(w, s, start, end, blocks, resolver.kamis);
    ghost var receipt;
    ok, receipt, es, s' := ProcessBlocks(w, start, end, faults, store, resolver, blocks, s, es, s', k);
    if !ok {
      return;
    }
    ok := !logFails;
    es, s' := RangeEnds(w, s, start, end, blocks, k, resolver.kamis, receipt, es, s', logFails);
  }

  // ---------- The poller ----------

  ghost predicate AdmissibleTurn(w: World, turn: Turn) {
    turn.HeadAt? ==> forall n: nat :: Admissible(w, n, turn.faults(n))
  }

  // The range of one turn: next_block moves past it on success.
  method TakeRange(w: World, nextBlock: nat, head: nat, faults: nat -> BlockFaults, logFails: bool,
                   store: Store, resolver: Resolver, ghost s: State)
    returns (next: nat, ghost es: seq<Event>, ghost s': State)
    requires Describes(s, store) && s.poller == Idle(nextBlock, Some(resolver.kamis)) && nextBlock <= head
    requires resolver.hash == w.cfg.hash && forall n: nat :: Admissible(w, n, faults(n))
    modifies store, resolver
    ensures Exec(w, s, es) == Some(s') && Describes(s', store)
    ensures s'.poller == Idle(next, Some(resolver.kamis))
    ensures next == if RangeOk(w, nextBlock, RangeEnd(nextBlock, head), faults, logFails)
                    then RangeEnd(nextBlock, head) + 1 else nextBlock
    ensures s'.db.cursor == RangeCursor(w, nextBlock, RangeEnd(nextBlock, head), faults, s.db.cursor)
  {
    var end := RangeEnd(nextBlock, head);
    var ok;
    ok, es, s' := ProcessBlockRange(w, nextBlock, end, faults, logFails, store, resolver, s);
    assert s'.db.cursor == RangeCursor(w, nextBlock, end, faults, s.db.cursor);
    next := if ok then end + 1 else nextBlock;
  }

  // One turn of the loop.
  method TakeTurn(w: World, nextBlock: nat, turn: Turn, store: Store, resolver: Resolver, ghost s: State)
    returns (next: nat, ghost es: seq<Event>, ghost s': State)
    requires Describes(s, store) && s.poller == Idle(nextBlock, Some(resolver.kamis))
    requires resolver.hash == w.cfg.hash && AdmissibleTurn(w, turn)
    modifies store, resolver
    ensures Exec(w, s, es) == Some(s') && Describes(s', store)
    ensures s'.poller == Idle(next, Some(resolver.kamis))
    ensures Position(next, s'.db.cursor) == AfterTurn(w, turn, Position(nextBlock, s.db.cursor))
  {
    next, es, s' := nextBlock, [], s;
    match turn
    case HeadFails =>
    case Escapes =>
      var dbCur := store.GetCursor();
      if dbCur.Some? && dbCur.value + 1 > nextBlock {
        next := dbCur.value + 1;
      }
      ExecOne(w, s, Resume);
      es, s' := [Resume], Step(w, s, Resume).value;
    case HeadAt(head, faults, logFails) =>
      if nextBlock <= head {
        next, es, s' := TakeRange(w, nextBlock, head, faults, logFails, store, resolver, s);
      }
  }

  // A whole process: bootstrap the resolver, read the cursor, poll until told to stop. From
  // any state the service can be in, its run is a run of the machine, so its store ends up
  // in a reachable state; and the turns alone decide where next_block and the cursor end up.
  method PollerLoop(w: World, head0: nat, turns: seq<Turn>, sweeps: nat -> seq<Sweep>, store: Store,
                    ghost before: seq<Event>, ghost s: State)
    returns (ghost es: seq<Event>, ghost s': State)
    requires ValidWorld(w)
    requires Exec(w, INIT, before) == Some(s) && Describes(s, store) && s.poller.Down?
    requires forall i | 0 <= i < |turns| :: AdmissibleTurn(w, turns[i])
    modifies store
    ensures Exec(w, INIT, before + es) == Some(s') && Describes(s', store)
    ensures Inv(w, s') && s'.poller.Idle?
    ensures Position(s'.poller.next, store.cursor)
            == AfterTurns(w, turns, Position(NextFrom(old(store.cursor), head0), old(store.cursor)))
  {
    hide AfterTurn;
    var resolver := new Resolver(w.cfg.hash);
    resolver.BootstrapFromDb(store.kamiAction);
    var cursor := store.GetCursor();
    var nextBlock: nat := if cursor.Some? then cursor.value + 1 else head0;
    ghost var start := Position(nextBlock, cursor);
    ghost var e := Start(head0, Some(resolver.kamis));
    ExecOne(w, s, e);
    es, s' := [e], Step(w, s, e).value;
    for i := 0 to |turns|
      invariant Exec(w, s, es) == Some(s') && Describes(s', store)
      invariant s'.poller == Idle(nextBlock, Some(resolver.kamis)) && resolver.hash == w.cfg.hash
      invariant Position(nextBlock, s'.db.cursor) == AfterTurns(w, turns[..i], start)
    {
      assert turns[..i + 1][..i] == turns[..i];
      ghost var fs, t := PruneSweeps(w, store, sweeps(i), s');
      ExecTwo(w, s, es, s', fs, t);
      es, s' := es + fs, t;
      nextBlock, fs, t := TakeTurn(w, nextBlock, turns[i], store, resolver, s');
      ExecTwo(w, s, es, s', fs, t);
      es, s' := es + fs, t;
    }
    assert turns[..|turns|] == turns;
    ExecTwo(w, INIT, before, s, es, s');
    Safety(w, before + es);
  }

  // ---------- Progress ----------

  // Nothing goes wrong with block n: every receipt arrives, every row fits, the cursor is
  // committed.
  ghost predicate Clean(w: World, n: nat, f: BlockFaults) {
    && f.fetch == Fetched(Receipts(w.chain(n)))
    && |CleanBatch(w, n).txs| <= f.txBudget && |CleanBatch(w, n).actions| <= f.actionBudget
    && !f.cursorFails
  }

  lemma CleanBlockOk(w: World, n: nat, f: BlockFaults, receipt: Option<Receipt>)
    requires Clean(w, n, f)
    ensures BlockOk(w, n, f, receipt)
  {
    var b := w.chain(n);
    ScanSucceeds(w.cfg, n, b, receipt, |b.txs|);
    ScanAgrees(w.cfg, n, b, Receipts(b), receipt, |b.txs|);
  }

  // Without faults no block fails.
  lemma {:induction false} CleanRangeOk(w: World, n: nat, end: nat, faults: nat -> BlockFaults, receipt: Option<Receipt>)
    requires n <= end + 1 && forall m: nat | n <= m <= end :: Clean(w, m, faults(m))
    ensures FirstFailure(w, n, end, faults, receipt) == end + 1
    decreases end + 1 - n
  {
    if n <= end {
      CleanBlockOk(w, n, faults(n), receipt);
      CleanRangeOk(w, n + 1, end, faults, Scanned(w, n, faults(n).fetch, receipt).value.receipt);
    }
  }

  ghost predicate CleanTurn(w: World, turn: Turn, head: nat) {
    turn.HeadAt? && turn.head == head && !turn.logFails && forall n: nat :: Clean(w, n, turn.faults(n))
  }

  // A turn without faults commits up to fifty blocks and moves past them.
  lemma CleanTurnAdvances(w: World, turn: Turn, head: nat, p: Position)
    requires CleanTurn(w, turn, head) && p.next <= head
    ensures var end := Min(head, p.next + 49); AfterTurn(w, turn, p) == Position(end + 1, Some(end))
  {
    var end := RangeEnd(p.next, head);
    CleanRangeOk(w, p.next, end, turn.faults, None);
    RangeAdvances(w, p.next, end, turn.faults, p.cursor);
  }

  lemma RangeAdvances(w: World, start: nat, end: nat, faults: nat -> BlockFaults, cursor: Option<nat>)
    requires start <= end && FirstFailure(w, start, end, faults, None) == end + 1
    ensures RangeOk(w, start, end, faults, false) && RangeCursor(w, start, end, faults, cursor) == Some(end)
  {
  }

  // So k turns without faults catch up with the head, or gain fifty blocks each.
  lemma {:induction false} CatchesUp(w: World, turns: seq<Turn>, head: nat, p: Position)
    requires forall i | 0 <= i < |turns| :: CleanTurn(w, turns[i], head)
    ensures var q := AfterTurns(w, turns, p);
            && (q.next > head || q.next >= p.next + 50 * |turns|)
            && (q.next > p.next ==> q.cursor == Some(q.next - 1))
  {
    if turns != [] {
      var init, last := turns[..|turns| - 1], turns[|turns| - 1];
      CatchesUp(w, init, head, p);
      var q := AfterTurns(w, init, p);
      if q.next <= head {
        CleanTurnAdvances(w, last, head, q);
      }
    }
  }

  // They never run past it.
  lemma {:induction false} StopsAtHead(w: World, turns: seq<Turn>, head: nat, p: Position)
    requires forall i | 0 <= i < |turns| :: CleanTurn(w, turns[i], head)
    requires p.next <= head + 1
    ensures AfterTurns(w, turns, p).next <= head + 1
  {
    if turns != [] {
      StopsAtHead(w, turns[..|turns| - 1], head, p);
    }
  }

  lemma CleanAdmissible(w: World, turn: Turn, head: nat)
    requires CleanTurn(w, turn, head)
    ensures AdmissibleTurn(w, turn)
  {
    forall n: nat ensures Admissible(w, n, turn.faults(n)) {
      assert Clean(w, n, turn.faults(n));
    }
  }

  // The next block never falls behind, whatever happens.
  lemma {:induction false} NeverBack(w: World, turns: seq<Turn>, p: Position)
    ensures AfterTurns(w, turns, p).next >= p.next
  {
    if turns != [] {
      NeverBack(w, turns[..|turns| - 1], p);
    }
  }
}
