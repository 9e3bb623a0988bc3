/** Nothing that can happen is fatal: from every reachable state a restart and one undisturbed
    range bring the database to any block ahead (ingester/serve.py, ingester/ingest.py). */
module Recovery {
  import opened Wrappers
  import opened Records
  import opened Storage
  import opened HarvestResolver
  import opened Ingest
  import opened Pipeline
  import opened Convergence
  import opened Service

  // Ready to fetch block `at` of a range that ends at `end`.
  predicate Ready(s: State, at: nat, end: nat) {
    s.poller.Scanning? && s.poller.pc.Fetching? && s.poller.at == at && s.poller.end == end
  }

  // The same history, apart from the committed cursors.
  predicate SameHistory(s: State, s': State) {
    s'.exact == s.exact && s'.cutoff == s.cutoff
  }

  // A fetch in which every receipt arrives leaves something to write or a cursor to commit.
  lemma CleanFetch(w: World, s: State)
    requires s.poller.Scanning? && s.poller.pc.Fetching?
    ensures var b := w.chain(s.poller.at);
            Honest(b, Receipts(b)) && Step(w, s, Fetch(Receipts(b))).Some?
    ensures var s' := Step(w, s, Fetch(Receipts(w.chain(s.poller.at)))).value;
            && s'.poller.Scanning? && (s'.poller.pc.WritingTxs? || s'.poller.pc.WritingCursor?)
            && s'.poller.at == s.poller.at && s'.poller.end == s.poller.end
            && SameHistory(s, s')
  {
    var b := w.chain(s.poller.at);
    ScanSucceeds(w.cfg, s.poller.at, b, s.poller.receipt, |b.txs|);
    assert forall i | 0 <= i < |Receipts(b)| :: Receipts(b)[i].Some?;
  }

  // A write with room for every row.
  lemma WriteAllTxs(w: World, s: State) returns (e: Event, s': State)
    requires s.poller.Scanning? && s.poller.pc.WritingTxs?
    ensures Step(w, s, e) == Some(s') && SameHistory(s, s')
    ensures s'.poller == s.poller.(pc := WritingActions(s.poller.pc.b))
  {
    e := WriteTxs(|s.poller.pc.b.txs|);
    s' := WriteTxsStep(s, |s.poller.pc.b.txs|);
  }

  lemma WriteAllActions(w: World, s: State) returns (e: Event, s': State)
    requires s.poller.Scanning? && s.poller.pc.WritingActions?
    ensures Step(w, s, e) == Some(s') && SameHistory(s, s')
    ensures s'.poller == s.poller.(pc := WritingCursor)
  {
    e := WriteActions(|s.poller.pc.b.actions|);
    s' := WriteActionsStep(s, |s.poller.pc.b.actions|);
  }

  lemma CleanWrites(w: World, s: State) returns (es: seq<Event>, s': State)
    requires s.poller.Scanning? && s.poller.pc.WritingTxs?
    ensures Exec(w, s, es) == Some(s') && SameHistory(s, s')
    ensures s'.poller == s.poller.(pc := WritingCursor)
  {
    var e, s1 := WriteAllTxs(w, s);
    ExecOne(w, s, e);
    var f, s2 := WriteAllActions(w, s1);
    ExecSnoc(w, s, [e], f);
    es, s' := [e] + [f], s2;
  }

  // Ready to fetch block `at`, or past the last block with only the log line to write.
  predicate Due(s: State, at: nat, end: nat) {
    if at <= end then Ready(s, at, end)
    else s.poller.Scanning? && s.poller.pc.Logging? && s.poller.end == end
  }

  // One undisturbed block.
  lemma CleanBlock(w: World, s: State, at: nat, end: nat) returns (es: seq<Event>, s': State)
    requires Ready(s, at, end) && at <= end
    ensures Exec(w, s, es) == Some(s') && SameHistory(s, s')
    ensures s'.db.cursor == Some(at) && Due(s', at + 1, end)
  {
    var fetch := Fetch(Receipts(w.chain(at)));
    CleanFetch(w, s);
    ExecOne(w, s, fetch);
    es, s' := [fetch], Step(w, s, fetch).value;
    if s'.poller.pc.WritingTxs? {
      var fs, t := CleanWrites(w, s');
      ExecTwo(w, s, es, s', fs, t);
      es, s' := es + fs, t;
    }
    ExecSnoc(w, s, es, WriteCursor(false));
    es, s' := es + [WriteCursor(false)], WriteCursorStep(s', false);
  }

  // The rest of the blocks of an undisturbed range.
  lemma {:induction false} CleanBlocks(w: World, s: State, at: nat, end: nat) returns (es: seq<Event>, s': State)
    requires Ready(s, at, end) && at <= end
    ensures Exec(w, s, es) == Some(s') && SameHistory(s, s')
    ensures s'.db.cursor == Some(end) && Due(s', end + 1, end)
    decreases end - at
  {
    es, s' := CleanBlock(w, s, at, end);
    if at < end {
      var fs, t := CleanBlocks(w, s', at + 1, end);
      ExecTwo(w, s, es, s', fs, t);
      es, s' := es + fs, t;
    }
  }

  lemma CleanRange(w: World, s: State, at: nat, end: nat) returns (es: seq<Event>, s': State)
    requires Ready(s, at, end) && at <= end
    ensures Exec(w, s, es) == Some(s') && SameHistory(s, s')
    ensures s'.db.cursor == Some(end) && s'.poller.Idle? && s'.poller.next == end + 1
  {
    es, s' := CleanBlocks(w, s, at, end);
    ExecSnoc(w, s, es, LogUnknown(false));
    es, s' := es + [LogUnknown(false)], Step(w, s', LogUnknown(false)).value;
  }

  // A fresh process over the database of s: where it starts, whatever the old one was doing.
  lemma Restart(w: World, s: State, head: nat, kamis: Option<KamiMap>) returns (es: seq<Event>, s': State)
    requires kamis.Some? ==> IsBootstrap(w.cfg.hash, s.db.kamiAction, kamis.value)
    ensures Exec(w, s, es) == Some(s')
    ensures s' == s.(poller := Idle(NextFrom(s.db.cursor, head), kamis))
  {
    es, s' := [], s;
    if !s.poller.Down? {
      ExecOne(w, s, Crash);
      es, s' := [Crash], s.(poller := Down);
    }
    ExecSnoc(w, s, es, Start(head, kamis));
    es, s' := es + [Start(head, kamis)], s'.(poller := Idle(NextFrom(s.db.cursor, head), kamis));
  }

  // From every reachable state, whatever failed so far, a restart and one range without
  // faults reach any block ahead of the cursor. Then every block from the first one ever
  // committed through that block is stored, except for what was pruned before.
  lemma Recovers(w: World, es: seq<Event>, head: nat, end: nat, kamis: Option<KamiMap>)
    returns (fs: seq<Event>, s': State)
    requires ValidWorld(w) && Exec(w, INIT, es).Some?
    requires var s := Exec(w, INIT, es).value;
             && NextFrom(s.db.cursor, head) <= end
             && (kamis.Some? ==> IsBootstrap(w.cfg.hash, s.db.kamiAction, kamis.value))
    ensures Exec(w, INIT, es + fs) == Some(s') && SameHistory(Exec(w, INIT, es).value, s')
    ensures s'.db.cursor == Some(end) && s'.span.Some? && s'.span.value.first <= end
    ensures forall n: nat | s'.span.value.first <= n <= end :: FullyStored(w, s', n)
  {
    var s := Exec(w, INIT, es).value;
    fs, s' := Restart(w, s, head, kamis);
    var next := s'.poller.next;
    ExecSnoc(w, s, fs, BeginRange(end));
    fs, s' := fs + [BeginRange(end)], Step(w, s', BeginRange(end)).value;
    var gs, t := CleanRange(w, s', next, end);
    ExecTwo(w, s, fs, s', gs, t);
    fs, s' := fs + gs, t;
    ExecTwo(w, INIT, es, s, fs, s');
    PrefixCoverage(w, es + fs);
  }

  // The loops themselves do it: a process that starts after any history, and meets no more
  // faults, reaches the chain head fifty blocks a turn, and then everything from the first
  // block ever committed through the head is stored, except for what was pruned.
  method PollerRecovers(w: World, head0: nat, head: nat, turns: seq<Turn>, sweeps: nat -> seq<Sweep>, store: Store,
                        ghost before: seq<Event>, ghost s: State)
    returns (ghost es: seq<Event>, ghost s': State)
    requires ValidWorld(w)
    requires Exec(w, INIT, before) == Some(s) && Describes(s, store) && s.poller.Down?
    requires forall i | 0 <= i < |turns| :: CleanTurn(w, turns[i], head)
    requires NextFrom(store.cursor, head0) <= head < NextFrom(store.cursor, head0) + 50 * |turns|
    modifies store
    ensures Exec(w, INIT, before + es) == Some(s') && Describes(s', store)
    ensures store.cursor == Some(head) && s'.poller.Idle? && s'.poller.next == head + 1
    ensures s'.span.Some? && s'.span.value.first <= head
    ensures forall n: nat | s'.span.value.first <= n <= head :: FullyStored(w, s', n)
  {
    hide AfterTurn, Clean, Step, FullyStored;
    ghost var start := Position(NextFrom(store.cursor, head0), store.cursor);
    forall i | 0 <= i < |turns| ensures AdmissibleTurn(w, turns[i]) {
      CleanAdmissible(w, turns[i], head);
    }
    es, s' := PollerLoop(w, head0, turns, sweeps, store, before, s);
    CatchesUp(w, turns, head, start);
    StopsAtHead(w, turns, head, start);
    PrefixCoverage(w, before + es);
  }
}
