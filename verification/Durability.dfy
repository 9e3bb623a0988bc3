/** What the pipeline does to what it has stored: a row stays as it was first written, and the
    cursor may step back. */
module Durability {
  import opened Wrappers
  import opened Records
  import opened Storage
  import opened Ingest
  import opened Pipeline
  import opened Service

  // ---------- Stored rows are frozen ----------

  // Every row of the first table is still there, unchanged, or a prune has reached its time.
  ghost predicate TxsFrozen(t: map<string, RawTx>, t': map<string, RawTx>, cutoff: Option<int>) {
    forall h | h in t :: (h in t' && t'[h] == t[h]) || Expired(t[h].blockTimestamp, cutoff)
  }

  ghost predicate ActionsFrozen(t: map<string, Action>, t': map<string, Action>, cutoff: Option<int>) {
    forall id | id in t :: (id in t' && t'[id] == t[id]) || Expired(t[id].blockTimestamp, cutoff)
  }

  predicate NotBefore(c: Option<int>, c': Option<int>) {
    c.Some? ==> c'.Some? && c.value <= c'.value
  }

  lemma StepFrozen(w: World, s: State, e: Event)
    requires Step(w, s, e).Some?
    ensures var s' := Step(w, s, e).value;
            && NotBefore(s.cutoff, s'.cutoff)
            && TxsFrozen(s.db.rawTx, s'.db.rawTx, s'.cutoff)
            && ActionsFrozen(s.db.kamiAction, s'.db.kamiAction, s'.cutoff)
  {
    if e.PruneTo? {
      PruneFrozen(s, e.cutoff);
    } else {
      StepKeepsRows(w, s, e);
    }
  }

  lemma PruneFrozen(s: State, c: int)
    ensures TxsFrozen(s.db.rawTx, PruneTxs(s.db.rawTx, c), Later(s.cutoff, c))
    ensures ActionsFrozen(s.db.kamiAction, PruneActions(s.db.kamiAction, c), Later(s.cutoff, c))
  {
  }

  lemma StepKeepsRows(w: World, s: State, e: Event)
    requires Step(w, s, e).Some? && !e.PruneTo?
    ensures var s' := Step(w, s, e).value;
            && s'.cutoff == s.cutoff
            && (forall h | h in s.db.rawTx :: h in s'.db.rawTx && s'.db.rawTx[h] == s.db.rawTx[h])
            && (forall id | id in s.db.kamiAction ::
                  id in s'.db.kamiAction && s'.db.kamiAction[id] == s.db.kamiAction[id])
  {
  }

  // No run of events rewrites a stored row: whatever a row said when it was first written,
  // amounts and kami ids included, it says until a prune reaches its time.
  lemma {:induction false} RowsFrozen(w: World, s: State, es: seq<Event>)
    requires Exec(w, s, es).Some?
    ensures var s' := Exec(w, s, es).value;
            && NotBefore(s.cutoff, s'.cutoff)
            && TxsFrozen(s.db.rawTx, s'.db.rawTx, s'.cutoff)
            && ActionsFrozen(s.db.kamiAction, s'.db.kamiAction, s'.cutoff)
  {
    if es != [] {
      var init, last := es[..|es| - 1], es[|es| - 1];
      RowsFrozen(w, s, init);
      StepFrozen(w, Exec(w, s, init).value, last);
    }
  }

  // ---------- The cursor ----------

  predicate StepsBack(before: Option<nat>, after: Option<nat>) {
    before.Some? && (after.None? || after.value < before.value)
  }

  // In a reachable state the cursor steps back exactly when set_cursor commits the first
  // block of a range that an earlier, failed attempt had already committed past.
  lemma CursorStepsBackIff(w: World, es: seq<Event>, e: Event)
    requires ValidWorld(w) && Exec(w, INIT, es + [e]).Some?
    ensures Exec(w, INIT, es).Some?
    ensures var s, s' := Exec(w, INIT, es).value, Exec(w, INIT, es + [e]).value;
            StepsBack(s.db.cursor, s'.db.cursor)
            <==> (e == WriteCursor(false) && s.db.cursor.Some? && s.poller.Scanning?
                  && s.poller.at == s.poller.next && s.poller.next < s.db.cursor.value)
  {
    ExecSnoc(w, INIT, es, e);
    Safety(w, es);
    StepsBackIff(w, Exec(w, INIT, es).value, e);
  }

  lemma StepsBackIff(w: World, s: State, e: Event)
    requires PollerOk(w, s) && Step(w, s, e).Some?
    ensures StepsBack(s.db.cursor, Step(w, s, e).value.db.cursor)
            <==> (e == WriteCursor(false) && s.db.cursor.Some? && s.poller.Scanning?
                  && s.poller.at == s.poller.next && s.poller.next < s.db.cursor.value)
  {
  }

  predicate EmptyBlock(w: World, n: nat) {
    w.chain(n).txs == []
  }

  const SCAN_EMPTY: seq<Event> := [Fetch([]), WriteCursor(false)]

  lemma ScanEmptyBlock(w: World, s: State, end: nat)
    requires s.poller.Scanning? && s.poller.pc.Fetching? && s.poller.kamis.None?
    requires EmptyBlock(w, s.poller.at) && s.poller.at < end && s.poller.end == end
    ensures var r := Exec(w, s, SCAN_EMPTY);
            r.Some? && r.value.db.cursor == Some(s.poller.at) && r.value.poller == s.poller.(at := s.poller.at + 1)
  {
    ExecOne(w, s, Fetch([]));
    ExecSnoc(w, s, [Fetch([])], WriteCursor(false));
    assert SCAN_EMPTY == [Fetch([])] + [WriteCursor(false)];
  }

  // It does happen: two empty blocks, a failure on the third, and a retry of the range.
  lemma CursorStepsBackWitness(w: World, n: nat) returns (es: seq<Event>, fs: seq<Event>)
    requires EmptyBlock(w, n) && EmptyBlock(w, n + 1)
    ensures Exec(w, INIT, es).Some? && Exec(w, INIT, es).value.db.cursor == Some(n + 1)
    ensures Exec(w, INIT, es + fs).Some? && Exec(w, INIT, es + fs).value.db.cursor == Some(n)
  {
    hide FetchStep, WriteTxsStep, WriteActionsStep, WriteCursorStep;
    ExecOne(w, INIT, Start(n, None));
    es := [Start(n, None)];
    var s := Exec(w, INIT, es).value;
    ExecSnoc(w, INIT, es, BeginRange(n + 2));
    es := es + [BeginRange(n + 2)];
    s := Exec(w, INIT, es).value;
    ScanEmptyBlock(w, s, n + 2);
    ExecAppend(w, INIT, es, SCAN_EMPTY);
    es := es + SCAN_EMPTY;
    s := Exec(w, INIT, es).value;
    ScanEmptyBlock(w, s, n + 2);
    ExecAppend(w, INIT, es, SCAN_EMPTY);
    es := es + SCAN_EMPTY;
    s := Exec(w, INIT, es).value;
    fs := [FetchFails];
    ExecOne(w, s, FetchFails);
    ExecSnoc(w, s, fs, BeginRange(n + 2));
    fs := fs + [BeginRange(n + 2)];
    ScanEmptyBlock(w, Exec(w, s, fs).value, n + 2);
    ExecAppend(w, s, fs, SCAN_EMPTY);
    fs := fs + SCAN_EMPTY;
    ExecAppend(w, INIT, es, fs);
  }
}
