/** What the pipeline's invariant means over whole runs: coverage, no orphans, and the same
    rows as a single undisturbed pass over the blocks. */
module Convergence {
  import opened Wrappers
  import opened Decimal
  import opened Records
  import opened Storage
  import opened HarvestResolver
  import opened Migration002
  import opened Ingest
  import opened Pipeline

  // Block n's rows are all in the database, except what some prune cutoff so far has passed.
  // Stated on the rows themselves.
  ghost predicate FullyStored(w: World, s: State, n: nat) {
    var clean := CleanBatch(w, n);
    && (forall i | 0 <= i < |clean.txs| ::
          clean.txs[i].txHash in s.db.rawTx || Expired(clean.txs[i].blockTimestamp, s.cutoff))
    && (forall i | 0 <= i < |clean.actions| ::
          clean.actions[i].Id() in s.db.kamiAction || Expired(clean.actions[i].blockTimestamp, s.cutoff))
  }

  predicate NextBlockIs(p: Poller, next: nat) {
    (p.Idle? || p.Scanning?) && p.next == next
  }

  // Prefix coverage: in every reachable state, every block from the first committed cursor
  // through the largest committed one, and so through the cursor, is stored; and next_block
  // never runs ahead of the cursor by more than one.
  lemma PrefixCoverage(w: World, es: seq<Event>)
    requires ValidWorld(w) && Exec(w, INIT, es).Some?
    ensures var s := Exec(w, INIT, es).value;
            s.db.cursor.Some? ==>
              && s.span.Some? && s.span.value.first <= s.db.cursor.value <= s.span.value.last
              && (forall n: nat | s.span.value.first <= n <= s.span.value.last :: FullyStored(w, s, n))
              && (forall next: nat | NextBlockIs(s.poller, next) :: s.span.value.first <= next <= s.db.cursor.value + 1)
  {
    Safety(w, es);
    var s := Exec(w, INIT, es).value;
    if s.db.cursor.Some? {
      forall n: nat | s.span.value.first <= n <= s.span.value.last ensures FullyStored(w, s, n) {
        assert Covered(w, s, n);
        CleanKeyed(w, n);
        var clean := CleanBatch(w, n);
        forall i | 0 <= i < |clean.txs| ensures clean.txs[i].blockTimestamp == w.chain(n).timestamp {
          assert CleanTxRow(w, n, |w.chain(n).txs|, clean.txs[i]);
        }
        forall i | 0 <= i < |clean.actions| ensures clean.actions[i].blockTimestamp == w.chain(n).timestamp {
          assert CleanActionRow(w, n, |w.chain(n).txs|, clean.actions[i]);
        }
      }
    }
  }

  // The committed prefix keeps its first block and never shrinks, although the cursor itself
  // may step back.
  lemma CommittedPrefixGrows(w: World, es: seq<Event>, e: Event)
    requires ValidWorld(w) && Exec(w, INIT, es + [e]).Some?
    ensures var s, s' := Exec(w, INIT, es), Exec(w, INIT, es + [e]).value;
            s.Some? && (s.value.span.Some? ==>
              s'.span.Some? && s'.span.value.first == s.value.span.value.first
              && s'.span.value.last >= s.value.span.value.last)
  {
    assert (es + [e])[..|es|] == es;
    Safety(w, es);
  }

  // No orphans, after every single step.
  lemma NoOrphanActions(w: World, es: seq<Event>, id: string)
    requires ValidWorld(w) && Exec(w, INIT, es).Some?
    ensures var s := Exec(w, INIT, es).value;
            id in s.db.kamiAction ==>
              Expired(s.db.kamiAction[id].blockTimestamp, s.cutoff) || s.db.kamiAction[id].txHash in s.db.rawTx
  {
    Safety(w, es);
  }

  // Every stored harvest row pairs its ids correctly, in every reachable state.
  lemma ReachablePairs(w: World, es: seq<Event>)
    requires ValidWorld(w) && Exec(w, INIT, es).Some?
    ensures PairInvariant(w.cfg.hash, Exec(w, INIT, es).value.db.kamiAction)
  {
    Safety(w, es);
    var s := Exec(w, INIT, es).value;
    StoredPairs(w, s.exact, s.db.kamiAction);
  }

  // ---------- Any two runs ----------

  // Two stored versions of one row: equal, except that a kami id may be missing from one or
  // spelled differently, and is then the kami of the row's harvest id wherever it is there.
  predicate SameUpToStitch(h: HarvestHash, a: Action, b: Action) {
    && a.(kamiId := b.kamiId) == b
    && (a.kamiId != b.kamiId ==>
          && a.Stitchable() && a.harvestId.Some?
          && (a.kamiId.Some? ==> Pairs(h, a.kamiId.value, a.harvestId.value))
          && (b.kamiId.Some? ==> Pairs(h, b.kamiId.value, a.harvestId.value)))
  }

  // Unless every receipt was fetched, the columns that depend on it may differ too.
  predicate SameVersion(h: HarvestHash, exact: bool, a: Action, b: Action) {
    SameUpToStitch(h, if exact then a else a.(status := b.status, amount := b.amount), b)
  }

  predicate SameTx(exact: bool, r1: RawTx, r2: RawTx) {
    (if exact then r1 else r1.(status := r2.status, gasUsed := r2.gasUsed)) == r2
  }

  // s has committed block n.
  predicate InSpan(s: State, n: nat) {
    s.span.Some? && s.span.value.first <= n <= s.span.value.last
  }

  // Every row of t from the blocks that s has committed is in s as well, or pruned there.
  ghost predicate TxsKept(t: map<string, RawTx>, s: State) {
    forall h | h in t && InSpan(s, t[h].blockNumber) :: h in s.db.rawTx || Expired(t[h].blockTimestamp, s.cutoff)
  }

  ghost predicate ActionsKept(t: map<string, Action>, s: State) {
    forall id | id in t && InSpan(s, t[id].blockNumber) ::
      id in s.db.kamiAction || Expired(t[id].blockTimestamp, s.cutoff)
  }

  ghost predicate TxsAgree(exact: bool, t1: map<string, RawTx>, t2: map<string, RawTx>) {
    forall h | h in t1 && h in t2 :: SameTx(exact, t1[h], t2[h])
  }

  ghost predicate ActionsAgree(h: HarvestHash, exact: bool, t1: map<string, Action>, t2: map<string, Action>) {
    forall id | id in t1 && id in t2 :: SameVersion(h, exact, t1[id], t2[id])
  }

  lemma OneTxVersion(w: World, e1: bool, e2: bool, h: string, r1: RawTx, r2: RawTx)
    requires ValidWorld(w) && IsStoredTx(w, e1, h, r1) && IsStoredTx(w, e2, h, r2)
    ensures SameTx(e1 && e2, r1, r2)
  {
    var i: nat :| IsCleanTx(w, e1, r1, r1.blockNumber, i);
    var j: nat :| IsCleanTx(w, e2, r2, r2.blockNumber, j);
    SameBlock(w, r1.blockNumber, i, r2.blockNumber, j);
  }

  lemma OneActionVersion(w: World, e1: bool, e2: bool, id: string, a1: Action, a2: Action)
    requires ValidWorld(w) && IsStoredAction(w, e1, id, a1) && IsStoredAction(w, e2, id, a2)
    ensures SameVersion(w.cfg.hash, e1 && e2, a1, a2)
  {
    var i: nat :| IsCleanAction(w, e1, a1, a1.blockNumber, i);
    var j: nat :| IsCleanAction(w, e2, a2, a2.blockNumber, j);
    SameAction(w, a1.blockNumber, i, a2.blockNumber, j);
    AgreeWithOne(w.cfg.hash, e1, e2, a1, a2, CleanBatch(w, a1.blockNumber).actions[i]);
  }

  lemma AgreeWithOne(h: HarvestHash, e1: bool, e2: bool, a: Action, b: Action, clean: Action)
    requires ActionAgrees(h, e1, a, clean) && ActionAgrees(h, e2, b, clean)
    ensures SameVersion(h, e1 && e2, a, b)
  {
  }

  lemma TxKept(w: World, e: bool, h: string, r: RawTx, s: State)
    requires ValidWorld(w) && IsStoredTx(w, e, h, r) && Inv(w, s) && InSpan(s, r.blockNumber)
    ensures h in s.db.rawTx || Expired(r.blockTimestamp, s.cutoff)
  {
    var n := r.blockNumber;
    var i: nat :| IsCleanTx(w, e, r, n, i);
    assert Covered(w, s, n);
    CleanKeyed(w, n);
    assert CleanTxRow(w, n, |w.chain(n).txs|, CleanBatch(w, n).txs[i]);
  }

  lemma ActionKept(w: World, e: bool, id: string, a: Action, s: State)
    requires ValidWorld(w) && IsStoredAction(w, e, id, a) && Inv(w, s) && InSpan(s, a.blockNumber)
    ensures id in s.db.kamiAction || Expired(a.blockTimestamp, s.cutoff)
  {
    var n := a.blockNumber;
    var i: nat :| IsCleanAction(w, e, a, n, i);
    assert Covered(w, s, n);
    CleanKeyed(w, n);
    assert CleanActionRow(w, n, |w.chain(n).txs|, CleanBatch(w, n).actions[i]);
  }

  lemma FaithfulTxsAgree(w: World, exact: bool, t: map<string, RawTx>, s: State)
    requires ValidWorld(w) && TxsFaithful(w, exact, t) && Inv(w, s)
    ensures TxsAgree(exact && s.exact, t, s.db.rawTx) && TxsKept(t, s)
  {
    forall h | h in t && h in s.db.rawTx ensures SameTx(exact && s.exact, t[h], s.db.rawTx[h]) {
      OneTxVersion(w, exact, s.exact, h, t[h], s.db.rawTx[h]);
    }
    forall h | h in t && InSpan(s, t[h].blockNumber) ensures h in s.db.rawTx || Expired(t[h].blockTimestamp, s.cutoff) {
      TxKept(w, exact, h, t[h], s);
    }
  }

  lemma FaithfulActionsAgree(w: World, exact: bool, t: map<string, Action>, s: State)
    requires ValidWorld(w) && ActionsFaithful(w, exact, t) && Inv(w, s)
    ensures ActionsAgree(w.cfg.hash, exact && s.exact, t, s.db.kamiAction) && ActionsKept(t, s)
  {
    forall id | id in t && id in s.db.kamiAction
      ensures SameVersion(w.cfg.hash, exact && s.exact, t[id], s.db.kamiAction[id])
    {
      OneActionVersion(w, exact, s.exact, id, t[id], s.db.kamiAction[id]);
    }
    forall id | id in t && InSpan(s, t[id].blockNumber)
      ensures id in s.db.kamiAction || Expired(t[id].blockTimestamp, s.cutoff)
    {
      ActionKept(w, exact, id, t[id], s);
    }
  }

  // Any two runs, whatever failed, was retried, restarted or pruned in either: every row that
  // both databases hold is the same row, except for what its receipt says if a fetch failed,
  // and a missing kami id; and a row that one holds of the blocks the other has committed is
  // missing there only if it was pruned.
  lemma AnyTwoRuns(w: World, es1: seq<Event>, es2: seq<Event>, s1: State, s2: State)
    requires ValidWorld(w) && Exec(w, INIT, es1) == Some(s1) && Exec(w, INIT, es2) == Some(s2)
    ensures TxsAgree(s1.exact && s2.exact, s1.db.rawTx, s2.db.rawTx)
    ensures ActionsAgree(w.cfg.hash, s1.exact && s2.exact, s1.db.kamiAction, s2.db.kamiAction)
    ensures TxsKept(s1.db.rawTx, s2) && TxsKept(s2.db.rawTx, s1)
    ensures ActionsKept(s1.db.kamiAction, s2) && ActionsKept(s2.db.kamiAction, s1)
  {
    Safety(w, es1);
    Safety(w, es2);
    FaithfulTxsAgree(w, s1.exact, s1.db.rawTx, s2);
    FaithfulTxsAgree(w, s2.exact, s2.db.rawTx, s1);
    FaithfulActionsAgree(w, s1.exact, s1.db.kamiAction, s2);
    FaithfulActionsAgree(w, s2.exact, s2.db.kamiAction, s1);
  }

  // ---------- Convergence ----------

  // The part of a table that belongs to the blocks from first up to, not including, end.
  function TxsBetween(t: map<string, RawTx>, first: nat, end: nat): map<string, RawTx> {
    map h | h in t && first <= t[h].blockNumber < end :: t[h]
  }

  function ActionsBetween(t: map<string, Action>, first: nat, end: nat): map<string, Action> {
    map id | id in t && first <= t[id].blockNumber < end :: t[id]
  }

  ghost predicate SameActions(h: HarvestHash, t1: map<string, Action>, t2: map<string, Action>) {
    t1.Keys == t2.Keys && forall id | id in t1 :: SameUpToStitch(h, t1[id], t2[id])
  }

  // No receipt fetch failed and nothing was pruned, and a cursor was committed.
  predicate Undisturbed(s: State) {
    s.exact && s.cutoff.None? && s.span.Some? && s.db.cursor.Some?
  }

  // One past the cursor.
  function End(s: State): nat
    requires s.db.cursor.Some?
  {
    s.db.cursor.value + 1
  }

  // Both have committed the blocks from first up to, not including, end.
  predicate BothCommitted(s1: State, s2: State, first: nat, end: nat) {
    && Undisturbed(s1) && Undisturbed(s2)
    && s1.span.value.first <= first && end <= s1.span.value.last + 1
    && s2.span.value.first <= first && end <= s2.span.value.last + 1
  }

  lemma SameTxs(w: World, s1: State, s2: State, first: nat, end: nat)
    requires BothCommitted(s1, s2, first, end)
    requires TxsAgree(true, s1.db.rawTx, s2.db.rawTx) && TxsKept(s1.db.rawTx, s2) && TxsKept(s2.db.rawTx, s1)
    ensures TxsBetween(s1.db.rawTx, first, end) == TxsBetween(s2.db.rawTx, first, end)
  {
    var t1, t2 := s1.db.rawTx, s2.db.rawTx;
    forall h | h in t1 && first <= t1[h].blockNumber < end ensures h in t2 && t2[h] == t1[h] {
      assert SameTx(true, t1[h], t2[h]);
    }
    forall h | h in t2 && first <= t2[h].blockNumber < end ensures h in t1 && t2[h] == t1[h] {
      assert SameTx(true, t1[h], t2[h]);
    }
    assert TxsBetween(t1, first, end).Keys == TxsBetween(t2, first, end).Keys;
  }

  lemma SameActionsBetween(h: HarvestHash, t: map<string, Action>, s1: State, s2: State, first: nat, end: nat)
    requires BothCommitted(s1, s2, first, end) && t.Keys == s1.db.kamiAction.Keys
    requires ActionsAgree(h, true, t, s2.db.kamiAction) && ActionsKept(t, s2) && ActionsKept(s2.db.kamiAction, s1)
    ensures SameActions(h, ActionsBetween(t, first, end), ActionsBetween(s2.db.kamiAction, first, end))
  {
    var t2 := s2.db.kamiAction;
    forall id | id in t && first <= t[id].blockNumber < end ensures id in t2 && SameUpToStitch(h, t[id], t2[id]) {
      assert SameVersion(h, true, t[id], t2[id]);
    }
    forall id | id in t2 && first <= t2[id].blockNumber < end ensures id in t && SameUpToStitch(h, t[id], t2[id]) {
      assert SameVersion(h, true, t[id], t2[id]);
    }
  }

  // Convergence: two runs without a failed receipt fetch or a prune hold the same rows for all
  // blocks that both have committed, whatever else failed along the way; and every kami id in
  // them is that of its row.
  lemma Converges(w: World, es1: seq<Event>, es2: seq<Event>, s1: State, s2: State, first: nat, end: nat)
    requires ValidWorld(w) && Exec(w, INIT, es1) == Some(s1) && Exec(w, INIT, es2) == Some(s2)
    requires BothCommitted(s1, s2, first, end)
    ensures TxsBetween(s1.db.rawTx, first, end) == TxsBetween(s2.db.rawTx, first, end)
    ensures SameActions(w.cfg.hash, ActionsBetween(s1.db.kamiAction, first, end), ActionsBetween(s2.db.kamiAction, first, end))
    ensures PairInvariant(w.cfg.hash, s1.db.kamiAction) && PairInvariant(w.cfg.hash, s2.db.kamiAction)
  {
    AnyTwoRuns(w, es1, es2, s1, s2);
    SameTxs(w, s1, s2, first, end);
    SameActionsBetween(w.cfg.hash, s1.db.kamiAction, s1, s2, first, end);
    ReachablePairs(w, es1);
    ReachablePairs(w, es2);
  }

  // ---------- Exactly once ----------

  ghost predicate HoldsTxs(w: World, t: map<string, RawTx>, n: nat) {
    forall i | 0 <= i < |CleanBatch(w, n).txs| :: CleanBatch(w, n).txs[i].txHash in t
  }

  ghost predicate HoldsActions(w: World, t: map<string, Action>, n: nat) {
    forall i | 0 <= i < |CleanBatch(w, n).actions| :: CleanBatch(w, n).actions[i].Id() in t
  }

  lemma UndisturbedComplete(w: World, s: State)
    requires Inv(w, s) && Undisturbed(s)
    ensures forall n: nat | s.span.value.first <= n < End(s) :: HoldsTxs(w, s.db.rawTx, n) && HoldsActions(w, s.db.kamiAction, n)
  {
    forall n: nat | s.span.value.first <= n < End(s)
      ensures HoldsTxs(w, s.db.rawTx, n) && HoldsActions(w, s.db.kamiAction, n)
    {
      assert Covered(w, s, n);
    }
  }

  // The common value is each row of those blocks exactly once: every row of every block is
  // there under its key with the decoder's contents, and nothing else is.
  lemma ExactlyOnce(w: World, es: seq<Event>, s: State)
    requires ValidWorld(w) && Exec(w, INIT, es) == Some(s) && Undisturbed(s)
    ensures var first, end := s.span.value.first, End(s);
            && first < end
            && (forall n: nat, i | first <= n < end && 0 <= i < |CleanBatch(w, n).txs| ::
                  var r := CleanBatch(w, n).txs[i]; r.txHash in s.db.rawTx && s.db.rawTx[r.txHash] == r)
            && (forall n: nat, i | first <= n < end && 0 <= i < |CleanBatch(w, n).actions| ::
                  var a := CleanBatch(w, n).actions[i];
                  a.Id() in s.db.kamiAction && ActionAgrees(w.cfg.hash, true, s.db.kamiAction[a.Id()], a))
            && (forall h | h in TxsBetween(s.db.rawTx, first, end) ::
                  exists i :: 0 <= i < |CleanBatch(w, s.db.rawTx[h].blockNumber).txs|
                              && CleanBatch(w, s.db.rawTx[h].blockNumber).txs[i].txHash == h)
            && (forall id | id in ActionsBetween(s.db.kamiAction, first, end) ::
                  exists i :: 0 <= i < |CleanBatch(w, s.db.kamiAction[id].blockNumber).actions|
                              && CleanBatch(w, s.db.kamiAction[id].blockNumber).actions[i].Id() == id)
  {
    Safety(w, es);
    UndisturbedComplete(w, s);
    var first, end := s.span.value.first, End(s);
    forall n: nat, i | first <= n < end && 0 <= i < |CleanBatch(w, n).txs|
      ensures var r := CleanBatch(w, n).txs[i]; r.txHash in s.db.rawTx && s.db.rawTx[r.txHash] == r
    {
      StoredTxIsClean(w, s.db.rawTx, n, i);
    }
    forall n: nat, i | first <= n < end && 0 <= i < |CleanBatch(w, n).actions|
      ensures var a := CleanBatch(w, n).actions[i];
              a.Id() in s.db.kamiAction && ActionAgrees(w.cfg.hash, true, s.db.kamiAction[a.Id()], a)
    {
      StoredActionIsClean(w, s.db.kamiAction, n, i);
    }
    forall h | h in TxsBetween(s.db.rawTx, first, end)
      ensures exists i :: 0 <= i < |CleanBatch(w, s.db.rawTx[h].blockNumber).txs|
                          && CleanBatch(w, s.db.rawTx[h].blockNumber).txs[i].txHash == h
    {
      assert IsStoredTx(w, true, h, s.db.rawTx[h]);
    }
    forall id | id in ActionsBetween(s.db.kamiAction, first, end)
      ensures exists i :: 0 <= i < |CleanBatch(w, s.db.kamiAction[id].blockNumber).actions|
                          && CleanBatch(w, s.db.kamiAction[id].blockNumber).actions[i].Id() == id
    {
      assert IsStoredAction(w, true, id, s.db.kamiAction[id]);
    }
  }

  lemma StoredTxIsClean(w: World, t: map<string, RawTx>, n: nat, i: nat)
    requires ValidWorld(w) && TxsFaithful(w, true, t) && HoldsTxs(w, t, n) && i < |CleanBatch(w, n).txs|
    ensures var r := CleanBatch(w, n).txs[i]; r.txHash in t && t[r.txHash] == r
  {
    var r := t[CleanBatch(w, n).txs[i].txHash];
    var j: nat :| IsCleanTx(w, true, r, r.blockNumber, j);
    SameBlock(w, n, i, r.blockNumber, j);
  }

  lemma StoredActionIsClean(w: World, t: map<string, Action>, n: nat, i: nat)
    requires ValidWorld(w) && ActionsFaithful(w, true, t) && HoldsActions(w, t, n) && i < |CleanBatch(w, n).actions|
    ensures var a := CleanBatch(w, n).actions[i]; a.Id() in t && ActionAgrees(w.cfg.hash, true, t[a.Id()], a)
  {
    var a := t[CleanBatch(w, n).actions[i].Id()];
    var j: nat :| IsCleanAction(w, true, a, a.blockNumber, j);
    SameAction(w, n, i, a.blockNumber, j);
  }

  // ---------- The offline stitch of a live database ----------

  lemma OfflineRowAgrees(w: World, exact: bool, t: map<string, Action>, id: string, a': Action)
    requires ValidWorld(w) && id in t && IsStoredAction(w, exact, id, t[id])
    requires SecondPassRow(w.cfg.hash, t, t[id], a')
    ensures IsStoredAction(w, exact, id, a')
    ensures t[id].kamiId.Some? ==> a' == t[id]
    ensures SameUpToStitch(w.cfg.hash, t[id], a')
  {
    var a := t[id];
    var i: nat :| IsCleanAction(w, exact, a, a.blockNumber, i);
    assert IsCleanAction(w, exact, a', a.blockNumber, i);
  }

  // Running the offline stitch on any database the service can reach contradicts nothing
  // that was stitched live: every row stays a faithful copy of its clean row, and one that
  // has a kami id is not touched.
  lemma OfflineKeepsFaithful(w: World, es: seq<Event>, t': map<string, Action>)
    requires ValidWorld(w) && Exec(w, INIT, es).Some?
    requires Stitched(w.cfg.hash, Exec(w, INIT, es).value.db.kamiAction, t')
    ensures var s := Exec(w, INIT, es).value;
            && ActionsFaithful(w, s.exact, t') && SameActions(w.cfg.hash, s.db.kamiAction, t')
            && forall id | id in t' :: s.db.kamiAction[id].kamiId.Some? ==> t'[id] == s.db.kamiAction[id]
  {
    Safety(w, es);
    var s := Exec(w, INIT, es).value;
    forall id | id in t'
      ensures IsStoredAction(w, s.exact, id, t'[id]) && SameUpToStitch(w.cfg.hash, s.db.kamiAction[id], t'[id])
      ensures s.db.kamiAction[id].kamiId.Some? ==> t'[id] == s.db.kamiAction[id]
    {
      OfflineRowAgrees(w, s.exact, s.db.kamiAction, id, t'[id]);
    }
  }

  // And the migrated table still converges with that of any other run.
  lemma OfflineConverges(w: World, es1: seq<Event>, es2: seq<Event>, s1: State, s2: State, t': map<string, Action>,
                         first: nat, end: nat)
    requires ValidWorld(w) && Exec(w, INIT, es1) == Some(s1) && Exec(w, INIT, es2) == Some(s2)
    requires BothCommitted(s1, s2, first, end) && Stitched(w.cfg.hash, s1.db.kamiAction, t')
    ensures SameActions(w.cfg.hash, ActionsBetween(t', first, end), ActionsBetween(s2.db.kamiAction, first, end))
  {
    OfflineKeepsFaithful(w, es1, t');
    Safety(w, es1);
    Safety(w, es2);
    FaithfulActionsAgree(w, true, t', s2);
    FaithfulActionsAgree(w, true, s2.db.kamiAction, s1);
    SameActionsBetween(w.cfg.hash, t', s1, s2, first, end);
  }
}
