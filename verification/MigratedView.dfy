/** The location view after migration 002, against what the events said before it. */
module MigratedView {
  import opened Wrappers
  import opened Decimal
  import opened Records
  import opened Storage
  import opened HarvestResolver
  import opened Migration002
  import opened Ingest
  import opened Pipeline
  import opened Convergence
  import opened CanonicalKamis
  import opened LocationView
  import opened LocationRuns

  // ---------- One row ----------

  // A row of k that the stitch gives a kami id gets k as it is spelled.
  predicate KeepsSpelling(h: HarvestHash, k: string, a: Action, a': Action) {
    Unstitched(h, k, a) && a'.kamiId.Some? ==> a'.kamiId == Some(k)
  }

  // The stitch leaves what a row does to k alone exactly then.
  lemma StitchedSignalIff(h: HarvestHash, k: string, t: Table, t': Table, id: string)
    requires PairInvariant(h, t) && Stitched(h, t, t') && id in t
    ensures SignalFor(h, k, t'[id]) == SignalFor(h, k, t[id]) <==> KeepsSpelling(h, k, t[id], t'[id])
  {
    StitchedSound(h, t, t', id);
    RowSignalIff(h, k, t[id], t'[id]);
  }

  lemma RowSignalIff(h: HarvestHash, k: string, a: Action, a': Action)
    requires a' != a ==>
               Waiting(a) && a'.kamiId.Some? && a' == SetKami(a, a'.kamiId.value)
               && Pairs(h, a'.kamiId.value, a.harvestId.value)
    ensures SignalFor(h, k, a') == SignalFor(h, k, a) <==> KeepsSpelling(h, k, a, a')
  {
  }

  // ---------- A whole table ----------

  ghost predicate TableKeepsSpelling(h: HarvestHash, k: string, t: Table, t': Table)
    requires t'.Keys == t.Keys
  {
    forall id | id in t :: KeepsSpelling(h, k, t[id], t'[id])
  }

  predicate SameSignal(h: HarvestHash, k: string, a: Action, b: Action) {
    a.blockTimestamp == b.blockTimestamp && SignalFor(h, k, a) == SignalFor(h, k, b)
  }

  ghost predicate Carried(h: HarvestHash, k: string, a: Action, ys: seq<Action>) {
    exists b :: b in ys && SameSignal(h, k, a, b)
  }

  // Whatever xs says about k, ys says at the same time.
  ghost predicate Carries(h: HarvestHash, k: string, xs: seq<Action>, ys: seq<Action>) {
    forall a | a in xs :: Carried(h, k, a, ys)
  }

  lemma LastCarries(h: HarvestHash, k: string, xs: seq<Action>, ys: seq<Action>)
    requires Carries(h, k, xs, ys) && Carries(h, k, ys, xs) && LastIsActive(h, k, xs)
    ensures LastIsActive(h, k, ys)
  {
    hide SignalFor;
    var a :| Outlasts(h, k, xs, a);
    assert Carried(h, k, a, ys);
    var b :| b in ys && SameSignal(h, k, a, b);
    forall c | c in ys && SignalFor(h, k, c) == Some(Deactivate) ensures c.blockTimestamp < b.blockTimestamp {
      assert Carried(h, k, c, xs);
      var d :| d in xs && SameSignal(h, k, c, d);
    }
    assert Outlasts(h, k, ys, b);
  }

  lemma StitchCarries(h: HarvestHash, k: string, t: Table, t': Table, rows: seq<Action>, rows': seq<Action>)
    requires PairInvariant(h, t) && Stitched(h, t, t') && TableKeepsSpelling(h, k, t, t')
    requires IsScan(rows, t) && IsScan(rows', t')
    ensures Carries(h, k, rows, rows') && Carries(h, k, rows', rows)
  {
    hide SignalFor, SecondPassRow;
    forall a | a in rows ensures Carried(h, k, a, rows') {
      ScanMember(rows, t, a);
      StitchedRow(h, k, t, t', a.Id());
      assert t'[a.Id()] in rows';
    }
    forall b | b in rows' ensures Carried(h, k, b, rows) {
      ScanMember(rows', t', b);
      StitchedRow(h, k, t, t', b.Id());
      assert t[b.Id()] in rows;
    }
  }

  lemma StitchedRow(h: HarvestHash, k: string, t: Table, t': Table, id: string)
    requires PairInvariant(h, t) && Stitched(h, t, t') && id in t && KeepsSpelling(h, k, t[id], t'[id])
    ensures SameSignal(h, k, t[id], t'[id]) && SameSignal(h, k, t'[id], t[id])
  {
    StitchedSignalIff(h, k, t, t', id);
    StitchedSound(h, t, t', id);
  }

  // The events of the stitched table end for k as those of the table before do.
  lemma StitchKeepsLast(h: HarvestHash, k: string, t: Table, t': Table, rows: seq<Action>, rows': seq<Action>)
    requires PairInvariant(h, t) && Stitched(h, t, t') && TableKeepsSpelling(h, k, t, t')
    requires IsScan(rows, t) && IsScan(rows', t')
    ensures LastIsActive(h, k, rows') <==> LastIsActive(h, k, rows)
  {
    StitchCarries(h, k, t, t', rows, rows');
    if LastIsActive(h, k, rows) {
      LastCarries(h, k, rows, rows');
    }
    if LastIsActive(h, k, rows') {
      LastCarries(h, k, rows', rows);
    }
  }

  // ---------- Reachable tables ----------

  // Where kami arguments are unsigned integers there is one spelling to take.
  lemma NumbersKeepSpelling(w: World, es: seq<Event>, t': Table, k: string)
    requires ValidWorld(w) && NumericKamis(w.cfg) && Exec(w, INIT, es).Some? && Canonical(k)
    requires Stitched(w.cfg.hash, Exec(w, INIT, es).value.db.kamiAction, t')
    ensures PairInvariant(w.cfg.hash, Exec(w, INIT, es).value.db.kamiAction)
    ensures TableKeepsSpelling(w.cfg.hash, k, Exec(w, INIT, es).value.db.kamiAction, t')
  {
    var t := Exec(w, INIT, es).value.db.kamiAction;
    ReachablePairs(w, es);
    ReachableCanonical(w, es);
    forall id | id in t ensures KeepsSpelling(w.cfg.hash, k, t[id], t'[id]) {
      CanonicalRow(w.cfg.hash, k, t, t', id);
    }
  }

  lemma CanonicalRow(h: HarvestHash, k: string, t: Table, t': Table, id: string)
    requires Injective(h) && PairInvariant(h, t) && CanonicalIds(t) && Stitched(h, t, t') && id in t && Canonical(k)
    ensures KeepsSpelling(h, k, t[id], t'[id])
  {
    StitchedSound(h, t, t', id);
    if Unstitched(h, k, t[id]) && t'[id].kamiId.Some? {
      var kid := t'[id].kamiId.value;
      PairsUnique(h, k, kid, t[id].harvestId.value);
      var src :| src in t && t[src].kamiId == Some(kid);
      assert Canonical(t[src].kamiId.value);
    }
  }

  // Migration 002 moves no kami: on any database the service can reach, kami arguments being
  // unsigned integers, the events after it replay as the events before it did.
  lemma StitchKeepsReplay(w: World, es: seq<Event>, t': Table, k: string, log: seq<Action>, log': seq<Action>)
    requires ValidWorld(w) && NumericKamis(w.cfg) && Exec(w, INIT, es).Some? && Canonical(k)
    requires Stitched(w.cfg.hash, Exec(w, INIT, es).value.db.kamiAction, t')
    requires IsScan(log, Exec(w, INIT, es).value.db.kamiAction) && IsScan(log', t') && Ordered(log) && Ordered(log')
    ensures Replay(w.cfg.hash, k, log') == Replay(w.cfg.hash, k, log)
  {
    NumbersKeepSpelling(w, es, t', k);
    StitchKeepsLast(w.cfg.hash, k, Exec(w, INIT, es).value.db.kamiAction, t', log, log');
    ReplayMeaning(w.cfg.hash, k, log);
    ReplayMeaning(w.cfg.hash, k, log');
  }

  // So the view over the migrated table tells what the events said before the migration, of
  // every kami whose start row is in the table.
  lemma MigratedViewIsReplay(w: World, es: seq<Event>, t': Table, statics: seq<string>, nodes: seq<(string, int)>,
                             rows: seq<Action>, log: seq<Action>, i: nat)
    requires ValidWorld(w) && NumericKamis(w.cfg) && Exec(w, INIT, es).Some?
    requires Stitched(w.cfg.hash, Exec(w, INIT, es).value.db.kamiAction, t') && IsScan(rows, t')
    requires IsScan(log, Exec(w, INIT, es).value.db.kamiAction) && Ordered(log)
    requires UniqueKeys(nodes) && i < |statics| && Canonical(statics[i]) && HasStart(rows, statics[i])
    ensures |View(statics, rows, nodes)| == |statics|
    ensures View(statics, rows, nodes)[i].kami == statics[i]
    ensures View(statics, rows, nodes)[i].currentlyHarvesting == Replay(w.cfg.hash, statics[i], log)
  {
    hide Replay, LastIsActive, Stitched, IsScan, HasStart, Exec, NumericKamis, ValidWorld, View, IsLastStart, Find;
    var h, t, k := w.cfg.hash, Exec(w, INIT, es).value.db.kamiAction, statics[i];
    NumbersKeepSpelling(w, es, t', k);
    InSightIsLast(h, t, t', rows, k);
    StitchKeepsLast(h, k, t, t', log, rows);
    ReplayMeaning(h, k, log);
    ViewRows(statics, rows, nodes);
    assert ViewRowOk(rows, nodes, k, View(statics, rows, nodes)[i]);
  }

  lemma InSightIsLast(h: HarvestHash, t: Table, t': Table, rows: seq<Action>, k: string)
    requires PairInvariant(h, t) && Stitched(h, t, t') && IsScan(rows, t') && HasStart(rows, k)
    ensures Harvesting(rows, k) <==> LastIsActive(h, k, rows)
  {
    StitchedPairs(h, t, t');
    ScanPairs(h, rows, t');
    StitchedSight(h, t, t', rows, k);
    ViewIsLast(h, rows, k);
  }

  // ---------- Another spelling ----------

  lemma ReplaySnoc(h: HarvestHash, k: string, init: seq<Action>, last: Action)
    ensures Replay(h, k, init + [last]) ==
            match SignalFor(h, k, last) { case Some(Activate) => true case Some(Deactivate) => false case None => Replay(h, k, init) }
  {
    assert (init + [last])[..|init|] == init;
  }

  lemma ReplayThree(h: HarvestHash, k: string, a: Action, b: Action, c: Action)
    requires SignalFor(h, k, a) == Some(Activate) && SignalFor(h, k, b).None?
    ensures Replay(h, k, [a, b, c]) <==> SignalFor(h, k, c) != Some(Deactivate)
  {
    hide SignalFor, Replay;
    ReplaySnoc(h, k, [], a);
    assert [] + [a] == [a];
    ReplaySnoc(h, k, [a], b);
    assert [a] + [b] == [a, b];
    ReplaySnoc(h, k, [a, b], c);
    assert [a, b] + [c] == [a, b, c];
  }

  // Row by row: these are the three signals, and the stitched stop gives none.
  lemma OtherSpellingSignals(h: HarvestHash, k: string, kid: string, start: Action, kill: Action, stop: Action)
    requires start.actionType.HarvestStart? && start.kamiId == Some(k)
    requires kill.actionType.HarvestLiquidate? && kill.harvestId.None?
    requires stop.actionType.HarvestStop? && stop.kamiId.None? && stop.harvestId.Some?
    requires Pairs(h, k, stop.harvestId.value) && kid != k
    ensures SignalFor(h, k, start) == Some(Activate) && SignalFor(h, k, kill).None?
    ensures SignalFor(h, k, stop) == Some(Deactivate) && SignalFor(h, k, SetKami(stop, kid)).None?
  {
  }

  // The table whose rows are these three.
  function ThreeRows(a: Action, b: Action, c: Action): Table {
    map[a.Id() := a, b.Id() := b, c.Id() := c]
  }

  predicate ApartIds(a: Action, b: Action, c: Action) {
    a.Id() != b.Id() && a.Id() != c.Id() && b.Id() != c.Id()
  }

  lemma ThreeScanned(a: Action, b: Action, c: Action)
    requires ApartIds(a, b, c)
    ensures IsScan([a, b, c], ThreeRows(a, b, c))
  {
    hide Action.Id;
    var rows, t := [a, b, c], ThreeRows(a, b, c);
    assert rows[0] == a && rows[1] == b && rows[2] == c;
    assert t[a.Id()] == a && t[b.Id()] == b && t[c.Id()] == c;
  }

  lemma OtherSpellingStitches(h: HarvestHash, hid: string, kid: string, start: Action, kill: Action, stop: Action)
    requires start.kamiId.Some? && kill.kamiId == Some(kid) && Pairs(h, kid, hid)
    requires stop.actionType.HarvestStop? && stop.kamiId.None? && stop.harvestId == Some(hid)
    requires ApartIds(start, kill, stop)
    ensures Stitched(h, ThreeRows(start, kill, stop), ThreeRows(start, kill, SetKami(stop, kid)))
  {
    hide Action.Id, Pairs;
    var t, t' := ThreeRows(start, kill, stop), ThreeRows(start, kill, SetKami(stop, kid));
    SetKamiKeepsId(stop, kid);
    assert t[kill.Id()] == kill;
    assert Shows(h, t[kill.Id()], hid) && KnownAs(h, t, hid, kid);
    assert Known(h, t, hid);
    assert SecondPassRow(h, t, stop, SetKami(stop, kid));
    assert SecondPassRow(h, t, start, start) && SecondPassRow(h, t, kill, kill);
  }

  lemma SetKamiKeepsId(a: Action, kid: string)
    ensures SetKami(a, kid).Id() == a.Id()
  {
  }

  // A table where the condition fails: another row of the same kami spells it `kid`, and the
  // stop is stitched so. The kami rests before the stitch and harvests after it.
  lemma OtherSpellingWitness(h: HarvestHash, k: string, kid: string, hid: string, start: Action, kill: Action, stop: Action)
    requires Pairs(h, k, hid) && Pairs(h, kid, hid) && kid != k
    requires start.actionType.HarvestStart? && start.kamiId == Some(k) && start.harvestId == Some(hid)
    requires kill.actionType.HarvestLiquidate? && kill.kamiId == Some(kid) && kill.harvestId.None?
    requires stop.actionType.HarvestStop? && stop.kamiId.None? && stop.harvestId == Some(hid)
    requires start.blockTimestamp < kill.blockTimestamp < stop.blockTimestamp && ApartIds(start, kill, stop)
    ensures var stitched := SetKami(stop, kid);
            var t, t' := ThreeRows(start, kill, stop), ThreeRows(start, kill, stitched);
            var log, log' := [start, kill, stop], [start, kill, stitched];
            && PairInvariant(h, t) && Stitched(h, t, t') && IsScan(log, t) && IsScan(log', t')
            && Ordered(log) && Ordered(log') && !Replay(h, k, log) && Replay(h, k, log')
  {
    hide SignalFor, Replay, Stitched, IsScan, Action.Id;
    SetKamiKeepsId(stop, kid);
    ThreeScanned(start, kill, stop);
    ThreeScanned(start, kill, SetKami(stop, kid));
    OtherSpellingStitches(h, hid, kid, start, kill, stop);
    OtherSpellingSignals(h, k, kid, start, kill, stop);
    ReplayThree(h, k, start, kill, stop);
    ReplayThree(h, k, start, kill, SetKami(stop, kid));
  }

  // "007" is such a spelling of 7.
  lemma LeadingZeros(h: HarvestHash)
    ensures Pairs(h, "7", HarvestIdOf(h, 7)) && Pairs(h, "007", HarvestIdOf(h, 7))
  {
    assert "7"[..0] == "" && "007"[..2] == "00" && "00"[..1] == "0" && "0"[..0] == "";
    assert DigitsValue("0") == DigitsValue("") * 10;
    assert DigitsValue("00") == DigitsValue("0") * 10;
    assert DigitsValue("007") == DigitsValue("00") * 10 + 7;
    assert DigitsValue("7") == DigitsValue("") * 10 + 7;
  }
}
