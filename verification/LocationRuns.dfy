/** The location view over the databases the service can actually reach. */
module LocationRuns {
  import opened Wrappers
  import opened Records
  import opened Storage
  import opened HarvestResolver
  import opened Migration002
  import opened Ingest
  import opened Pipeline
  import opened Convergence
  import opened LocationView

  // The engine scans the table in some order.
  ghost predicate IsScan(rows: seq<Action>, t: map<string, Action>) {
    && (forall i | 0 <= i < |rows| :: rows[i].Id() in t && t[rows[i].Id()] == rows[i])
    && (forall id | id in t :: t[id] in rows)
  }

  lemma ScanMember(rows: seq<Action>, t: map<string, Action>, a: Action)
    requires IsScan(rows, t)
    ensures a in rows <==> a.Id() in t && t[a.Id()] == a
  {
  }

  // In every reachable state, whatever failed, was retried, restarted or pruned on the way,
  // and whatever the scan order: the view answers as the replay of the stored rows does,
  // except for a kami in its blind spot.
  lemma ViewOfRun(w: World, es: seq<Event>, statics: seq<string>, nodes: seq<(string, int)>,
                  rows: seq<Action>, log: seq<Action>, i: nat)
    requires ValidWorld(w) && Exec(w, INIT, es).Some?
    requires IsScan(rows, Exec(w, INIT, es).value.db.kamiAction)
    requires multiset(log) == multiset(rows) && Ordered(log)
    requires UniqueKeys(nodes) && i < |statics|
    ensures |View(statics, rows, nodes)| == |statics|
    ensures var v := View(statics, rows, nodes)[i];
            && v.kami == statics[i]
            && (v.currentlyHarvesting == Replay(w.cfg.hash, v.kami, log) <==> !Blind(w.cfg.hash, rows, v.kami))
  {
    ReachablePairs(w, es);
    ScanPairs(w.cfg.hash, rows, Exec(w, INIT, es).value.db.kamiAction);
    ViewRefinesReplay(w.cfg.hash, statics, rows, nodes, log, i);
  }

  lemma ScanPairs(h: HarvestHash, rows: seq<Action>, t: map<string, Action>)
    requires IsScan(rows, t) && PairInvariant(h, t)
    ensures forall a | a in rows :: PairOk(h, a)
  {
    forall a | a in rows ensures PairOk(h, a) {
      ScanMember(rows, t, a);
    }
  }

  // ---------- After the offline stitch ----------

  // A kami that any row names has no unstitched row left.
  lemma NoneUnstitched(h: HarvestHash, t: map<string, Action>, t': map<string, Action>, src: string, id: string, k: string)
    requires PairInvariant(h, t) && Stitched(h, t, t') && src in t && t[src].kamiId == Some(k) && id in t'
    ensures !Unstitched(h, k, t'[id])
  {
    StitchedSound(h, t, t', id);
    var hid := t'[id].harvestId;
    assert hid.Some? && Pairs(h, k, hid.value) ==> Shows(h, t[src], hid.value);
  }

  // Every kami that has a start row is then in sight.
  lemma StitchedSight(h: HarvestHash, t: map<string, Action>, t': map<string, Action>, rows: seq<Action>, k: string)
    requires PairInvariant(h, t) && Stitched(h, t, t') && IsScan(rows, t') && HasStart(rows, k)
    ensures !Blind(h, rows, k)
  {
    hide SecondPassRow;
    var hs :| hs in rows && hs.actionType.HarvestStart? && hs.kamiId == Some(k) && hs.harvestId.Some?;
    ScanMember(rows, t', hs);
    StitchedSound(h, t, t', hs.Id());
    forall a | a in rows ensures !Unstitched(h, k, a) {
      ScanMember(rows, t', a);
      NoneUnstitched(h, t, t', hs.Id(), a.Id(), k);
    }
    StitchedInSight(h, rows, k);
  }

  lemma StitchedPairs(h: HarvestHash, t: map<string, Action>, t': map<string, Action>)
    requires PairInvariant(h, t) && Stitched(h, t, t')
    ensures PairInvariant(h, t')
  {
    forall id | id in t' ensures PairOk(h, t'[id]) {
      StitchedSound(h, t, t', id);
    }
  }

  // So after migration 002 over any database the service can reach, the view answers as the
  // replay does for every kami whose start row is in the table.
  lemma ViewAfterStitch(w: World, es: seq<Event>, t': map<string, Action>, statics: seq<string>,
                        nodes: seq<(string, int)>, rows: seq<Action>, log: seq<Action>, i: nat)
    requires ValidWorld(w) && Exec(w, INIT, es).Some?
    requires Stitched(w.cfg.hash, Exec(w, INIT, es).value.db.kamiAction, t') && IsScan(rows, t')
    requires multiset(log) == multiset(rows) && Ordered(log)
    requires UniqueKeys(nodes) && i < |statics| && HasStart(rows, statics[i])
    ensures |View(statics, rows, nodes)| == |statics|
    ensures View(statics, rows, nodes)[i].currentlyHarvesting == Replay(w.cfg.hash, statics[i], log)
  {
    var h, t := w.cfg.hash, Exec(w, INIT, es).value.db.kamiAction;
    ReachablePairs(w, es);
    StitchedPairs(h, t, t');
    ScanPairs(h, rows, t');
    StitchedSight(h, t, t', rows, statics[i]);
    ViewRefinesReplay(h, statics, rows, nodes, log, i);
  }

  // ---------- Pruning ----------

  // A committed prune changes what the view says of a kami exactly when its deciding event
  // is deleted.
  lemma PruneOfRun(w: World, s: State, cutoff: int, k: string, rows: seq<Action>, rows': seq<Action>)
    requires Step(w, s, PruneTo(cutoff)).Some?
    requires IsScan(rows, s.db.kamiAction) && IsScan(rows', Step(w, s, PruneTo(cutoff)).value.db.kamiAction)
    ensures (Harvesting(rows', k) <==> Harvesting(rows, k)) <==> DecidingEventSurvives(rows, k, cutoff)
  {
    PruneScan(rows, s.db.kamiAction, rows', cutoff);
    SameScan(PruneRows(rows, cutoff), rows', k);
    PruningStability(rows, k, cutoff);
  }

  lemma PruneScan(rows: seq<Action>, t: map<string, Action>, rows': seq<Action>, cutoff: int)
    requires IsScan(rows, t) && IsScan(rows', PruneActions(t, cutoff))
    ensures forall a :: a in PruneRows(rows, cutoff) <==> a in rows'
  {
    forall a ensures a in PruneRows(rows, cutoff) <==> a in rows' {
      PruneRowsMeaning(rows, cutoff, a);
      ScanMember(rows, t, a);
      ScanMember(rows', PruneActions(t, cutoff), a);
    }
  }

  // The answer depends only on which rows there are.
  lemma SameScan(xs: seq<Action>, ys: seq<Action>, k: string)
    requires forall a :: a in xs <==> a in ys
    ensures Harvesting(xs, k) <==> Harvesting(ys, k)
  {
    assert forall t :: ActiveAt(xs, k, t) <==> ActiveAt(ys, k, t);
    assert forall t :: StopAt(xs, k, t) <==> StopAt(ys, k, t);
    assert forall t :: JoinedEndAt(xs, k, t) <==> JoinedEndAt(ys, k, t);
    assert forall t :: EndAt(xs, k, t) <==> EndAt(ys, k, t);
  }
}
