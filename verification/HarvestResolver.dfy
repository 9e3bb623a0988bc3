/** The live map from harvest ids to kami ids, and the stitching of stop and collect rows
    (ingester/harvest_resolver.py). */
module HarvestResolver {
  import opened Wrappers
  import opened Decimal
  import opened Records

  type KamiMap = map<string, string>

  // ---------- Specification ----------

  function RegisterKami(h: HarvestHash, m: KamiMap, kid: string): KamiMap {
    var k := ParseDecimal(kid);
    if k.None? then m else m[HarvestIdOf(h, k.value) := kid]
  }

  // The map after observing a batch, row by row.
  function Observe(h: HarvestHash, m: KamiMap, actions: seq<Action>): KamiMap {
    if actions == [] then m
    else
      var prior, a := Observe(h, m, actions[..|actions| - 1]), actions[|actions| - 1];
      if a.kamiId.Some? then RegisterKami(h, prior, a.kamiId.value) else prior
  }

  function Resolve(m: KamiMap, hid: Option<string>): Option<string> {
    if hid.None? || hid.value == "" || hid.value !in m then None else Some(m[hid.value])
  }

  function StitchRow(m: KamiMap, a: Action): Action {
    if a.kamiId.Some? || !a.Stitchable() then a
    else
      var kid := Resolve(m, a.harvestId);
      if kid.Some? then a.(kamiId := kid) else a
  }

  function Stitch(m: KamiMap, actions: seq<Action>): (r: seq<Action>)
    ensures |r| == |actions| && forall i | 0 <= i < |r| :: r[i] == StitchRow(m, actions[i])
  {
    seq(|actions|, i requires 0 <= i < |actions| => StitchRow(m, actions[i]))
  }

  // Every entry maps a kami's harvest id to that kami.
  ghost predicate Sound(h: HarvestHash, m: KamiMap) {
    forall hid | hid in m :: Pairs(h, m[hid], hid)
  }

  // The row shows the kami whose harvest id is hid.
  predicate Shows(h: HarvestHash, a: Action, hid: string) {
    a.kamiId.Some? && Pairs(h, a.kamiId.value, hid)
  }

  // A start, stop or collect row with both ids pairs them correctly. Liquidate rows are not
  // constrained: they name the killer's kami and the victim's harvest.
  predicate PairOk(h: HarvestHash, a: Action) {
    (a.actionType.HarvestStart? || a.Stitchable()) && a.kamiId.Some? && a.harvestId.Some?
    ==> Pairs(h, a.kamiId.value, a.harvestId.value)
  }

  ghost predicate PairInvariant(h: HarvestHash, t: map<string, Action>) {
    forall id | id in t :: PairOk(h, t[id])
  }

  // `kid` is the kami id that the (harvest_id, kami_id) query returns with `hid`.
  predicate QueriedPair(a: Action, hid: string, kid: string) {
    (a.actionType.HarvestStart? || a.Stitchable()) && a.harvestId == Some(hid) && a.kamiId == Some(kid)
  }

  // A result of bootstrapping from the table, whatever order the queries return rows in.
  ghost predicate IsBootstrap(h: HarvestHash, t: map<string, Action>, m: KamiMap) {
    && (forall id, hid, kid | id in t && QueriedPair(t[id], hid, kid) :: hid in m)
    && (forall id, hid | id in t && Shows(h, t[id], hid) :: hid in m)
    && (forall hid | hid in m ::
          || (exists id :: id in t && t[id].kamiId == Some(m[hid]) && Shows(h, t[id], hid))
          || (exists id :: id in t && QueriedPair(t[id], hid, m[hid])))
  }

  // ---------- Properties ----------

  lemma BootstrapSound(h: HarvestHash, t: map<string, Action>, m: KamiMap)
    requires IsBootstrap(h, t, m) && PairInvariant(h, t)
    ensures Sound(h, m)
  {
    forall hid | hid in m ensures Pairs(h, m[hid], hid) {
      if id :| id in t && QueriedPair(t[id], hid, m[hid]) {
        assert PairOk(h, t[id]);
      }
    }
  }

  lemma {:induction false} ObserveSound(h: HarvestHash, m: KamiMap, actions: seq<Action>)
    requires Sound(h, m)
    ensures Sound(h, Observe(h, m, actions))
  {
    if actions != [] {
      ObserveSound(h, m, actions[..|actions| - 1]);
    }
  }

  // Observation is complete and adds nothing else.
  lemma {:induction false} ObserveKeys(h: HarvestHash, m: KamiMap, actions: seq<Action>, hid: string)
    ensures hid in Observe(h, m, actions) <==> hid in m || exists i :: 0 <= i < |actions| && Shows(h, actions[i], hid)
  {
    if actions != [] {
      var init := actions[..|actions| - 1];
      ObserveKeys(h, m, init, hid);
      if i :| 0 <= i < |actions| && Shows(h, actions[i], hid) {
        assert i < |init| ==> Shows(h, init[i], hid);
      }
    }
  }

  // Stitching never overwrites a kami id and touches no other column.
  lemma StitchRowFrame(m: KamiMap, a: Action)
    ensures StitchRow(m, a).(kamiId := a.kamiId) == a
    ensures a.kamiId.Some? ==> StitchRow(m, a) == a
    ensures !a.actionType.HarvestStop? && !a.actionType.HarvestCollect? ==> StitchRow(m, a) == a
    ensures StitchRow(m, a).Id() == a.Id()
  {
  }

  // The order of rows inside a block does not matter to which ids are known.
  lemma ObserveAnyOrder(h: HarvestHash, m: KamiMap, xs: seq<Action>, ys: seq<Action>)
    requires multiset(xs) == multiset(ys)
    ensures Observe(h, m, xs).Keys == Observe(h, m, ys).Keys
  {
    forall hid ensures hid in Observe(h, m, xs) <==> hid in Observe(h, m, ys) {
      ObserveKeys(h, m, xs, hid);
      ObserveKeys(h, m, ys, hid);
      forall i | 0 <= i < |xs| && Shows(h, xs[i], hid) ensures exists j :: 0 <= j < |ys| && Shows(h, ys[j], hid) {
        assert xs[i] in multiset(ys);
      }
      forall j | 0 <= j < |ys| && Shows(h, ys[j], hid) ensures exists i :: 0 <= i < |xs| && Shows(h, xs[i], hid) {
        assert ys[j] in multiset(xs);
      }
    }
  }

  // The resolver's map after a run of blocks, each observed and then stitched.
  function ObserveAll(h: HarvestHash, m: KamiMap, blocks: seq<seq<Action>>): KamiMap {
    if blocks == [] then m
    else Observe(h, ObserveAll(h, m, blocks[..|blocks| - 1]), blocks[|blocks| - 1])
  }

  // Some row of the blocks shows the kami of hid.
  ghost predicate ShownIn(h: HarvestHash, blocks: seq<seq<Action>>, hid: string) {
    exists b, i :: 0 <= b < |blocks| && 0 <= i < |blocks[b]| && Shows(h, blocks[b][i], hid)
  }

  lemma {:induction false} ObserveAllMeaning(h: HarvestHash, m: KamiMap, blocks: seq<seq<Action>>, hid: string)
    requires Sound(h, m)
    ensures Sound(h, ObserveAll(h, m, blocks))
    ensures hid in ObserveAll(h, m, blocks) <==> hid in m || ShownIn(h, blocks, hid)
  {
    if blocks != [] {
      var init, last := blocks[..|blocks| - 1], blocks[|blocks| - 1];
      var prior := ObserveAll(h, m, init);
      ObserveAllMeaning(h, m, init, hid);
      ObserveSound(h, prior, last);
      ObserveKeys(h, prior, last, hid);
      if b, i :| 0 <= b < |blocks| && 0 <= i < |blocks[b]| && Shows(h, blocks[b][i], hid) {
        assert b < |init| ==> Shows(h, init[b][i], hid);
        assert b == |init| ==> Shows(h, last[i], hid);
      }
      if b, i :| 0 <= b < |init| && 0 <= i < |init[b]| && Shows(h, init[b][i], hid) {
        assert Shows(h, blocks[b][i], hid);
      }
      if i :| 0 <= i < |last| && Shows(h, last[i], hid) {
        assert Shows(h, blocks[|init|][i], hid);
      }
    }
  }

  // Over any run: when the last block has been observed, an unattributed stop or collect
  // row of it gets a kami exactly when its harvest id belongs to a kami known at start-up
  // or shown anywhere in the run up to and including that block, and then it gets that kami.
  lemma StitchExactOverRun(h: HarvestHash, m: KamiMap, blocks: seq<seq<Action>>, a: Action)
    requires Sound(h, m) && blocks != [] && a in blocks[|blocks| - 1]
    requires (a.actionType.HarvestStop? || a.actionType.HarvestCollect?) && a.kamiId.None? && a.harvestId.Some?
    ensures var r := StitchRow(ObserveAll(h, m, blocks), a);
            && (r.kamiId.Some? <==> a.harvestId.value in m || ShownIn(h, blocks, a.harvestId.value))
            && (r.kamiId.Some? ==> Pairs(h, r.kamiId.value, a.harvestId.value))
  {
    ObserveAllMeaning(h, m, blocks, a.harvestId.value);
    var all := ObserveAll(h, m, blocks);
    if a.harvestId.value in all {
      assert Pairs(h, all[a.harvestId.value], a.harvestId.value);
    }
  }

  // ---------- The resolver object ----------

  function CountStitched(m: KamiMap, actions: seq<Action>): nat {
    if actions == [] then 0
    else
      var last := actions[|actions| - 1];
      CountStitched(m, actions[..|actions| - 1]) + (if StitchRow(m, last) != last then 1 else 0)
  }

  function ChangedRows(m: KamiMap, actions: seq<Action>): set<nat> {
    set i: nat | i < |actions| && StitchRow(m, actions[i]) != actions[i]
  }

  lemma OneMoreChanged(m: KamiMap, init: seq<Action>, last: Action)
    ensures |ChangedRows(m, init + [last])| == |ChangedRows(m, init)| + if StitchRow(m, last) != last then 1 else 0
  {
    hide StitchRow;
    var all, before := ChangedRows(m, init + [last]), ChangedRows(m, init);
    forall i: nat ensures i in all <==> i in before || (i == |init| && StitchRow(m, last) != last) {
      assert i < |init| ==> (init + [last])[i] == init[i];
    }
    if StitchRow(m, last) != last {
      assert all == before + {|init|};
    } else {
      assert all == before;
    }
  }

  // The count is that of the rows that changed.
  lemma {:induction false} CountMeaning(m: KamiMap, actions: seq<Action>)
    ensures CountStitched(m, actions) == |ChangedRows(m, actions)|
  {
    hide StitchRow, ChangedRows;
    if actions == [] {
      assert ChangedRows(m, actions) == {} by {
        NoRowsChanged(m);
      }
    } else {
      var init, last := actions[..|actions| - 1], actions[|actions| - 1];
      CountMeaning(m, init);
      OneMoreChanged(m, init, last);
      assert actions == init + [last];
    }
  }

  lemma NoRowsChanged(m: KamiMap)
    ensures ChangedRows(m, []) == {}
  {
  }

  class Resolver {
    const hash: HarvestHash
    var kamis: KamiMap

    constructor (hash: HarvestHash)
      ensures this.hash == hash && kamis == map[]
    {
      this.hash := hash;
      kamis := map[];
    }

    method Register(hid: Option<string>, kid: Option<string>)
      modifies this
      ensures kamis == if hid.None? || kid.None? || hid.value == "" || kid.value == "" then old(kamis)
                       else old(kamis)[hid.value := kid.value]
    {
      if hid.None? || kid.None? || hid.value == "" || kid.value == "" {
        return;
      }
      kamis := kamis[hid.value := kid.value];
    }

    method AddKami(kid: Option<string>)
      modifies this
      ensures kamis == if kid.None? then old(kamis) else RegisterKami(hash, old(kamis), kid.value)
    {
      if kid.None? || kid.value == "" {
        return;
      }
      var k := ParseDecimal(kid.value);
      if k.None? {
        return;
      }
      Register(Some(HarvestIdOf(hash, k.value)), kid);
    }

    // First query: every (harvest_id, kami_id) pair of a start, stop or collect row.
    method BootstrapPairs(t: map<string, Action>)
      requires kamis == map[]
      modifies this
      ensures forall id, hid, kid | id in t && QueriedPair(t[id], hid, kid) :: hid in kamis
      ensures forall hid | hid in kamis :: exists id :: id in t && QueriedPair(t[id], hid, kamis[hid])
    {
      var todo := t.Keys;
      while todo != {}
        invariant todo <= t.Keys
        invariant forall id, hid, kid | id in t.Keys - todo && QueriedPair(t[id], hid, kid) :: hid in kamis
        invariant forall hid | hid in kamis :: exists id :: id in t && QueriedPair(t[id], hid, kamis[hid])
        decreases |todo|
      {
        var id :| id in todo;
        var a := t[id];
        if (a.actionType.HarvestStart? || a.Stitchable()) && a.harvestId.Some? && a.kamiId.Some? {
          assert QueriedPair(t[id], a.harvestId.value, a.kamiId.value);
          kamis := kamis[a.harvestId.value := a.kamiId.value];
        }
        todo := todo - {id};
      }
    }

    method BootstrapFromDb(t: map<string, Action>)
      requires kamis == map[]
      modifies this
      ensures IsBootstrap(hash, t, kamis)
    {
      BootstrapPairs(t);
      ghost var pairs := kamis;
      // Second query: every kami id of any row.
      var todo := t.Keys;
      while todo != {}
        invariant todo <= t.Keys
        invariant pairs.Keys <= kamis.Keys
        invariant forall id, hid | id in t.Keys - todo && Shows(hash, t[id], hid) :: hid in kamis
        invariant forall hid | hid in kamis ::
                    || (hid in pairs && kamis[hid] == pairs[hid])
                    || (exists id :: id in t && t[id].kamiId == Some(kamis[hid]) && Shows(hash, t[id], hid))
        decreases |todo|
      {
        var id :| id in todo;
        AddKami(t[id].kamiId);
        todo := todo - {id};
      }
    }

    method ObserveActions(actions: array<Action>)
      modifies this
      ensures kamis == Observe(hash, old(kamis), actions[..])
    {
      for i := 0 to actions.Length
        invariant kamis == Observe(hash, old(kamis), actions[..i])
      {
        assert actions[..i + 1][..i] == actions[..i];
        if actions[i].kamiId.Some? {
          AddKami(actions[i].kamiId);
        }
      }
      assert actions[..actions.Length] == actions[..];
    }

    method StitchBatch(actions: array<Action>) returns (n: nat)
      modifies actions
      ensures actions[..] == Stitch(kamis, old(actions[..]))
      ensures n == CountStitched(kamis, old(actions[..]))
    {
      ghost var before := actions[..];
      n := 0;
      for i := 0 to actions.Length
        invariant forall j | 0 <= j < i :: actions[j] == StitchRow(kamis, before[j])
        invariant forall j | i <= j < actions.Length :: actions[j] == before[j]
        invariant n == CountStitched(kamis, before[..i])
      {
        assert before[..i + 1][..i] == before[..i];
        var a := actions[i];
        if a.kamiId.None? && a.Stitchable() {
          var kid := Resolve(kamis, a.harvestId);
          if kid.Some? {
            actions[i] := a.(kamiId := kid);
            n := n + 1;
          }
        }
      }
      assert before[..actions.Length] == before;
    }
  }
}
