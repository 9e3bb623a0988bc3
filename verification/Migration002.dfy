/** The offline stitch (migrations/002_add_harvest_id_column.py): SQL updates of the whole
    kami_action table, which must agree with what the live resolver does row by row. */
module Migration002 {
  import opened Wrappers
  import opened Decimal
  import opened Records
  import opened Storage
  import opened HarvestResolver

  type Table = map<string, Action>

  // ---------- harvest_id backfill ----------

  // json_extract_string(metadata_json, '$.harvest_id'), with `render` for the value's text.
  function MetaHarvestId(render: MetaValue -> string, a: Action): Option<string> {
    if "harvest_id" in a.metadata then Some(render(a.metadata["harvest_id"])) else None
  }

  function FillFromMetadata(render: MetaValue -> string, a: Action): Action {
    if a.Stitchable() && a.harvestId.None? then a.(harvestId := MetaHarvestId(render, a)) else a
  }

  // A start row without a harvest id whose kami id is a number.
  predicate NeedsHarvestId(a: Action) {
    a.actionType.HarvestStart? && a.harvestId.None? && a.kamiId.Some?
  }

  function FillFromKami(h: HarvestHash, a: Action): Action {
    if NeedsHarvestId(a) && ParseDecimal(a.kamiId.value).Some?
    then a.(harvestId := Some(HarvestIdOf(h, ParseDecimal(a.kamiId.value).value)))
    else a
  }

  // A stop or collect row without a harvest id takes the one in its metadata; others stay.
  predicate FilledFromMetadata(render: MetaValue -> string, a: Action, a': Action) {
    if (a.actionType.HarvestStop? || a.actionType.HarvestCollect?) && a.harvestId.None? && "harvest_id" in a.metadata
    then a' == a.(harvestId := Some(render(a.metadata["harvest_id"])))
    else a' == a
  }

  // A start row without a harvest id whose kami id is a number takes that kami's; others stay.
  predicate FilledFromKami(h: HarvestHash, a: Action, a': Action) {
    if a.actionType.HarvestStart? && a.harvestId.None? && a.kamiId.Some? && ParseDecimal(a.kamiId.value).Some?
    then a' == a.(harvestId := Some(HarvestIdOf(h, ParseDecimal(a.kamiId.value).value)))
    else a' == a
  }

  lemma MetadataFilled(render: MetaValue -> string, a: Action, a': Action)
    ensures FilledFromMetadata(render, a, a') <==> a' == FillFromMetadata(render, a)
  {
  }

  lemma KamiFilled(h: HarvestHash, a: Action, a': Action)
    ensures FilledFromKami(h, a, a') <==> a' == FillFromKami(h, a)
  {
  }

  method BackfillFromMetadata(store: Store, render: MetaValue -> string)
    modifies store`kamiAction
    ensures store.kamiAction.Keys == old(store.kamiAction).Keys
    ensures forall id | id in store.kamiAction :: FilledFromMetadata(render, old(store.kamiAction)[id], store.kamiAction[id])
  {
    var t := store.kamiAction;
    store.kamiAction := map id | id in t :: FillFromMetadata(render, t[id]);
    forall id | id in t {
      MetadataFilled(render, t[id], store.kamiAction[id]);
    }
  }

  // The kami ids that get a harvest id computed.
  function KamisToFill(t: Table): set<string> {
    set id | id in t && NeedsHarvestId(t[id]) && ParseDecimal(t[id].kamiId.value).Some? :: t[id].kamiId.value
  }

  method BuildHidMap(h: HarvestHash, t: Table) returns (hidMap: map<string, string>)
    ensures hidMap.Keys == KamisToFill(t)
    ensures forall kid | kid in hidMap :: hidMap[kid] == HarvestIdOf(h, ParseDecimal(kid).value)
  {
    var kids := set id | id in t && NeedsHarvestId(t[id]) :: t[id].kamiId.value;
    hidMap := map[];
    var todo := kids;
    while todo != {}
      invariant todo <= kids
      invariant forall kid :: kid in hidMap <==> kid in kids - todo && ParseDecimal(kid).Some?
      invariant forall kid | kid in hidMap :: hidMap[kid] == HarvestIdOf(h, ParseDecimal(kid).value)
      decreases |todo|
    {
      var kid :| kid in todo;
      var k := ParseDecimal(kid);
      if k.Some? {
        hidMap := hidMap[kid := HarvestIdOf(h, k.value)];
      }
      todo := todo - {kid};
    }
  }

  function JoinHidMap(hidMap: map<string, string>, a: Action): Action {
    if NeedsHarvestId(a) && a.kamiId.value in hidMap then a.(harvestId := Some(hidMap[a.kamiId.value])) else a
  }

  // The map built in Python, then one UPDATE that joins with it.
  method BackfillFromKami(store: Store, h: HarvestHash) returns (n: nat)
    modifies store`kamiAction
    ensures store.kamiAction.Keys == old(store.kamiAction).Keys
    ensures forall id | id in store.kamiAction :: FilledFromKami(h, old(store.kamiAction)[id], store.kamiAction[id])
    ensures n == |KamisToFill(old(store.kamiAction))|
  {
    var t := store.kamiAction;
    var hidMap := BuildHidMap(h, t);
    store.kamiAction := map id | id in t :: JoinHidMap(hidMap, t[id]);
    n := |hidMap.Keys|;
    forall id | id in t ensures JoinHidMap(hidMap, t[id]) == FillFromKami(h, t[id]) {
      JoinIsFill(h, t, hidMap, id);
    }
    forall id | id in t {
      KamiFilled(h, t[id], store.kamiAction[id]);
    }
  }

  lemma JoinIsFill(h: HarvestHash, t: Table, hidMap: map<string, string>, id: string)
    requires id in t && hidMap.Keys == KamisToFill(t)
    requires forall kid | kid in hidMap :: hidMap[kid] == HarvestIdOf(h, ParseDecimal(kid).value)
    ensures JoinHidMap(hidMap, t[id]) == FillFromKami(h, t[id])
  {
    if NeedsHarvestId(t[id]) {
      assert t[id].kamiId.value in hidMap.Keys <==> ParseDecimal(t[id].kamiId.value).Some?;
    }
  }

  // Backfilled start rows satisfy the pair invariant whatever the table said before; rows
  // backfilled from metadata satisfy it if the metadata does.
  lemma BackfillKeepsPairs(h: HarvestHash, render: MetaValue -> string, a: Action)
    requires PairOk(h, a)
    requires a.Stitchable() && a.kamiId.Some? && a.harvestId.None? && MetaHarvestId(render, a).Some?
             ==> Pairs(h, a.kamiId.value, MetaHarvestId(render, a).value)
    ensures PairOk(h, FillFromKami(h, FillFromMetadata(render, a)))
    ensures FillFromKami(h, FillFromKami(h, FillFromMetadata(render, a))) == FillFromKami(h, FillFromMetadata(render, a))
    ensures FillFromMetadata(render, FillFromKami(h, FillFromMetadata(render, a))) == FillFromKami(h, FillFromMetadata(render, a))
  {
  }

  // ---------- kami_id stitch ----------

  // A row that either pass may set.
  predicate Waiting(a: Action) {
    a.kamiId.None? && a.Stitchable() && a.harvestId.Some?
  }

  function WaitingIds(t: Table): set<string> {
    set id | id in t && Waiting(t[id])
  }

  function SetKami(a: Action, kid: string): Action {
    a.(kamiId := Some(kid))
  }

  predicate IsStartOf(t: Table, s: string, hid: Option<string>) {
    s in t && t[s].actionType.HarvestStart? && t[s].harvestId == hid && t[s].kamiId.Some?
  }

  // First UPDATE: a waiting row takes the kami of some start row with its harvest id; with
  // several, the engine may take any.
  ghost predicate FirstPassRow(t: Table, a: Action, a': Action) {
    if Waiting(a) && exists s :: IsStartOf(t, s, a.harvestId)
    then exists s :: IsStartOf(t, s, a.harvestId) && a' == SetKami(a, t[s].kamiId.value)
    else a' == a
  }

  // The row has a kami id, and `hid` is that kami's harvest id.
  ghost predicate Known(h: HarvestHash, t: Table, hid: string) {
    exists id :: id in t && Shows(h, t[id], hid)
  }

  // `kid` is a kami id of the table, with harvest id `hid`.
  ghost predicate KnownAs(h: HarvestHash, t: Table, hid: string, kid: string) {
    exists id :: id in t && t[id].kamiId == Some(kid) && Pairs(h, kid, hid)
  }

  // Second UPDATE: a waiting row takes a kami of the table that has its harvest id.
  ghost predicate SecondPassRow(h: HarvestHash, t: Table, a: Action, a': Action) {
    if Waiting(a) && Known(h, t, a.harvestId.value)
    then exists kid :: KnownAs(h, t, a.harvestId.value, kid) && a' == SetKami(a, kid)
    else a' == a
  }

  ghost predicate FirstPassed(t: Table, t': Table) {
    t'.Keys == t.Keys && forall id | id in t :: FirstPassRow(t, t[id], t'[id])
  }

  ghost predicate Stitched(h: HarvestHash, t: Table, t': Table) {
    t'.Keys == t.Keys && forall id | id in t :: SecondPassRow(h, t, t[id], t'[id])
  }

  method FirstPass(store: Store)
    modifies store`kamiAction
    ensures FirstPassed(old(store.kamiAction), store.kamiAction)
  {
    var t := store.kamiAction;
    var starts := set s | s in t && t[s].actionType.HarvestStart? && t[s].harvestId.Some? && t[s].kamiId.Some?;
    var todo := t.Keys;
    while todo != {}
      invariant todo <= t.Keys && store.kamiAction.Keys == t.Keys
      invariant forall id | id in todo :: store.kamiAction[id] == t[id]
      invariant forall id | id in t.Keys - todo :: FirstPassRow(t, t[id], store.kamiAction[id])
      decreases |todo|
    {
      var id :| id in todo;
      var a := t[id];
      if Waiting(a) && exists s :: s in starts && t[s].harvestId == a.harvestId {
        var s :| s in starts && t[s].harvestId == a.harvestId;
        assert IsStartOf(t, s, a.harvestId);
        store.kamiAction := store.kamiAction[id := SetKami(a, t[s].kamiId.value)];
      } else {
        assert Waiting(a) ==> forall s | IsStartOf(t, s, a.harvestId) :: s in starts;
      }
      todo := todo - {id};
    }
  }

  // The (harvest_id, kami_id) universe: INSERT OR IGNORE, so the first kami wins.
  method BuildUniverse(h: HarvestHash, t: Table) returns (universe: map<string, string>)
    ensures forall hid :: hid in universe <==> Known(h, t, hid)
    ensures forall hid | hid in universe :: KnownAs(h, t, hid, universe[hid])
  {
    var kids := set id | id in t && t[id].kamiId.Some? :: t[id].kamiId.value;
    universe := map[];
    var todo := kids;
    while todo != {}
      invariant todo <= kids
      invariant forall kid | kid in kids - todo && ParseDecimal(kid).Some? ::
                  HarvestIdOf(h, ParseDecimal(kid).value) in universe
      invariant forall hid | hid in universe :: KnownAs(h, t, hid, universe[hid])
      decreases |todo|
    {
      var kid :| kid in todo;
      var k := ParseDecimal(kid);
      if k.Some? && HarvestIdOf(h, k.value) !in universe {
        var id :| id in t && t[id].kamiId == Some(kid);
        assert KnownAs(h, t, HarvestIdOf(h, k.value), kid);
        universe := universe[HarvestIdOf(h, k.value) := kid];
      }
      todo := todo - {kid};
    }
    forall hid ensures hid in universe <==> Known(h, t, hid) {
      if id :| id in t && Shows(h, t[id], hid) {
        assert t[id].kamiId.value in kids;
      }
      if hid in universe {
        var id :| id in t && t[id].kamiId == Some(universe[hid]) && Pairs(h, universe[hid], hid);
        assert Shows(h, t[id], hid);
      }
    }
  }

  method SecondPass(store: Store, h: HarvestHash)
    modifies store`kamiAction
    ensures Stitched(h, old(store.kamiAction), store.kamiAction)
  {
    var t := store.kamiAction;
    var universe := BuildUniverse(h, t);
    store.kamiAction := map id | id in t ::
      if Waiting(t[id]) && t[id].harvestId.value in universe then SetKami(t[id], universe[t[id].harvestId.value]) else t[id];
    forall id | id in t ensures SecondPassRow(h, t, t[id], store.kamiAction[id]) {
    }
  }

  // Both passes. The count is the number of rows that found their kami.
  method StitchViaHarvestId(store: Store, h: HarvestHash) returns (n: nat)
    modifies store`kamiAction
    ensures PairInvariant(h, old(store.kamiAction)) ==> Stitched(h, old(store.kamiAction), store.kamiAction)
    ensures n == |WaitingIds(old(store.kamiAction)) - WaitingIds(store.kamiAction)|
  {
    hide FirstPassRow, SecondPassRow;
    ghost var t := store.kamiAction;
    var before := |WaitingIds(store.kamiAction)|;
    FirstPass(store);
    ghost var mid := store.kamiAction;
    SecondPass(store, h);
    if PairInvariant(h, t) {
      TwoPasses(h, t, mid, store.kamiAction);
    }
    PassesOnlyFill(h, t, mid, store.kamiAction);
    assert WaitingIds(t) == (WaitingIds(t) - WaitingIds(store.kamiAction)) + WaitingIds(store.kamiAction);
    n := before - |WaitingIds(store.kamiAction)|;
  }

  lemma PassesOnlyFill(h: HarvestHash, t: Table, mid: Table, t': Table)
    requires FirstPassed(t, mid) && Stitched(h, mid, t')
    ensures WaitingIds(t') <= WaitingIds(t)
  {
    forall id | id in WaitingIds(t') ensures id in WaitingIds(t) {
      assert FirstPassRow(t, t[id], mid[id]);
      assert SecondPassRow(h, mid, mid[id], t'[id]);
    }
  }

  // A kami id that the first pass copies from a start row is the row's own kami.
  lemma FirstPassSound(h: HarvestHash, t: Table, mid: Table, id: string)
    requires PairInvariant(h, t) && FirstPassed(t, mid) && id in t
    ensures mid[id] == t[id]
            || (Waiting(t[id]) && mid[id].kamiId.Some? && mid[id] == SetKami(t[id], mid[id].kamiId.value)
                && KnownAs(h, t, t[id].harvestId.value, mid[id].kamiId.value))
  {
    assert FirstPassRow(t, t[id], mid[id]);
    if mid[id] != t[id] {
      var s :| IsStartOf(t, s, t[id].harvestId) && mid[id] == SetKami(t[id], t[s].kamiId.value);
      assert PairOk(h, t[s]);
      assert KnownAs(h, t, t[id].harvestId.value, t[s].kamiId.value);
    }
  }

  // So the first pass tells the second nothing it would not have known.
  lemma FirstPassSameKnowledge(h: HarvestHash, t: Table, mid: Table, hid: string)
    requires PairInvariant(h, t) && FirstPassed(t, mid)
    ensures Known(h, mid, hid) <==> Known(h, t, hid)
    ensures forall kid :: KnownAs(h, mid, hid, kid) ==> KnownAs(h, t, hid, kid)
  {
    if id :| id in t && Shows(h, t[id], hid) {
      FirstPassSound(h, t, mid, id);
      assert Shows(h, mid[id], hid);
    }
    forall kid | KnownAs(h, mid, hid, kid) ensures KnownAs(h, t, hid, kid) {
      var id :| id in mid && mid[id].kamiId == Some(kid) && Pairs(h, kid, hid);
      FirstPassSound(h, t, mid, id);
      if mid[id] != t[id] {
        var id2 :| id2 in t && t[id2].kamiId == Some(kid);
      }
    }
    if id :| id in mid && Shows(h, mid[id], hid) {
      assert KnownAs(h, mid, hid, mid[id].kamiId.value);
      var id2 :| id2 in t && t[id2].kamiId == mid[id].kamiId && Pairs(h, mid[id].kamiId.value, hid);
      assert Shows(h, t[id2], hid);
    }
  }

  // On a table of correct pairs, the two passes are one: every waiting row whose harvest id
  // is known anywhere in the table gets a kami with that harvest id, and no other row changes.
  lemma TwoPasses(h: HarvestHash, t: Table, mid: Table, t': Table)
    requires PairInvariant(h, t) && FirstPassed(t, mid) && Stitched(h, mid, t')
    ensures Stitched(h, t, t')
  {
    forall id | id in t ensures SecondPassRow(h, t, t[id], t'[id]) {
      FirstPassSound(h, t, mid, id);
      assert SecondPassRow(h, mid, mid[id], t'[id]);
      if Waiting(t[id]) {
        var hid := t[id].harvestId.value;
        FirstPassSameKnowledge(h, t, mid, hid);
        if mid[id] != t[id] {
          var kid := mid[id].kamiId.value;
          var src :| src in t && t[src].kamiId == Some(kid) && Pairs(h, kid, hid);
          assert Shows(h, t[src], hid);
        }
      }
    }
  }

  // ---------- Offline against online ----------

  function StitchTable(m: KamiMap, t: Table): Table {
    map id | id in t :: StitchRow(m, t[id])
  }

  ghost predicate CanonicalIds(t: Table) {
    forall id | id in t && t[id].kamiId.Some? :: Canonical(t[id].kamiId.value)
  }

  // Two kami ids of the table with the harvest id of a waiting row are the same string.
  ghost predicate OneSpelling(h: HarvestHash, t: Table) {
    forall id, k1, k2 | id in t && Waiting(t[id]) && KnownFor(h, t, id, k1) && KnownFor(h, t, id, k2) :: k1 == k2
  }

  // `kid` is a kami id that the waiting row under id may take.
  ghost predicate KnownFor(h: HarvestHash, t: Table, id: string, kid: string)
    requires id in t && Waiting(t[id])
  {
    KnownAs(h, t, t[id].harvestId.value, kid)
  }

  // Canonical ids have one spelling.
  lemma CanonicalIsOneSpelling(h: HarvestHash, t: Table)
    requires Injective(h) && CanonicalIds(t)
    ensures OneSpelling(h, t)
  {
    forall id, k1, k2 | id in t && Waiting(t[id]) && KnownFor(h, t, id, k1) && KnownFor(h, t, id, k2) ensures k1 == k2 {
      var hid := t[id].harvestId.value;
      PairsUnique(h, k1, k2, hid);
      var i1 :| i1 in t && t[i1].kamiId == Some(k1);
      var i2 :| i2 in t && t[i2].kamiId == Some(k2);
      assert Canonical(t[i1].kamiId.value) && Canonical(t[i2].kamiId.value);
    }
  }

  lemma BootstrapKnows(h: HarvestHash, t: Table, m: KamiMap, hid: string)
    requires PairInvariant(h, t) && IsBootstrap(h, t, m)
    ensures hid in m <==> Known(h, t, hid)
    ensures hid in m ==> KnownAs(h, t, hid, m[hid])
  {
    if hid in m {
      BootstrapSound(h, t, m);
      var id :| id in t && t[id].kamiId == Some(m[hid]);
      assert Shows(h, t[id], hid);
    }
    if id :| id in t && Shows(h, t[id], hid) {
      assert hid in m;
    }
  }

  // The two rows are the same, except for how they spell one kami.
  predicate SameUpToSpelling(a: Action, b: Action) {
    && a.(kamiId := b.kamiId) == b
    && (a.kamiId != b.kamiId ==>
          && a.kamiId.Some? && b.kamiId.Some? && ParseDecimal(a.kamiId.value).Some?
          && ParseDecimal(a.kamiId.value) == ParseDecimal(b.kamiId.value))
  }

  lemma OfflineRow(h: HarvestHash, t: Table, m: KamiMap, a: Action, a': Action)
    requires Injective(h) && SecondPassRow(h, t, a, a')
    requires Waiting(a) ==> (a.harvestId.value in m <==> Known(h, t, a.harvestId.value))
    requires Waiting(a) && a.harvestId.value in m ==> KnownAs(h, t, a.harvestId.value, m[a.harvestId.value])
    ensures SameUpToSpelling(a', StitchRow(m, a))
    ensures a' != StitchRow(m, a) ==>
              Waiting(a) && exists k1, k2 :: k1 != k2 && KnownAs(h, t, a.harvestId.value, k1) && KnownAs(h, t, a.harvestId.value, k2)
  {
    if Waiting(a) && Known(h, t, a.harvestId.value) {
      var hid := a.harvestId.value;
      var kid :| KnownAs(h, t, hid, kid) && a' == SetKami(a, kid);
      assert hid == ToDecimal(h(ParseDecimal(kid).value));
      PairsUnique(h, kid, m[hid], hid);
    }
  }

  lemma OfflineRowOf(h: HarvestHash, t: Table, t': Table, m: KamiMap, id: string)
    requires Injective(h) && PairInvariant(h, t) && Stitched(h, t, t') && IsBootstrap(h, t, m) && id in t
    ensures SameUpToSpelling(t'[id], StitchRow(m, t[id]))
    ensures OneSpelling(h, t) ==> t'[id] == StitchRow(m, t[id])
  {
    hide StitchRow, SameUpToSpelling;
    if Waiting(t[id]) {
      BootstrapKnows(h, t, m, t[id].harvestId.value);
    }
    OfflineRow(h, t, m, t[id], t'[id]);
    if t'[id] != StitchRow(m, t[id]) {
      var k1, k2 :| k1 != k2 && KnownAs(h, t, t[id].harvestId.value, k1) && KnownAs(h, t, t[id].harvestId.value, k2);
      assert KnownFor(h, t, id, k1) && KnownFor(h, t, id, k2);
    }
  }

  // On any table of correct pairs, migration 002 gives the table that a resolver bootstrapped
  // from it gives, whatever rows the engine or the queries prefer: always up to how a kami id
  // is spelled, and to the letter if there is one spelling to take.
  lemma OfflineIsOnline(h: HarvestHash, t: Table, t': Table, m: KamiMap)
    requires Injective(h) && PairInvariant(h, t) && Stitched(h, t, t') && IsBootstrap(h, t, m)
    ensures t'.Keys == StitchTable(m, t).Keys && forall id | id in t' :: SameUpToSpelling(t'[id], StitchTable(m, t)[id])
    ensures OneSpelling(h, t) ==> t' == StitchTable(m, t)
  {
    hide StitchRow, SameUpToSpelling, SecondPassRow, OneSpelling, IsBootstrap, PairInvariant;
    forall id | id in t
      ensures SameUpToSpelling(t'[id], StitchRow(m, t[id]))
      ensures OneSpelling(h, t) ==> t'[id] == StitchRow(m, t[id])
    {
      OfflineRowOf(h, t, t', m, id);
    }
  }

  // A kami the table knows for the harvest id.
  ghost function PickKid(h: HarvestHash, t: Table, hid: string): (kid: string)
    requires Known(h, t, hid)
    ensures KnownAs(h, t, hid, kid)
  {
    var id :| id in t && Shows(h, t[id], hid);
    assert KnownAs(h, t, hid, t[id].kamiId.value);
    t[id].kamiId.value
  }

  // With two spellings to take, the two may differ: the condition is exact.
  lemma TwoSpellingsDiffer(h: HarvestHash, t: Table) returns (t': Table, m: KamiMap)
    requires PairInvariant(h, t) && !OneSpelling(h, t)
    ensures Stitched(h, t, t') && IsBootstrap(h, t, m) && t' != StitchTable(m, t)
  {
    var id, k1, k2 :| id in t && Waiting(t[id]) && KnownFor(h, t, id, k1) && KnownFor(h, t, id, k2) && k1 != k2;
    var hid := t[id].harvestId.value;
    t' := PickTable(h, t, hid, k1);
    m := PickMap(h, t, hid, k2);
    assert t'[id].kamiId == Some(k1);
    KnownAsIsKnown(h, t, hid, k2);
    assert hid == ToDecimal(h(ParseDecimal(k2).value));
    assert StitchTable(m, t)[id].kamiId == Some(k2);
  }

  lemma KnownAsIsKnown(h: HarvestHash, t: Table, hid: string, kid: string)
    requires KnownAs(h, t, hid, kid)
    ensures Known(h, t, hid)
  {
    var id :| id in t && t[id].kamiId == Some(kid) && Pairs(h, kid, hid);
    assert Shows(h, t[id], hid);
  }

  lemma PickTable(h: HarvestHash, t: Table, hid: string, kid: string) returns (t': Table)
    requires KnownAs(h, t, hid, kid)
    ensures Stitched(h, t, t')
    ensures forall id | id in t && Waiting(t[id]) && t[id].harvestId.value == hid :: t'[id] == SetKami(t[id], kid)
  {
    KnownAsIsKnown(h, t, hid, kid);
    t' := map id | id in t ::
      if Waiting(t[id]) && Known(h, t, t[id].harvestId.value)
      then SetKami(t[id], if t[id].harvestId.value == hid then kid else PickKid(h, t, t[id].harvestId.value)) else t[id];
    forall id | id in t ensures SecondPassRow(h, t, t[id], t'[id]) {
    }
  }

  lemma PickMap(h: HarvestHash, t: Table, hid: string, kid: string) returns (m: KamiMap)
    requires PairInvariant(h, t) && KnownAs(h, t, hid, kid)
    ensures IsBootstrap(h, t, m) && hid in m && m[hid] == kid
  {
    KnownAsIsKnown(h, t, hid, kid);
    var hids := set id | id in t && t[id].kamiId.Some? && ParseDecimal(t[id].kamiId.value).Some?
                :: HarvestIdOf(h, ParseDecimal(t[id].kamiId.value).value);
    forall x ensures x in hids <==> Known(h, t, x) {
      if x in hids {
        var id :| id in t && t[id].kamiId.Some? && ParseDecimal(t[id].kamiId.value).Some?
                  && x == HarvestIdOf(h, ParseDecimal(t[id].kamiId.value).value);
        assert Shows(h, t[id], x);
      }
    }
    m := map x | x in hids :: if x == hid then kid else PickKid(h, t, x);
    forall id, x, k | id in t && QueriedPair(t[id], x, k) ensures x in m {
      assert PairOk(h, t[id]);
      assert Shows(h, t[id], x);
    }
    forall id, x | id in t && Shows(h, t[id], x) ensures x in m {
    }
    forall x | x in m ensures exists id :: id in t && t[id].kamiId == Some(m[x]) && Shows(h, t[id], x) {
      var id :| id in t && t[id].kamiId == Some(m[x]) && Pairs(h, m[x], x);
      assert Shows(h, t[id], x);
    }
  }

  // The stitched table still pairs its ids correctly, and a second run changes nothing.
  lemma StitchedTwice(h: HarvestHash, t: Table, t': Table, t'': Table)
    requires PairInvariant(h, t) && Stitched(h, t, t') && Stitched(h, t', t'')
    ensures PairInvariant(h, t')
    ensures t'' == t'
  {
    forall id | id in t' ensures PairOk(h, t'[id]) {
      StitchedSound(h, t, t', id);
    }
    forall id | id in t' ensures t''[id] == t'[id] {
      StitchedSound(h, t, t', id);
      assert SecondPassRow(h, t', t'[id], t''[id]);
      if Waiting(t'[id]) {
        StitchedSameKnowledge(h, t, t', t'[id].harvestId.value);
      }
    }
  }

  // A row that has a kami id keeps it; a row that gets one gets the right one.
  lemma StitchedSound(h: HarvestHash, t: Table, t': Table, id: string)
    requires PairInvariant(h, t) && Stitched(h, t, t') && id in t
    ensures t[id].kamiId.Some? ==> t'[id] == t[id]
    ensures PairOk(h, t'[id])
    ensures t'[id] != t[id] ==> Waiting(t[id]) && t'[id].kamiId.Some? && t'[id] == SetKami(t[id], t'[id].kamiId.value)
                                && KnownAs(h, t, t[id].harvestId.value, t'[id].kamiId.value)
    ensures Waiting(t'[id]) ==> !Known(h, t, t'[id].harvestId.value)
  {
    assert SecondPassRow(h, t, t[id], t'[id]);
    assert PairOk(h, t[id]);
  }

  lemma StitchedSameKnowledge(h: HarvestHash, t: Table, t': Table, hid: string)
    requires PairInvariant(h, t) && Stitched(h, t, t')
    ensures Known(h, t', hid) ==> Known(h, t, hid)
  {
    if id :| id in t' && Shows(h, t'[id], hid) {
      StitchedSound(h, t, t', id);
      if t'[id] != t[id] {
        var src :| src in t && t[src].kamiId == t'[id].kamiId;
        assert Shows(h, t[src], hid);
      }
    }
  }

  // ---------- The whole migration ----------

  function Filled(render: MetaValue -> string, h: HarvestHash, t: Table): Table {
    map id | id in t :: FillFromKami(h, FillFromMetadata(render, t[id]))
  }

  // The table's pairs are right, those still in the metadata included.
  ghost predicate MetadataPairs(render: MetaValue -> string, h: HarvestHash, t: Table) {
    forall id | id in t ::
      && PairOk(h, t[id])
      && (t[id].Stitchable() && t[id].kamiId.Some? && t[id].harvestId.None? && MetaHarvestId(render, t[id]).Some?
          ==> Pairs(h, t[id].kamiId.value, MetaHarvestId(render, t[id]).value))
  }

  method Run(store: Store, render: MetaValue -> string, h: HarvestHash) returns (nStarts: nat, nStitched: nat)
    modifies store`kamiAction
    ensures MetadataPairs(render, h, old(store.kamiAction)) ==>
              Stitched(h, Filled(render, h, old(store.kamiAction)), store.kamiAction)
    ensures nStarts == |KamisToFill(old(store.kamiAction))|
    ensures nStitched == |WaitingIds(Filled(render, h, old(store.kamiAction))) - WaitingIds(store.kamiAction)|
  {
    hide FilledFromMetadata, FilledFromKami, FillFromMetadata, FillFromKami, MetadataPairs, KamisToFill;
    ghost var t := store.kamiAction;
    BackfillFromMetadata(store, render);
    ghost var mid := store.kamiAction;
    nStarts := BackfillFromKami(store, h);
    BackfillIsFilled(render, h, t, mid, store.kamiAction);
    if MetadataPairs(render, h, t) {
      FilledPairs(render, h, t);
    }
    nStitched := StitchViaHarvestId(store, h);
  }

  lemma BackfillIsFilled(render: MetaValue -> string, h: HarvestHash, t: Table, mid: Table, t': Table)
    requires mid.Keys == t.Keys && forall id | id in mid :: FilledFromMetadata(render, t[id], mid[id])
    requires t'.Keys == mid.Keys && forall id | id in t' :: FilledFromKami(h, mid[id], t'[id])
    ensures t' == Filled(render, h, t) && KamisToFill(mid) == KamisToFill(t)
  {
    forall id | id in t ensures mid[id] == FillFromMetadata(render, t[id]) && t'[id] == FillFromKami(h, mid[id]) {
      MetadataFilled(render, t[id], mid[id]);
      KamiFilled(h, mid[id], t'[id]);
    }
    MetadataKeepsStarts(render, t, mid);
  }

  lemma MetadataKeepsStarts(render: MetaValue -> string, t: Table, t': Table)
    requires t'.Keys == t.Keys && forall id | id in t :: t'[id] == FillFromMetadata(render, t[id])
    ensures KamisToFill(t') == KamisToFill(t)
  {
    forall kid | kid in KamisToFill(t) ensures kid in KamisToFill(t') {
      var id :| id in t && NeedsHarvestId(t[id]) && t[id].kamiId.value == kid;
      assert NeedsHarvestId(t'[id]) && t'[id].kamiId.value == kid;
    }
  }

  lemma FilledPairs(render: MetaValue -> string, h: HarvestHash, t: Table)
    requires MetadataPairs(render, h, t)
    ensures PairInvariant(h, Filled(render, h, t))
    ensures Filled(render, h, Filled(render, h, t)) == Filled(render, h, t)
  {
    forall id | id in t {
      BackfillKeepsPairs(h, render, t[id]);
    }
  }

  // Running the whole migration again changes nothing.
  lemma RunTwice(render: MetaValue -> string, h: HarvestHash, t: Table, t': Table, t'': Table)
    requires MetadataPairs(render, h, t)
    requires Stitched(h, Filled(render, h, t), t') && Stitched(h, Filled(render, h, t'), t'')
    ensures t'' == t'
  {
    FilledPairs(render, h, t);
    var f := Filled(render, h, t);
    forall id | id in t ensures FillFromKami(h, FillFromMetadata(render, t'[id])) == t'[id] {
      BackfillKeepsPairs(h, render, t[id]);
      StitchedSound(h, f, t', id);
    }
    assert Filled(render, h, t') == t';
    StitchedTwice(h, f, t', t'');
  }
}
