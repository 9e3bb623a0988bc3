/** Per-kami modifier sums (SkillCatalog.compute_modifiers in ingester/skill_catalog.py). */
module Modifiers {
  import opened Rounding
  import opened Wrappers

  datatype Column =
    | StrainBoost | HarvestFertilityBoost | HarvestIntensityBoost | HarvestBountyBoost
    | RestRecoveryBoost | CooldownShift
    | AttackThresholdShift | AttackThresholdRatio | AttackSpoilsRatio
    | DefenseThresholdShift | DefenseThresholdRatio | DefenseSalvageRatio

  const ALL_COLUMNS: set<Column> :=
    {StrainBoost, HarvestFertilityBoost, HarvestIntensityBoost, HarvestBountyBoost,
     RestRecoveryBoost, CooldownShift,
     AttackThresholdShift, AttackThresholdRatio, AttackSpoilsRatio,
     DefenseThresholdShift, DefenseThresholdRatio, DefenseSalvageRatio}

  lemma AllColumns(col: Column)
    ensures col in ALL_COLUMNS
  {
    match col
    case StrainBoost => case HarvestFertilityBoost => case HarvestIntensityBoost => case HarvestBountyBoost =>
    case RestRecoveryBoost => case CooldownShift =>
    case AttackThresholdShift => case AttackThresholdRatio => case AttackSpoilsRatio =>
    case DefenseThresholdShift => case DefenseThresholdRatio => case DefenseSalvageRatio =>
  }

  // EFFECT_TO_COLUMN; the stat shifts SHS, SPS, SVS and SYS have no column.
  function ColumnOf(effect: string): Option<Column> {
    if effect == "SB" then Some(StrainBoost)
    else if effect == "HFB" then Some(HarvestFertilityBoost)
    else if effect == "HIB" then Some(HarvestIntensityBoost)
    else if effect == "HBB" then Some(HarvestBountyBoost)
    else if effect == "RMB" then Some(RestRecoveryBoost)
    else if effect == "CS" then Some(CooldownShift)
    else if effect == "ATS" then Some(AttackThresholdShift)
    else if effect == "ATR" then Some(AttackThresholdRatio)
    else if effect == "ASR" then Some(AttackSpoilsRatio)
    else if effect == "DTS" then Some(DefenseThresholdShift)
    else if effect == "DTR" then Some(DefenseThresholdRatio)
    else if effect == "DSR" then Some(DefenseSalvageRatio)
    else None
  }

  // The column an effect feeds.
  predicate Feeds(effect: string, col: Column) {
    (effect, col) in {
      ("SB", StrainBoost), ("HFB", HarvestFertilityBoost), ("HIB", HarvestIntensityBoost), ("HBB", HarvestBountyBoost),
      ("RMB", RestRecoveryBoost), ("CS", CooldownShift),
      ("ATS", AttackThresholdShift), ("ATR", AttackThresholdRatio), ("ASR", AttackSpoilsRatio),
      ("DTS", DefenseThresholdShift), ("DTR", DefenseThresholdRatio), ("DSR", DefenseSalvageRatio)}
  }

  // The chain of tests is that table.
  lemma ColumnOfIff(effect: string, col: Column)
    ensures ColumnOf(effect) == Some(col) <==> Feeds(effect, col)
  {
  }

  datatype SkillEntry = SkillEntry(effect: string, valuePerPt: int)
  datatype EquipEntry = EquipEntry(effect: string, value: int)
  datatype SkillPoints = SkillPoints(index: int, points: int)

  datatype Catalog = Catalog(skills: map<int, SkillEntry>, equipment: map<int, seq<EquipEntry>>)

  type Totals = map<Column, int>

  // ---------- What one line contributes ----------

  function SkillValue(c: Catalog, s: SkillPoints, col: Column): int {
    if s.index in c.skills && Feeds(c.skills[s.index].effect, col)
    then c.skills[s.index].valuePerPt * s.points
    else 0
  }

  function EntryValue(e: EquipEntry, col: Column): int {
    if Feeds(e.effect, col) then e.value else 0
  }

  function SumOver<T>(xs: seq<T>, f: T -> int): int {
    if xs == [] then 0 else SumOver(xs[..|xs| - 1], f) + f(xs[|xs| - 1])
  }

  function EntriesOf(c: Catalog, item: int): seq<EquipEntry> {
    if item in c.equipment then c.equipment[item] else []
  }

  function EntriesSum(entries: seq<EquipEntry>, col: Column): int {
    SumOver(entries, e => EntryValue(e, col))
  }

  function ItemValue(c: Catalog, item: int, col: Column): int {
    EntriesSum(EntriesOf(c, item), col)
  }

  function SkillSum(c: Catalog, skills: seq<SkillPoints>, col: Column): int {
    SumOver(skills, s => SkillValue(c, s, col))
  }

  function EquipSum(c: Catalog, items: seq<int>, col: Column): int {
    SumOver(items, item => ItemValue(c, item, col))
  }

  ghost predicate Complete(t: Totals) {
    forall col: Column :: col in t
  }

  // ---------- The loops ----------

  lemma SumSnoc<T>(xs: seq<T>, f: T -> int, i: nat)
    requires i < |xs|
    ensures SumOver(xs[..i + 1], f) == SumOver(xs[..i], f) + f(xs[i])
  {
    assert xs[..i + 1][..i] == xs[..i];
  }

  method AddSkills(c: Catalog, skills: seq<SkillPoints>, totals0: Totals) returns (totals: Totals)
    requires Complete(totals0)
    ensures Complete(totals) && forall col :: totals[col] == totals0[col] + SkillSum(c, skills, col)
  {
    hide Feeds, ColumnOf;
    totals := totals0;
    for i := 0 to |skills|
      invariant Complete(totals)
      invariant forall col :: totals[col] == totals0[col] + SkillSum(c, skills[..i], col)
    {
      var s := skills[i];
      forall col
        ensures SkillSum(c, skills[..i + 1], col) == SkillSum(c, skills[..i], col) + SkillValue(c, s, col)
        ensures s.index in c.skills ==>
                  (ColumnOf(c.skills[s.index].effect) == Some(col) <==> Feeds(c.skills[s.index].effect, col))
      {
        SumSnoc(skills, s => SkillValue(c, s, col), i);
        if s.index in c.skills {
          ColumnOfIff(c.skills[s.index].effect, col);
        }
      }
      if s.points != 0 && s.index in c.skills {
        var col := ColumnOf(c.skills[s.index].effect);
        if col.Some? {
          totals := totals[col.value := totals[col.value] + c.skills[s.index].valuePerPt * s.points];
        }
      }
    }
    assert skills[..|skills|] == skills;
  }

  method AddEntries(entries: seq<EquipEntry>, totals0: Totals) returns (totals: Totals)
    requires Complete(totals0)
    ensures Complete(totals) && forall col :: totals[col] == totals0[col] + EntriesSum(entries, col)
  {
    hide Feeds, ColumnOf;
    totals := totals0;
    for i := 0 to |entries|
      invariant Complete(totals)
      invariant forall col :: totals[col] == totals0[col] + EntriesSum(entries[..i], col)
    {
      forall col ensures EntriesSum(entries[..i + 1], col) == EntriesSum(entries[..i], col) + EntryValue(entries[i], col) {
        SumSnoc(entries, e => EntryValue(e, col), i);
      }
      forall col {
        ColumnOfIff(entries[i].effect, col);
      }
      var col := ColumnOf(entries[i].effect);
      if col.Some? {
        totals := totals[col.value := totals[col.value] + entries[i].value];
      }
    }
    assert entries[..|entries|] == entries;
  }

  // None stands for a missing or unparsable list. Each of the twelve columns is the sum of
  // points times value over the skills, plus the equipment values.
  method ComputeModifiers(c: Catalog, skills: Option<seq<SkillPoints>>, equips: Option<seq<int>>) returns (totals: Totals)
    ensures Complete(totals)
    ensures forall col :: totals[col] == (if skills.Some? then SkillSum(c, skills.value, col) else 0)
                                       + (if equips.Some? then EquipSum(c, equips.value, col) else 0)
  {
    totals := map col | col in ALL_COLUMNS :: 0;
    forall col: Column ensures col in ALL_COLUMNS {
      AllColumns(col);
    }
    if skills.Some? {
      totals := AddSkills(c, skills.value, totals);
    }
    if equips.Some? {
      ghost var before, items := totals, equips.value;
      for i := 0 to |equips.value|
        invariant Complete(totals)
        invariant forall col :: totals[col] == before[col] + EquipSum(c, items[..i], col)
      {
        forall col ensures EquipSum(c, items[..i + 1], col) == EquipSum(c, items[..i], col) + ItemValue(c, items[i], col) {
          SumSnoc(items, item => ItemValue(c, item, col), i);
        }
        totals := AddEntries(EntriesOf(c, equips.value[i]), totals);
      }
      assert items[..|items|] == items;
    }
  }

  // ---------- Properties ----------

  lemma SumOne<T>(x: T, f: T -> int)
    ensures SumOver([x], f) == f(x)
  {
    assert [x][..0] == [];
  }

  lemma SumTwo<T>(x: T, y: T, f: T -> int)
    ensures SumOver([x, y], f) == f(x) + f(y)
  {
    SumOne(x, f);
    assert [x, y][..1] == [x];
  }

  // One skill feeds one column, by its value times its points.
  lemma OneSkill(c: Catalog, s: SkillPoints, col: Column)
    requires s.index in c.skills
    ensures SkillSum(c, [s], col) == if Feeds(c.skills[s.index].effect, col) then s.points * c.skills[s.index].valuePerPt else 0
  {
    SumOne(s, s => SkillValue(c, s, col));
  }

  // One item feeds the columns of its effects, by their values.
  lemma OneItem(c: Catalog, item: int, e: EquipEntry, col: Column)
    requires item in c.equipment && c.equipment[item] == [e]
    ensures EquipSum(c, [item], col) == if Feeds(e.effect, col) then e.value else 0
  {
    SumOne(item, item => ItemValue(c, item, col));
    SumOne(e, e => EntryValue(e, col));
  }

  // Points may be split over several lines.
  lemma PointsAdd(c: Catalog, index: int, p: int, q: int, col: Column)
    ensures SkillSum(c, [SkillPoints(index, p + q)], col) == SkillSum(c, [SkillPoints(index, p), SkillPoints(index, q)], col)
  {
    SumOne(SkillPoints(index, p + q), s => SkillValue(c, s, col));
    SumTwo(SkillPoints(index, p), SkillPoints(index, q), s => SkillValue(c, s, col));
    if index in c.skills {
      var v := c.skills[index].valuePerPt;
      assert v * (p + q) == v * p + v * q;
    }
  }

  lemma {:induction false} SumAppend<T>(xs: seq<T>, ys: seq<T>, f: T -> int)
    ensures SumOver(xs + ys, f) == SumOver(xs, f) + SumOver(ys, f)
  {
    if ys == [] {
      assert xs + ys == xs;
    } else {
      var init := ys[..|ys| - 1];
      assert (xs + ys)[..|xs + ys| - 1] == xs + init;
      SumAppend(xs, init, f);
    }
  }

  lemma SumWithout<T>(xs: seq<T>, i: nat, f: T -> int)
    requires i < |xs|
    ensures SumOver(xs, f) == SumOver(xs[..i] + xs[i + 1..], f) + f(xs[i])
  {
    SumAppend(xs[..i], xs[i + 1..], f);
    SumAppend(xs[..i + 1], xs[i + 1..], f);
    SumSnoc(xs, f, i);
    assert xs == xs[..i + 1] + xs[i + 1..];
  }

  lemma SameRest<T>(xs: seq<T>, ys: seq<T>, i: nat)
    requires multiset(xs) == multiset(ys) && xs != [] && i < |ys| && ys[i] == xs[|xs| - 1]
    ensures multiset(xs[..|xs| - 1]) == multiset(ys[..i] + ys[i + 1..])
  {
    assert xs == xs[..|xs| - 1] + [ys[i]];
    assert ys == ys[..i] + [ys[i]] + ys[i + 1..];
    assert multiset(xs[..|xs| - 1]) == multiset(xs) - multiset{ys[i]};
  }

  lemma {:induction false} SumPermutation<T>(xs: seq<T>, ys: seq<T>, f: T -> int)
    requires multiset(xs) == multiset(ys)
    ensures SumOver(xs, f) == SumOver(ys, f)
  {
    if xs == [] {
      assert |ys| == |multiset(ys)| == 0;
    } else {
      var last := xs[|xs| - 1];
      assert last in multiset(xs);
      var i :| 0 <= i < |ys| && ys[i] == last;
      SameRest(xs, ys, i);
      SumPermutation(xs[..|xs| - 1], ys[..i] + ys[i + 1..], f);
      SumWithout(ys, i, f);
    }
  }

  function Without<T>(xs: seq<T>, drop: T -> bool): seq<T> {
    if xs == [] then []
    else
      var last := xs[|xs| - 1];
      Without(xs[..|xs| - 1], drop) + if drop(last) then [] else [last]
  }

  lemma {:induction false} SumIgnores<T>(xs: seq<T>, drop: T -> bool, f: T -> int)
    requires forall i | 0 <= i < |xs| :: drop(xs[i]) ==> f(xs[i]) == 0
    ensures SumOver(Without(xs, drop), f) == SumOver(xs, f)
  {
    if xs != [] {
      var init, last := xs[..|xs| - 1], xs[|xs| - 1];
      SumIgnores(init, drop, f);
      SumAppend(Without(init, drop), if drop(last) then [] else [last], f);
      assert [last][..0] == [];
    }
  }

  // The columns depend on neither list's order, and concatenated lists add up.
  lemma OrderFree(c: Catalog, skills: seq<SkillPoints>, skills': seq<SkillPoints>, items: seq<int>, items': seq<int>, col: Column)
    requires multiset(skills) == multiset(skills') && multiset(items) == multiset(items')
    ensures SkillSum(c, skills, col) == SkillSum(c, skills', col)
    ensures EquipSum(c, items, col) == EquipSum(c, items', col)
  {
    SumPermutation(skills, skills', s => SkillValue(c, s, col));
    SumPermutation(items, items', item => ItemValue(c, item, col));
  }

  lemma Additive(c: Catalog, skills: seq<SkillPoints>, skills': seq<SkillPoints>, items: seq<int>, items': seq<int>, col: Column)
    ensures SkillSum(c, skills + skills', col) == SkillSum(c, skills, col) + SkillSum(c, skills', col)
    ensures EquipSum(c, items + items', col) == EquipSum(c, items, col) + EquipSum(c, items', col)
  {
    SumAppend(skills, skills', s => SkillValue(c, s, col));
    SumAppend(items, items', item => ItemValue(c, item, col));
  }

  // A skill the catalog does not know, or one that shifts a stat, counts for nothing.
  predicate Inert(c: Catalog, s: SkillPoints) {
    s.points == 0 || s.index !in c.skills || c.skills[s.index].effect in ["SHS", "SPS", "SVS", "SYS"]
  }

  lemma InertValue(c: Catalog, s: SkillPoints, col: Column)
    ensures Inert(c, s) ==> SkillValue(c, s, col) == 0
  {
  }

  lemma InertIgnored(c: Catalog, skills: seq<SkillPoints>, col: Column)
    ensures SkillSum(c, Without(skills, s => Inert(c, s)), col) == SkillSum(c, skills, col)
  {
    forall i | 0 <= i < |skills| ensures Inert(c, skills[i]) ==> SkillValue(c, skills[i], col) == 0 {
      InertValue(c, skills[i], col);
    }
    SumIgnores(skills, s => Inert(c, s), s => SkillValue(c, s, col));
  }

  // ---------- Catalog values ----------

  const INTEGER_UNIT_EFFECTS: set<string> := {"HIB", "CS"}

  // The number that a catalog cell is rounded from: as it stands, or times 1000.
  function Scaled(effect: string, rawValue: real): real {
    if effect in INTEGER_UNIT_EFFECTS then rawValue else rawValue * 1000.0
  }

  function ScaleValue(effect: string, rawValue: real): int {
    RoundHalfEven(Scaled(effect, rawValue))
  }

  // Whole units for the intensity boost and the cooldown shift, thousandths for the rest; the
  // nearest whole number, ties to even.
  lemma ScaleValueNear(effect: string, rawValue: real)
    ensures var x, r := if effect == "HIB" || effect == "CS" then rawValue else 1000.0 * rawValue, ScaleValue(effect, rawValue);
            && -0.5 <= r as real - x <= 0.5
            && (r as real - x == 0.5 || x - r as real == 0.5 ==> r % 2 == 0)
  {
  }

  // The value is rounded half away from zero, as documented, except where the scaled number
  // is a tie and its neighbour away from zero is odd.
  lemma ScaleValueIff(effect: string, rawValue: real)
    ensures var x := Scaled(effect, rawValue);
            ScaleValue(effect, rawValue) == RoundHalfAway(x) <==> !IsTie(x) || AwayNeighbour(x) % 2 == 0
  {
    RoundingsAgreeIff(Scaled(effect, rawValue));
  }

  // 0.05 percent is such a tie: a catalog value of 0.0005 is stored as 0, not as 1.
  lemma ScaleValueWitness()
    ensures ScaleValue("DTS", 0.0005) == 0 && RoundHalfAway(Scaled("DTS", 0.0005)) == 1
  {
  }
}
