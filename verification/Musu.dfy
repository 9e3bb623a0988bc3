/** Bounty drains read off a receipt's logs (ingester/musu.py). */
module Musu {
  import opened Wrappers
  import opened Decimal
  import opened Records

  const WORLD_ADDRESS := "0x2729174c265dbbd8416c6449e0e813e88f43d0e7"

  const COMPONENT_VALUE_SET_TOPIC0: seq<byte> := [
    0x6a, 0xc3, 0x1c, 0x38, 0x68, 0x2e, 0x01, 0x28, 0x24, 0x0c, 0xf6, 0x83, 0x16, 0xd7, 0xae, 0x75,
    0x10, 0x20, 0xd8, 0xf7, 0x1c, 0x61, 0x4e, 0x2a, 0x30, 0x27, 0x8a, 0xfc, 0xec, 0x8a, 0x60, 0x73]

  const VALUE_COMPONENT_ID: nat :=
    80678919686888423251211770875952264544944593537285580074425903087691541684961

  function DecodeUint256Bytes(data: seq<byte>): Option<nat> {
    if |data| < 96 then None
    else if FromBigEndian(data[32..64]) != 32 then None
    else Some(FromBigEndian(data[64..96]))
  }

  // The ABI encoding of a `bytes` value that holds one uint256: the offset of the only
  // dynamic part, the byte length, and the 32 content bytes.
  function EncodeUint256Bytes(v: nat): seq<byte>
    requires v < Pow256(32)
  {
    assert Pow256(32) > 32 by { Pow256Above(32, 32); }
    ToBigEndian(32, 32) + ToBigEndian(32, 32) + ToBigEndian(v, 32)
  }

  lemma {:induction false} Pow256Above(n: nat, bound: nat)
    requires bound <= 255 * n
    ensures Pow256(n) > bound
  {
    if n > 0 {
      Pow256Above(n - 1, if bound >= 255 then bound - 255 else 0);
    }
  }

  // The payload decoder inverts the encoding of every uint256.
  lemma PayloadRoundTrip(v: nat)
    requires v < Pow256(32)
    ensures DecodeUint256Bytes(EncodeUint256Bytes(v)) == Some(v)
  {
    Pow256Above(32, 32);
    BigEndianRoundTrip(32, 32);
    BigEndianRoundTrip(v, 32);
    var e := EncodeUint256Bytes(v);
    assert e[32..64] == ToBigEndian(32, 32);
    assert e[64..96] == ToBigEndian(v, 32);
  }

  // (entity, value) of a log that writes a number to the value component, else None.
  function ValueWrite(log: Log): Option<(nat, nat)> {
    if log.address != WORLD_ADDRESS then None
    else if |log.topics| == 0 then None
    else if log.topics[0] != COMPONENT_VALUE_SET_TOPIC0 then None
    else if |log.topics| < 4 then None
    else if FromBigEndian(log.topics[1]) != VALUE_COMPONENT_ID then None
    else
      var v := DecodeUint256Bytes(log.data);
      if v.None? then None else Some((FromBigEndian(log.topics[3]), v.value))
  }

  // The log is the World's record of a number written to the value component: three indexed
  // fields after the event's own, and one 32-byte word of content after offset and length.
  predicate IsValueLog(log: Log) {
    && log.address == "0x2729174c265dbbd8416c6449e0e813e88f43d0e7"
    && |log.topics| >= 4
    && log.topics[0] == COMPONENT_VALUE_SET_TOPIC0
    && FromBigEndian(log.topics[1]) == VALUE_COMPONENT_ID
    && |log.data| >= 96 && FromBigEndian(log.data[32..64]) == 32
  }

  predicate Writes(log: Log, entity: nat, v: nat) {
    IsValueLog(log) && entity == FromBigEndian(log.topics[3]) && v == FromBigEndian(log.data[64..96])
  }

  // The order-free reading of a receipt: `v` was written to `entity` by some log.
  ghost predicate Wrote(logs: seq<Log>, entity: nat, v: nat) {
    exists log :: log in logs && Writes(log, entity, v)
  }

  // `v` is what the receipt drained from `entity`: it is the largest value written there,
  // it is positive, and a zero was written there too.
  ghost predicate Drained(logs: seq<Log>, entity: nat, v: nat) {
    && v > 0
    && Wrote(logs, entity, 0)
    && Wrote(logs, entity, v)
    && (forall u: nat | Wrote(logs, entity, u) :: u <= v)
  }

  // `drains` is exactly the set of drains of the receipt.
  ghost predicate AreDrains(logs: seq<Log>, drains: map<nat, nat>) {
    forall e: nat, v: nat :: (e in drains && drains[e] == v) <==> Drained(logs, e, v)
  }

  // The decoder's early exits accept exactly these logs, and read exactly these numbers.
  lemma ValueWriteIff(log: Log, entity: nat, v: nat)
    ensures ValueWrite(log) == Some((entity, v)) <==> Writes(log, entity, v)
    ensures ValueWrite(log).Some? <==> IsValueLog(log)
  {
  }

  // The values written to `entity`, in log order.
  function WritesTo(logs: seq<Log>, entity: nat): seq<nat> {
    if logs == [] then []
    else
      var rest := WritesTo(logs[..|logs| - 1], entity);
      var w := ValueWrite(logs[|logs| - 1]);
      if w.Some? && w.value.0 == entity then rest + [w.value.1] else rest
  }

  lemma {:induction false} WritesToAreWrites(logs: seq<Log>, entity: nat, v: nat)
    ensures v in WritesTo(logs, entity) <==> Wrote(logs, entity, v)
  {
    if logs != [] {
      var init, last := logs[..|logs| - 1], logs[|logs| - 1];
      WritesToAreWrites(init, entity, v);
      assert logs == init + [last];
      ValueWriteIff(last, entity, v);
      if Wrote(logs, entity, v) {
        var log :| log in logs && Writes(log, entity, v);
        if log in init {
          assert Wrote(init, entity, v);
        }
      }
      forall log | log in init ensures log in logs {
      }
    }
  }

  method MaxOf(values: seq<nat>) returns (m: nat)
    requires values != []
    ensures m in values && forall i | 0 <= i < |values| :: values[i] <= m
  {
    m := values[0];
    for i := 1 to |values|
      invariant m in values && forall j | 0 <= j < i :: values[j] <= m
    {
      if values[i] > m {
        m := values[i];
      }
    }
  }

  method Positive(values: seq<nat>) returns (nonZero: seq<nat>)
    ensures forall v :: v in nonZero <==> v in values && v > 0
  {
    nonZero := [];
    for i := 0 to |values|
      invariant forall v :: v in nonZero <==> v in values[..i] && v > 0
    {
      if values[i] > 0 {
        nonZero := nonZero + [values[i]];
      }
    }
  }

  // First loop of decode_musu_drains: the written values grouped by entity.
  method GroupByEntity(logs: seq<Log>) returns (byEntity: map<nat, seq<nat>>)
    ensures forall e :: e in byEntity <==> WritesTo(logs, e) != []
    ensures forall e | e in byEntity :: byEntity[e] == WritesTo(logs, e)
  {
    byEntity := map[];
    for i := 0 to |logs|
      invariant forall e :: e in byEntity <==> WritesTo(logs[..i], e) != []
      invariant forall e | e in byEntity :: byEntity[e] == WritesTo(logs[..i], e)
    {
      assert logs[..i + 1][..i] == logs[..i];
      var w := ValueWrite(logs[i]);
      if w.Some? {
        var (entity, value) := w.value;
        var prior := if entity in byEntity then byEntity[entity] else [];
        byEntity := byEntity[entity := prior + [value]];
      }
    }
    assert logs[..|logs|] == logs;
  }

  method DecodeMusuDrains(logs: seq<Log>) returns (drains: map<nat, nat>)
    ensures AreDrains(logs, drains)
  {
    var byEntity := GroupByEntity(logs);
    drains := map[];
    var todo := byEntity.Keys;
    while todo != {}
      invariant todo <= byEntity.Keys
      invariant drains.Keys <= byEntity.Keys - todo
      invariant forall e, v | e in byEntity.Keys - todo ::
                  (e in drains && drains[e] == v) <==> Drained(logs, e, v)
      decreases |todo|
    {
      var e :| e in todo;
      var values := byEntity[e];
      var nonZero := Positive(values);
      forall v: nat ensures v in values <==> Wrote(logs, e, v) {
        WritesToAreWrites(logs, e, v);
      }
      if nonZero != [] && 0 in values {
        var m := MaxOf(nonZero);
        assert m in values;
        drains := drains[e := m];
      }
      todo := todo - {e};
    }
    forall e: nat, v: nat ensures (e in drains && drains[e] == v) <==> Drained(logs, e, v) {
      if e !in byEntity {
        WritesToAreWrites(logs, e, 0);
      }
    }
  }

  function Largest(values: seq<nat>): (m: nat)
    requires values != []
    ensures m in values && forall i | 0 <= i < |values| :: values[i] <= m
  {
    if |values| == 1 then values[0]
    else
      var m := Largest(values[..|values| - 1]);
      if values[|values| - 1] > m then values[|values| - 1] else m
  }

  // The drains of a receipt as a function of its logs, for specifications.
  function DrainsOf(logs: seq<Log>): (drains: map<nat, nat>)
    ensures AreDrains(logs, drains)
  {
    var entities := set log | log in logs && ValueWrite(log).Some? :: ValueWrite(log).value.0;
    var drains := map e | e in entities && 0 in WritesTo(logs, e) && Largest(WritesTo(logs, e)) > 0
                        :: Largest(WritesTo(logs, e));
    assert AreDrains(logs, drains) by {
      forall e: nat, v: nat ensures (e in drains && drains[e] == v) <==> Drained(logs, e, v) {
        forall u: nat ensures u in WritesTo(logs, e) <==> Wrote(logs, e, u) {
          WritesToAreWrites(logs, e, u);
        }
        if log :| log in logs && Writes(log, e, 0) {
          ValueWriteIff(log, e, 0);
        }
      }
    }
    drains
  }

  // The specification leaves no freedom: it determines the map.
  lemma DrainsUnique(logs: seq<Log>, d1: map<nat, nat>, d2: map<nat, nat>)
    requires AreDrains(logs, d1) && AreDrains(logs, d2)
    ensures d1 == d2
  {
    forall e ensures e in d1 <==> e in d2 {
      if e in d1 {
        assert Drained(logs, e, d1[e]);
      }
      if e in d2 {
        assert Drained(logs, e, d2[e]);
      }
    }
    forall e | e in d1 ensures d1[e] == d2[e] {
      assert Drained(logs, e, d1[e]);
    }
  }

  lemma AreDrainsOfSameWrites(logs1: seq<Log>, logs2: seq<Log>, drains: map<nat, nat>)
    requires AreDrains(logs2, drains)
    requires forall e: nat, v: nat :: Wrote(logs1, e, v) <==> Wrote(logs2, e, v)
    ensures AreDrains(logs1, drains)
  {
    forall e: nat, v: nat ensures Drained(logs1, e, v) <==> Drained(logs2, e, v) {
      assert Wrote(logs1, e, 0) <==> Wrote(logs2, e, 0);
    }
  }

  // Reordering the logs of a receipt changes no drain.
  lemma DrainsPermutation(logs1: seq<Log>, logs2: seq<Log>)
    requires multiset(logs1) == multiset(logs2)
    ensures DrainsOf(logs1) == DrainsOf(logs2)
  {
    var d1, d2 := DrainsOf(logs1), DrainsOf(logs2);
    assert forall log :: log in logs1 <==> log in multiset(logs1);
    assert forall log :: log in logs2 <==> log in multiset(logs2);
    AreDrainsOfSameWrites(logs1, logs2, d2);
    DrainsUnique(logs1, d1, d2);
  }

  // Entities are independent: logs that write elsewhere do not affect an entity's drain.
  lemma DrainsIndependent(logs1: seq<Log>, logs2: seq<Log>, e: nat)
    requires forall v: nat :: Wrote(logs1, e, v) <==> Wrote(logs2, e, v)
    ensures e in DrainsOf(logs1) <==> e in DrainsOf(logs2)
    ensures e in DrainsOf(logs1) ==> DrainsOf(logs1)[e] == DrainsOf(logs2)[e]
  {
    var d1, d2 := DrainsOf(logs1), DrainsOf(logs2);
    if e in d1 {
      assert Drained(logs1, e, d1[e]);
      assert Drained(logs2, e, d1[e]);
    }
    if e in d2 {
      assert Drained(logs2, e, d2[e]);
      assert Drained(logs1, e, d2[e]);
    }
  }

  // ---------- Which logs matter ----------

  lemma OneMoreLog(logs: seq<Log>, log: Log, e: nat, v: nat)
    ensures Wrote(logs + [log], e, v) <==> Wrote(logs, e, v) || Writes(log, e, v)
  {
    assert forall l :: l in logs + [log] <==> l in logs || l == log;
  }

  lemma OtherLogsIgnored(logs: seq<Log>, log: Log)
    requires !IsValueLog(log)
    ensures DrainsOf(logs + [log]) == DrainsOf(logs)
  {
    forall e: nat, v: nat ensures Wrote(logs + [log], e, v) <==> Wrote(logs, e, v) {
      OneMoreLog(logs, log, e, v);
    }
    AreDrainsOfSameWrites(logs + [log], logs, DrainsOf(logs));
    DrainsUnique(logs + [log], DrainsOf(logs + [log]), DrainsOf(logs));
  }

  // The same log with another number.
  function Rewritten(log: Log, v: nat): Log
    requires v < Pow256(32)
  {
    log.(data := EncodeUint256Bytes(v))
  }

  lemma RewrittenWrites(log: Log, v: nat)
    requires IsValueLog(log) && v < Pow256(32)
    ensures forall e: nat, u: nat :: Writes(Rewritten(log, v), e, u) <==> e == FromBigEndian(log.topics[3]) && u == v
  {
    PayloadRoundTrip(v);
  }

  lemma NoDrainWithoutZeroAndMore(logs: seq<Log>, e: nat, u: nat)
    requires forall x: nat :: Wrote(logs, e, x) <==> x == u
    ensures e !in DrainsOf(logs)
  {
    var drains := DrainsOf(logs);
    assert e in drains ==> Drained(logs, e, drains[e]);
  }

  // A value log can make the difference: after a zero its number is the drain, and after a
  // positive number its zero makes that the drain.
  lemma ValueLogCounts(log: Log) returns (logs: seq<Log>)
    requires IsValueLog(log)
    ensures DrainsOf(logs + [log]) != DrainsOf(logs)
  {
    Pow256Above(32, 1);
    var e, v := FromBigEndian(log.topics[3]), FromBigEndian(log.data[64..96]);
    var u := if v == 0 then 1 else 0;
    logs := [Rewritten(log, u)];
    RewrittenWrites(log, u);
    assert logs[0] in logs && forall l | l in logs :: l == logs[0];
    OneMoreLog(logs, log, e, 0);
    OneMoreLog(logs, log, e, u + v);
    forall x: nat ensures Wrote(logs + [log], e, x) <==> x == u || x == v {
      OneMoreLog(logs, log, e, x);
      assert Wrote(logs, e, x) <==> Writes(logs[0], e, x);
    }
    assert Drained(logs + [log], e, u + v);
    assert forall x: nat :: Wrote(logs, e, x) <==> x == u;
    NoDrainWithoutZeroAndMore(logs, e, u);
  }

  // A log changes no drain of any receipt exactly when it is not such a record: another
  // contract's, too few topics, another event or component, or content of another shape.
  lemma LogIgnoredIff(log: Log)
    ensures (forall logs :: DrainsOf(logs + [log]) == DrainsOf(logs)) <==> !IsValueLog(log)
  {
    if IsValueLog(log) {
      var logs := ValueLogCounts(log);
    } else {
      forall logs ensures DrainsOf(logs + [log]) == DrainsOf(logs) {
        OtherLogsIgnored(logs, log);
      }
    }
  }

  // musu_amount_for_harvest for a decimal harvest id.
  function MusuAmount(drains: map<nat, nat>, harvestId: Option<string>): Option<string> {
    if harvestId.None? || harvestId.value == "" then None
    else
      var h := ParseDecimal(harvestId.value);
      if h.None? || h.value !in drains then None else Some(ToDecimal(drains[h.value]))
  }

  // The number in an amount column, zero when it is NULL.
  function AmountValue(amount: Option<string>): nat {
    if amount.None? || ParseDecimal(amount.value).None? then 0
    else ParseDecimal(amount.value).value
  }

  lemma AmountOfDecimalId(drains: map<nat, nat>, h: nat)
    ensures AmountValue(MusuAmount(drains, Some(ToDecimal(h)))) == if h in drains then drains[h] else 0
  {
    DecimalRoundTrip(h);
    if h in drains {
      DecimalRoundTrip(drains[h]);
    }
  }

  function SumAmounts(drains: map<nat, nat>, ids: seq<nat>): nat {
    if ids == [] then 0
    else SumAmounts(drains, ids[1..]) + AmountValue(MusuAmount(drains, Some(ToDecimal(ids[0]))))
  }

  ghost function SumDrains(drains: map<nat, nat>, ids: set<nat>): nat
    decreases |ids|
  {
    if ids == {} then 0
    else
      var e :| e in ids;
      (if e in drains then drains[e] else 0) + SumDrains(drains, ids - {e})
  }

  lemma {:induction false} SumDrainsPick(drains: map<nat, nat>, ids: set<nat>, x: nat)
    requires x in ids
    ensures SumDrains(drains, ids) ==
            (if x in drains then drains[x] else 0) + SumDrains(drains, ids - {x})
    decreases |ids|
  {
    var e :| e in ids && SumDrains(drains, ids) ==
                         (if e in drains then drains[e] else 0) + SumDrains(drains, ids - {e});
    if e != x {
      SumDrainsPick(drains, ids - {e}, x);
      SumDrainsPick(drains, ids - {x}, e);
      assert ids - {e} - {x} == ids - {x} - {e};
    }
  }

  ghost function IdSet(ids: seq<nat>): set<nat> {
    set id | id in ids
  }

  // Conservation: over rows with distinct harvest ids, the amounts written add up to
  // exactly what was drained from those harvests.
  lemma {:induction false} AmountsConserveDrains(drains: map<nat, nat>, ids: seq<nat>)
    requires forall i, j | 0 <= i < j < |ids| :: ids[i] != ids[j]
    ensures SumAmounts(drains, ids) == SumDrains(drains, IdSet(ids))
  {
    if ids == [] {
      assert IdSet(ids) == {};
    } else {
      var x, all, rest := ids[0], IdSet(ids), IdSet(ids[1..]);
      AmountsConserveDrains(drains, ids[1..]);
      assert x !in rest;
      assert rest == all - {x} by {
        forall id | id in all - {x} ensures id in rest {
          var i :| 0 <= i < |ids| && ids[i] == id;
          assert ids[1..][i - 1] == id;
        }
      }
      SumDrainsPick(drains, all, x);
      AmountOfDecimalId(drains, x);
    }
  }
}
