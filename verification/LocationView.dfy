/** The kami_current_location view (migrations/013_correct_kami_current_location_view.py):
    windowed maxima and a self-join, against a plain replay of the harvest events. */
module LocationView {
  import opened Wrappers
  import opened Decimal
  import opened Records
  import opened HarvestResolver

  // ---------- The query ----------
  // A table is a sequence in whatever order the engine scans it; every theorem holds for
  // all orders, so nothing depends on how ROW_NUMBER breaks ties.

  // A row of a relation keyed by kami: the kami, a time, and the node for start rows.
  datatype Mark = Mark(kami: string, ts: int, node: Option<string>)

  predicate IsActive(a: Action) {
    a.kamiId.Some? && (a.actionType.HarvestStart? || a.actionType.HarvestCollect?)
  }

  predicate IsStop(a: Action) {
    a.kamiId.Some? && a.actionType.HarvestStop?
  }

  predicate IsNodeStart(a: Action) {
    a.kamiId.Some? && a.actionType.HarvestStart? && a.nodeId.Some?
  }

  // active_events
  function ActiveMarks(rows: seq<Action>): seq<Mark> {
    if rows == [] then []
    else
      var a := rows[|rows| - 1];
      ActiveMarks(rows[..|rows| - 1]) + if IsActive(a) then [Mark(a.kamiId.value, a.blockTimestamp, None)] else []
  }

  // The input of last_start.
  function StartMarks(rows: seq<Action>): seq<Mark> {
    if rows == [] then []
    else
      var a := rows[|rows| - 1];
      StartMarks(rows[..|rows| - 1]) + if IsNodeStart(a) then [Mark(a.kamiId.value, a.blockTimestamp, a.nodeId)] else []
  }

  function StopMarks(rows: seq<Action>): seq<Mark> {
    if rows == [] then []
    else
      var a := rows[|rows| - 1];
      StopMarks(rows[..|rows| - 1]) + if IsStop(a) then [Mark(a.kamiId.value, a.blockTimestamp, None)] else []
  }

  // The join condition of a liquidate row with a start row; NULL harvest ids never match.
  predicate Joins(lq: Action, hs: Action) {
    && lq.actionType.HarvestLiquidate? && hs.actionType.HarvestStart?
    && hs.harvestId.Some? && hs.harvestId == lq.harvestId
  }

  // One liquidate row against the whole table. A NULL kami from the join matches no kami of
  // the outer query and is dropped here.
  function VictimsOf(lq: Action, rows: seq<Action>): seq<Mark> {
    if rows == [] then []
    else
      var hs := rows[|rows| - 1];
      VictimsOf(lq, rows[..|rows| - 1])
      + if Joins(lq, hs) && hs.kamiId.Some? then [Mark(hs.kamiId.value, lq.blockTimestamp, None)] else []
  }

  function LiquidationMarks(lqs: seq<Action>, rows: seq<Action>): seq<Mark> {
    if lqs == [] then []
    else LiquidationMarks(lqs[..|lqs| - 1], rows) + VictimsOf(lqs[|lqs| - 1], rows)
  }

  function Distinct(marks: seq<Mark>): (r: seq<Mark>)
    ensures forall m :: m in r <==> m in marks
  {
    if marks == [] then []
    else
      var init, last := Distinct(marks[..|marks| - 1]), marks[|marks| - 1];
      assert marks == marks[..|marks| - 1] + [last];
      if last in init then init else init + [last]
  }

  // end_events
  function EndMarks(rows: seq<Action>): seq<Mark> {
    StopMarks(rows) + Distinct(LiquidationMarks(rows, rows))
  }

  // ROW_NUMBER() OVER (PARTITION BY kami ORDER BY ts DESC) = 1 for row i.
  predicate IsFirst(marks: seq<Mark>, i: nat)
    requires i < |marks|
  {
    forall j | 0 <= j < |marks| && marks[j].kami == marks[i].kami ::
      marks[j].ts < marks[i].ts || (marks[j].ts == marks[i].ts && i <= j)
  }

  // The first n rows that are first in their partition of `marks`.
  function FirstsUpTo(marks: seq<Mark>, n: nat): seq<(string, Mark)>
    requires n <= |marks|
  {
    if n == 0 then []
    else FirstsUpTo(marks, n - 1) + if IsFirst(marks, n - 1) then [(marks[n - 1].kami, marks[n - 1])] else []
  }

  function Latest(marks: seq<Mark>): seq<(string, Mark)> {
    FirstsUpTo(marks, |marks|)
  }

  // The rows of `rel` under a key, or one NULL row if there are none.
  function MatchesOf<R>(rel: seq<(string, R)>, key: Option<string>): seq<R> {
    if rel == [] then []
    else
      MatchesOf(rel[..|rel| - 1], key) + if key == Some(rel[|rel| - 1].0) then [rel[|rel| - 1].1] else []
  }

  function PairUp<L, R>(l: L, rs: seq<R>): seq<(L, Option<R>)> {
    if rs == [] then [(l, None)] else seq(|rs|, i requires 0 <= i < |rs| => (l, Some(rs[i])))
  }

  // LEFT JOIN rel ON rel's key = key(l).
  function LeftJoin<L, R>(ls: seq<L>, key: L -> Option<string>, rel: seq<(string, R)>): seq<(L, Option<R>)> {
    if ls == [] then []
    else
      var last := ls[|ls| - 1];
      LeftJoin(ls[..|ls| - 1], key, rel) + PairUp(last, MatchesOf(rel, key(last)))
  }

  datatype ViewRow = ViewRow(
    kami: string, currentlyHarvesting: bool, currentNode: Option<string>, currentRoom: Option<int>,
    lastNode: Option<string>, lastStartTs: Option<int>)

  // The kami is on a node: the latest active signal is later than the latest end.
  predicate Active(la: Option<Mark>, le: Option<Mark>) {
    la.Some? && (le.None? || la.value.ts > le.value.ts)
  }

  // A row of the join, after each of its four steps.
  type J1 = (string, Option<Mark>)
  type J2 = (J1, Option<Mark>)
  type J3 = (J2, Option<Mark>)
  type J4 = (J3, Option<int>)

  // The join keys: s.kami_id three times, then ls.node_id.
  function Key0(kami: string): Option<string> { Some(kami) }
  function Key1(j: J1): Option<string> { Some(j.0) }
  function Key2(j: J2): Option<string> { Some(j.0.0) }
  function Key3(j: J3): Option<string> { if j.1.Some? then j.1.value.node else None }

  function Project(j: J4): ViewRow {
    var kami, la, le, ls, room := j.0.0.0.0, j.0.0.0.1, j.0.0.1, j.0.1, j.1;
    ViewRow(
      kami,
      Active(la, le),
      if Active(la, le) && ls.Some? then ls.value.node else None,
      if Active(la, le) then room else None,
      if ls.Some? then ls.value.node else None,
      if ls.Some? then Some(ls.value.ts) else None)
  }

  // The outer query: kami_static left-joined with the three windows and the node catalog.
  function JoinAll(statics: seq<string>, la: seq<(string, Mark)>, le: seq<(string, Mark)>, ls: seq<(string, Mark)>,
                   nodes: seq<(string, int)>): seq<J4>
  {
    LeftJoin(LeftJoin(LeftJoin(LeftJoin(statics, Key0, la), Key1, le), Key2, ls), Key3, nodes)
  }

  function View(statics: seq<string>, rows: seq<Action>, nodes: seq<(string, int)>): seq<ViewRow> {
    var joined := JoinAll(statics, Latest(ActiveMarks(rows)), Latest(EndMarks(rows)), Latest(StartMarks(rows)), nodes);
    seq(|joined|, i requires 0 <= i < |joined| => Project(joined[i]))
  }

  // ---------- What the parts of the query mean ----------

  predicate UniqueKeys<R>(rel: seq<(string, R)>) {
    forall i, j | 0 <= i < j < |rel| :: rel[i].0 != rel[j].0
  }

  // The row under a key.
  function Find<R>(rel: seq<(string, R)>, key: Option<string>): Option<R> {
    var ms := MatchesOf(rel, key);
    if ms == [] then None else Some(ms[0])
  }

  lemma {:induction false} MatchesMeaning<R>(rel: seq<(string, R)>, key: Option<string>)
    ensures UniqueKeys(rel) ==> |MatchesOf(rel, key)| <= 1
    ensures MatchesOf(rel, key) == [] <==> forall i | 0 <= i < |rel| :: Some(rel[i].0) != key
    ensures forall m | m in MatchesOf(rel, key) :: key.Some? && (key.value, m) in rel
  {
    if rel != [] {
      var init, last := rel[..|rel| - 1], rel[|rel| - 1];
      MatchesMeaning(init, key);
      assert rel == init + [last];
      if UniqueKeys(rel) && key == Some(last.0) {
        assert forall i | 0 <= i < |init| :: init[i] == rel[i] && rel[i].0 != rel[|init|].0;
      }
    }
  }

  // Row i of the join is row i of the left side with what it finds.
  ghost predicate JoinsOneToOne<L, R>(ls: seq<L>, key: L -> Option<string>, rel: seq<(string, R)>, joined: seq<(L, Option<R>)>) {
    |joined| == |ls| && forall i | 0 <= i < |ls| :: joined[i] == (ls[i], Find(rel, key(ls[i])))
  }

  lemma JoinOneMore<L, R>(init: seq<L>, last: L, key: L -> Option<string>, rel: seq<(string, R)>, joined: seq<(L, Option<R>)>)
    requires JoinsOneToOne(init, key, rel, joined)
    ensures JoinsOneToOne(init + [last], key, rel, joined + [(last, Find(rel, key(last)))])
  {
  }

  lemma PairUpUnique<L, R>(l: L, rel: seq<(string, R)>, key: Option<string>)
    requires UniqueKeys(rel)
    ensures PairUp(l, MatchesOf(rel, key)) == [(l, Find(rel, key))]
  {
    MatchesMeaning(rel, key);
  }

  // A left join with a relation of unique keys keeps the left rows one for one.
  lemma {:induction false} LeftJoinUnique<L, R>(ls: seq<L>, key: L -> Option<string>, rel: seq<(string, R)>)
    requires UniqueKeys(rel)
    ensures JoinsOneToOne(ls, key, rel, LeftJoin(ls, key, rel))
  {
    if ls != [] {
      var init, last := ls[..|ls| - 1], ls[|ls| - 1];
      LeftJoinUnique(init, key, rel);
      PairUpUnique(last, rel, key(last));
      JoinOneMore(init, last, key, rel, LeftJoin(init, key, rel));
      assert ls == init + [last];
    }
  }

  ghost predicate FirstAt(marks: seq<Mark>, n: nat, p: (string, Mark))
    requires n <= |marks|
  {
    exists j: nat :: j < n && p == (marks[j].kami, marks[j]) && IsFirst(marks, j)
  }

  lemma {:induction false} FirstsMember(marks: seq<Mark>, n: nat, p: (string, Mark))
    requires n <= |marks|
    ensures p in FirstsUpTo(marks, n) <==> FirstAt(marks, n, p)
  {
    if n > 0 {
      FirstsMember(marks, n - 1, p);
      if FirstAt(marks, n - 1, p) {
        var j: nat :| j < n - 1 && p == (marks[j].kami, marks[j]) && IsFirst(marks, j);
        assert FirstAt(marks, n, p);
      }
    }
  }

  lemma {:induction false} FirstsUnique(marks: seq<Mark>, n: nat)
    requires n <= |marks|
    ensures UniqueKeys(FirstsUpTo(marks, n))
  {
    if n > 0 {
      FirstsUnique(marks, n - 1);
      var init := FirstsUpTo(marks, n - 1);
      if IsFirst(marks, n - 1) {
        forall i | 0 <= i < |init| ensures init[i].0 != marks[n - 1].kami {
          FirstsMember(marks, n - 1, init[i]);
          var j: nat :| j < n - 1 && init[i] == (marks[j].kami, marks[j]) && IsFirst(marks, j);
        }
      }
    }
  }

  // Some mark of the kami is first in its partition, and it has the largest time.
  lemma {:induction false} FirstExists(marks: seq<Mark>, kami: string, n: nat) returns (f: nat)
    requires n <= |marks| && exists i :: 0 <= i < n && marks[i].kami == kami
    ensures f < n && marks[f].kami == kami
    ensures forall j | 0 <= j < n && marks[j].kami == kami ::
              marks[j].ts < marks[f].ts || (marks[j].ts == marks[f].ts && f <= j)
  {
    if exists i :: 0 <= i < n - 1 && marks[i].kami == kami {
      f := FirstExists(marks, kami, n - 1);
      if marks[n - 1].kami == kami && marks[n - 1].ts > marks[f].ts {
        f := n - 1;
      }
    } else {
      f := n - 1;
    }
  }

  // The time is the latest of the kami's marks.
  ghost predicate IsLatestTs(marks: seq<Mark>, kami: string, ts: int) {
    && (exists m :: m in marks && m.kami == kami && m.ts == ts)
    && (forall m | m in marks && m.kami == kami :: m.ts <= ts)
  }

  // The window function finds the latest mark of a kami, and nothing iff it has none.
  lemma LatestMeaning(marks: seq<Mark>, kami: string)
    ensures UniqueKeys(Latest(marks))
    ensures var f := Find(Latest(marks), Some(kami));
            && (f.None? <==> forall m | m in marks :: m.kami != kami)
            && (f.Some? ==> f.value in marks && f.value.kami == kami && IsLatestTs(marks, kami, f.value.ts))
  {
    FirstsUnique(marks, |marks|);
    MatchesMeaning(Latest(marks), Some(kami));
    var f := Find(Latest(marks), Some(kami));
    if f.Some? {
      assert f.value in MatchesOf(Latest(marks), Some(kami));
      FirstsMember(marks, |marks|, (kami, f.value));
      var j: nat :| j < |marks| && (kami, f.value) == (marks[j].kami, marks[j]) && IsFirst(marks, j);
    } else if m :| m in marks && m.kami == kami {
      var n := FirstExists(marks, kami, |marks|);
      assert IsFirst(marks, n);
      FirstsMember(marks, |marks|, (kami, marks[n]));
    }
  }

  // ---------- Row-level reading of the query ----------

  ghost predicate ActiveAt(rows: seq<Action>, k: string, ts: int) {
    exists a :: a in rows && (a.actionType.HarvestStart? || a.actionType.HarvestCollect?)
                && a.kamiId == Some(k) && a.blockTimestamp == ts
  }

  ghost predicate StopAt(rows: seq<Action>, k: string, ts: int) {
    exists a :: a in rows && a.actionType.HarvestStop? && a.kamiId == Some(k) && a.blockTimestamp == ts
  }

  // A liquidate row joined to a start row of the kami.
  ghost predicate JoinedEndAt(rows: seq<Action>, k: string, ts: int) {
    exists lq, hs :: lq in rows && hs in rows && hs.kamiId == Some(k) && lq.blockTimestamp == ts
                     && lq.actionType.HarvestLiquidate? && hs.actionType.HarvestStart?
                     && lq.harvestId.Some? && hs.harvestId == lq.harvestId
  }

  ghost predicate EndAt(rows: seq<Action>, k: string, ts: int) {
    StopAt(rows, k, ts) || JoinedEndAt(rows, k, ts)
  }

  // Some active signal is later than every end.
  ghost predicate Harvesting(rows: seq<Action>, k: string) {
    exists t :: ActiveAt(rows, k, t) && forall u | EndAt(rows, k, u) :: u < t
  }

  lemma {:induction false} ActiveMarksMeaning(rows: seq<Action>, k: string, ts: int)
    ensures Mark(k, ts, None) in ActiveMarks(rows) <==> ActiveAt(rows, k, ts)
    ensures forall m | m in ActiveMarks(rows) :: m.node.None?
  {
    if rows != [] {
      var init, last := rows[..|rows| - 1], rows[|rows| - 1];
      ActiveMarksMeaning(init, k, ts);
      assert rows == init + [last];
      assert ActiveAt(rows, k, ts) <==>
             ActiveAt(init, k, ts) || (IsActive(last) && last.kamiId == Some(k) && last.blockTimestamp == ts);
    }
  }

  lemma {:induction false} StopMarksMeaning(rows: seq<Action>, k: string, ts: int)
    ensures Mark(k, ts, None) in StopMarks(rows) <==> StopAt(rows, k, ts)
    ensures forall m | m in StopMarks(rows) :: m.node.None?
  {
    if rows != [] {
      var init, last := rows[..|rows| - 1], rows[|rows| - 1];
      StopMarksMeaning(init, k, ts);
      assert rows == init + [last];
      assert StopAt(rows, k, ts) <==>
             StopAt(init, k, ts) || (IsStop(last) && last.kamiId == Some(k) && last.blockTimestamp == ts);
    }
  }

  ghost predicate VictimRow(lq: Action, rows: seq<Action>, k: string) {
    lq.actionType.HarvestLiquidate? && lq.harvestId.Some?
    && exists hs :: hs in rows && hs.actionType.HarvestStart? && hs.harvestId == lq.harvestId && hs.kamiId == Some(k)
  }

  lemma {:induction false} VictimsMeaning(lq: Action, rows: seq<Action>, k: string, ts: int)
    ensures Mark(k, ts, None) in VictimsOf(lq, rows) <==> VictimRow(lq, rows, k) && lq.blockTimestamp == ts
    ensures forall m | m in VictimsOf(lq, rows) :: m.node.None?
  {
    if rows != [] {
      var init, last := rows[..|rows| - 1], rows[|rows| - 1];
      VictimsMeaning(lq, init, k, ts);
      assert rows == init + [last];
      assert VictimRow(lq, rows, k) <==> VictimRow(lq, init, k) || (Joins(lq, last) && last.kamiId == Some(k));
    }
  }

  ghost predicate LiquidatedIn(lqs: seq<Action>, rows: seq<Action>, k: string, ts: int) {
    exists lq :: lq in lqs && VictimRow(lq, rows, k) && lq.blockTimestamp == ts
  }

  lemma {:induction false} LiquidationMarksMeaning(lqs: seq<Action>, rows: seq<Action>, k: string, ts: int)
    ensures Mark(k, ts, None) in LiquidationMarks(lqs, rows) <==> LiquidatedIn(lqs, rows, k, ts)
    ensures forall m | m in LiquidationMarks(lqs, rows) :: m.node.None?
  {
    if lqs != [] {
      var init, last := lqs[..|lqs| - 1], lqs[|lqs| - 1];
      LiquidationMarksMeaning(init, rows, k, ts);
      VictimsMeaning(last, rows, k, ts);
      assert lqs == init + [last];
      assert LiquidatedIn(lqs, rows, k, ts) <==>
             LiquidatedIn(init, rows, k, ts) || (VictimRow(last, rows, k) && last.blockTimestamp == ts);
    }
  }

  lemma JoinedIsLiquidated(rows: seq<Action>, k: string, ts: int)
    ensures JoinedEndAt(rows, k, ts) <==> LiquidatedIn(rows, rows, k, ts)
  {
    if JoinedEndAt(rows, k, ts) {
      var lq, hs :| lq in rows && hs in rows && hs.kamiId == Some(k) && lq.blockTimestamp == ts
                    && lq.actionType.HarvestLiquidate? && hs.actionType.HarvestStart?
                    && lq.harvestId.Some? && hs.harvestId == lq.harvestId;
      assert VictimRow(lq, rows, k);
    }
    if LiquidatedIn(rows, rows, k, ts) {
      var lq :| lq in rows && VictimRow(lq, rows, k) && lq.blockTimestamp == ts;
      var hs :| hs in rows && hs.actionType.HarvestStart? && hs.harvestId == lq.harvestId && hs.kamiId == Some(k);
    }
  }

  lemma EndMarksMeaning(rows: seq<Action>, k: string, ts: int)
    ensures Mark(k, ts, None) in EndMarks(rows) <==> EndAt(rows, k, ts)
    ensures forall m | m in EndMarks(rows) :: m.node.None?
  {
    hide JoinedEndAt, LiquidatedIn, StopAt;
    StopMarksMeaning(rows, k, ts);
    LiquidationMarksMeaning(rows, rows, k, ts);
    JoinedIsLiquidated(rows, k, ts);
  }

  // The two windowed maxima compute exactly Harvesting.
  lemma ActiveMeaning(rows: seq<Action>, k: string)
    ensures var la, le := Find(Latest(ActiveMarks(rows)), Some(k)), Find(Latest(EndMarks(rows)), Some(k));
            Active(la, le) <==> Harvesting(rows, k)
  {
    var actives, ends := ActiveMarks(rows), EndMarks(rows);
    var la, le := Find(Latest(actives), Some(k)), Find(Latest(ends), Some(k));
    LatestMeaning(actives, k);
    LatestMeaning(ends, k);
    forall ts ensures Mark(k, ts, None) in actives <==> ActiveAt(rows, k, ts) {
      ActiveMarksMeaning(rows, k, ts);
    }
    forall ts ensures Mark(k, ts, None) in ends <==> EndAt(rows, k, ts) {
      EndMarksMeaning(rows, k, ts);
    }
    ActiveMarksMeaning(rows, k, 0);
    EndMarksMeaning(rows, k, 0);
    if Active(la, le) {
      var t := la.value.ts;
      assert la.value == Mark(k, t, None);
      assert ActiveAt(rows, k, t);
      forall u | EndAt(rows, k, u) ensures u < t {
        assert Mark(k, u, None) in ends;
      }
    }
    if t :| ActiveAt(rows, k, t) && forall u | EndAt(rows, k, u) :: u < t {
      assert Mark(k, t, None) in actives;
      if le.Some? {
        assert le.value == Mark(k, le.value.ts, None);
        assert EndAt(rows, k, le.value.ts);
      }
    }
  }

  lemma JoinRows(statics: seq<string>, la: seq<(string, Mark)>, le: seq<(string, Mark)>, ls: seq<(string, Mark)>,
                 nodes: seq<(string, int)>)
    requires UniqueKeys(la) && UniqueKeys(le) && UniqueKeys(ls) && UniqueKeys(nodes)
    ensures |JoinAll(statics, la, le, ls, nodes)| == |statics|
    ensures forall i | 0 <= i < |statics| ::
              var k := Some(statics[i]);
              var j3 := (((statics[i], Find(la, k)), Find(le, k)), Find(ls, k));
              JoinAll(statics, la, le, ls, nodes)[i] == (j3, Find(nodes, Key3(j3)))
  {
    var j1 := LeftJoin(statics, Key0, la);
    var j2 := LeftJoin(j1, Key1, le);
    var j3 := LeftJoin(j2, Key2, ls);
    LeftJoinUnique(statics, Key0, la);
    LeftJoinUnique(j1, Key1, le);
    LeftJoinUnique(j2, Key2, ls);
    LeftJoinUnique(j3, Key3, nodes);
  }

  // A start row of the kami with a node, at the given time.
  ghost predicate StartAt(rows: seq<Action>, k: string, node: Option<string>, ts: int) {
    exists a :: a in rows && a.actionType.HarvestStart? && a.kamiId == Some(k)
                && a.nodeId.Some? && a.nodeId == node && a.blockTimestamp == ts
  }

  lemma {:induction false} StartMarksMeaning(rows: seq<Action>, k: string, node: Option<string>, ts: int)
    ensures Mark(k, ts, node) in StartMarks(rows) <==> StartAt(rows, k, node, ts)
  {
    if rows != [] {
      var init, last := rows[..|rows| - 1], rows[|rows| - 1];
      StartMarksMeaning(init, k, node, ts);
      assert rows == init + [last];
      assert StartAt(rows, k, node, ts) <==>
             StartAt(init, k, node, ts)
             || (IsNodeStart(last) && last.kamiId == Some(k) && last.nodeId == node && last.blockTimestamp == ts);
    }
  }

  // `node` and `ts` are those of a latest start row of the kami, None if it has no start row.
  ghost predicate IsLastStart(rows: seq<Action>, k: string, node: Option<string>, ts: Option<int>) {
    && (ts.Some? ==> StartAt(rows, k, node, ts.value) && forall n, t | StartAt(rows, k, n, t) :: t <= ts.value)
    && (ts.None? ==> node.None? && forall n, t :: !StartAt(rows, k, n, t))
  }

  lemma LastStartMeaning(rows: seq<Action>, k: string)
    ensures var ls := Find(Latest(StartMarks(rows)), Some(k));
            IsLastStart(rows, k, if ls.Some? then ls.value.node else None, if ls.Some? then Some(ls.value.ts) else None)
  {
    LatestMeaning(StartMarks(rows), k);
    forall n, t ensures Mark(k, t, n) in StartMarks(rows) <==> StartAt(rows, k, n, t) {
      StartMarksMeaning(rows, k, n, t);
    }
    var ls := Find(Latest(StartMarks(rows)), Some(k));
    assert ls.Some? ==> ls.value == Mark(k, ls.value.ts, ls.value.node);
  }

  // What the view promises about the row of kami k.
  ghost predicate ViewRowOk(rows: seq<Action>, nodes: seq<(string, int)>, k: string, v: ViewRow) {
    && v.kami == k
    && (v.currentlyHarvesting <==> Harvesting(rows, k))
    && v.currentNode == (if v.currentlyHarvesting then v.lastNode else None)
    && (forall room :: v.currentRoom == Some(room)
          <==> v.currentlyHarvesting && v.lastNode.Some? && (v.lastNode.value, room) in nodes)
    && IsLastStart(rows, k, v.lastNode, v.lastStartTs)
  }

  // The view has exactly one row per kami_static row, in any scan order; it says harvesting
  // exactly when Harvesting holds; and it shows a node or room only then, that of a latest
  // start.
  lemma ViewRows(statics: seq<string>, rows: seq<Action>, nodes: seq<(string, int)>)
    requires UniqueKeys(nodes)
    ensures |View(statics, rows, nodes)| == |statics|
    ensures forall i | 0 <= i < |statics| :: ViewRowOk(rows, nodes, statics[i], View(statics, rows, nodes)[i])
  {
    var la, le, ls := Latest(ActiveMarks(rows)), Latest(EndMarks(rows)), Latest(StartMarks(rows));
    LatestMeaning(ActiveMarks(rows), "");
    LatestMeaning(EndMarks(rows), "");
    LatestMeaning(StartMarks(rows), "");
    JoinRows(statics, la, le, ls, nodes);
    var joined := JoinAll(statics, la, le, ls, nodes);
    forall i | 0 <= i < |statics| ensures ViewRowOk(rows, nodes, statics[i], View(statics, rows, nodes)[i]) {
      ProjectOk(rows, nodes, statics[i], joined[i]);
    }
  }

  lemma {:induction false} FindMember<R>(rel: seq<(string, R)>, key: Option<string>, r: R)
    requires UniqueKeys(rel)
    ensures Find(rel, key) == Some(r) <==> key.Some? && (key.value, r) in rel
  {
    MatchesMeaning(rel, key);
    if key.Some? && (key.value, r) in rel {
      var i :| 0 <= i < |rel| && rel[i] == (key.value, r);
      var m := MatchesOf(rel, key)[0];
      var j :| 0 <= j < |rel| && rel[j] == (key.value, m);
      assert rel[i].0 == rel[j].0;
    }
  }

  lemma ProjectOk(rows: seq<Action>, nodes: seq<(string, int)>, k: string, j: J4)
    requires UniqueKeys(nodes)
    requires j.0.0 == ((k, Find(Latest(ActiveMarks(rows)), Some(k))), Find(Latest(EndMarks(rows)), Some(k)))
    requires j.0.1 == Find(Latest(StartMarks(rows)), Some(k))
    requires j.1 == Find(nodes, Key3(j.0))
    ensures ViewRowOk(rows, nodes, k, Project(j))
  {
    ActiveMeaning(rows, k);
    LastStartMeaning(rows, k);
    forall room ensures j.1 == Some(room) <==> Key3(j.0).Some? && (Key3(j.0).value, room) in nodes {
      FindMember(nodes, Key3(j.0), room);
    }
  }

  // ---------- The replay machine ----------

  datatype Signal = Activate | Deactivate

  // A stop or collect row still without a kami id, whose harvest id is that of k.
  predicate Unstitched(h: HarvestHash, k: string, a: Action) {
    a.Stitchable() && a.kamiId.None? && a.harvestId.Some? && Pairs(h, k, a.harvestId.value)
  }

  // The row belongs to k: by its kami id, or by its harvest id where the kami id is missing.
  predicate BelongsTo(h: HarvestHash, k: string, a: Action) {
    a.kamiId == Some(k) || Unstitched(h, k, a)
  }

  // What an event does to kami k: a liquidation acts on the kami whose harvest id it names.
  function SignalFor(h: HarvestHash, k: string, a: Action): Option<Signal> {
    match a.actionType
    case HarvestStart => if BelongsTo(h, k, a) then Some(Activate) else None
    case HarvestCollect => if BelongsTo(h, k, a) then Some(Activate) else None
    case HarvestStop => if BelongsTo(h, k, a) then Some(Deactivate) else None
    case HarvestLiquidate => if a.harvestId.Some? && Pairs(h, k, a.harvestId.value) then Some(Deactivate) else None
    case OtherAction(_) => None
  }

  // The kami's state after the log.
  function Replay(h: HarvestHash, k: string, log: seq<Action>): bool {
    if log == [] then false
    else
      match SignalFor(h, k, log[|log| - 1])
      case Some(Activate) => true
      case Some(Deactivate) => false
      case None => Replay(h, k, log[..|log| - 1])
  }

  predicate IsEndType(a: Action) {
    a.actionType.HarvestStop? || a.actionType.HarvestLiquidate?
  }

  // Time order, with ends after starts and collects of the same time.
  predicate Ordered(log: seq<Action>) {
    forall i, j | 0 <= i < j < |log| ::
      log[i].blockTimestamp < log[j].blockTimestamp
      || (log[i].blockTimestamp == log[j].blockTimestamp && (IsEndType(log[i]) ==> IsEndType(log[j])))
  }

  // `a` activates k later than every deactivation of the log.
  ghost predicate Outlasts(h: HarvestHash, k: string, log: seq<Action>, a: Action) {
    && a in log && SignalFor(h, k, a) == Some(Activate)
    && forall b | b in log && SignalFor(h, k, b) == Some(Deactivate) :: b.blockTimestamp < a.blockTimestamp
  }

  // Some activation is later than every deactivation.
  ghost predicate LastIsActive(h: HarvestHash, k: string, log: seq<Action>) {
    exists a :: Outlasts(h, k, log, a)
  }

  lemma {:induction false} ReplayMeaning(h: HarvestHash, k: string, log: seq<Action>)
    requires Ordered(log)
    ensures Replay(h, k, log) <==> LastIsActive(h, k, log)
  {
    if log != [] {
      var init, last := log[..|log| - 1], log[|log| - 1];
      ReplayMeaning(h, k, init);
      assert log == init + [last];
      match SignalFor(h, k, last)
      case Some(Activate) => AfterActivation(h, k, log);
      case Some(Deactivate) => AfterDeactivation(h, k, log);
      case None => AfterOther(h, k, init, last);
    }
  }

  lemma NotAfterLast(log: seq<Action>, b: Action)
    requires Ordered(log) && b in log && log != []
    ensures var last := log[|log| - 1];
            b == last || b.blockTimestamp < last.blockTimestamp
            || (b.blockTimestamp == last.blockTimestamp && (IsEndType(b) ==> IsEndType(last)))
  {
    var i :| 0 <= i < |log| && log[i] == b;
  }

  lemma AfterActivation(h: HarvestHash, k: string, log: seq<Action>)
    requires Ordered(log) && log != [] && SignalFor(h, k, log[|log| - 1]) == Some(Activate)
    ensures LastIsActive(h, k, log)
  {
    var last := log[|log| - 1];
    forall b | b in log && SignalFor(h, k, b) == Some(Deactivate) ensures b.blockTimestamp < last.blockTimestamp {
      NotAfterLast(log, b);
    }
    assert Outlasts(h, k, log, last);
  }

  lemma AfterDeactivation(h: HarvestHash, k: string, log: seq<Action>)
    requires Ordered(log) && log != [] && SignalFor(h, k, log[|log| - 1]) == Some(Deactivate)
    ensures !LastIsActive(h, k, log)
  {
    var last := log[|log| - 1];
    forall a ensures !Outlasts(h, k, log, a) {
      if a in log {
        NotAfterLast(log, a);
      }
    }
  }

  lemma AfterOther(h: HarvestHash, k: string, init: seq<Action>, last: Action)
    requires SignalFor(h, k, last).None?
    ensures LastIsActive(h, k, init) <==> LastIsActive(h, k, init + [last])
  {
    forall a ensures Outlasts(h, k, init, a) <==> Outlasts(h, k, init + [last], a) {
      assert forall b :: b in init + [last] <==> b in init || b == last;
    }
  }

  // ---------- The view against the replay ----------

  // A start row through which the self-join can find the kami.
  ghost predicate HasStart(rows: seq<Action>, k: string) {
    exists hs :: hs in rows && hs.actionType.HarvestStart? && hs.kamiId == Some(k) && hs.harvestId.Some?
  }

  ghost predicate LiquidatedAt(h: HarvestHash, rows: seq<Action>, k: string, ts: int) {
    exists lq :: lq in rows && lq.actionType.HarvestLiquidate? && lq.harvestId.Some?
                 && Pairs(h, k, lq.harvestId.value) && lq.blockTimestamp == ts
  }

  // A collect of k that the view does not see.
  ghost predicate HiddenActiveAt(h: HarvestHash, rows: seq<Action>, k: string, ts: int) {
    exists a :: a in rows && Unstitched(h, k, a) && a.actionType.HarvestCollect? && a.blockTimestamp == ts
  }

  ghost predicate HiddenStopAt(h: HarvestHash, rows: seq<Action>, k: string, ts: int) {
    exists a :: a in rows && Unstitched(h, k, a) && a.actionType.HarvestStop? && a.blockTimestamp == ts
  }

  // An end of k that the view does not see: an unstitched stop, or a liquidation when none of
  // k's start rows is left to join.
  ghost predicate HiddenEndAt(h: HarvestHash, rows: seq<Action>, k: string, ts: int) {
    HiddenStopAt(h, rows, k, ts) || (!HasStart(rows, k) && LiquidatedAt(h, rows, k, ts))
  }

  ghost predicate AnyActiveAt(h: HarvestHash, rows: seq<Action>, k: string, ts: int) {
    ActiveAt(rows, k, ts) || HiddenActiveAt(h, rows, k, ts)
  }

  ghost predicate AnyEndAt(h: HarvestHash, rows: seq<Action>, k: string, ts: int) {
    StopAt(rows, k, ts) || HiddenStopAt(h, rows, k, ts) || LiquidatedAt(h, rows, k, ts)
  }

  // The view takes a kami for harvesting whose last activity was ended out of its sight.
  ghost predicate MissedEnd(h: HarvestHash, rows: seq<Action>, k: string) {
    && Harvesting(rows, k)
    && exists v :: HiddenEndAt(h, rows, k, v) && forall t | AnyActiveAt(h, rows, k, t) :: t <= v
  }

  // The view takes a kami for resting that collected out of its sight after every end.
  ghost predicate MissedActive(h: HarvestHash, rows: seq<Action>, k: string) {
    && !Harvesting(rows, k)
    && exists t :: HiddenActiveAt(h, rows, k, t) && forall u | AnyEndAt(h, rows, k, u) :: u < t
  }

  ghost predicate Blind(h: HarvestHash, rows: seq<Action>, k: string) {
    MissedEnd(h, rows, k) || MissedActive(h, rows, k)
  }

  // The self-join attributes liquidations to the right kami, to each that has a start row.
  lemma JoinFindsVictims(h: HarvestHash, rows: seq<Action>, k: string, ts: int)
    requires forall a | a in rows :: PairOk(h, a)
    ensures JoinedEndAt(rows, k, ts) <==> HasStart(rows, k) && LiquidatedAt(h, rows, k, ts)
  {
    if JoinedEndAt(rows, k, ts) {
      var lq, hs :| lq in rows && hs in rows && Joins(lq, hs) && hs.kamiId == Some(k) && lq.blockTimestamp == ts;
      assert PairOk(h, hs);
    }
    if HasStart(rows, k) && LiquidatedAt(h, rows, k, ts) {
      var hs :| hs in rows && hs.actionType.HarvestStart? && hs.kamiId == Some(k) && hs.harvestId.Some?;
      var lq :| lq in rows && lq.actionType.HarvestLiquidate? && lq.harvestId.Some?
                && Pairs(h, k, lq.harvestId.value) && lq.blockTimestamp == ts;
      assert PairOk(h, hs);
      assert Joins(lq, hs);
    }
  }

  // The ends of k are those the view sees and those it does not.
  lemma EndsSplit(h: HarvestHash, rows: seq<Action>, k: string, ts: int)
    requires forall a | a in rows :: PairOk(h, a)
    ensures AnyEndAt(h, rows, k, ts) <==> EndAt(rows, k, ts) || HiddenEndAt(h, rows, k, ts)
  {
    JoinFindsVictims(h, rows, k, ts);
  }

  // An active signal of the table is later than every end.
  ghost predicate ActiveBeyond(h: HarvestHash, rows: seq<Action>, k: string, t: int) {
    AnyActiveAt(h, rows, k, t) && forall u | AnyEndAt(h, rows, k, u) :: u < t
  }

  lemma SignalMeaning(h: HarvestHash, rows: seq<Action>, k: string, b: Action)
    requires b in rows
    ensures SignalFor(h, k, b) == Some(Activate) ==> AnyActiveAt(h, rows, k, b.blockTimestamp)
    ensures SignalFor(h, k, b) == Some(Deactivate) ==> AnyEndAt(h, rows, k, b.blockTimestamp)
  {
  }

  lemma ActiveSignal(h: HarvestHash, rows: seq<Action>, k: string, t: int) returns (b: Action)
    requires AnyActiveAt(h, rows, k, t)
    ensures b in rows && b.blockTimestamp == t && SignalFor(h, k, b) == Some(Activate)
  {
    if ActiveAt(rows, k, t) {
      b :| b in rows && (b.actionType.HarvestStart? || b.actionType.HarvestCollect?) && b.kamiId == Some(k) && b.blockTimestamp == t;
    } else {
      b :| b in rows && Unstitched(h, k, b) && b.actionType.HarvestCollect? && b.blockTimestamp == t;
    }
  }

  lemma EndSignal(h: HarvestHash, rows: seq<Action>, k: string, u: int) returns (b: Action)
    requires AnyEndAt(h, rows, k, u)
    ensures b in rows && b.blockTimestamp == u && SignalFor(h, k, b) == Some(Deactivate)
  {
    if StopAt(rows, k, u) {
      b :| b in rows && b.actionType.HarvestStop? && b.kamiId == Some(k) && b.blockTimestamp == u;
    } else if HiddenStopAt(h, rows, k, u) {
      b :| b in rows && Unstitched(h, k, b) && b.actionType.HarvestStop? && b.blockTimestamp == u;
    } else {
      b :| b in rows && b.actionType.HarvestLiquidate? && b.harvestId.Some?
           && Pairs(h, k, b.harvestId.value) && b.blockTimestamp == u;
    }
  }

  lemma SameMembers(xs: seq<Action>, ys: seq<Action>, a: Action)
    requires multiset(xs) == multiset(ys)
    ensures a in xs <==> a in ys
  {
    assert a in xs <==> a in multiset(xs);
    assert a in ys <==> a in multiset(ys);
  }

  // The last event of the log, read off the table.
  lemma LastIsActiveMeaning(h: HarvestHash, rows: seq<Action>, log: seq<Action>, k: string)
    requires multiset(log) == multiset(rows)
    ensures LastIsActive(h, k, log) <==> exists t :: ActiveBeyond(h, rows, k, t)
  {
    forall a ensures a in log <==> a in rows {
      SameMembers(log, rows, a);
    }
    if a :| Outlasts(h, k, log, a) {
      SignalMeaning(h, rows, k, a);
      forall u | AnyEndAt(h, rows, k, u) ensures u < a.blockTimestamp {
        var b := EndSignal(h, rows, k, u);
        assert b in log;
      }
      assert ActiveBeyond(h, rows, k, a.blockTimestamp);
    }
    if t :| ActiveBeyond(h, rows, k, t) {
      var a := ActiveSignal(h, rows, k, t);
      forall b | b in log && SignalFor(h, k, b) == Some(Deactivate) ensures b.blockTimestamp < a.blockTimestamp {
        SignalMeaning(h, rows, k, b);
      }
      assert Outlasts(h, k, log, a);
    }
  }

  lemma {:induction false} LatestRow(rows: seq<Action>, p: Action -> bool) returns (m: Action)
    requires exists a :: a in rows && p(a)
    ensures m in rows && p(m) && forall a | a in rows && p(a) :: a.blockTimestamp <= m.blockTimestamp
  {
    var init, last := rows[..|rows| - 1], rows[|rows| - 1];
    assert rows == init + [last];
    if exists a :: a in init && p(a) {
      m := LatestRow(init, p);
      if p(last) && last.blockTimestamp > m.blockTimestamp {
        m := last;
      }
    } else {
      m := last;
    }
  }

  lemma LatestAny(h: HarvestHash, rows: seq<Action>, k: string, t: int) returns (m: int)
    requires AnyActiveAt(h, rows, k, t)
    ensures AnyActiveAt(h, rows, k, m) && forall u | AnyActiveAt(h, rows, k, u) :: u <= m
  {
    var p := (a: Action) => SignalFor(h, k, a) == Some(Activate);
    var b := ActiveSignal(h, rows, k, t);
    assert p(b);
    var a := LatestRow(rows, p);
    SignalMeaning(h, rows, k, a);
    m := a.blockTimestamp;
    forall u | AnyActiveAt(h, rows, k, u) ensures u <= m {
      var c := ActiveSignal(h, rows, k, u);
      assert p(c);
    }
  }

  // Where the view says harvesting, it is wrong iff it missed an end.
  lemma HarvestingCase(h: HarvestHash, rows: seq<Action>, k: string)
    requires Harvesting(rows, k)
    requires forall u :: AnyEndAt(h, rows, k, u) <==> EndAt(rows, k, u) || HiddenEndAt(h, rows, k, u)
    ensures (exists t :: ActiveBeyond(h, rows, k, t)) <==> !MissedEnd(h, rows, k)
  {
    var t :| ActiveAt(rows, k, t) && forall u | EndAt(rows, k, u) :: u < t;
    var m := LatestAny(h, rows, k, t);
    assert AnyActiveAt(h, rows, k, t);
    if !ActiveBeyond(h, rows, k, m) {
      var v :| AnyEndAt(h, rows, k, v) && v >= m;
      assert HiddenEndAt(h, rows, k, v);
      assert MissedEnd(h, rows, k);
    }
  }

  // Where it says resting, it is wrong iff it missed an active.
  lemma RestingCase(h: HarvestHash, rows: seq<Action>, k: string)
    requires !Harvesting(rows, k)
    requires forall u :: AnyEndAt(h, rows, k, u) <==> EndAt(rows, k, u) || HiddenEndAt(h, rows, k, u)
    ensures (exists t :: ActiveBeyond(h, rows, k, t)) <==> MissedActive(h, rows, k)
  {
    if t :| ActiveBeyond(h, rows, k, t) {
      assert !ActiveAt(rows, k, t);
      assert HiddenActiveAt(h, rows, k, t);
    }
    if MissedActive(h, rows, k) {
      var t :| HiddenActiveAt(h, rows, k, t) && forall u | AnyEndAt(h, rows, k, u) :: u < t;
      assert ActiveBeyond(h, rows, k, t);
    }
  }

  // The view says of the table what its last event for the kami says, exactly when it is not
  // blind.
  lemma ViewIsLast(h: HarvestHash, rows: seq<Action>, k: string)
    requires forall a | a in rows :: PairOk(h, a)
    ensures (Harvesting(rows, k) <==> LastIsActive(h, k, rows)) <==> !Blind(h, rows, k)
  {
    LastIsActiveMeaning(h, rows, rows, k);
    forall u ensures AnyEndAt(h, rows, k, u) <==> EndAt(rows, k, u) || HiddenEndAt(h, rows, k, u) {
      EndsSplit(h, rows, k, u);
    }
    if Harvesting(rows, k) {
      HarvestingCase(h, rows, k);
    } else {
      RestingCase(h, rows, k);
    }
  }

  // So it refines the replay, for every table and every admissible order of its events.
  lemma ViewIsReplay(h: HarvestHash, rows: seq<Action>, log: seq<Action>, k: string)
    requires forall a | a in rows :: PairOk(h, a)
    requires multiset(log) == multiset(rows) && Ordered(log)
    ensures (Harvesting(rows, k) <==> Replay(h, k, log)) <==> !Blind(h, rows, k)
  {
    ReplayMeaning(h, k, log);
    LastIsActiveMeaning(h, rows, log, k);
    LastIsActiveMeaning(h, rows, rows, k);
    ViewIsLast(h, rows, k);
  }

  // A kami with a start row in the table, all of whose stops and collects are stitched, is
  // never in the blind spot.
  lemma StitchedInSight(h: HarvestHash, rows: seq<Action>, k: string)
    requires HasStart(rows, k) && forall a | a in rows :: !Unstitched(h, k, a)
    ensures !Blind(h, rows, k)
  {
  }

  // A collect followed by a liquidation, the start row gone.
  lemma BlindWitness(h: HarvestHash, collect: Action, kill: Action, kami: nat)
    requires collect.actionType.HarvestCollect? && collect.kamiId == Some(ToDecimal(kami))
    requires kill.actionType.HarvestLiquidate? && kill.harvestId == Some(HarvestIdOf(h, kami))
    requires collect.blockTimestamp <= kill.blockTimestamp
    ensures Blind(h, [collect, kill], ToDecimal(kami))
    ensures Harvesting([collect, kill], ToDecimal(kami)) && !Replay(h, ToDecimal(kami), [collect, kill])
  {
    var rows, k := [collect, kill], ToDecimal(kami);
    DecimalRoundTrip(kami);
    assert rows[0] == collect && rows[1] == kill;
    assert ActiveAt(rows, k, collect.blockTimestamp);
    assert LiquidatedAt(h, rows, k, kill.blockTimestamp);
    assert HiddenEndAt(h, rows, k, kill.blockTimestamp);
    assert forall u :: !EndAt(rows, k, u);
  }

  // A start followed by a stop whose kami id is still missing: the view goes on saying that
  // the kami harvests, although its start row is there.
  lemma UnstitchedStopWitness(h: HarvestHash, start: Action, stop: Action, kami: nat)
    requires start.actionType.HarvestStart? && start.kamiId == Some(ToDecimal(kami))
    requires start.harvestId == Some(HarvestIdOf(h, kami))
    requires stop.actionType.HarvestStop? && stop.kamiId.None? && stop.harvestId == start.harvestId
    requires start.blockTimestamp < stop.blockTimestamp
    ensures var rows, k := [start, stop], ToDecimal(kami);
            && (forall a | a in rows :: PairOk(h, a)) && HasStart(rows, k) && Ordered(rows)
            && Blind(h, rows, k) && Harvesting(rows, k) && !Replay(h, k, rows)
  {
    var rows, k := [start, stop], ToDecimal(kami);
    DecimalRoundTrip(kami);
    assert rows[0] == start && rows[1] == stop;
    assert ActiveAt(rows, k, start.blockTimestamp);
    assert HiddenStopAt(h, rows, k, stop.blockTimestamp);
    assert HiddenEndAt(h, rows, k, stop.blockTimestamp);
    assert forall u :: !EndAt(rows, k, u);
  }

  // And the other way round: a collect whose kami id is still missing after a stop that has
  // one makes the view say that a harvesting kami rests.
  lemma UnstitchedCollectWitness(h: HarvestHash, stop: Action, collect: Action, kami: nat)
    requires stop.actionType.HarvestStop? && stop.kamiId == Some(ToDecimal(kami))
    requires collect.actionType.HarvestCollect? && collect.kamiId.None? && collect.harvestId == Some(HarvestIdOf(h, kami))
    requires stop.blockTimestamp < collect.blockTimestamp
    ensures var rows, k := [stop, collect], ToDecimal(kami);
            Blind(h, rows, k) && !Harvesting(rows, k) && Replay(h, k, rows)
  {
    var rows, k := [stop, collect], ToDecimal(kami);
    DecimalRoundTrip(kami);
    assert rows[0] == stop && rows[1] == collect;
    assert HiddenActiveAt(h, rows, k, collect.blockTimestamp);
    assert forall u | AnyEndAt(h, rows, k, u) :: u == stop.blockTimestamp;
    assert forall t :: !ActiveAt(rows, k, t);
    assert SignalFor(h, k, rows[1]) == Some(Activate);
  }

  // The same, for the rows the view returns.
  lemma ViewRefinesReplay(h: HarvestHash, statics: seq<string>, rows: seq<Action>, nodes: seq<(string, int)>,
                          log: seq<Action>, i: nat)
    requires UniqueKeys(nodes) && i < |statics|
    requires forall a | a in rows :: PairOk(h, a)
    requires multiset(log) == multiset(rows) && Ordered(log)
    ensures |View(statics, rows, nodes)| == |statics|
    ensures var v := View(statics, rows, nodes)[i];
            && v.kami == statics[i]
            && (v.currentlyHarvesting == Replay(h, v.kami, log) <==> !Blind(h, rows, v.kami))
  {
    ViewRows(statics, rows, nodes);
    ViewIsReplay(h, rows, log, statics[i]);
    assert ViewRowOk(rows, nodes, statics[i], View(statics, rows, nodes)[i]);
  }

  lemma {:induction false} LatestActive(rows: seq<Action>, k: string, t: int) returns (m: int)
    requires ActiveAt(rows, k, t)
    ensures ActiveAt(rows, k, m) && t <= m && forall u | ActiveAt(rows, k, u) :: u <= m
  {
    ActiveMarksMeaning(rows, k, t);
    LatestMeaning(ActiveMarks(rows), k);
    var f := Find(Latest(ActiveMarks(rows)), Some(k)).value;
    m := f.ts;
    ActiveMarksMeaning(rows, k, m);
    assert f == Mark(k, m, None);
    forall u | ActiveAt(rows, k, u) ensures u <= m {
      ActiveMarksMeaning(rows, k, u);
    }
  }

  // ---------- The status column ----------

  // The same rows, except for what their status columns say.
  ghost predicate SameButStatus(xs: seq<Action>, ys: seq<Action>) {
    |xs| == |ys| && forall i | 0 <= i < |xs| :: SameColumns(xs[i], ys[i])
  }

  predicate SameColumns(a: Action, b: Action) {
    a.actionType == b.actionType && a.kamiId == b.kamiId && a.harvestId == b.harvestId && a.nodeId == b.nodeId
    && a.blockTimestamp == b.blockTimestamp
  }

  lemma {:induction false} MarksIgnoreStatus(xs: seq<Action>, ys: seq<Action>)
    requires SameButStatus(xs, ys)
    ensures ActiveMarks(xs) == ActiveMarks(ys) && StartMarks(xs) == StartMarks(ys) && StopMarks(xs) == StopMarks(ys)
  {
    if xs != [] {
      MarksIgnoreStatus(xs[..|xs| - 1], ys[..|ys| - 1]);
      assert SameColumns(xs[|xs| - 1], ys[|ys| - 1]);
    }
  }

  lemma {:induction false} VictimsIgnoreStatus(lq: Action, lq': Action, xs: seq<Action>, ys: seq<Action>)
    requires SameColumns(lq, lq') && SameButStatus(xs, ys)
    ensures VictimsOf(lq, xs) == VictimsOf(lq', ys)
  {
    if xs != [] {
      VictimsIgnoreStatus(lq, lq', xs[..|xs| - 1], ys[..|ys| - 1]);
      assert SameColumns(xs[|xs| - 1], ys[|ys| - 1]);
    }
  }

  lemma {:induction false} LiquidationsIgnoreStatus(lqs: seq<Action>, lqs': seq<Action>, xs: seq<Action>, ys: seq<Action>)
    requires SameButStatus(lqs, lqs') && SameButStatus(xs, ys)
    ensures LiquidationMarks(lqs, xs) == LiquidationMarks(lqs', ys)
  {
    if lqs != [] {
      LiquidationsIgnoreStatus(lqs[..|lqs| - 1], lqs'[..|lqs| - 1], xs, ys);
      VictimsIgnoreStatus(lqs[|lqs| - 1], lqs'[|lqs| - 1], xs, ys);
    }
  }

  // The view reads five columns, and the status is not one of them: a reverted stop ends a
  // harvest there just as a successful one does.
  lemma ViewIgnoresStatus(statics: seq<string>, xs: seq<Action>, ys: seq<Action>, nodes: seq<(string, int)>)
    requires SameButStatus(xs, ys)
    ensures View(statics, xs, nodes) == View(statics, ys, nodes)
  {
    MarksIgnoreStatus(xs, ys);
    LiquidationsIgnoreStatus(xs, ys, xs, ys);
  }

  // ---------- Pruning ----------

  function PruneRows(rows: seq<Action>, cutoff: int): seq<Action> {
    if rows == [] then []
    else
      var a := rows[|rows| - 1];
      PruneRows(rows[..|rows| - 1], cutoff) + if a.blockTimestamp >= cutoff then [a] else []
  }

  lemma {:induction false} PruneRowsMeaning(rows: seq<Action>, cutoff: int, a: Action)
    ensures a in PruneRows(rows, cutoff) <==> a in rows && a.blockTimestamp >= cutoff
  {
    if rows != [] {
      PruneRowsMeaning(rows[..|rows| - 1], cutoff, a);
      assert rows == rows[..|rows| - 1] + [rows[|rows| - 1]];
    }
  }

  // A start row of the kami, later than the cutoff, that the liquidation can join.
  ghost predicate JoinedEndSurvives(rows: seq<Action>, k: string, cutoff: int, ts: int) {
    exists lq, hs :: lq in rows && hs in rows && hs.kamiId == Some(k) && lq.blockTimestamp == ts
                     && lq.actionType.HarvestLiquidate? && hs.actionType.HarvestStart?
                     && lq.harvestId.Some? && hs.harvestId == lq.harvestId
                     && ts >= cutoff && hs.blockTimestamp >= cutoff
  }

  // The condition under which a prune leaves the answer for k alone. A harvesting kami keeps
  // an active row that is later than all its ends; a resting one keeps either no active row
  // at all, or an end that is at least as late as every active row it keeps.
  ghost predicate DecidingEventSurvives(rows: seq<Action>, k: string, cutoff: int) {
    if Harvesting(rows, k) then exists t :: t >= cutoff && ActiveAt(rows, k, t)
    else
      || (forall t | ActiveAt(rows, k, t) :: t < cutoff)
      || (exists u :: (forall t | ActiveAt(rows, k, t) :: t <= u)
                      && ((u >= cutoff && StopAt(rows, k, u)) || JoinedEndSurvives(rows, k, cutoff, u)))
  }

  lemma PrunedSignals(rows: seq<Action>, k: string, cutoff: int, ts: int)
    ensures ActiveAt(PruneRows(rows, cutoff), k, ts) <==> ts >= cutoff && ActiveAt(rows, k, ts)
    ensures StopAt(PruneRows(rows, cutoff), k, ts) <==> ts >= cutoff && StopAt(rows, k, ts)
    ensures JoinedEndAt(PruneRows(rows, cutoff), k, ts) <==> JoinedEndSurvives(rows, k, cutoff, ts)
    ensures EndAt(PruneRows(rows, cutoff), k, ts) ==> EndAt(rows, k, ts)
  {
    forall a ensures a in PruneRows(rows, cutoff) <==> a in rows && a.blockTimestamp >= cutoff {
      PruneRowsMeaning(rows, cutoff, a);
    }
  }

  // Pruning changes a kami's answer exactly when its deciding event goes.
  lemma PruningStability(rows: seq<Action>, k: string, cutoff: int)
    ensures (Harvesting(PruneRows(rows, cutoff), k) <==> Harvesting(rows, k))
            <==> DecidingEventSurvives(rows, k, cutoff)
  {
    var kept := PruneRows(rows, cutoff);
    forall ts
      ensures ActiveAt(kept, k, ts) <==> ts >= cutoff && ActiveAt(rows, k, ts)
      ensures StopAt(kept, k, ts) <==> ts >= cutoff && StopAt(rows, k, ts)
      ensures JoinedEndAt(kept, k, ts) <==> JoinedEndSurvives(rows, k, cutoff, ts)
      ensures EndAt(kept, k, ts) ==> EndAt(rows, k, ts)
    {
      PrunedSignals(rows, k, cutoff, ts);
    }
    if Harvesting(rows, k) {
      StillHarvesting(rows, k, cutoff);
    } else {
      StillResting(rows, k, cutoff);
    }
  }

  lemma StillHarvesting(rows: seq<Action>, k: string, cutoff: int)
    requires Harvesting(rows, k)
    requires forall ts :: ActiveAt(PruneRows(rows, cutoff), k, ts) <==> ts >= cutoff && ActiveAt(rows, k, ts)
    requires forall ts | EndAt(PruneRows(rows, cutoff), k, ts) :: EndAt(rows, k, ts)
    ensures Harvesting(PruneRows(rows, cutoff), k) <==> exists t :: t >= cutoff && ActiveAt(rows, k, t)
  {
    if t :| t >= cutoff && ActiveAt(rows, k, t) {
      var m := LatestActive(rows, k, t);
      assert forall u | EndAt(rows, k, u) :: u < m;
      assert ActiveAt(PruneRows(rows, cutoff), k, m);
    }
  }

  // A resting kami stays at rest iff it keeps no active row, or some end that survives is
  // as late as its latest active row m.
  lemma StillResting(rows: seq<Action>, k: string, cutoff: int)
    requires !Harvesting(rows, k)
    requires forall ts :: ActiveAt(PruneRows(rows, cutoff), k, ts) <==> ts >= cutoff && ActiveAt(rows, k, ts)
    requires forall ts :: StopAt(PruneRows(rows, cutoff), k, ts) <==> ts >= cutoff && StopAt(rows, k, ts)
    requires forall ts :: JoinedEndAt(PruneRows(rows, cutoff), k, ts) <==> JoinedEndSurvives(rows, k, cutoff, ts)
    ensures !Harvesting(PruneRows(rows, cutoff), k) <==> DecidingEventSurvives(rows, k, cutoff)
  {
    var kept := PruneRows(rows, cutoff);
    if t :| ActiveAt(rows, k, t) && t >= cutoff {
      var m := LatestActive(rows, k, t);
      assert ActiveAt(kept, k, m);
      RestingAfter(kept, k, m);
      forall u ensures EndAt(kept, k, u) <==> (u >= cutoff && StopAt(rows, k, u)) || JoinedEndSurvives(rows, k, cutoff, u) {
      }
      if u :| EndAt(kept, k, u) && m <= u {
        assert forall t | ActiveAt(rows, k, t) :: t <= u;
      }
    }
  }

  lemma RestingAfter(rows: seq<Action>, k: string, m: int)
    requires ActiveAt(rows, k, m) && forall t | ActiveAt(rows, k, t) :: t <= m
    ensures !Harvesting(rows, k) <==> exists u :: EndAt(rows, k, u) && m <= u
  {
  }
}
