/** What a failed receipt fetch does to a block's rows, and exactly when it does no harm
    (ingester/ingest.py). */
module FailedFetch {
  import opened Wrappers
  import opened Decimal
  import opened Records
  import opened Decoder
  import opened Musu
  import opened Ingest

  // ---------- The transaction row ----------

  predicate SilentStatus(receipt: Receipt) {
    receipt.status.None? || receipt.status.value == 1
  }

  // A transaction row written after a failed fetch is the right one exactly when the receipt
  // had nothing to say: status absent or 1, gas absent or 0.
  lemma FailedFetchRow(cfg: Config, n: nat, timestamp: int, tx: Tx)
    requires Matched(cfg, tx)
    ensures TxRow(cfg, n, timestamp, tx, None) == TxRow(cfg, n, timestamp, tx, Some(tx.receipt))
            <==> SilentStatus(tx.receipt) && (tx.receipt.gasUsed.None? || tx.receipt.gasUsed.value == 0)
  {
    var failed, own := TxRow(cfg, n, timestamp, tx, None), TxRow(cfg, n, timestamp, tx, Some(tx.receipt));
    assert failed == own <==> failed.status == own.status && failed.gasUsed == own.gasUsed;
  }

  // ---------- The action rows ----------

  // The amount column of a row paid out of a receipt.
  function PaidAmount(receipt: Receipt, a: Action): Option<string> {
    var drains := DrainsOf(receipt.logs);
    if drains == map[] || !IsPayout(a) then a.amount else AmountFor(drains, a)
  }

  lemma PaidRow(receipt: Receipt, actions: seq<Action>, i: nat)
    requires i < |actions|
    ensures PayRows(receipt, actions)[i] == actions[i].(amount := PaidAmount(receipt, actions[i]))
  {
  }

  // The two receipts pay the row alike.
  predicate PaysAlike(r1: Receipt, r2: Receipt, a: Action) {
    PaidAmount(r1, a) == PaidAmount(r2, a)
  }

  // For a payout row of harvest e: the two receipts drained the same from it, or both nothing.
  lemma PaysAlikeIff(r1: Receipt, r2: Receipt, a: Action, e: nat)
    requires IsPayout(a) && a.harvestId == Some(ToDecimal(e)) && a.amount.None?
    ensures var d1, d2 := DrainsOf(r1.logs), DrainsOf(r2.logs);
            PaysAlike(r1, r2, a) <==> (e in d1 <==> e in d2) && (e in d1 ==> d1[e] == d2[e])
  {
    DecimalRoundTrip(e);
    var d1, d2 := DrainsOf(r1.logs), DrainsOf(r2.logs);
    if e in d1 && e in d2 && ToDecimal(d1[e]) == ToDecimal(d2[e]) {
      DecimalInjective(d1[e], d2[e]);
    }
  }

  lemma PaidRowsIff(r1: Receipt, x: Action, r2: Receipt, y: Action)
    requires y == x.(status := y.status)
    ensures x.(amount := PaidAmount(r1, x)) == y.(amount := PaidAmount(r2, y))
            <==> x.status == y.status && PaysAlike(r1, r2, x)
  {
    assert PaidAmount(r2, y) == PaidAmount(r2, x);
    var u, v := x.(amount := PaidAmount(r1, x)), y.(amount := PaidAmount(r2, y));
    assert u == v <==> u.status == v.status && u.amount == v.amount;
  }

  // The rows of one decode paid out of two receipts, written with two statuses.
  lemma PaidTwiceIff(r1: Receipt, xs: seq<Action>, s1: int, r2: Receipt, ys: seq<Action>, s2: int)
    requires xs != [] && |xs| == |ys|
    requires forall i | 0 <= i < |xs| :: xs[i].status == s1 && ys[i] == xs[i].(status := s2)
    ensures PayRows(r1, xs) == PayRows(r2, ys) <==> s1 == s2 && forall i | 0 <= i < |xs| :: PaysAlike(r1, r2, xs[i])
  {
    forall i | 0 <= i < |xs|
      ensures PayRows(r1, xs)[i] == PayRows(r2, ys)[i] <==> s1 == s2 && PaysAlike(r1, r2, xs[i])
    {
      PaidRow(r1, xs, i);
      PaidRow(r2, ys, i);
      PaidRowsIff(r1, xs[i], r2, ys[i]);
    }
    var alike := seq(|xs|, i requires 0 <= i < |xs| => PaysAlike(r1, r2, xs[i]));
    EqualIff(PayRows(r1, xs), PayRows(r2, ys), s1 == s2, alike);
    assert forall i | 0 <= i < |xs| :: alike[i] == PaysAlike(r1, r2, xs[i]);
  }

  lemma EqualIff<T>(xs: seq<T>, ys: seq<T>, same: bool, alike: seq<bool>)
    requires |xs| == |ys| == |alike| && xs != []
    requires forall i | 0 <= i < |xs| :: xs[i] == ys[i] <==> same && alike[i]
    ensures xs == ys <==> same && forall i | 0 <= i < |xs| :: alike[i]
  {
    if xs == ys {
      assert forall i | 0 <= i < |xs| :: xs[i] == ys[i] && alike[i];
      assert xs[0] == ys[0];
    }
  }

  // After a failed fetch the rows are paid out of the receipt of an earlier transaction. They
  // are the right rows exactly when the transaction's own receipt has status absent or 1 and
  // the two receipts pay every one of them alike.
  lemma FailedFetchActionsIff(cfg: Config, n: nat, timestamp: int, p: Progress, tx: Tx)
    requires HarvestTables(cfg) && Matched(cfg, tx) && p.receipt.Some?
    requires DecodeAt(cfg, n, timestamp, tx, 1).actions != []
    ensures var decoded := DecodeAt(cfg, n, timestamp, tx, 1).actions;
            var own := DecodeAt(cfg, n, timestamp, tx, StatusOf(Some(tx.receipt))).actions;
            var r := AddTx(cfg, n, timestamp, p, tx, None);
            && r.Some? && r.value.batch.actions == p.batch.actions + PayRows(p.receipt.value, decoded)
            && (PayRows(p.receipt.value, decoded) == PayRows(tx.receipt, own)
                <==> SilentStatus(tx.receipt) && forall i | 0 <= i < |decoded| :: PaysAlike(p.receipt.value, tx.receipt, decoded[i]))
  {
    var s := StatusOf(Some(tx.receipt));
    var decoded, own := DecodeAt(cfg, n, timestamp, tx, 1).actions, DecodeAt(cfg, n, timestamp, tx, s).actions;
    StatusOnlyInColumn(cfg, n, timestamp, tx, 1, s);
    DecodeTxRows(cfg, tx.to.address, tx.input, InfoOf(n, timestamp, tx, 1));
    PaidTwiceIff(p.receipt.value, decoded, 1, tx.receipt, own, s);
  }

  // ---------- Where the scan raises ----------

  // No matched transaction among the first i had its receipt fetched.
  predicate NoneFetched(cfg: Config, b: Block, fetches: seq<Option<Receipt>>, i: nat)
    requires |fetches| == |b.txs| && i <= |b.txs|
  {
    forall k | 0 <= k < i && Matched(cfg, b.txs[k]) :: fetches[k].None?
  }

  // Transaction j decodes to rows, but no receipt was ever bound to pay them.
  predicate Unpayable(cfg: Config, n: nat, b: Block, fetches: seq<Option<Receipt>>, j: nat)
    requires |fetches| == |b.txs| && j < |b.txs|
  {
    && Matched(cfg, b.txs[j])
    && DecodeAt(cfg, n, b.timestamp, b.txs[j], StatusOf(fetches[j])).actions != []
    && NoneFetched(cfg, b, fetches, j + 1)
  }

  lemma {:induction false} BoundReceipt(cfg: Config, n: nat, b: Block, fetches: seq<Option<Receipt>>, before: Option<Receipt>, i: nat)
    requires |fetches| == |b.txs| && i <= |b.txs| && ScanTxs(cfg, n, b, fetches, before, i).Some?
    ensures ScanTxs(cfg, n, b, fetches, before, i).value.receipt.None? <==> before.None? && NoneFetched(cfg, b, fetches, i)
  {
    if i > 0 {
      BoundReceipt(cfg, n, b, fetches, before, i - 1);
    }
  }

  // The scan raises exactly when it starts without a receipt and meets a transaction that
  // decodes to rows before any receipt was fetched.
  lemma {:induction false} ScanRaisesIff(cfg: Config, n: nat, b: Block, fetches: seq<Option<Receipt>>, before: Option<Receipt>, i: nat)
    requires |fetches| == |b.txs| && i <= |b.txs|
    ensures ScanTxs(cfg, n, b, fetches, before, i).None?
            <==> before.None? && exists j :: 0 <= j < i && Unpayable(cfg, n, b, fetches, j)
  {
    if i > 0 {
      ScanRaisesIff(cfg, n, b, fetches, before, i - 1);
      if ScanTxs(cfg, n, b, fetches, before, i - 1).Some? {
        BoundReceipt(cfg, n, b, fetches, before, i - 1);
        RaisesHere(cfg, n, b, fetches, before, i);
      }
    }
  }

  lemma RaisesHere(cfg: Config, n: nat, b: Block, fetches: seq<Option<Receipt>>, before: Option<Receipt>, i: nat)
    requires |fetches| == |b.txs| && 0 < i <= |b.txs| && ScanTxs(cfg, n, b, fetches, before, i - 1).Some?
    requires ScanTxs(cfg, n, b, fetches, before, i - 1).value.receipt.None?
             <==> before.None? && NoneFetched(cfg, b, fetches, i - 1)
    ensures ScanTxs(cfg, n, b, fetches, before, i).None? <==> before.None? && Unpayable(cfg, n, b, fetches, i - 1)
  {
  }

  // ---------- A witness ----------

  lemma {:induction false} Pow256Sum(a: nat, b: nat)
    ensures Pow256(a + b) == Pow256(a) * Pow256(b)
  {
    if a > 0 {
      Pow256Sum(a - 1, b);
      assert 256 * (Pow256(a - 1) * Pow256(b)) == 256 * Pow256(a - 1) * Pow256(b);
    }
  }

  // 256^32 is well above the component's id, 256^16 * 256^16.
  lemma ComponentIdFits()
    ensures VALUE_COMPONENT_ID < Pow256(32)
  {
    Pow256Sixteen();
    Pow256Sum(16, 16);
  }

  lemma Pow256Sixteen()
    ensures Pow256(16) == 0x1_0000_0000_0000_0000_0000_0000_0000_0000
  {
    Pow256Four();
    Pow256Sum(4, 4);
    Pow256Sum(8, 8);
  }

  lemma Pow256Four()
    ensures Pow256(4) == 0x1_0000_0000
  {
    assert Pow256(1) == 256 * Pow256(0);
    Pow256Sum(1, 1);
    Pow256Sum(2, 2);
  }

  // A log that writes v to harvest e.
  function ValueLog(e: nat, v: nat): Log
    requires e < Pow256(32) && v < Pow256(32)
  {
    ComponentIdFits();
    Log(WORLD_ADDRESS,
        [COMPONENT_VALUE_SET_TOPIC0, ToBigEndian(VALUE_COMPONENT_ID, 32), [], ToBigEndian(e, 32)],
        EncodeUint256Bytes(v))
  }

  lemma ValueLogWrites(e: nat, v: nat)
    requires e < Pow256(32) && v < Pow256(32)
    ensures ValueWrite(ValueLog(e, v)) == Some((e, v))
  {
    ComponentIdFits();
    BigEndianRoundTrip(e, 32);
    BigEndianRoundTrip(VALUE_COMPONENT_ID, 32);
    PayloadRoundTrip(v);
  }

  // A receipt that drains v from harvest e.
  function DrainReceipt(e: nat, v: nat): Receipt
    requires e < Pow256(32) && v < Pow256(32)
  {
    Receipt(None, None, [ValueLog(e, v), ValueLog(e, 0)])
  }

  lemma TwoWritesDrain(first: Log, second: Log, e: nat, v: nat)
    requires v > 0 && ValueWrite(first) == Some((e, v)) && ValueWrite(second) == Some((e, 0))
    ensures e in DrainsOf([first, second]) && DrainsOf([first, second])[e] == v
  {
    var logs := [first, second];
    assert logs[0] in logs && logs[1] in logs;
    assert Wrote(logs, e, 0) && Wrote(logs, e, v);
    assert Drained(logs, e, v);
  }

  lemma DrainReceiptDrains(e: nat, v: nat)
    requires e < Pow256(32) && 0 < v < Pow256(32)
    ensures Drains(DrainReceipt(e, v), e, v)
  {
    ValueLogWrites(e, v);
    ValueLogWrites(e, 0);
    TwoWritesDrain(ValueLog(e, v), ValueLog(e, 0), e, v);
  }

  // The receipt says nothing but that v was drained from e.
  predicate Drains(receipt: Receipt, e: nat, v: nat) {
    receipt.status.None? && e in DrainsOf(receipt.logs) && DrainsOf(receipt.logs)[e] == v
  }

  // A decoder of one system, whose only function collects the harvest of its argument.
  function CollectConfig(e: nat, hash: HarvestHash): Config {
    Config(map["0xc0" := HARVEST_COLLECT],
           map[HARVEST_COLLECT := map[[1, 2, 3, 4] := AbiFn("executeTyped", [AbiInput("id", "uint256")])]],
           map[], system => SourceActionType(map[], system), (system, name) => SourceRule(map[], system, name),
           (types, payload) => Some([VNat(e)]), v => "()", hash)
  }

  function CollectTx(hash: string, receipt: Receipt): Tx {
    Tx(To("0xc0"), "0xf0", [1, 2, 3, 4], hash, 0, None, receipt)
  }

  // The row of a collect call.
  lemma CollectRow(e: nat, h: HarvestHash, fn: AbiFn, info: TxInfo)
    ensures var r := RowOf(CollectConfig(e, h), HARVEST_COLLECT, fn, info, [Arg("id", "uint256", VNat(e))], 0);
            r.actionType.HarvestCollect? && r.harvestId == Some(ToDecimal(e))
  {
    var cfg, args := CollectConfig(e, h), [Arg("id", "uint256", VNat(e))];
    assert |HARVEST_COLLECT| == 22 && |HARVEST_START| == 20 && |HARVEST_STOP| == 19;
    assert cfg.rule(HARVEST_COLLECT, "id") == Some(ToColumn(HarvestId));
    assert args[..0] == [];
    var blank := BlankRow(cfg, HARVEST_COLLECT, fn, info, 0);
    assert AssignArgs(cfg, HARVEST_COLLECT, blank, args) == AssignArg(cfg, HARVEST_COLLECT, blank, args[0]);
  }

  lemma CollectArgs(e: nat, h: HarvestHash, payload: seq<byte>)
    ensures var fn := AbiFn("executeTyped", [AbiInput("id", "uint256")]);
            DecodeArgs(CollectConfig(e, h), HARVEST_COLLECT, fn, payload) == Some([Arg("id", "uint256", VNat(e))])
  {
    var args := [Arg("id", "uint256", VNat(e))];
    assert |"executeTyped"| != |"execute"| && |"uint256"| == 7;
    assert NameArgs([AbiInput("id", "uint256")], [VNat(e)]) == args;
    assert !IsArray(args[0].typ);
  }

  lemma CollectDecodes(e: nat, h: HarvestHash, n: nat, tx: Tx, status: int)
    requires tx.to == To("0xc0") && tx.input == [1, 2, 3, 4]
    ensures var d := DecodeAt(CollectConfig(e, h), n, 0, tx, status).actions;
            |d| == 1 && d[0].actionType.HarvestCollect? && d[0].harvestId == Some(ToDecimal(e))
  {
    var cfg, args := CollectConfig(e, h), [Arg("id", "uint256", VNat(e))];
    assert tx.input[..4] == [1, 2, 3, 4];
    CollectArgs(e, h, tx.input[4..]);
    assert !IsArray(args[0].typ) && BatchLength(args) == 0;
    CollectRow(e, h, AbiFn("executeTyped", [AbiInput("id", "uint256")]), InfoOf(n, 0, tx, status));
  }

  // Scanning one collect with the receipt that ends up bound: one row, paid from it.
  lemma CollectAdds(e: nat, h: HarvestHash, n: nat, p: Progress, tx: Tx, fetch: Option<Receipt>, bound: Receipt)
    requires tx.to == To("0xc0") && tx.input == [1, 2, 3, 4] && e in DrainsOf(bound.logs)
    requires Some(bound) == if fetch.Some? then fetch else p.receipt
    ensures var r, k := AddTx(CollectConfig(e, h), n, 0, p, tx, fetch), |p.batch.actions|;
            && r.Some? && r.value.receipt == Some(bound) && |r.value.batch.actions| == k + 1
            && r.value.batch.actions[k].amount == Some(ToDecimal(DrainsOf(bound.logs)[e]))
  {
    var decoded := DecodeAt(CollectConfig(e, h), n, 0, tx, StatusOf(fetch)).actions;
    CollectDecodes(e, h, n, tx, StatusOf(fetch));
    PaidCollect(bound, decoded, e);
  }

  // The clean rows of a transaction are those of a scan that fetches its receipt.
  lemma CleanAdds(cfg: Config, n: nat, b: Block, i: nat)
    requires i < |b.txs| && Matched(cfg, b.txs[i])
    ensures var r := AddTx(cfg, n, b.timestamp, Progress(CleanTxs(cfg, n, b, i), None), b.txs[i], Some(b.txs[i].receipt));
            r.Some? && CleanTxs(cfg, n, b, i + 1).actions == r.value.batch.actions
  {
  }

  // Two transactions collect one harvest and the second fetch fails: its row is written with
  // what the first one drained. DrainReceiptDrains gives such receipts for any two amounts.
  lemma StaleReceiptWitness(e: nat, v1: nat, v2: nat, r1: Receipt, r2: Receipt, h: HarvestHash, n: nat)
    requires Drains(r1, e, v1) && Drains(r2, e, v2)
    ensures var cfg, b := CollectConfig(e, h), Block(0, [CollectTx("0x1", r1), CollectTx("0x2", r2)]);
            var scanned := ScanTxs(cfg, n, b, [Some(r1), None], None, 2);
            && scanned.Some? && |scanned.value.batch.actions| == 2 && |CleanTxs(cfg, n, b, 2).actions| == 2
            && scanned.value.batch.actions[1].amount == Some(ToDecimal(v1))
            && CleanTxs(cfg, n, b, 2).actions[1].amount == Some(ToDecimal(v2))
  {
    var cfg, b := CollectConfig(e, h), Block(0, [CollectTx("0x1", r1), CollectTx("0x2", r2)]);
    ScanTwo(e, h, n, b, r1);
    CleanTwo(e, h, n, b, r1, r2);
  }

  // The scan as it happens.
  lemma ScanTwo(e: nat, h: HarvestHash, n: nat, b: Block, r1: Receipt)
    requires b.timestamp == 0 && |b.txs| == 2 && e in DrainsOf(r1.logs)
    requires forall i | 0 <= i < 2 :: b.txs[i].to == To("0xc0") && b.txs[i].input == [1, 2, 3, 4]
    ensures var scanned := ScanTxs(CollectConfig(e, h), n, b, [Some(r1), None], None, 2);
            && scanned.Some? && |scanned.value.batch.actions| == 2
            && scanned.value.batch.actions[1].amount == Some(ToDecimal(DrainsOf(r1.logs)[e]))
  {
    var start := Progress(Batch([], []), None);
    CollectAdds(e, h, n, start, b.txs[0], Some(r1), r1);
    var p := AddTx(CollectConfig(e, h), n, 0, start, b.txs[0], Some(r1)).value;
    CollectAdds(e, h, n, p, b.txs[1], None, r1);
    TwoScans(CollectConfig(e, h), n, b, [Some(r1), None]);
  }

  // The clean rows.
  lemma CleanTwo(e: nat, h: HarvestHash, n: nat, b: Block, r1: Receipt, r2: Receipt)
    requires b.timestamp == 0 && |b.txs| == 2 && e in DrainsOf(r1.logs) && e in DrainsOf(r2.logs)
    requires forall i | 0 <= i < 2 :: b.txs[i].to == To("0xc0") && b.txs[i].input == [1, 2, 3, 4]
    requires b.txs[0].receipt == r1 && b.txs[1].receipt == r2
    ensures var clean := CleanTxs(CollectConfig(e, h), n, b, 2).actions;
            |clean| == 2 && clean[1].amount == Some(ToDecimal(DrainsOf(r2.logs)[e]))
  {
    var cfg := CollectConfig(e, h);
    CleanAdds(cfg, n, b, 0);
    CollectAdds(e, h, n, Progress(CleanTxs(cfg, n, b, 0), None), b.txs[0], Some(r1), r1);
    CleanAdds(cfg, n, b, 1);
    CollectAdds(e, h, n, Progress(CleanTxs(cfg, n, b, 1), None), b.txs[1], Some(r2), r2);
  }

  lemma TwoScans(cfg: Config, n: nat, b: Block, fetches: seq<Option<Receipt>>)
    requires |b.txs| == |fetches| == 2 && Matched(cfg, b.txs[0]) && Matched(cfg, b.txs[1])
    requires AddTx(cfg, n, b.timestamp, Progress(Batch([], []), None), b.txs[0], fetches[0]).Some?
    ensures ScanTxs(cfg, n, b, fetches, None, 2) ==
            AddTx(cfg, n, b.timestamp, AddTx(cfg, n, b.timestamp, Progress(Batch([], []), None), b.txs[0], fetches[0]).value,
                  b.txs[1], fetches[1])
  {
    assert ScanTxs(cfg, n, b, fetches, None, 1) == AddTx(cfg, n, b.timestamp, Progress(Batch([], []), None), b.txs[0], fetches[0]);
  }

  lemma PaidCollect(receipt: Receipt, actions: seq<Action>, e: nat)
    requires |actions| == 1 && actions[0].actionType.HarvestCollect? && actions[0].harvestId == Some(ToDecimal(e))
    requires e in DrainsOf(receipt.logs)
    ensures |PayRows(receipt, actions)| == 1
    ensures PayRows(receipt, actions)[0].amount == Some(ToDecimal(DrainsOf(receipt.logs)[e]))
  {
    DecimalRoundTrip(e);
  }
}
