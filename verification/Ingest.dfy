/** One block of the ingest workflow: filter, decode, pair drains (ingester/ingest.py). */
module Ingest {
  import opened Wrappers
  import opened Decimal
  import opened Records
  import opened Musu
  import opened Decoder

  datatype Recipient = Creation | Malformed | To(address: string)

  // A transaction together with the receipt the chain holds for it.
  datatype Tx = Tx(
    to: Recipient, fromAddr: string, input: seq<byte>, hash: string, index: nat,
    gasPrice: Option<nat>, receipt: Receipt)

  datatype Block = Block(timestamp: int, txs: seq<Tx>)

  datatype Batch = Batch(txs: seq<RawTx>, actions: seq<Action>)

  // The chain never changes, and neither does the registry behind the decoder's tables.
  datatype World = World(cfg: Config, chain: nat -> Block)

  predicate Matched(cfg: Config, tx: Tx) {
    tx.to.To? && tx.to.address in cfg.systemOf
  }

  // ---------- Rows of one matched transaction ----------

  // `fetch` is the outcome of the receipt fetch: None when it raised.
  function StatusOf(fetch: Option<Receipt>): int {
    if fetch.Some? && fetch.value.status.Some? then fetch.value.status.value else 1
  }

  function GasOf(fetch: Option<Receipt>): Option<nat> {
    if fetch.Some? && fetch.value.gasUsed != Some(0) then fetch.value.gasUsed else None
  }

  function TxRow(cfg: Config, n: nat, timestamp: int, tx: Tx, fetch: Option<Receipt>): RawTx
    requires Matched(cfg, tx)
  {
    RawTx(tx.hash, n, timestamp, tx.index, tx.fromAddr, tx.to.address,
          if |tx.input| >= 4 then tx.input[..4] else [], cfg.systemOf[tx.to.address],
          tx.input, StatusOf(fetch), GasOf(fetch), tx.gasPrice)
  }

  function InfoOf(n: nat, timestamp: int, tx: Tx, status: int): TxInfo {
    TxInfo(tx.hash, tx.fromAddr, n, timestamp, status)
  }

  function DecodeAt(cfg: Config, n: nat, timestamp: int, tx: Tx, status: int): DecodeResult
    requires Matched(cfg, tx)
  {
    DecodeTx(cfg, tx.to.address, tx.input, InfoOf(n, timestamp, tx, status))
  }

  predicate IsPayout(a: Action) {
    a.actionType.HarvestCollect? || a.actionType.HarvestStop? || a.actionType.HarvestLiquidate?
  }

  // The amount for a row: keyed by its harvest id, else by the victim id in its metadata.
  function AmountFor(drains: map<nat, nat>, a: Action): Option<string> {
    if a.harvestId.Some? && a.harvestId.value != "" then MusuAmount(drains, a.harvestId)
    else if "victim_harvest_id" !in a.metadata then None
    else
      match a.metadata["victim_harvest_id"]
      case MetaText(s) => MusuAmount(drains, Some(s))
      case MetaInt(i) => if i in drains then Some(ToDecimal(drains[i])) else None
      case MetaList(_) => None
  }

  function PayRow(drains: map<nat, nat>, a: Action): (r: Action)
    ensures r.(amount := a.amount) == a
  {
    if IsPayout(a) then a.(amount := AmountFor(drains, a)) else a
  }

  // Pairs a transaction's rows with the drains of `receipt`.
  function PayRows(receipt: Receipt, actions: seq<Action>): (r: seq<Action>)
    ensures |r| == |actions|
    ensures forall i | 0 <= i < |r| :: r[i].(amount := actions[i].amount) == actions[i]
  {
    var drains := DrainsOf(receipt.logs);
    if drains == map[] then actions
    else seq(|actions|, i requires 0 <= i < |actions| => PayRow(drains, actions[i]))
  }

  // ---------- Rows of a block ----------

  // The variable `receipt` outlives its transaction: after a failed fetch it still holds
  // the receipt of an earlier one, and it is unbound before the first.
  datatype Progress = Progress(batch: Batch, receipt: Option<Receipt>)

  // One matched transaction. None where the code raises on the unbound receipt.
  function AddTx(cfg: Config, n: nat, timestamp: int, p: Progress, tx: Tx, fetch: Option<Receipt>): Option<Progress>
    requires Matched(cfg, tx)
  {
    var receipt := if fetch.Some? then fetch else p.receipt;
    var decoded := DecodeAt(cfg, n, timestamp, tx, StatusOf(fetch)).actions;
    if decoded != [] && receipt.None? then None
    else
      var actions := if decoded == [] then [] else PayRows(receipt.value, decoded);
      Some(Progress(
             Batch(p.batch.txs + [TxRow(cfg, n, timestamp, tx, fetch)], p.batch.actions + actions), receipt))
  }

  // The first i transactions of block n, with the given receipt fetch outcomes and the
  // receipt left over from before the block.
  function ScanTxs(cfg: Config, n: nat, b: Block, fetches: seq<Option<Receipt>>, before: Option<Receipt>, i: nat)
    : Option<Progress>
    requires |fetches| == |b.txs| && i <= |b.txs|
  {
    if i == 0 then Some(Progress(Batch([], []), before))
    else
      var p := ScanTxs(cfg, n, b, fetches, before, i - 1);
      if p.None? || !Matched(cfg, b.txs[i - 1]) then p
      else AddTx(cfg, n, b.timestamp, p.value, b.txs[i - 1], fetches[i - 1])
  }

  // What every fetch should return.
  function Receipts(b: Block): seq<Option<Receipt>> {
    seq(|b.txs|, i requires 0 <= i < |b.txs| => Some(b.txs[i].receipt))
  }

  // The rows the block stands for: each matched transaction with its own receipt.
  function CleanTxs(cfg: Config, n: nat, b: Block, i: nat): Batch
    requires i <= |b.txs|
  {
    if i == 0 then Batch([], [])
    else
      var rest, tx := CleanTxs(cfg, n, b, i - 1), b.txs[i - 1];
      if !Matched(cfg, tx) then rest
      else
        var receipt := tx.receipt;
        Batch(rest.txs + [TxRow(cfg, n, b.timestamp, tx, Some(receipt))],
              rest.actions + PayRows(receipt, DecodeAt(cfg, n, b.timestamp, tx, StatusOf(Some(receipt))).actions))
  }

  function CleanBatch(w: World, n: nat): Batch {
    CleanTxs(w.cfg, n, w.chain(n), |w.chain(n).txs|)
  }

  datatype IngestStats = IngestStats(
    blocksScanned: nat, txsSeen: nat, txsMatched: nat, txsDecoded: nat, actions: nat,
    unknownSelector: nat, decodeErrors: nat)
  {
    function Bump(status: DecodeStatus, nActions: nat): IngestStats {
      var s := this.(txsMatched := txsMatched + 1, actions := actions + nActions);
      match status
      case Decoded => s.(txsDecoded := txsDecoded + 1)
      case UnknownSelector => s.(unknownSelector := unknownSelector + 1)
      case DecodeError => s.(decodeErrors := decodeErrors + 1)
      case UnknownSystem => s
    }

    // Every matched transaction is counted under exactly one outcome.
    predicate Balanced() {
      txsMatched == txsDecoded + unknownSelector + decodeErrors
    }
  }

  // How many of the first i transactions are matched and decode with the given status.
  function CountOf(cfg: Config, n: nat, b: Block, fetches: seq<Option<Receipt>>, i: nat, status: DecodeStatus): nat
    requires |fetches| == |b.txs| && i <= |b.txs|
  {
    if i == 0 then 0
    else
      CountOf(cfg, n, b, fetches, i - 1, status)
      + if Matched(cfg, b.txs[i - 1])
           && DecodeAt(cfg, n, b.timestamp, b.txs[i - 1], StatusOf(fetches[i - 1])).status == status then 1 else 0
  }

  predicate CountsAgree(cfg: Config, n: nat, b: Block, fetches: seq<Option<Receipt>>, i: nat, s: IngestStats)
    requires |fetches| == |b.txs| && i <= |b.txs|
  {
    && s.txsDecoded == CountOf(cfg, n, b, fetches, i, Decoded)
    && s.unknownSelector == CountOf(cfg, n, b, fetches, i, UnknownSelector)
    && s.decodeErrors == CountOf(cfg, n, b, fetches, i, DecodeError)
  }

  const NO_STATS := IngestStats(0, 0, 0, 0, 0, 0, 0)

  method PairDrains(receipt: Receipt, decoded: seq<Action>) returns (actions: seq<Action>)
    ensures actions == PayRows(receipt, decoded)
  {
    var drains := DecodeMusuDrains(receipt.logs);
    DrainsUnique(receipt.logs, drains, DrainsOf(receipt.logs));
    if drains == map[] {
      return decoded;
    }
    actions := [];
    for j := 0 to |decoded|
      invariant |actions| == j
      invariant forall k | 0 <= k < j :: actions[k] == PayRow(drains, decoded[k])
    {
      var a := decoded[j];
      if IsPayout(a) {
        a := a.(amount := AmountFor(drains, a));
      }
      actions := actions + [a];
    }
  }

  // The counters after the first i transactions.
  function StatsOf(cfg: Config, n: nat, b: Block, fetches: seq<Option<Receipt>>, i: nat): IngestStats
    requires |fetches| == |b.txs| && i <= |b.txs|
  {
    if i == 0 then NO_STATS
    else
      var s := StatsOf(cfg, n, b, fetches, i - 1);
      CountTx(cfg, n, b.timestamp, b.txs[i - 1], fetches[i - 1], s.(txsSeen := s.txsSeen + 1))
  }

  function CountTx(cfg: Config, n: nat, timestamp: int, tx: Tx, fetch: Option<Receipt>, s: IngestStats): IngestStats {
    if !Matched(cfg, tx) then s
    else
      var result := DecodeAt(cfg, n, timestamp, tx, StatusOf(fetch));
      s.Bump(result.status, |result.actions|)
  }

  // One matched transaction: row, receipt, decoding, payouts, counters.
  method AddMatched(cfg: Config, n: nat, timestamp: int, p: Progress, tx: Tx, fetch: Option<Receipt>, stats0: IngestStats)
    returns (r: Option<Progress>, stats: IngestStats)
    requires Matched(cfg, tx)
    ensures r == AddTx(cfg, n, timestamp, p, tx, fetch)
    ensures stats == CountTx(cfg, n, timestamp, tx, fetch, stats0)
  {
    var receipt, status, gasUsed := p.receipt, 1, None;
    if fetch.Some? {
      receipt := fetch;
      status := StatusOf(receipt);
      gasUsed := GasOf(receipt);
    }
    var rawBatch := p.batch.txs + [TxRow(cfg, n, timestamp, tx, fetch)];
    var result := DecodeAt(cfg, n, timestamp, tx, status);
    stats := stats0.Bump(result.status, |result.actions|);
    var actions := result.actions;
    if actions != [] {
      if receipt.None? {
        return None, stats;
      }
      actions := PairDrains(receipt.value, actions);
    }
    r := Some(Progress(Batch(rawBatch, p.batch.actions + actions), receipt));
  }

  // The transaction loop of process_block_range: it builds the rows of the specification and
  // fails exactly where that does.
  method CollectRows(cfg: Config, n: nat, b: Block, fetches: seq<Option<Receipt>>, before: Option<Receipt>)
    returns (r: Option<Progress>, stats: IngestStats)
    requires |fetches| == |b.txs|
    ensures r == ScanTxs(cfg, n, b, fetches, before, |b.txs|)
    ensures r.Some? ==> stats == StatsOf(cfg, n, b, fetches, |b.txs|)
  {
    hide AddTx, DecodeAt, TxRow, PayRows;
    stats := NO_STATS;
    r := Some(Progress(Batch([], []), before));
    for i := 0 to |b.txs|
      invariant r.Some? && r == ScanTxs(cfg, n, b, fetches, before, i)
      invariant stats == StatsOf(cfg, n, b, fetches, i)
    {
      stats := stats.(txsSeen := stats.txsSeen + 1);
      if Matched(cfg, b.txs[i]) {
        r, stats := AddMatched(cfg, n, b.timestamp, r.value, b.txs[i], fetches[i], stats);
        if r.None? {
          ScanStuck(cfg, n, b, fetches, before, i + 1, |b.txs|);
          return;
        }
      }
    }
  }

  // The counters count the matched transactions of each outcome and the rows built.
  ghost predicate StatsOk(cfg: Config, n: nat, b: Block, fetches: seq<Option<Receipt>>, i: nat, s: IngestStats, batch: Batch)
    requires |fetches| == |b.txs| && i <= |b.txs|
  {
    && s.txsSeen == i && s.Balanced()
    && s.txsMatched == |batch.txs| && s.actions == |batch.actions|
    && CountsAgree(cfg, n, b, fetches, i, s)
  }

  lemma {:induction false} CountsMeaning(cfg: Config, n: nat, b: Block, fetches: seq<Option<Receipt>>, i: nat)
    requires |fetches| == |b.txs| && i <= |b.txs|
    ensures CountsAgree(cfg, n, b, fetches, i, StatsOf(cfg, n, b, fetches, i))
  {
    if i > 0 {
      CountsMeaning(cfg, n, b, fetches, i - 1);
    }
  }

  lemma {:induction false} StatsMeaning(cfg: Config, n: nat, b: Block, fetches: seq<Option<Receipt>>, before: Option<Receipt>, i: nat)
    requires |fetches| == |b.txs| && i <= |b.txs| && ScanTxs(cfg, n, b, fetches, before, i).Some?
    ensures StatsOk(cfg, n, b, fetches, i, StatsOf(cfg, n, b, fetches, i), ScanTxs(cfg, n, b, fetches, before, i).value.batch)
  {
    CountsMeaning(cfg, n, b, fetches, i);
    if i > 0 {
      StatsMeaning(cfg, n, b, fetches, before, i - 1);
      var p, tx := ScanTxs(cfg, n, b, fetches, before, i - 1).value, b.txs[i - 1];
      if Matched(cfg, tx) {
        AddTxShape(cfg, n, b.timestamp, p, tx, fetches[i - 1]);
        var d := DecodeAt(cfg, n, b.timestamp, tx, StatusOf(fetches[i - 1]));
        var s := StatsOf(cfg, n, b, fetches, i - 1);
        assert StatsOf(cfg, n, b, fetches, i) == s.(txsSeen := s.txsSeen + 1).Bump(d.status, |d.actions|);
      }
    }
  }

  lemma AddTxShape(cfg: Config, n: nat, timestamp: int, p: Progress, tx: Tx, fetch: Option<Receipt>)
    requires Matched(cfg, tx) && AddTx(cfg, n, timestamp, p, tx, fetch).Some?
    ensures var r, d := AddTx(cfg, n, timestamp, p, tx, fetch).value, DecodeAt(cfg, n, timestamp, tx, StatusOf(fetch));
            && |r.batch.txs| == |p.batch.txs| + 1 && |r.batch.actions| == |p.batch.actions| + |d.actions|
            && !d.status.UnknownSystem?
  {
  }

  lemma {:induction false} ScanStuck(cfg: Config, n: nat, b: Block, fetches: seq<Option<Receipt>>, before: Option<Receipt>, i: nat, j: nat)
    requires |fetches| == |b.txs| && i <= j <= |b.txs|
    requires ScanTxs(cfg, n, b, fetches, before, i).None?
    ensures ScanTxs(cfg, n, b, fetches, before, j).None?
  {
    if i < j {
      ScanStuck(cfg, n, b, fetches, before, i, j - 1);
    }
  }

  // ---------- Conservation ----------

  // What the amount column of some rows adds up to.
  function SumColumn(actions: seq<Action>): nat {
    if actions == [] then 0 else SumColumn(actions[1..]) + AmountValue(actions[0].amount)
  }

  // Row i pays out the harvest ids[i], and has no amount yet.
  predicate PayoutRows(actions: seq<Action>, ids: seq<nat>) {
    |actions| == |ids|
    && forall i | 0 <= i < |ids| ::
         && (actions[i].actionType.HarvestStop? || actions[i].actionType.HarvestCollect? || actions[i].actionType.HarvestLiquidate?)
         && actions[i].harvestId == Some(ToDecimal(ids[i])) && actions[i].amount.None?
  }

  lemma {:induction false} PaidColumn(drains: map<nat, nat>, actions: seq<Action>, ids: seq<nat>)
    requires PayoutRows(actions, ids)
    ensures SumColumn(seq(|actions|, i requires 0 <= i < |actions| => PayRow(drains, actions[i]))) == SumAmounts(drains, ids)
  {
    var paid := seq(|actions|, i requires 0 <= i < |actions| => PayRow(drains, actions[i]));
    if ids != [] {
      PaidColumn(drains, actions[1..], ids[1..]);
      var rest := actions[1..];
      assert paid[1..] == seq(|rest|, i requires 0 <= i < |rest| => PayRow(drains, rest[i]));
      assert paid[0].amount == MusuAmount(drains, Some(ToDecimal(ids[0]))) by {
        DecimalRoundTrip(ids[0]);
        assert ToDecimal(ids[0]) != "";
      }
    }
  }

  lemma {:induction false} UnpaidColumn(actions: seq<Action>, ids: seq<nat>)
    requires PayoutRows(actions, ids)
    ensures SumColumn(actions) == 0
    ensures SumAmounts(map[], ids) == 0
  {
    if ids != [] {
      UnpaidColumn(actions[1..], ids[1..]);
    }
  }

  // The payout rows of a transaction, when they name distinct harvests, receive between them
  // exactly what the receipt drained from those harvests: nothing is lost or paid twice.
  lemma PayoutsConserveDrains(receipt: Receipt, actions: seq<Action>, ids: seq<nat>)
    requires PayoutRows(actions, ids) && forall i, j | 0 <= i < j < |ids| :: ids[i] != ids[j]
    ensures SumColumn(PayRows(receipt, actions)) == SumDrains(DrainsOf(receipt.logs), IdSet(ids))
  {
    var drains := DrainsOf(receipt.logs);
    AmountsConserveDrains(drains, ids);
    if drains == map[] {
      UnpaidColumn(actions, ids);
    } else {
      PaidColumn(drains, actions, ids);
    }
  }

  // ---------- What a row is paid ----------

  // The amount column says what the receipt drained from harvest e, and nothing if it drained
  // nothing.
  ghost predicate PaysDrain(receipt: Receipt, amount: Option<string>, e: nat) {
    && (forall v: nat :: amount == Some(ToDecimal(v)) <==> Drained(receipt.logs, e, v))
    && (amount.None? <==> forall v: nat :: !Drained(receipt.logs, e, v))
  }

  lemma LookupPaysDrain(receipt: Receipt, amount: Option<string>, e: nat)
    requires var drains := DrainsOf(receipt.logs); amount == if e in drains then Some(ToDecimal(drains[e])) else None
    ensures PaysDrain(receipt, amount, e)
  {
    var drains := DrainsOf(receipt.logs);
    assert e in drains ==> Drained(receipt.logs, e, drains[e]);
    forall v: nat ensures amount == Some(ToDecimal(v)) <==> Drained(receipt.logs, e, v) {
      if e in drains && ToDecimal(drains[e]) == ToDecimal(v) {
        DecimalInjective(drains[e], v);
      }
    }
  }

  // The row has no amount yet, or the receipt drained something, which clears it first.
  ghost predicate Payable(receipt: Receipt, a: Action) {
    a.amount.None? || exists e, v :: Drained(receipt.logs, e, v)
  }

  lemma NothingDrained(receipt: Receipt, rows: seq<Action>)
    ensures DrainsOf(receipt.logs) == map[] <==> forall e: nat, v: nat :: !Drained(receipt.logs, e, v)
    ensures (forall e: nat, v: nat :: !Drained(receipt.logs, e, v)) ==> PayRows(receipt, rows) == rows
  {
    var drains := DrainsOf(receipt.logs);
    assert forall e | e in drains :: Drained(receipt.logs, e, drains[e]);
    if e, v :| Drained(receipt.logs, e, v) {
      assert e in drains;
    }
  }

  // A stop, collect or liquidate row of harvest e leaves with exactly what was drained from e.
  lemma PayoutIsDrain(receipt: Receipt, rows: seq<Action>, i: nat, e: nat)
    requires i < |rows| && Payable(receipt, rows[i]) && rows[i].harvestId == Some(ToDecimal(e))
    requires rows[i].actionType.HarvestStop? || rows[i].actionType.HarvestCollect? || rows[i].actionType.HarvestLiquidate?
    ensures PaysDrain(receipt, PayRows(receipt, rows)[i].amount, e)
  {
    DecimalRoundTrip(e);
    NothingDrained(receipt, rows);
    LookupPaysDrain(receipt, PayRows(receipt, rows)[i].amount, e);
  }

  // Such a row without a harvest id is paid by the victim's id in its metadata, in either form.
  lemma PayoutByVictim(receipt: Receipt, rows: seq<Action>, i: nat, e: nat)
    requires i < |rows| && Payable(receipt, rows[i]) && (rows[i].harvestId.None? || rows[i].harvestId == Some(""))
    requires rows[i].actionType.HarvestStop? || rows[i].actionType.HarvestCollect? || rows[i].actionType.HarvestLiquidate?
    requires "victim_harvest_id" in rows[i].metadata
    requires rows[i].metadata["victim_harvest_id"] in [MetaText(ToDecimal(e)), MetaInt(e)]
    ensures PaysDrain(receipt, PayRows(receipt, rows)[i].amount, e)
  {
    DecimalRoundTrip(e);
    NothingDrained(receipt, rows);
    LookupPaysDrain(receipt, PayRows(receipt, rows)[i].amount, e);
  }

  // With neither id, or ids that are no numbers, it is paid nothing.
  lemma PayoutUnknown(receipt: Receipt, rows: seq<Action>, i: nat)
    requires i < |rows| && rows[i].amount.None?
    requires if rows[i].harvestId.Some? && rows[i].harvestId.value != "" then ParseDecimal(rows[i].harvestId.value).None?
             else "victim_harvest_id" in rows[i].metadata ==>
               match rows[i].metadata["victim_harvest_id"]
               case MetaText(s) => ParseDecimal(s).None?
               case MetaInt(_) => false
               case MetaList(_) => true
    ensures PayRows(receipt, rows)[i] == rows[i]
  {
  }

  // A row of any other type is left alone, its amount included.
  lemma OthersUnpaid(receipt: Receipt, rows: seq<Action>, i: nat)
    requires i < |rows|
    requires !rows[i].actionType.HarvestStop? && !rows[i].actionType.HarvestCollect? && !rows[i].actionType.HarvestLiquidate?
    ensures PayRows(receipt, rows)[i] == rows[i]
  {
  }

  // ---------- Rows under failed receipt fetches ----------

  // Each fetch either raised or returned the chain's receipt.
  predicate Honest(b: Block, fetches: seq<Option<Receipt>>) {
    |fetches| == |b.txs|
    && forall i | 0 <= i < |fetches| :: fetches[i].None? || fetches[i] == Some(b.txs[i].receipt)
  }

  // `r` is the clean row, up to the two columns read from the receipt unless `exact`.
  predicate TxAgrees(exact: bool, r: RawTx, clean: RawTx) {
    r.(status := clean.status, gasUsed := clean.gasUsed) == clean && (exact ==> r == clean)
  }

  // `a` is the clean row: up to the columns that depend on the receipt unless `exact`, and
  // up to a kami id stitched onto a row that has none, which must then be the right one.
  predicate ActionAgrees(h: HarvestHash, exact: bool, a: Action, clean: Action) {
    && a.(kamiId := clean.kamiId, status := clean.status, amount := clean.amount) == clean
    && (exact ==> a.status == clean.status && a.amount == clean.amount)
    && (a.kamiId == clean.kamiId
        || (clean.kamiId.None? && clean.Stitchable() && clean.harvestId.Some? && a.kamiId.Some?
            && Pairs(h, a.kamiId.value, clean.harvestId.value)))
  }

  ghost predicate BatchAgrees(h: HarvestHash, exact: bool, b: Batch, clean: Batch) {
    && |b.txs| == |clean.txs| && |b.actions| == |clean.actions|
    && (forall i | 0 <= i < |b.txs| :: TxAgrees(exact, b.txs[i], clean.txs[i]))
    && (forall i | 0 <= i < |b.actions| :: ActionAgrees(h, exact, b.actions[i], clean.actions[i]))
  }

  lemma AssignArgStatus(cfg: Config, system: string, row: Action, arg: Arg, s: int)
    ensures AssignArg(cfg, system, row.(status := s), arg) == AssignArg(cfg, system, row, arg).(status := s)
  {
  }

  lemma {:induction false} AssignArgsStatus(cfg: Config, system: string, row: Action, args: seq<Arg>, s: int)
    ensures AssignArgs(cfg, system, row.(status := s), args) == AssignArgs(cfg, system, row, args).(status := s)
  {
    if args != [] {
      var init := args[..|args| - 1];
      AssignArgsStatus(cfg, system, row, init, s);
      AssignArgStatus(cfg, system, AssignArgs(cfg, system, row, init), args[|args| - 1], s);
    }
  }

  lemma RowStatus(cfg: Config, system: string, fn: AbiFn, info: TxInfo, args: seq<Arg>, sub: nat, s: int)
    ensures RowOf(cfg, system, fn, info.(status := s), args, sub) == RowOf(cfg, system, fn, info, args, sub).(status := s)
  {
    AssignArgsStatus(cfg, system, BlankRow(cfg, system, fn, info, sub), args, s);
  }

  // The receipt status reaches the rows only as their status column.
  lemma StatusOnlyInColumn(cfg: Config, n: nat, timestamp: int, tx: Tx, s1: int, s2: int)
    requires Matched(cfg, tx)
    ensures var r1, r2 := DecodeAt(cfg, n, timestamp, tx, s1), DecodeAt(cfg, n, timestamp, tx, s2);
            |r1.actions| == |r2.actions|
            && forall i | 0 <= i < |r1.actions| :: r1.actions[i].(status := s2) == r2.actions[i]
  {
    var r1 := DecodeAt(cfg, n, timestamp, tx, s1);
    if r1.status.Decoded? {
      var system := cfg.systemOf[tx.to.address];
      var fn := cfg.index[system][tx.input[..4]];
      var args := DecodeArgs(cfg, system, fn, tx.input[4..]).value;
      var info := InfoOf(n, timestamp, tx, s1);
      FanOutStatus(cfg, system, fn, info, args, s2);
    }
  }

  lemma FanOutStatus(cfg: Config, system: string, fn: AbiFn, info: TxInfo, args: seq<Arg>, s: int)
    requires TupledArrays(args)
    ensures var r1, r2 := FanOut(cfg, system, fn, info, args), FanOut(cfg, system, fn, info.(status := s), args);
            |r1| == |r2| && forall i | 0 <= i < |r1| :: r1[i].(status := s) == r2[i]
  {
    var n := BatchLength(args);
    if n == 0 {
      RowStatus(cfg, system, fn, info, args, 0, s);
    } else {
      BatchLengthMeaning(args, n);
      forall j | 0 <= j < n
        ensures FanOut(cfg, system, fn, info, args)[j].(status := s) == FanOut(cfg, system, fn, info.(status := s), args)[j]
      {
        RowStatus(cfg, system, fn, info, Spread(args, j), j, s);
      }
    }
  }

  // One transaction: its rows agree with the clean ones, exactly if its fetch succeeded.
  lemma AddTxAgrees(cfg: Config, n: nat, timestamp: int, p: Progress, tx: Tx, fetch: Option<Receipt>, actions: seq<Action>)
    requires Matched(cfg, tx) && (fetch.None? || fetch == Some(tx.receipt))
    requires var r := AddTx(cfg, n, timestamp, p, tx, fetch);
             r.Some? && r.value.batch.actions == p.batch.actions + actions
    ensures TxAgrees(fetch.Some?, TxRow(cfg, n, timestamp, tx, fetch), TxRow(cfg, n, timestamp, tx, Some(tx.receipt)))
    ensures var clean := PayRows(tx.receipt, DecodeAt(cfg, n, timestamp, tx, StatusOf(Some(tx.receipt))).actions);
            && |actions| == |clean|
            && forall i | 0 <= i < |actions| :: ActionAgrees(cfg.hash, fetch.Some?, actions[i], clean[i])
  {
    var receipt := if fetch.Some? then fetch else p.receipt;
    var decoded := DecodeAt(cfg, n, timestamp, tx, StatusOf(fetch)).actions;
    var own := DecodeAt(cfg, n, timestamp, tx, StatusOf(Some(tx.receipt))).actions;
    StatusOnlyInColumn(cfg, n, timestamp, tx, StatusOf(fetch), StatusOf(Some(tx.receipt)));
    assert actions == if decoded == [] then [] else PayRows(receipt.value, decoded) by {
      assert (p.batch.actions + actions)[|p.batch.actions|..] == actions;
    }
    var clean := PayRows(tx.receipt, own);
    forall i | 0 <= i < |actions| ensures ActionAgrees(cfg.hash, fetch.Some?, actions[i], clean[i]) {
      assert actions[i].(amount := decoded[i].amount) == decoded[i];
      assert clean[i].(amount := own[i].amount) == own[i];
    }
  }

  lemma BatchAgreesAppend(h: HarvestHash, e1: bool, b: Batch, clean: Batch, e2: bool, row: RawTx, cleanRow: RawTx,
                          actions: seq<Action>, cleanActions: seq<Action>)
    requires BatchAgrees(h, e1, b, clean) && TxAgrees(e2, row, cleanRow) && |actions| == |cleanActions|
    requires forall i | 0 <= i < |actions| :: ActionAgrees(h, e2, actions[i], cleanActions[i])
    ensures BatchAgrees(h, e1 && e2, Batch(b.txs + [row], b.actions + actions),
                        Batch(clean.txs + [cleanRow], clean.actions + cleanActions))
  {
  }

  // One more matched transaction.
  lemma AddTxKeepsAgreement(cfg: Config, n: nat, timestamp: int, p: Progress, clean: Batch, earlier: bool,
                            tx: Tx, fetch: Option<Receipt>)
    requires Matched(cfg, tx) && (fetch.None? || fetch == Some(tx.receipt))
    requires BatchAgrees(cfg.hash, earlier, p.batch, clean) && AddTx(cfg, n, timestamp, p, tx, fetch).Some?
    ensures var own := DecodeAt(cfg, n, timestamp, tx, StatusOf(Some(tx.receipt))).actions;
            BatchAgrees(cfg.hash, earlier && fetch.Some?, AddTx(cfg, n, timestamp, p, tx, fetch).value.batch,
                        Batch(clean.txs + [TxRow(cfg, n, timestamp, tx, Some(tx.receipt))],
                              clean.actions + PayRows(tx.receipt, own)))
  {
    var own := DecodeAt(cfg, n, timestamp, tx, StatusOf(Some(tx.receipt))).actions;
    var decoded := DecodeAt(cfg, n, timestamp, tx, StatusOf(fetch)).actions;
    var receipt := if fetch.Some? then fetch else p.receipt;
    var actions := if decoded == [] then [] else PayRows(receipt.value, decoded);
    AddTxAgrees(cfg, n, timestamp, p, tx, fetch, actions);
    BatchAgreesAppend(cfg.hash, earlier, p.batch, clean, fetch.Some?,
                      TxRow(cfg, n, timestamp, tx, fetch), TxRow(cfg, n, timestamp, tx, Some(tx.receipt)),
                      actions, PayRows(tx.receipt, own));
  }

  // Whatever fetches fail, a block yields the same rows up to the receipt columns, and
  // exactly the clean rows if none fails.
  lemma {:induction false} ScanAgrees(cfg: Config, n: nat, b: Block, fetches: seq<Option<Receipt>>, before: Option<Receipt>, i: nat)
    requires Honest(b, fetches) && i <= |b.txs|
    requires ScanTxs(cfg, n, b, fetches, before, i).Some?
    ensures BatchAgrees(cfg.hash, forall j | 0 <= j < i :: fetches[j].Some?,
                        ScanTxs(cfg, n, b, fetches, before, i).value.batch, CleanTxs(cfg, n, b, i))
  {
    if i > 0 {
      ScanAgrees(cfg, n, b, fetches, before, i - 1);
      var earlier := forall j | 0 <= j < i - 1 :: fetches[j].Some?;
      if Matched(cfg, b.txs[i - 1]) {
        AddTxKeepsAgreement(cfg, n, b.timestamp, ScanTxs(cfg, n, b, fetches, before, i - 1).value,
                            CleanTxs(cfg, n, b, i - 1), earlier, b.txs[i - 1], fetches[i - 1]);
      }
      assert (forall j | 0 <= j < i :: fetches[j].Some?) == (earlier && fetches[i - 1].Some?);
    }
  }

  // If every fetch succeeds, the scan does not raise.
  lemma {:induction false} ScanSucceeds(cfg: Config, n: nat, b: Block, before: Option<Receipt>, i: nat)
    requires i <= |b.txs|
    ensures ScanTxs(cfg, n, b, Receipts(b), before, i).Some?
  {
    if i > 0 {
      ScanSucceeds(cfg, n, b, before, i - 1);
    }
  }

  // ---------- What the clean rows of a block look like ----------

  // Every transaction hash of the chain occurs once.
  ghost predicate UniqueHashes(w: World) {
    forall n, i, m, j |
      0 <= i < |w.chain(n).txs| && 0 <= j < |w.chain(m).txs| && w.chain(n).txs[i].hash == w.chain(m).txs[j].hash
      :: n == m && i == j
  }

  ghost predicate ValidWorld(w: World) {
    Injective(w.cfg.hash) && HarvestTables(w.cfg) && UniqueHashes(w)
  }

  ghost predicate CleanTxRow(w: World, n: nat, i: nat, r: RawTx) {
    && r.blockNumber == n && r.blockTimestamp == w.chain(n).timestamp
    && exists k :: 0 <= k < i && k < |w.chain(n).txs| && w.chain(n).txs[k].hash == r.txHash
  }

  ghost predicate CleanActionRow(w: World, n: nat, i: nat, a: Action) {
    && a.blockNumber == n && a.blockTimestamp == w.chain(n).timestamp
    && (a.actionType.HarvestStart? && a.kamiId.Some? && a.harvestId.Some?
        ==> Pairs(w.cfg.hash, a.kamiId.value, a.harvestId.value))
    && (a.Stitchable() ==> a.kamiId.None?)
    && exists k :: 0 <= k < i && k < |w.chain(n).txs| && w.chain(n).txs[k].hash == a.txHash
  }

  predicate HasTx(txs: seq<RawTx>, hash: string) {
    exists y :: 0 <= y < |txs| && txs[y].txHash == hash
  }

  // Rows carry their block's number and time, actions belong to a transaction row of the
  // same block, and keys do not repeat.
  ghost predicate WellKeyed(w: World, n: nat, i: nat, b: Batch) {
    && (forall x | 0 <= x < |b.txs| :: CleanTxRow(w, n, i, b.txs[x]))
    && (forall x, y | 0 <= x < y < |b.txs| :: b.txs[x].txHash != b.txs[y].txHash)
    && (forall x | 0 <= x < |b.actions| :: CleanActionRow(w, n, i, b.actions[x]))
    && (forall x | 0 <= x < |b.actions| :: HasTx(b.txs, b.actions[x].txHash))
    && (forall x, y | 0 <= x < y < |b.actions| :: b.actions[x].Id() != b.actions[y].Id())
  }

  lemma WellKeyedStep(w: World, n: nat, i: nat, b: Batch)
    requires i > 0 && WellKeyed(w, n, i - 1, b)
    ensures WellKeyed(w, n, i, b)
  {
    forall x | 0 <= x < |b.txs| ensures CleanTxRow(w, n, i, b.txs[x]) {
      assert CleanTxRow(w, n, i - 1, b.txs[x]);
    }
    forall x | 0 <= x < |b.actions| ensures CleanActionRow(w, n, i, b.actions[x]) {
      assert CleanActionRow(w, n, i - 1, b.actions[x]);
    }
  }

  lemma {:induction false} CleanWellKeyed(w: World, n: nat, i: nat)
    requires ValidWorld(w) && i <= |w.chain(n).txs|
    ensures WellKeyed(w, n, i, CleanTxs(w.cfg, n, w.chain(n), i))
  {
    if i > 0 {
      CleanWellKeyed(w, n, i - 1);
      var b := w.chain(n);
      var rest, tx := CleanTxs(w.cfg, n, b, i - 1), b.txs[i - 1];
      WellKeyedStep(w, n, i, rest);
      if Matched(w.cfg, tx) {
        var status := StatusOf(Some(tx.receipt));
        var decoded := DecodeAt(w.cfg, n, b.timestamp, tx, status).actions;
        DecodeTxRows(w.cfg, tx.to.address, tx.input, InfoOf(n, b.timestamp, tx, status));
        WellKeyedAdd(w, n, i, rest, TxRow(w.cfg, n, b.timestamp, tx, Some(tx.receipt)), PayRows(tx.receipt, decoded));
      }
    }
  }

  lemma WellKeyedAdd(w: World, n: nat, i: nat, rest: Batch, row: RawTx, actions: seq<Action>)
    requires UniqueHashes(w) && 0 < i <= |w.chain(n).txs|
    requires WellKeyed(w, n, i - 1, rest)
    requires row.txHash == w.chain(n).txs[i - 1].hash && CleanTxRow(w, n, i, row)
    requires forall x | 0 <= x < |actions| :: CleanActionRow(w, n, i, actions[x]) && actions[x].txHash == row.txHash
    requires forall x, y | 0 <= x < y < |actions| :: actions[x].Id() != actions[y].Id()
    ensures WellKeyed(w, n, i, Batch(rest.txs + [row], rest.actions + actions))
  {
    var all := Batch(rest.txs + [row], rest.actions + actions);
    forall x | 0 <= x < |rest.txs| ensures rest.txs[x].txHash != row.txHash {
      assert CleanTxRow(w, n, i - 1, rest.txs[x]);
    }
    forall x, y | 0 <= x < |rest.actions| && 0 <= y < |actions| ensures rest.actions[x].Id() != actions[y].Id() {
      assert CleanActionRow(w, n, i - 1, rest.actions[x]);
      if rest.actions[x].Id() == actions[y].Id() {
        RowIdInjective(rest.actions[x].txHash, rest.actions[x].subIndex, actions[y].txHash, actions[y].subIndex);
      }
    }
    forall x | 0 <= x < |all.actions| ensures HasTx(all.txs, all.actions[x].txHash) {
      if x < |rest.actions| {
        assert HasTx(rest.txs, rest.actions[x].txHash);
        var y :| 0 <= y < |rest.txs| && rest.txs[y].txHash == rest.actions[x].txHash;
        assert all.txs[y] == rest.txs[y];
      } else {
        assert all.txs[|rest.txs|] == row;
      }
    }
  }
}
