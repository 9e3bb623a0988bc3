/** Harvest calls all the way: from the bytes of a call and the logs of its receipt to the rows
    in the database (ingester/decoder.py, ingester/ingest.py). */
module HarvestRows {
  import opened Wrappers
  import opened Decimal
  import opened Records
  import opened Musu
  import opened Decoder
  import opened CalldataRows
  import opened Storage
  import opened Ingest
  import opened Pipeline
  import opened Convergence

  // ---------- The harvest systems ----------

  // The decoder's two tables are those of the source.
  ghost predicate SourceTables(cfg: Config) {
    exists names, others :: TablesOver(cfg, names, others)
  }

  ghost predicate TablesOver(cfg: Config, names: map<string, string>, others: map<string, map<string, Rule>>) {
    && (forall system :: cfg.actionType(system) == SourceActionType(names, system))
    && (forall system, name :: cfg.rule(system, name) == SourceRule(others, system, name))
  }

  // A call that decodes: which function it names, what it passes, how many rows it makes.
  datatype Call = Call(to: string, selector: seq<byte>, payload: seq<byte>, inputs: seq<AbiInput>, vals: seq<Val>, n: nat)

  ghost predicate Good(cfg: Config, system: string, calldata: seq<byte>, c: Call) {
    && Calls(cfg, c.to, calldata, c.selector, c.payload) && cfg.systemOf[c.to] == system
    && Passes(cfg, system, cfg.index[system][c.selector], c.payload, c.inputs, c.vals)
    && ApartInputs(cfg, system, c.inputs)
    && |c.inputs| == |c.vals| && RowCount(c.inputs, c.vals, c.n)
  }

  // Row j is passed the number x for the input of one of these names.
  ghost predicate Takes(c: Call, names: set<string>, j: nat, x: nat)
    requires |c.inputs| == |c.vals|
  {
    exists i :: 0 <= i < |c.inputs| && c.inputs[i].name in names
                && Share(c.inputs, c.vals, IsBatchCall(c.inputs, c.vals), i, j) == VNat(x)
  }

  // A number in a column that holds text.
  lemma TakenInColumn(cfg: Config, system: string, calldata: seq<byte>, c: Call, tx: TxInfo, names: set<string>, j: nat, x: nat,
                      column: Column)
    requires Good(cfg, system, calldata, c) && j < c.n && Takes(c, names, j, x)
    requires forall name | name in names :: cfg.rule(system, name) == Some(ToColumn(column))
    requires !column.ItemIndex?
    ensures var r := DecodeTx(cfg, c.to, calldata, tx);
            && |r.actions| == c.n && r.actions[j].actionType == cfg.actionType(system)
            && ReadSlot(r.actions[j], InColumn(column)) == Text(Some(ToDecimal(x)))
  {
    hide DecodeTx, Passes, RowCount, Share;
    var i :| 0 <= i < |c.inputs| && c.inputs[i].name in names
             && Share(c.inputs, c.vals, IsBatchCall(c.inputs, c.vals), i, j) == VNat(x);
    RowHoldsInput(cfg, c.to, calldata, tx, c.selector, c.payload, c.inputs, c.vals, c.n, i, j);
  }

  // harvest.start: the kami and the node are those passed, and the harvest id is the kami's.
  lemma StartRow(cfg: Config, calldata: seq<byte>, c: Call, tx: TxInfo, j: nat, kami: nat, node: nat)
    requires SourceTables(cfg) && Good(cfg, "system.harvest.start", calldata, c) && j < c.n
    requires Takes(c, {"kamiID", "kamiIDs"}, j, kami) && Takes(c, {"nodeID", "nodeIndex"}, j, node)
    ensures var r := DecodeTx(cfg, c.to, calldata, tx);
            && |r.actions| == c.n && r.actions[j].actionType == HarvestStart
            && r.actions[j].kamiId == Some(ToDecimal(kami)) && r.actions[j].nodeId == Some(ToDecimal(node))
            && r.actions[j].harvestId == Some(HarvestIdOf(cfg.hash, kami))
  {
    hide DecodeTx, Good, Takes;
    StartTables(cfg);
    TakenInColumn(cfg, HARVEST_START, calldata, c, tx, {"kamiID", "kamiIDs"}, j, kami, KamiId);
    TakenInColumn(cfg, HARVEST_START, calldata, c, tx, {"nodeID", "nodeIndex"}, j, node, NodeId);
    StartPairs(cfg, calldata, c, tx, j);
    DecimalRoundTrip(kami);
  }

  lemma StartTables(cfg: Config)
    requires SourceTables(cfg)
    ensures HarvestTables(cfg) && cfg.actionType(HARVEST_START) == HarvestStart
    ensures forall name | name in {"kamiID", "kamiIDs"} :: cfg.rule(HARVEST_START, name) == Some(ToColumn(KamiId))
    ensures forall name | name in {"nodeID", "nodeIndex"} :: cfg.rule(HARVEST_START, name) == Some(ToColumn(NodeId))
    ensures cfg.rule(HARVEST_START, "taxerID") == Some(ToMetadata("taxer_id"))
    ensures cfg.rule(HARVEST_START, "taxAmt") == Some(ToMetadata("tax_amt"))
  {
    var names, others :| TablesOver(cfg, names, others);
    SourceTablesAreHarvestTables(cfg, names, others);
  }

  lemma StartPairs(cfg: Config, calldata: seq<byte>, c: Call, tx: TxInfo, j: nat)
    requires HarvestTables(cfg) && Good(cfg, HARVEST_START, calldata, c) && j < c.n
    ensures var r := DecodeTx(cfg, c.to, calldata, tx);
            |r.actions| == c.n
            && (var a := r.actions[j];
                && a.actionType == cfg.actionType(HARVEST_START)
                && (a.actionType.HarvestStart? && a.kamiId.Some? && ParseDecimal(a.kamiId.value).Some? ==>
                      a.harvestId.Some? && Pairs(cfg.hash, a.kamiId.value, a.harvestId.value)))
  {
    hide DecodeTx, Passes, RowCount, ApartInputs, RowOf, RowArgs, IsBatchCall;
    RowsOfCall(cfg, c.to, calldata, tx, c.selector, c.payload, c.inputs, c.vals, c.n, j);
    var fn, args := cfg.index[HARVEST_START][c.selector], RowArgs(c.inputs, c.vals, IsBatchCall(c.inputs, c.vals), j);
    DecodedPairs(cfg, HARVEST_START, fn, tx, args, j);
    RowHeader(cfg, HARVEST_START, fn, tx, args, j);
  }

  // harvest.stop and harvest.collect: the harvest is the one passed, the kami is not known.
  lemma EndRow(cfg: Config, system: string, calldata: seq<byte>, c: Call, tx: TxInfo, j: nat, e: nat)
    requires SourceTables(cfg) && Good(cfg, system, calldata, c) && j < c.n
    requires system in {"system.harvest.stop", "system.harvest.collect"} && Takes(c, {"id", "ids"}, j, e)
    ensures var r := DecodeTx(cfg, c.to, calldata, tx);
            && |r.actions| == c.n
            && r.actions[j].actionType == (if system == "system.harvest.stop" then HarvestStop else HarvestCollect)
            && r.actions[j].harvestId == Some(ToDecimal(e)) && r.actions[j].kamiId.None?
  {
    hide DecodeTx, Good, Takes;
    EndTables(cfg, system);
    TakenInColumn(cfg, system, calldata, c, tx, {"id", "ids"}, j, e, HarvestId);
    DecodeTxRows(cfg, c.to, calldata, tx);
  }

  lemma EndTables(cfg: Config, system: string)
    requires SourceTables(cfg) && system in {"system.harvest.stop", "system.harvest.collect"}
    ensures HarvestTables(cfg)
    ensures cfg.actionType(system) == if system == "system.harvest.stop" then HarvestStop else HarvestCollect
    ensures forall name | name in {"id", "ids"} :: cfg.rule(system, name) == Some(ToColumn(HarvestId))
  {
    var names, others :| TablesOver(cfg, names, others);
    SourceTablesAreHarvestTables(cfg, names, others);
    assert |HARVEST_START| == 20 && |HARVEST_STOP| == 19 && |HARVEST_COLLECT| == 22;
  }

  // The type of row that ends or drains a harvest, and the inputs that name the harvest.
  predicate Drains(system: string, actionType: ActionType, names: set<string>) {
    || (system == "system.harvest.stop" && actionType == HarvestStop && names == {"id", "ids"})
    || (system == "system.harvest.collect" && actionType == HarvestCollect && names == {"id", "ids"})
    || (system == "system.harvest.liquidate" && actionType == HarvestLiquidate && names == {"victimHarvID"})
  }

  lemma DrainRow(cfg: Config, system: string, actionType: ActionType, names: set<string>, calldata: seq<byte>, c: Call,
                 tx: TxInfo, j: nat, e: nat)
    requires SourceTables(cfg) && Good(cfg, system, calldata, c) && j < c.n
    requires Drains(system, actionType, names) && Takes(c, names, j, e)
    ensures var r := DecodeTx(cfg, c.to, calldata, tx);
            |r.actions| == c.n && r.actions[j].actionType == actionType && r.actions[j].harvestId == Some(ToDecimal(e))
  {
    hide DecodeTx, Good, Takes;
    if actionType.HarvestLiquidate? {
      LiquidateTables(cfg);
    } else {
      EndTables(cfg, system);
    }
    TakenInColumn(cfg, system, calldata, c, tx, names, j, e, HarvestId);
  }

  // harvest.liquidate: the killer's kami and the victim's harvest.
  lemma LiquidateRow(cfg: Config, calldata: seq<byte>, c: Call, tx: TxInfo, j: nat, killer: nat, e: nat)
    requires SourceTables(cfg) && Good(cfg, "system.harvest.liquidate", calldata, c) && j < c.n
    requires Takes(c, {"killerID"}, j, killer) && Takes(c, {"victimHarvID"}, j, e)
    ensures var r := DecodeTx(cfg, c.to, calldata, tx);
            && |r.actions| == c.n && r.actions[j].actionType == HarvestLiquidate
            && r.actions[j].kamiId == Some(ToDecimal(killer)) && r.actions[j].harvestId == Some(ToDecimal(e))
  {
    hide DecodeTx, Good, Takes;
    LiquidateTables(cfg);
    TakenInColumn(cfg, HARVEST_LIQUIDATE, calldata, c, tx, {"killerID"}, j, killer, KamiId);
    TakenInColumn(cfg, HARVEST_LIQUIDATE, calldata, c, tx, {"victimHarvID"}, j, e, HarvestId);
  }

  lemma LiquidateTables(cfg: Config)
    requires SourceTables(cfg)
    ensures cfg.actionType(HARVEST_LIQUIDATE) == HarvestLiquidate
    ensures cfg.rule(HARVEST_LIQUIDATE, "killerID") == Some(ToColumn(KamiId))
    ensures cfg.rule(HARVEST_LIQUIDATE, "victimHarvID") == Some(ToColumn(HarvestId))
  {
    var names, others :| TablesOver(cfg, names, others);
    assert |HARVEST_LIQUIDATE| == 24 && |HARVEST_START| == 20 && |HARVEST_STOP| == 19 && |HARVEST_COLLECT| == 22;
  }

  // ---------- The rows of a block ----------

  // The transaction is sent to a system's address.
  predicate SentTo(cfg: Config, tx: Tx, addr: string) {
    tx.to == To(addr) && addr in cfg.systemOf
  }

  // What the receipt fetch says of the outcome: success unless told otherwise.
  predicate IsStatus(fetch: Option<Receipt>, status: int) {
    match fetch
    case Some(Receipt(Some(s), _, _)) => status == s
    case _ => status == 1
  }

  // The gas used, unless it is missing or zero.
  predicate IsGas(fetch: Option<Receipt>, gas: Option<nat>) {
    match fetch
    case Some(Receipt(_, Some(g), _)) => gas == if g == 0 then None else Some(g)
    case _ => gas.None?
  }

  // `r` is the raw_tx row of transaction tx of block n, column by column.
  predicate IsTxRow(cfg: Config, n: nat, timestamp: int, tx: Tx, fetch: Option<Receipt>, r: RawTx) {
    && SentTo(cfg, tx, r.toAddr) && r.systemId == cfg.systemOf[r.toAddr]
    && r.txHash == tx.hash && r.blockNumber == n && r.blockTimestamp == timestamp && r.txIndex == tx.index
    && r.fromAddr == tx.fromAddr && r.rawCalldata == tx.input && r.gasPriceWei == tx.gasPrice
    && |r.methodSig| == (if |tx.input| < 4 then 0 else 4) && r.methodSig <= tx.input
    && IsStatus(fetch, r.status) && IsGas(fetch, r.gasUsed)
  }

  lemma TxRowIs(cfg: Config, n: nat, timestamp: int, tx: Tx, fetch: Option<Receipt>, r: RawTx)
    ensures IsTxRow(cfg, n, timestamp, tx, fetch, r) <==> Matched(cfg, tx) && r == TxRow(cfg, n, timestamp, tx, fetch)
  {
    if IsTxRow(cfg, n, timestamp, tx, fetch, r) {
      assert r.methodSig == tx.input[..|r.methodSig|];
    }
  }

  ghost predicate HasTxRow(cfg: Config, n: nat, b: Block, fetches: seq<Option<Receipt>>, i: nat, r: RawTx)
    requires |fetches| == |b.txs| && i <= |b.txs|
  {
    exists k :: 0 <= k < i && IsTxRow(cfg, n, b.timestamp, b.txs[k], fetches[k], r)
  }

  // The raw_tx rows of a scan: one for each transaction sent to a system, and no others.
  lemma {:induction false} TxRowsOfScan(cfg: Config, n: nat, b: Block, fetches: seq<Option<Receipt>>, before: Option<Receipt>,
                                        i: nat, r: RawTx)
    requires |fetches| == |b.txs| && i <= |b.txs| && ScanTxs(cfg, n, b, fetches, before, i).Some?
    ensures r in ScanTxs(cfg, n, b, fetches, before, i).value.batch.txs <==> HasTxRow(cfg, n, b, fetches, i, r)
  {
    if i > 0 {
      TxRowsOfScan(cfg, n, b, fetches, before, i - 1, r);
      TxRowIs(cfg, n, b.timestamp, b.txs[i - 1], fetches[i - 1], r);
      assert HasTxRow(cfg, n, b, fetches, i, r) <==>
             HasTxRow(cfg, n, b, fetches, i - 1, r) || IsTxRow(cfg, n, b.timestamp, b.txs[i - 1], fetches[i - 1], r);
    }
  }

  // What the rows of transaction tx take from it.
  predicate IsHeader(n: nat, timestamp: int, tx: Tx, fetch: Option<Receipt>, info: TxInfo) {
    && info.txHash == tx.hash && info.fromAddr == tx.fromAddr && info.blockNumber == n
    && info.blockTimestamp == timestamp && IsStatus(fetch, info.status)
  }

  // `a` is row j of the decoded transaction, paid out of its receipt.
  predicate IsActionRow(cfg: Config, n: nat, timestamp: int, tx: Tx, info: TxInfo, j: nat, a: Action) {
    && tx.to.To? && SentTo(cfg, tx, tx.to.address) && IsHeader(n, timestamp, tx, Some(tx.receipt), info)
    && var decoded := DecodeTx(cfg, tx.to.address, tx.input, info).actions;
       j < |decoded| && a == PayRows(tx.receipt, decoded)[j]
  }

  ghost predicate HasActionRow(cfg: Config, n: nat, b: Block, i: nat, a: Action)
    requires i <= |b.txs|
  {
    exists k, info, j: nat :: 0 <= k < i && IsActionRow(cfg, n, b.timestamp, b.txs[k], info, j, a)
  }

  lemma HeaderIs(n: nat, timestamp: int, tx: Tx, info: TxInfo)
    ensures IsHeader(n, timestamp, tx, Some(tx.receipt), info)
            <==> info == InfoOf(n, timestamp, tx, StatusOf(Some(tx.receipt)))
  {
  }

  lemma ActionRowIs(cfg: Config, n: nat, timestamp: int, tx: Tx, a: Action)
    requires Matched(cfg, tx)
    ensures (exists info, j: nat :: IsActionRow(cfg, n, timestamp, tx, info, j, a))
            <==> a in PayRows(tx.receipt, DecodeAt(cfg, n, timestamp, tx, StatusOf(Some(tx.receipt))).actions)
  {
    hide DecodeTx, PayRows;
    var info := InfoOf(n, timestamp, tx, StatusOf(Some(tx.receipt)));
    var rows := PayRows(tx.receipt, DecodeTx(cfg, tx.to.address, tx.input, info).actions);
    HeaderIs(n, timestamp, tx, info);
    if info2, j: nat :| IsActionRow(cfg, n, timestamp, tx, info2, j, a) {
      HeaderIs(n, timestamp, tx, info2);
      assert rows[j] in rows;
    }
    if a in rows {
      var j :| 0 <= j < |rows| && rows[j] == a;
      assert IsActionRow(cfg, n, timestamp, tx, info, j, a);
    }
  }

  // The kami_action rows a block stands for: those of its transactions to systems, no others.
  lemma {:induction false} ActionRowsOfBlock(cfg: Config, n: nat, b: Block, i: nat, a: Action)
    requires i <= |b.txs|
    ensures a in CleanTxs(cfg, n, b, i).actions <==> HasActionRow(cfg, n, b, i, a)
  {
    hide DecodeTx, PayRows;
    if i > 0 {
      ActionRowsOfBlock(cfg, n, b, i - 1, a);
      var tx := b.txs[i - 1];
      if Matched(cfg, tx) {
        ActionRowIs(cfg, n, b.timestamp, tx, a);
      }
      assert HasActionRow(cfg, n, b, i, a) <==>
             HasActionRow(cfg, n, b, i - 1, a) || exists info, j: nat :: IsActionRow(cfg, n, b.timestamp, tx, info, j, a);
    }
  }

  // ---------- From the chain to the database ----------

  // The row of a harvest that ended or was drained: stored under its key, attributed to its
  // harvest, with the amount that the receipt drained from it.
  predicate IsDrainRow(a: Action, actionType: ActionType, n: nat, timestamp: int, tx: Tx, j: nat, e: nat) {
    && a.actionType == actionType && a.harvestId == Some(ToDecimal(e))
    && a.txHash == tx.hash && a.subIndex == j && a.fromAddr == tx.fromAddr
    && a.blockNumber == n && a.blockTimestamp == timestamp && IsStatus(Some(tx.receipt), a.status)
  }

  lemma CallInBlock(w: World, n: nat, k: nat, info: TxInfo, j: nat)
    requires k < |w.chain(n).txs|
    requires var tx := w.chain(n).txs[k];
             && tx.to.To? && SentTo(w.cfg, tx, tx.to.address)
             && IsHeader(n, w.chain(n).timestamp, tx, Some(tx.receipt), info)
             && j < |DecodeTx(w.cfg, tx.to.address, tx.input, info).actions|
    ensures var tx := w.chain(n).txs[k];
            PayRows(tx.receipt, DecodeTx(w.cfg, tx.to.address, tx.input, info).actions)[j] in CleanBatch(w, n).actions
  {
    hide DecodeTx, PayRows;
    var b := w.chain(n);
    var tx := b.txs[k];
    var a := PayRows(tx.receipt, DecodeTx(w.cfg, tx.to.address, tx.input, info).actions)[j];
    assert IsActionRow(w.cfg, n, b.timestamp, tx, info, j, a);
    ActionRowsOfBlock(w.cfg, n, b, |b.txs|, a);
  }

  // In every undisturbed reachable state, a stop, collect or liquidation of harvest e in a
  // committed block is stored with exactly what its receipt drained from e.
  lemma StoredDrain(w: World, es: seq<Event>, s: State, n: nat, k: nat, system: string,
                    actionType: ActionType, names: set<string>, c: Call, j: nat, e: nat)
    requires ValidWorld(w) && SourceTables(w.cfg) && Exec(w, INIT, es) == Some(s) && Undisturbed(s)
    requires s.span.value.first <= n < End(s) && k < |w.chain(n).txs|
    requires var tx := w.chain(n).txs[k];
             && tx.to == To(c.to) && Good(w.cfg, system, tx.input, c) && j < c.n
             && Drains(system, actionType, names) && Takes(c, names, j, e)
             && forall i | 0 <= i < |c.inputs| ::
                  c.inputs[i].name != "" && SlotOf(w.cfg, system, c.inputs[i].name) != InColumn(Amount)
    ensures var tx, id := w.chain(n).txs[k], RowId(w.chain(n).txs[k].hash, j);
            && id in s.db.kamiAction
            && IsDrainRow(s.db.kamiAction[id], actionType, n, w.chain(n).timestamp, tx, j, e)
            && PaysDrain(tx.receipt, s.db.kamiAction[id].amount, e)
  {
    hide DecodeTx, PayRows, PaysDrain, Good, Takes, SourceTables, CleanBatch, ValidWorld, Exec;
    var tx := w.chain(n).txs[k];
    var info := InfoOf(n, w.chain(n).timestamp, tx, StatusOf(Some(tx.receipt)));
    HeaderIs(n, w.chain(n).timestamp, tx, info);
    DrainRow(w.cfg, system, actionType, names, tx.input, c, info, j, e);
    var decoded := DecodeTx(w.cfg, c.to, tx.input, info).actions;
    DecodedBare(w.cfg, system, tx.input, c, info, j);
    PayoutIsDrain(tx.receipt, decoded, j, e);
    SentByCall(w.cfg, system, tx, c);
    CallInBlock(w, n, k, info, j);
    StoredRow(w, es, s, n, PayRows(tx.receipt, decoded)[j]);
  }

  lemma SentByCall(cfg: Config, system: string, tx: Tx, c: Call)
    requires Good(cfg, system, tx.input, c) && tx.to == To(c.to)
    ensures SentTo(cfg, tx, c.to)
  {
  }

  // A decoded row has its header, and no amount if no input goes there.
  lemma DecodedBare(cfg: Config, system: string, calldata: seq<byte>, c: Call, info: TxInfo, j: nat)
    requires Good(cfg, system, calldata, c) && j < c.n
    requires forall i | 0 <= i < |c.inputs| ::
               c.inputs[i].name != "" && SlotOf(cfg, system, c.inputs[i].name) != InColumn(Amount)
    ensures var r := DecodeTx(cfg, c.to, calldata, info);
            && |r.actions| == c.n
            && var a := r.actions[j];
               && a.amount.None? && a.txHash == info.txHash && a.subIndex == j && a.fromAddr == info.fromAddr
               && a.blockNumber == info.blockNumber && a.blockTimestamp == info.blockTimestamp && a.status == info.status
  {
    hide DecodeTx, Passes, RowCount, RowOf, RowArgs, IsBatchCall;
    RowHoldsNoMore(cfg, c.to, calldata, info, c.selector, c.payload, c.inputs, c.vals, c.n, j, InColumn(Amount));
    RowsOfCall(cfg, c.to, calldata, info, c.selector, c.payload, c.inputs, c.vals, c.n, j);
    RowHeader(cfg, system, cfg.index[system][c.selector], info, RowArgs(c.inputs, c.vals, IsBatchCall(c.inputs, c.vals), j), j);
  }

  lemma StoredRow(w: World, es: seq<Event>, s: State, n: nat, a: Action)
    requires ValidWorld(w) && Exec(w, INIT, es) == Some(s) && Undisturbed(s)
    requires s.span.value.first <= n < End(s) && a in CleanBatch(w, n).actions
    ensures a.Id() in s.db.kamiAction && ActionAgrees(w.cfg.hash, true, s.db.kamiAction[a.Id()], a)
  {
    ExactlyOnce(w, es, s);
    var clean := CleanBatch(w, n).actions;
    var i :| 0 <= i < |clean| && clean[i] == a;
  }
}
