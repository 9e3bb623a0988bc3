/** Calldata to kami_action rows: selector dispatch and batch fan-out (ingester/decoder.py). */
module Decoder {
  import opened Wrappers
  import opened Decimal
  import opened Records

  // A decoded ABI value. Lists are the tuples the ABI library returns for array types.
  datatype Val =
    | VNat(n: nat)
    | VBytes(bytes: seq<byte>)
    | VText(text: string)
    | VBool(flag: bool)
    | VList(items: seq<Val>)

  datatype AbiInput = AbiInput(name: string, typ: string)
  datatype AbiFn = AbiFn(name: string, inputs: seq<AbiInput>)
  datatype Arg = Arg(name: string, typ: string, val: Val)

  datatype Column = KamiId | TargetKamiId | NodeId | Amount | ItemIndex | HarvestId
  datatype Rule = ToColumn(column: Column) | ToMetadata(key: string)

  datatype DecodeStatus = Decoded | UnknownSystem | UnknownSelector | DecodeError
  datatype DecodeResult = DecodeResult(actions: seq<Action>, status: DecodeStatus)

  predicate IsArray(typ: string) {
    |typ| >= 2 && typ[|typ| - 2..] == "[]"
  }

  // eth_abi.decode as a black box: None where it raises.
  type AbiDecoder = (seq<string>, seq<byte>) -> Option<seq<Val>>

  // The decoder's lookup tables and the library functions it calls.
  datatype Config = Config(
    systemOf: map<string, string>,                 // address -> system id
    index: map<string, map<seq<byte>, AbiFn>>,     // system id -> selector -> function
    typed: map<string, AbiFn>,                     // system id -> its executeTyped
    actionType: string -> ActionType,              // SYSTEM_TO_ACTION
    rule: (string, string) -> Option<Rule>,        // SYSTEM_FIELD_MAP: system id, argument name
    abiDecode: AbiDecoder,
    show: Val -> string,                           // str() of a tuple
    hash: HarvestHash)

  const HARVEST_START := "system.harvest.start"
  const HARVEST_STOP := "system.harvest.stop"
  const HARVEST_COLLECT := "system.harvest.collect"
  const HARVEST_LIQUIDATE := "system.harvest.liquidate"

  // SYSTEM_TO_ACTION, with its entries outside the harvest systems as a parameter.
  function SourceActionType(names: map<string, string>, system: string): ActionType {
    if system == HARVEST_START then HarvestStart
    else if system == HARVEST_STOP then HarvestStop
    else if system == HARVEST_COLLECT then HarvestCollect
    else if system == HARVEST_LIQUIDATE then HarvestLiquidate
    else OtherAction(if system in names then names[system] else system)
  }

  // SYSTEM_FIELD_MAP, with its entries outside the harvest systems as a parameter; None
  // when the argument falls through to metadata.
  function SourceRule(others: map<string, map<string, Rule>>, system: string, name: string): Option<Rule> {
    if system == HARVEST_START then
      if name == "kamiID" || name == "kamiIDs" then Some(ToColumn(KamiId))
      else if name == "nodeID" || name == "nodeIndex" then Some(ToColumn(NodeId))
      else if name == "taxerID" then Some(ToMetadata("taxer_id"))
      else if name == "taxAmt" then Some(ToMetadata("tax_amt"))
      else None
    else if system == HARVEST_STOP || system == HARVEST_COLLECT then
      if name == "id" || name == "ids" then Some(ToColumn(HarvestId)) else None
    else if system == HARVEST_LIQUIDATE then
      if name == "killerID" then Some(ToColumn(KamiId))
      else if name == "victimHarvID" then Some(ToColumn(HarvestId))
      else None
    else if system in others && name in others[system] then Some(others[system][name])
    else None
  }

  // What the harvest part of the two tables guarantees: no argument of a start system is
  // its harvest id, and no argument of a stop or collect system is its kami id.
  ghost predicate HarvestTables(cfg: Config) {
    forall system, name ::
      && (cfg.actionType(system).HarvestStart? ==> cfg.rule(system, name) != Some(ToColumn(HarvestId)))
      && (cfg.actionType(system).HarvestStop? || cfg.actionType(system).HarvestCollect?
          ==> cfg.rule(system, name) != Some(ToColumn(KamiId)))
  }

  lemma SourceTablesAreHarvestTables(cfg: Config, names: map<string, string>, others: map<string, map<string, Rule>>)
    requires forall system :: cfg.actionType(system) == SourceActionType(names, system)
    requires forall system, name :: cfg.rule(system, name) == SourceRule(others, system, name)
    ensures HarvestTables(cfg)
  {
  }

  // Outside the harvest systems both tables are the given ones; a system without a name of its
  // own is its own action type, and an argument without a rule goes to the metadata.
  lemma TablesElsewhere(names: map<string, string>, others: map<string, map<string, Rule>>, system: string, name: string)
    requires system !in {"system.harvest.start", "system.harvest.stop", "system.harvest.collect", "system.harvest.liquidate"}
    ensures system in names ==> SourceActionType(names, system) == OtherAction(names[system])
    ensures system !in names ==> SourceActionType(names, system) == OtherAction(system)
    ensures system in others && name in others[system] ==> SourceRule(others, system, name) == Some(others[system][name])
    ensures system !in others || name !in others[system] ==> SourceRule(others, system, name) == None
  {
  }

  // ---------- Coercions ----------

  function HexDigit(d: nat): char
    requires d < 16
  {
    "0123456789abcdef"[d]
  }

  function Hex(b: seq<byte>): string {
    if b == [] then "" else [HexDigit(b[0] / 16), HexDigit(b[0] % 16)] + Hex(b[1..])
  }

  function ShowBool(flag: bool): string {
    if flag then "True" else "False"
  }

  function MetaOf(v: Val): MetaValue
    decreases v
  {
    match v
    case VNat(n) => MetaText(ToDecimal(n))
    case VBytes(b) => MetaText("0x" + Hex(b))
    case VText(s) => MetaText(s)
    case VBool(flag) => MetaText(ShowBool(flag))
    case VList(items) => MetaList(seq(|items|, i requires 0 <= i < |items| => MetaOf(items[i])))
  }

  function CoerceDecimal(cfg: Config, v: Val): string {
    match v
    case VNat(n) => ToDecimal(n)
    case VBytes(b) => ToDecimal(FromBigEndian(b))
    case VText(s) => s
    case VBool(flag) => ShowBool(flag)
    case VList(_) => cfg.show(v)
  }

  function CoerceInt(v: Val): Option<nat> {
    match v
    case VNat(n) => Some(n)
    case VBool(flag) => Some(if flag then 1 else 0)
    case _ => None
  }

  // ---------- One row ----------

  // What every row of a transaction shares.
  datatype TxInfo = TxInfo(txHash: string, fromAddr: string, blockNumber: nat, blockTimestamp: int, status: int)

  function BlankRow(cfg: Config, system: string, fn: AbiFn, tx: TxInfo, subIndex: nat): Action {
    Action(tx.txHash, subIndex, tx.blockNumber, tx.blockTimestamp, cfg.actionType(system), system,
           tx.fromAddr, tx.status, None, None, None, None, None, None,
           if subIndex > 0 then map["fn" := MetaText(fn.name), "batch_idx" := MetaInt(subIndex)]
           else map["fn" := MetaText(fn.name)])
  }

  // Where an argument lands in a row.
  datatype Slot = InColumn(column: Column) | InMeta(key: string)
  datatype Cell = Text(text: Option<string>) | Number(number: Option<nat>) | Meta(meta: Option<MetaValue>)

  function ReadSlot(row: Action, slot: Slot): Cell {
    match slot
    case InMeta(key) => Meta(if key in row.metadata then Some(row.metadata[key]) else None)
    case InColumn(KamiId) => Text(row.kamiId)
    case InColumn(TargetKamiId) => Text(row.targetKamiId)
    case InColumn(NodeId) => Text(row.nodeId)
    case InColumn(Amount) => Text(row.amount)
    case InColumn(ItemIndex) => Number(row.itemIndex)
    case _ => Text(row.harvestId)
  }

  function Encode(cfg: Config, slot: Slot, v: Val): Cell {
    match slot
    case InMeta(_) => Meta(Some(MetaOf(v)))
    case InColumn(ItemIndex) => Number(CoerceInt(v))
    case InColumn(_) => Text(Some(CoerceDecimal(cfg, v)))
  }

  function SlotOf(cfg: Config, system: string, name: string): Slot {
    match cfg.rule(system, name)
    case None => InMeta(name)
    case Some(ToMetadata(key)) => InMeta(key)
    case Some(ToColumn(column)) => InColumn(column)
  }

  // The two rows differ at most in the columns that arguments fill.
  predicate SameHeader(r: Action, row: Action) {
    && r.txHash == row.txHash && r.subIndex == row.subIndex && r.blockNumber == row.blockNumber
    && r.blockTimestamp == row.blockTimestamp && r.actionType == row.actionType
    && r.systemId == row.systemId && r.fromAddr == row.fromAddr && r.status == row.status
  }

  // `r` is `row` with `slot` now holding `v`: nothing else of the row moves.
  ghost predicate SetsOnly(cfg: Config, r: Action, row: Action, slot: Slot, v: Val) {
    && SameHeader(r, row)
    && ReadSlot(r, slot) == Encode(cfg, slot, v)
    && (forall other | other != slot :: ReadSlot(r, other) == ReadSlot(row, other))
  }

  function SetColumn(cfg: Config, row: Action, column: Column, v: Val): (r: Action)
    ensures SetsOnly(cfg, r, row, InColumn(column), v)
  {
    match column
    case KamiId => row.(kamiId := Some(CoerceDecimal(cfg, v)))
    case TargetKamiId => row.(targetKamiId := Some(CoerceDecimal(cfg, v)))
    case NodeId => row.(nodeId := Some(CoerceDecimal(cfg, v)))
    case Amount => row.(amount := Some(CoerceDecimal(cfg, v)))
    case ItemIndex => row.(itemIndex := CoerceInt(v))
    case HarvestId => row.(harvestId := Some(CoerceDecimal(cfg, v)))
  }

  function SetMeta(cfg: Config, row: Action, key: string, v: Val): (r: Action)
    ensures SetsOnly(cfg, r, row, InMeta(key), v)
  {
    row.(metadata := row.metadata[key := MetaOf(v)])
  }

  function AssignArg(cfg: Config, system: string, row: Action, arg: Arg): (r: Action)
    ensures arg.name != "" ==> SetsOnly(cfg, r, row, SlotOf(cfg, system, arg.name), arg.val)
    ensures exists slot :: SetsOnly(cfg, r, row, slot, arg.val)
                           && (slot.InColumn? ==> cfg.rule(system, arg.name) == Some(ToColumn(slot.column)))
  {
    match cfg.rule(system, arg.name)
    case None =>
      SetMeta(cfg, row, if arg.name != "" then arg.name else "arg" + ToDecimal(|row.metadata|), arg.val)
    case Some(ToMetadata(key)) => SetMeta(cfg, row, key, arg.val)
    case Some(ToColumn(column)) => SetColumn(cfg, row, column, arg.val)
  }

  function AssignArgs(cfg: Config, system: string, row: Action, args: seq<Arg>): Action
    decreases |args|
  {
    if args == [] then row
    else AssignArg(cfg, system, AssignArgs(cfg, system, row, args[..|args| - 1]), args[|args| - 1])
  }

  // A harvest_start row derives its harvest id from its kami id.
  function DeriveHarvestId(cfg: Config, row: Action): Action {
    if row.actionType.HarvestStart? && row.kamiId.Some? && row.kamiId.value != "" && row.harvestId.None? then
      var k := ParseDecimal(row.kamiId.value);
      if k.Some? then row.(harvestId := Some(HarvestIdOf(cfg.hash, k.value))) else row
    else row
  }

  function RowOf(cfg: Config, system: string, fn: AbiFn, tx: TxInfo, args: seq<Arg>, subIndex: nat): Action {
    DeriveHarvestId(cfg, AssignArgs(cfg, system, BlankRow(cfg, system, fn, tx, subIndex), args))
  }

  method OneRow(cfg: Config, system: string, fn: AbiFn, tx: TxInfo, args: seq<Arg>, subIndex: nat)
    returns (row: Action)
    ensures row == RowOf(cfg, system, fn, tx, args, subIndex)
  {
    var blank := BlankRow(cfg, system, fn, tx, subIndex);
    row := blank;
    for i := 0 to |args|
      invariant row == AssignArgs(cfg, system, blank, args[..i])
    {
      assert args[..i + 1][..i] == args[..i];
      row := AssignArg(cfg, system, row, args[i]);
    }
    assert args[..|args|] == args;
    row := DeriveHarvestId(cfg, row);
  }

  // ---------- Fan-out ----------

  predicate TupledArrays(args: seq<Arg>) {
    forall i | 0 <= i < |args| :: IsArray(args[i].typ) ==> args[i].val.VList?
  }

  function ArrayLengths(args: seq<Arg>): set<nat>
    requires TupledArrays(args)
  {
    set i | 0 <= i < |args| && IsArray(args[i].typ) :: |args[i].val.items|
  }

  // All array arguments have the same length n > 0, and there is at least one.
  predicate IsBatch(args: seq<Arg>, n: nat) {
    TupledArrays(args) && n > 0 && ArrayLengths(args) == {n}
  }

  function FirstArrayLength(args: seq<Arg>): nat
    requires TupledArrays(args)
  {
    if args == [] then 0
    else if IsArray(args[0].typ) then |args[0].val.items|
    else FirstArrayLength(args[1..])
  }

  // The batch length, zero for the shapes that give a single row: no array argument,
  // arrays of different lengths, empty arrays.
  function BatchLength(args: seq<Arg>): nat
    requires TupledArrays(args)
  {
    var n := FirstArrayLength(args);
    if ArrayLengths(args) == {n} then n else 0
  }

  lemma {:induction false} FirstArrayLengthIsOne(args: seq<Arg>)
    requires TupledArrays(args)
    ensures ArrayLengths(args) == {} || FirstArrayLength(args) in ArrayLengths(args)
  {
    if args != [] && !IsArray(args[0].typ) {
      FirstArrayLengthIsOne(args[1..]);
      var rest := args[1..];
      assert ArrayLengths(args) == ArrayLengths(rest) by {
        forall n | n in ArrayLengths(args) ensures n in ArrayLengths(rest) {
          var i :| 0 <= i < |args| && IsArray(args[i].typ) && |args[i].val.items| == n;
          assert rest[i - 1] == args[i];
        }
        forall n | n in ArrayLengths(rest) ensures n in ArrayLengths(args) {
          var i :| 0 <= i < |rest| && IsArray(rest[i].typ) && |rest[i].val.items| == n;
          assert args[i + 1] == rest[i];
        }
      }
    }
  }

  lemma BatchLengthMeaning(args: seq<Arg>, n: nat)
    requires TupledArrays(args) && n > 0
    ensures BatchLength(args) == n <==> IsBatch(args, n)
  {
    FirstArrayLengthIsOne(args);
  }

  // The arguments of row j of a batch: array elements in place of arrays.
  function Spread(args: seq<Arg>, j: nat): seq<Arg>
    requires exists n :: IsBatch(args, n) && j < n
  {
    seq(|args|, i requires 0 <= i < |args| =>
      if IsArray(args[i].typ) && args[i].val.VList? && j < |args[i].val.items| then
        Arg(args[i].name, args[i].typ[..|args[i].typ| - 2], args[i].val.items[j])
      else args[i])
  }

  function FanOut(cfg: Config, system: string, fn: AbiFn, tx: TxInfo, args: seq<Arg>): seq<Action>
    requires TupledArrays(args)
  {
    var n := BatchLength(args);
    if n == 0 then [RowOf(cfg, system, fn, tx, args, 0)]
    else
      assert IsBatch(args, n) by { BatchLengthMeaning(args, n); }
      seq(n, j requires 0 <= j < n => RowOf(cfg, system, fn, tx, Spread(args, j), j))
  }

  method FindArrays(args: seq<Arg>) returns (arrayIdxs: seq<nat>, lengths: set<nat>)
    requires TupledArrays(args)
    ensures forall x | 0 <= x < |args| :: x in arrayIdxs <==> IsArray(args[x].typ)
    ensures arrayIdxs == [] <==> lengths == {}
    ensures lengths == ArrayLengths(args)
  {
    arrayIdxs, lengths := [], {};
    for i := 0 to |args|
      invariant forall x | 0 <= x < |args| :: x in arrayIdxs <==> x < i && IsArray(args[x].typ)
      invariant arrayIdxs == [] <==> lengths == {}
      invariant forall n | n in lengths :: n in ArrayLengths(args)
      invariant forall x | 0 <= x < i && IsArray(args[x].typ) :: |args[x].val.items| in lengths
    {
      if IsArray(args[i].typ) {
        arrayIdxs := arrayIdxs + [i];
        lengths := lengths + {|args[i].val.items|};
      }
    }
  }

  method SpreadArgs(args: seq<Arg>, arrayIdxs: seq<nat>, j: nat, ghost n: nat) returns (scalarArgs: seq<Arg>)
    requires IsBatch(args, n) && j < n
    requires forall x | 0 <= x < |args| :: x in arrayIdxs <==> IsArray(args[x].typ)
    ensures scalarArgs == Spread(args, j)
  {
    scalarArgs := [];
    for i := 0 to |args|
      invariant |scalarArgs| == i
      invariant forall x | 0 <= x < i :: scalarArgs[x] == Spread(args, j)[x]
    {
      var Arg(name, typ, val) := args[i];
      if i in arrayIdxs {
        assert |val.items| in ArrayLengths(args);
        scalarArgs := scalarArgs + [Arg(name, typ[..|typ| - 2], val.items[j])];
      } else {
        scalarArgs := scalarArgs + [args[i]];
      }
    }
  }

  method ArgsToActions(cfg: Config, system: string, fn: AbiFn, tx: TxInfo, args: seq<Arg>)
    returns (rows: seq<Action>)
    requires TupledArrays(args)
    ensures rows == FanOut(cfg, system, fn, tx, args)
  {
    var arrayIdxs, lengths := FindArrays(args);
    FirstArrayLengthIsOne(args);
    if arrayIdxs == [] || |lengths| != 1 {
      assert |{FirstArrayLength(args)}| == 1;
      var row := OneRow(cfg, system, fn, tx, args, 0);
      return [row];
    }
    var batchLen :| batchLen in lengths;
    OnlyMember(lengths, batchLen);
    if batchLen == 0 {
      var row := OneRow(cfg, system, fn, tx, args, 0);
      return [row];
    }
    assert IsBatch(args, batchLen);
    rows := [];
    for j := 0 to batchLen
      invariant |rows| == j
      invariant forall k | 0 <= k < j :: rows[k] == RowOf(cfg, system, fn, tx, Spread(args, k), k)
    {
      var scalarArgs := SpreadArgs(args, arrayIdxs, j, batchLen);
      var row := OneRow(cfg, system, fn, tx, scalarArgs, j);
      rows := rows + [row];
    }
  }

  lemma OnlyMember(s: set<nat>, x: nat)
    requires |s| == 1 && x in s
    ensures s == {x}
  {
    assert |s - {x}| == 0;
  }

  // ---------- What the fan-out keeps ----------

  // The number a cell holds: the inverse of every coercion of an unsigned integer.
  function CellNat(cell: Cell): Option<nat> {
    match cell
    case Text(Some(s)) => ParseDecimal(s)
    case Number(n) => n
    case Meta(Some(MetaText(s))) => ParseDecimal(s)
    case _ => None
  }

  lemma EncodeNat(cfg: Config, slot: Slot, n: nat)
    ensures CellNat(Encode(cfg, slot, VNat(n))) == Some(n)
  {
    DecimalRoundTrip(n);
  }

  // Every argument is named and no two arguments share a slot.
  predicate DistinctSlots(cfg: Config, system: string, args: seq<Arg>) {
    && (forall i | 0 <= i < |args| :: args[i].name != "")
    && (forall i, j | 0 <= i < j < |args| ::
          SlotOf(cfg, system, args[i].name) != SlotOf(cfg, system, args[j].name))
  }

  lemma AssignArgFrame(cfg: Config, system: string, row: Action, arg: Arg, slot: Slot)
    requires arg.name != "" && SlotOf(cfg, system, arg.name) != slot
    ensures ReadSlot(AssignArg(cfg, system, row, arg), slot) == ReadSlot(row, slot)
  {
  }

  lemma {:induction false} AssignArgsKeepsSlots(cfg: Config, system: string, row: Action, args: seq<Arg>, i: nat, slot: Slot)
    requires DistinctSlots(cfg, system, args) && i < |args| && slot == SlotOf(cfg, system, args[i].name)
    ensures ReadSlot(AssignArgs(cfg, system, row, args), slot) == Encode(cfg, slot, args[i].val)
  {
    var init, last := args[..|args| - 1], args[|args| - 1];
    var prev := AssignArgs(cfg, system, row, init);
    if i < |init| {
      AssignArgsKeepsSlots(cfg, system, row, init, i, slot);
      AssignArgFrame(cfg, system, prev, last, slot);
    } else {
      assert SetsOnly(cfg, AssignArg(cfg, system, prev, last), prev, slot, last.val);
    }
  }

  lemma RowKeepsSlots(cfg: Config, system: string, fn: AbiFn, tx: TxInfo, args: seq<Arg>, sub: nat, i: nat)
    requires DistinctSlots(cfg, system, args) && i < |args|
    ensures var slot := SlotOf(cfg, system, args[i].name);
            ReadSlot(RowOf(cfg, system, fn, tx, args, sub), slot) == Encode(cfg, slot, args[i].val)
  {
    AssignArgsKeepsSlots(cfg, system, BlankRow(cfg, system, fn, tx, sub), args, i, SlotOf(cfg, system, args[i].name));
  }

  lemma {:induction false} AssignArgsKeepsHeader(cfg: Config, system: string, row: Action, args: seq<Arg>)
    ensures SameHeader(AssignArgs(cfg, system, row, args), row)
  {
    if args != [] {
      var init := args[..|args| - 1];
      AssignArgsKeepsHeader(cfg, system, row, init);
    }
  }

  // A row carries its transaction's header and its own position in the batch.
  lemma RowHeader(cfg: Config, system: string, fn: AbiFn, tx: TxInfo, args: seq<Arg>, sub: nat)
    ensures var r := RowOf(cfg, system, fn, tx, args, sub);
            && r.txHash == tx.txHash && r.subIndex == sub && r.fromAddr == tx.fromAddr
            && r.blockNumber == tx.blockNumber && r.blockTimestamp == tx.blockTimestamp
            && r.status == tx.status && r.systemId == system && r.actionType == cfg.actionType(system)
  {
    AssignArgsKeepsHeader(cfg, system, BlankRow(cfg, system, fn, tx, sub), args);
  }

  // The fan-out numbers its rows and gives them distinct keys; it is never empty.
  lemma FanOutRows(cfg: Config, system: string, fn: AbiFn, tx: TxInfo, args: seq<Arg>)
    requires TupledArrays(args)
    ensures var rows := FanOut(cfg, system, fn, tx, args);
            && |rows| == (if BatchLength(args) == 0 then 1 else BatchLength(args))
            && (forall j | 0 <= j < |rows| ::
                  && rows[j].txHash == tx.txHash && rows[j].subIndex == j && rows[j].fromAddr == tx.fromAddr
                  && rows[j].blockNumber == tx.blockNumber && rows[j].blockTimestamp == tx.blockTimestamp
                  && rows[j].status == tx.status && rows[j].actionType == cfg.actionType(system))
            && (forall i, j | 0 <= i < j < |rows| :: rows[i].Id() != rows[j].Id())
  {
    var n := BatchLength(args);
    var rows := FanOut(cfg, system, fn, tx, args);
    if n == 0 {
      RowHeader(cfg, system, fn, tx, args, 0);
    } else {
      BatchLengthMeaning(args, n);
      forall j | 0 <= j < n
        ensures rows[j].txHash == tx.txHash && rows[j].subIndex == j && rows[j].fromAddr == tx.fromAddr
        ensures rows[j].blockNumber == tx.blockNumber && rows[j].blockTimestamp == tx.blockTimestamp
        ensures rows[j].status == tx.status && rows[j].actionType == cfg.actionType(system)
      {
        RowHeader(cfg, system, fn, tx, Spread(args, j), j);
      }
      forall i, j | 0 <= i < j < n ensures rows[i].Id() != rows[j].Id() {
        if rows[i].Id() == rows[j].Id() {
          RowIdInjective(tx.txHash, i, tx.txHash, j);
        }
      }
    }
  }

  // A batch loses nothing: row j holds element j of every array argument and a copy of
  // every scalar one, each in the argument's own slot.
  lemma FanOutKeepsArguments(cfg: Config, system: string, fn: AbiFn, tx: TxInfo, args: seq<Arg>, n: nat, i: nat, j: nat)
    requires IsBatch(args, n) && DistinctSlots(cfg, system, args)
    requires i < |args| && j < n
    ensures var slot := SlotOf(cfg, system, args[i].name);
            && |FanOut(cfg, system, fn, tx, args)| == n
            && (IsArray(args[i].typ) ==> |args[i].val.items| == n)
            && ReadSlot(FanOut(cfg, system, fn, tx, args)[j], slot)
               == Encode(cfg, slot, if IsArray(args[i].typ) then args[i].val.items[j] else args[i].val)
  {
    BatchLengthMeaning(args, n);
    if IsArray(args[i].typ) {
      assert |args[i].val.items| in ArrayLengths(args);
    }
    RowKeepsSlots(cfg, system, fn, tx, Spread(args, j), j, i);
  }

  // Reading an unsigned-integer array argument's slot down the rows gives the array back.
  lemma FanOutRoundTrip(cfg: Config, system: string, fn: AbiFn, tx: TxInfo, args: seq<Arg>, n: nat, i: nat, ns: seq<nat>)
    requires IsBatch(args, n) && DistinctSlots(cfg, system, args)
    requires i < |args| && IsArray(args[i].typ)
    requires |args[i].val.items| == |ns| && forall j | 0 <= j < |ns| :: args[i].val.items[j] == VNat(ns[j])
    ensures var rows := FanOut(cfg, system, fn, tx, args);
            && |rows| == |ns|
            && (forall j | 0 <= j < |rows| ::
                  CellNat(ReadSlot(rows[j], SlotOf(cfg, system, args[i].name))) == Some(ns[j]))
  {
    assert |args[i].val.items| in ArrayLengths(args);
    FanOutRows(cfg, system, fn, tx, args);
    BatchLengthMeaning(args, n);
    forall j | 0 <= j < n
      ensures CellNat(ReadSlot(FanOut(cfg, system, fn, tx, args)[j], SlotOf(cfg, system, args[i].name))) == Some(ns[j])
    {
      FanOutKeepsArguments(cfg, system, fn, tx, args, n, i, j);
      EncodeNat(cfg, SlotOf(cfg, system, args[i].name), ns[j]);
    }
  }

  // ---------- Harvest rows ----------

  // A column that no argument of the system maps to stays as it was.
  lemma {:induction false} AssignArgsUntouched(cfg: Config, system: string, row: Action, args: seq<Arg>, column: Column)
    requires forall name :: cfg.rule(system, name) != Some(ToColumn(column))
    ensures ReadSlot(AssignArgs(cfg, system, row, args), InColumn(column)) == ReadSlot(row, InColumn(column))
  {
    if args != [] {
      var init, last := args[..|args| - 1], args[|args| - 1];
      AssignArgsUntouched(cfg, system, row, init, column);
      var prev := AssignArgs(cfg, system, row, init);
      var slot :| SetsOnly(cfg, AssignArg(cfg, system, prev, last), prev, slot, last.val)
                  && (slot.InColumn? ==> cfg.rule(system, last.name) == Some(ToColumn(slot.column)));
      assert cfg.rule(system, last.name) != Some(ToColumn(column));
    }
  }

  // The pair invariant at its origin: a decoded start row with both ids pairs them
  // correctly, and a decoded stop or collect row has no kami id yet.
  lemma DecodedPairs(cfg: Config, system: string, fn: AbiFn, tx: TxInfo, args: seq<Arg>, sub: nat)
    requires HarvestTables(cfg)
    ensures var r := RowOf(cfg, system, fn, tx, args, sub);
            && (r.actionType.HarvestStart? && r.kamiId.Some? && r.harvestId.Some?
                ==> Pairs(cfg.hash, r.kamiId.value, r.harvestId.value))
            && (r.actionType.HarvestStart? && r.kamiId.Some? && ParseDecimal(r.kamiId.value).Some?
                ==> r.harvestId.Some?)
            && (r.Stitchable() ==> r.kamiId.None?)
  {
    var blank := BlankRow(cfg, system, fn, tx, sub);
    AssignArgsKeepsHeader(cfg, system, blank, args);
    if cfg.actionType(system).HarvestStart? {
      AssignArgsUntouched(cfg, system, blank, args, HarvestId);
    } else if cfg.actionType(system).HarvestStop? || cfg.actionType(system).HarvestCollect? {
      AssignArgsUntouched(cfg, system, blank, args, KamiId);
    }
  }

  // ---------- A whole transaction ----------

  function NameArgs(inputs: seq<AbiInput>, vals: seq<Val>): seq<Arg>
    requires |inputs| == |vals|
  {
    seq(|inputs|, i requires 0 <= i < |inputs| => Arg(inputs[i].name, inputs[i].typ, vals[i]))
  }

  function DecodeInputs(cfg: Config, inputs: seq<AbiInput>, payload: seq<byte>): (args: Option<seq<Arg>>)
    ensures args.Some? ==> TupledArrays(args.value)
  {
    var types := seq(|inputs|, i requires 0 <= i < |inputs| => inputs[i].typ);
    var vals := cfg.abiDecode(types, payload);
    if vals.None? || |vals.value| != |inputs| then None
    else
      // The ABI library returns a tuple for every array type.
      var args := NameArgs(inputs, vals.value);
      if TupledArrays(args) then Some(args) else None
  }

  // None where the ABI decoder raises. execute(bytes) is re-read as the system's executeTyped.
  function DecodeArgs(cfg: Config, system: string, fn: AbiFn, payload: seq<byte>): (args: Option<seq<Arg>>)
    ensures args.Some? ==> TupledArrays(args.value)
  {
    if fn.name == "execute" && |fn.inputs| == 1 && fn.inputs[0].typ == "bytes" then
      var outer := cfg.abiDecode(["bytes"], payload);
      if outer.None? || |outer.value| == 0 || !outer.value[0].VBytes? then None
      else if system !in cfg.typed then Some([Arg("arguments", "bytes", outer.value[0])])
      else DecodeInputs(cfg, cfg.typed[system].inputs, outer.value[0].bytes)
    else if fn.inputs == [] then Some([])
    else DecodeInputs(cfg, fn.inputs, payload)
  }

  function DecodeTx(cfg: Config, to: string, calldata: seq<byte>, tx: TxInfo): DecodeResult {
    if to !in cfg.systemOf then DecodeResult([], UnknownSystem)
    else if |calldata| < 4 then DecodeResult([], DecodeError)
    else
      var system := cfg.systemOf[to];
      if system !in cfg.index || calldata[..4] !in cfg.index[system] then DecodeResult([], UnknownSelector)
      else
        var fn := cfg.index[system][calldata[..4]];
        match DecodeArgs(cfg, system, fn, calldata[4..])
        case None => DecodeResult([], DecodeError)
        case Some(args) => DecodeResult(FanOut(cfg, system, fn, tx, args), Decoded)
  }

  // Each status says whether there are rows; every row carries its transaction's header and
  // its position, row keys are distinct, and harvest rows pair their ids.
  lemma DecodeTxRows(cfg: Config, to: string, calldata: seq<byte>, tx: TxInfo)
    requires HarvestTables(cfg)
    ensures var r := DecodeTx(cfg, to, calldata, tx);
            && (r.status.Decoded? <==> r.actions != [])
            && (forall j | 0 <= j < |r.actions| ::
                  var a := r.actions[j];
                  && a.txHash == tx.txHash && a.subIndex == j && a.fromAddr == tx.fromAddr
                  && a.blockNumber == tx.blockNumber && a.blockTimestamp == tx.blockTimestamp
                  && a.status == tx.status
                  && (a.actionType.HarvestStart? && a.kamiId.Some? && a.harvestId.Some?
                      ==> Pairs(cfg.hash, a.kamiId.value, a.harvestId.value))
                  && (a.Stitchable() ==> a.kamiId.None?))
            && (forall i, j | 0 <= i < j < |r.actions| :: r.actions[i].Id() != r.actions[j].Id())
  {
    var r := DecodeTx(cfg, to, calldata, tx);
    if r.status.Decoded? {
      var system := cfg.systemOf[to];
      var fn := cfg.index[system][calldata[..4]];
      var args := DecodeArgs(cfg, system, fn, calldata[4..]).value;
      FanOutRows(cfg, system, fn, tx, args);
      forall j | 0 <= j < |r.actions|
        ensures var a := r.actions[j];
                && (a.actionType.HarvestStart? && a.kamiId.Some? && a.harvestId.Some?
                    ==> Pairs(cfg.hash, a.kamiId.value, a.harvestId.value))
                && (a.Stitchable() ==> a.kamiId.None?)
      {
        if BatchLength(args) == 0 {
          DecodedPairs(cfg, system, fn, tx, args, 0);
        } else {
          BatchLengthMeaning(args, BatchLength(args));
          DecodedPairs(cfg, system, fn, tx, Spread(args, j), j);
        }
      }
    }
  }

  // Deployments of one system are interchangeable to the decoder.
  lemma DeploymentsDecodeAlike(cfg: Config, to1: string, to2: string, calldata: seq<byte>, tx: TxInfo)
    requires to1 in cfg.systemOf && to2 in cfg.systemOf
    requires cfg.systemOf[to1] == cfg.systemOf[to2]
    ensures DecodeTx(cfg, to1, calldata, tx) == DecodeTx(cfg, to2, calldata, tx)
  {
  }
}
