/** From calldata to rows: what decode_tx makes of a whole call (ingester/decoder.py), told
    by the bytes, the ABI types and the decoded values. */
module CalldataRows {
  import opened Wrappers
  import opened Decimal
  import opened Records
  import opened Decoder

  function TypesOf(inputs: seq<AbiInput>): seq<string> {
    seq(|inputs|, i requires 0 <= i < |inputs| => inputs[i].typ)
  }

  predicate EndsInBrackets(typ: string) {
    |typ| >= 2 && typ[|typ| - 2] == '[' && typ[|typ| - 1] == ']'
  }

  // The ABI library reads these bytes as these values: one for each input, a tuple for each
  // array.
  predicate AbiReads(cfg: Config, inputs: seq<AbiInput>, payload: seq<byte>, vals: seq<Val>) {
    && cfg.abiDecode(TypesOf(inputs), payload) == Some(vals)
    && |vals| == |inputs|
    && forall i | 0 <= i < |inputs| :: EndsInBrackets(inputs[i].typ) ==> vals[i].VList?
  }

  // The library raises, or its values do not match the inputs.
  ghost predicate AbiFails(cfg: Config, inputs: seq<AbiInput>, payload: seq<byte>) {
    forall vals :: !AbiReads(cfg, inputs, payload, vals)
  }

  // execute(bytes): the real arguments are inside.
  predicate IsExecute(fn: AbiFn) {
    fn.name == "execute" && |fn.inputs| == 1 && fn.inputs[0].typ == "bytes"
  }

  // The bytes argument of execute(bytes).
  predicate InnerBytes(cfg: Config, payload: seq<byte>, inner: seq<byte>) {
    var outer := cfg.abiDecode(["bytes"], payload);
    outer.Some? && |outer.value| > 0 && outer.value[0] == VBytes(inner)
  }

  // The call of `fn` with this payload passes these values for these inputs.
  ghost predicate Passes(cfg: Config, system: string, fn: AbiFn, payload: seq<byte>, inputs: seq<AbiInput>, vals: seq<Val>) {
    if IsExecute(fn) then
      exists inner ::
        && InnerBytes(cfg, payload, inner)
        && (if system in cfg.typed then inputs == cfg.typed[system].inputs && AbiReads(cfg, inputs, inner, vals)
            else inputs == [AbiInput("arguments", "bytes")] && vals == [VBytes(inner)])
    else inputs == fn.inputs && (if inputs == [] then vals == [] else AbiReads(cfg, inputs, payload, vals))
  }

  // ---------- Arguments ----------

  lemma BracketsAreArrays(typ: string)
    ensures IsArray(typ) <==> EndsInBrackets(typ)
  {
    if |typ| >= 2 {
      assert typ[|typ| - 2..] == [typ[|typ| - 2], typ[|typ| - 1]];
    }
  }

  lemma InputsRead(cfg: Config, inputs: seq<AbiInput>, payload: seq<byte>, vals: seq<Val>)
    requires AbiReads(cfg, inputs, payload, vals)
    ensures DecodeInputs(cfg, inputs, payload) == Some(NameArgs(inputs, vals))
  {
    forall i | 0 <= i < |inputs| {
      BracketsAreArrays(inputs[i].typ);
    }
  }

  lemma InputsFail(cfg: Config, inputs: seq<AbiInput>, payload: seq<byte>)
    ensures DecodeInputs(cfg, inputs, payload).None? <==> AbiFails(cfg, inputs, payload)
  {
    forall i | 0 <= i < |inputs| {
      BracketsAreArrays(inputs[i].typ);
    }
    var vals := cfg.abiDecode(TypesOf(inputs), payload);
    if vals.Some? && |vals.value| == |inputs| && TupledArrays(NameArgs(inputs, vals.value)) {
      forall i | 0 <= i < |inputs| && EndsInBrackets(inputs[i].typ) ensures vals.value[i].VList? {
        assert NameArgs(inputs, vals.value)[i].val == vals.value[i];
      }
      assert AbiReads(cfg, inputs, payload, vals.value);
    }
    if v :| AbiReads(cfg, inputs, payload, v) {
      InputsRead(cfg, inputs, payload, v);
    }
  }

  lemma ArgsPassed(cfg: Config, system: string, fn: AbiFn, payload: seq<byte>, inputs: seq<AbiInput>, vals: seq<Val>)
    requires Passes(cfg, system, fn, payload, inputs, vals)
    ensures |inputs| == |vals| && DecodeArgs(cfg, system, fn, payload) == Some(NameArgs(inputs, vals))
  {
    if IsExecute(fn) {
      var inner :| InnerBytes(cfg, payload, inner)
                   && (if system in cfg.typed then inputs == cfg.typed[system].inputs && AbiReads(cfg, inputs, inner, vals)
                       else inputs == [AbiInput("arguments", "bytes")] && vals == [VBytes(inner)]);
      if system in cfg.typed {
        InputsRead(cfg, inputs, inner, vals);
      } else {
        assert NameArgs(inputs, vals) == [Arg("arguments", "bytes", VBytes(inner))];
      }
    } else if inputs == [] {
      assert NameArgs(inputs, vals) == [];
    } else {
      InputsRead(cfg, inputs, payload, vals);
    }
  }

  lemma ArgsFail(cfg: Config, system: string, fn: AbiFn, payload: seq<byte>)
    ensures DecodeArgs(cfg, system, fn, payload).None? <==> forall inputs, vals :: !Passes(cfg, system, fn, payload, inputs, vals)
  {
    if inputs, vals :| Passes(cfg, system, fn, payload, inputs, vals) {
      ArgsPassed(cfg, system, fn, payload, inputs, vals);
    }
    if DecodeArgs(cfg, system, fn, payload).Some? {
      SomePassed(cfg, system, fn, payload);
    }
  }

  lemma SomePassed(cfg: Config, system: string, fn: AbiFn, payload: seq<byte>)
    requires DecodeArgs(cfg, system, fn, payload).Some?
    ensures exists inputs, vals :: Passes(cfg, system, fn, payload, inputs, vals)
  {
    if IsExecute(fn) {
      var inner := cfg.abiDecode(["bytes"], payload).value[0].bytes;
      assert InnerBytes(cfg, payload, inner);
      if system in cfg.typed {
        var inputs := cfg.typed[system].inputs;
        InputsFail(cfg, inputs, inner);
        var vals :| AbiReads(cfg, inputs, inner, vals);
        assert Passes(cfg, system, fn, payload, inputs, vals);
      } else {
        assert Passes(cfg, system, fn, payload, [AbiInput("arguments", "bytes")], [VBytes(inner)]);
      }
    } else if fn.inputs == [] {
      assert Passes(cfg, system, fn, payload, [], []);
    } else {
      InputsFail(cfg, fn.inputs, payload);
      var vals :| AbiReads(cfg, fn.inputs, payload, vals);
      assert Passes(cfg, system, fn, payload, fn.inputs, vals);
    }
  }

  // ---------- The outcome of a call ----------

  // The function that a call names.
  predicate Calls(cfg: Config, to: string, calldata: seq<byte>, selector: seq<byte>, payload: seq<byte>) {
    && to in cfg.systemOf && |selector| == 4 && calldata == selector + payload
    && cfg.systemOf[to] in cfg.index && selector in cfg.index[cfg.systemOf[to]]
  }

  lemma CallParts(cfg: Config, to: string, calldata: seq<byte>, selector: seq<byte>, payload: seq<byte>)
    requires Calls(cfg, to, calldata, selector, payload)
    ensures |calldata| >= 4 && calldata[..4] == selector && calldata[4..] == payload
  {
  }

  // Each outcome, by the address, the length, the selector and the ABI alone.
  lemma OutcomeIff(cfg: Config, to: string, calldata: seq<byte>, tx: TxInfo)
    ensures var status := DecodeTx(cfg, to, calldata, tx).status;
            && (status.UnknownSystem? <==> to !in cfg.systemOf)
            && (status.UnknownSelector? <==>
                  to in cfg.systemOf && |calldata| >= 4
                  && (cfg.systemOf[to] !in cfg.index || calldata[..4] !in cfg.index[cfg.systemOf[to]]))
            && (status.DecodeError? <==>
                  to in cfg.systemOf
                  && (|calldata| < 4
                      || exists selector, payload :: Calls(cfg, to, calldata, selector, payload)
                           && forall inputs, vals :: !Passes(cfg, cfg.systemOf[to], cfg.index[cfg.systemOf[to]][selector], payload, inputs, vals)))
  {
    if to in cfg.systemOf && |calldata| >= 4 {
      var system := cfg.systemOf[to];
      assert calldata == calldata[..4] + calldata[4..];
      if system in cfg.index && calldata[..4] in cfg.index[system] {
        assert Calls(cfg, to, calldata, calldata[..4], calldata[4..]);
        ArgsFail(cfg, system, cfg.index[system][calldata[..4]], calldata[4..]);
      }
      forall selector, payload | Calls(cfg, to, calldata, selector, payload)
        ensures selector == calldata[..4] && payload == calldata[4..]
      {
        CallParts(cfg, to, calldata, selector, payload);
      }
    }
  }

  // ---------- The rows of a call ----------

  // Every input is named and no two inputs share a column or metadata key.
  predicate ApartInputs(cfg: Config, system: string, inputs: seq<AbiInput>) {
    && (forall i | 0 <= i < |inputs| :: inputs[i].name != "")
    && (forall i, j | 0 <= i < j < |inputs| :: SlotOf(cfg, system, inputs[i].name) != SlotOf(cfg, system, inputs[j].name))
  }

  // Some input is an array and all arrays have n elements.
  predicate AllOfLength(inputs: seq<AbiInput>, vals: seq<Val>, n: nat)
    requires |inputs| == |vals|
  {
    && (exists i :: 0 <= i < |inputs| && EndsInBrackets(inputs[i].typ))
    && (forall i | 0 <= i < |inputs| && EndsInBrackets(inputs[i].typ) :: vals[i].VList? && |vals[i].items| == n)
  }

  // The number of rows: the common length of the arrays if there is one and it is not zero.
  ghost predicate RowCount(inputs: seq<AbiInput>, vals: seq<Val>, n: nat)
    requires |inputs| == |vals|
  {
    if exists m: nat :: m > 0 && AllOfLength(inputs, vals, m) then n > 0 && AllOfLength(inputs, vals, n) else n == 1
  }

  // What row j takes from input i.
  function Share(inputs: seq<AbiInput>, vals: seq<Val>, batch: bool, i: nat, j: nat): Val
    requires |inputs| == |vals| && i < |vals|
  {
    if batch && EndsInBrackets(inputs[i].typ) && vals[i].VList? && j < |vals[i].items| then vals[i].items[j] else vals[i]
  }

  ghost predicate IsBatchCall(inputs: seq<AbiInput>, vals: seq<Val>)
    requires |inputs| == |vals|
  {
    exists m: nat :: m > 0 && AllOfLength(inputs, vals, m)
  }

  lemma LengthsAgree(inputs: seq<AbiInput>, vals: seq<Val>, n: nat)
    requires |inputs| == |vals| && TupledArrays(NameArgs(inputs, vals)) && n > 0
    ensures AllOfLength(inputs, vals, n) <==> IsBatch(NameArgs(inputs, vals), n)
  {
    var args := NameArgs(inputs, vals);
    forall i | 0 <= i < |inputs| ensures IsArray(args[i].typ) <==> EndsInBrackets(inputs[i].typ) {
      BracketsAreArrays(inputs[i].typ);
    }
    if AllOfLength(inputs, vals, n) {
      var i :| 0 <= i < |inputs| && EndsInBrackets(inputs[i].typ);
      assert |args[i].val.items| == n;
      assert ArrayLengths(args) == {n};
    }
    if IsBatch(args, n) {
      assert n in ArrayLengths(args);
      forall i | 0 <= i < |inputs| && EndsInBrackets(inputs[i].typ) ensures vals[i].VList? && |vals[i].items| == n {
        assert |args[i].val.items| in ArrayLengths(args);
      }
    }
  }

  lemma CountIsBatchLength(inputs: seq<AbiInput>, vals: seq<Val>, n: nat)
    requires |inputs| == |vals| && TupledArrays(NameArgs(inputs, vals)) && RowCount(inputs, vals, n)
    ensures BatchLength(NameArgs(inputs, vals)) == if IsBatchCall(inputs, vals) then n else 0
  {
    var args := NameArgs(inputs, vals);
    if IsBatchCall(inputs, vals) {
      LengthsAgree(inputs, vals, n);
      BatchLengthMeaning(args, n);
    } else if BatchLength(args) > 0 {
      BatchLengthMeaning(args, BatchLength(args));
      LengthsAgree(inputs, vals, BatchLength(args));
    }
  }

  // The row a call gives at position j.
  function RowArgs(inputs: seq<AbiInput>, vals: seq<Val>, batch: bool, j: nat): seq<Arg>
    requires |inputs| == |vals|
    requires batch ==> TupledArrays(NameArgs(inputs, vals)) && exists n :: IsBatch(NameArgs(inputs, vals), n) && j < n
  {
    if batch then Spread(NameArgs(inputs, vals), j) else NameArgs(inputs, vals)
  }

  lemma RowsOfCall(cfg: Config, to: string, calldata: seq<byte>, tx: TxInfo, selector: seq<byte>, payload: seq<byte>,
                   inputs: seq<AbiInput>, vals: seq<Val>, n: nat, j: nat)
    requires Calls(cfg, to, calldata, selector, payload)
    requires var system := cfg.systemOf[to]; Passes(cfg, system, cfg.index[system][selector], payload, inputs, vals)
    requires |inputs| == |vals| && RowCount(inputs, vals, n) && j < n
    ensures var system := cfg.systemOf[to];
            var fn := cfg.index[system][selector];
            var r := DecodeTx(cfg, to, calldata, tx);
            && TupledArrays(NameArgs(inputs, vals))
            && (IsBatchCall(inputs, vals) ==> IsBatch(NameArgs(inputs, vals), n))
            && r.status.Decoded? && |r.actions| == n
            && r.actions[j] == RowOf(cfg, system, fn, tx, RowArgs(inputs, vals, IsBatchCall(inputs, vals), j), j)
  {
    var system := cfg.systemOf[to];
    var fn, args := cfg.index[system][selector], NameArgs(inputs, vals);
    CallParts(cfg, to, calldata, selector, payload);
    ArgsPassed(cfg, system, fn, payload, inputs, vals);
    CountIsBatchLength(inputs, vals, n);
    if IsBatchCall(inputs, vals) {
      BatchLengthMeaning(args, n);
    }
  }

  // The arguments of row j: the inputs by name, each with its share.
  lemma ArgsOfRow(inputs: seq<AbiInput>, vals: seq<Val>, batch: bool, n: nat, j: nat)
    requires |inputs| == |vals| && TupledArrays(NameArgs(inputs, vals)) && j < n
    requires batch ==> IsBatch(NameArgs(inputs, vals), n)
    ensures var args := RowArgs(inputs, vals, batch, j);
            && |args| == |inputs|
            && forall i | 0 <= i < |inputs| :: args[i].name == inputs[i].name && args[i].val == Share(inputs, vals, batch, i, j)
  {
    var args := RowArgs(inputs, vals, batch, j);
    forall i | 0 <= i < |inputs| ensures args[i].name == inputs[i].name && args[i].val == Share(inputs, vals, batch, i, j) {
      BracketsAreArrays(inputs[i].typ);
    }
  }

  // Row j of a call: it names its transaction, and each input's column or metadata key holds
  // the value passed for it, or element j of it in a batch.
  lemma RowHoldsInput(cfg: Config, to: string, calldata: seq<byte>, tx: TxInfo, selector: seq<byte>, payload: seq<byte>,
                      inputs: seq<AbiInput>, vals: seq<Val>, n: nat, i: nat, j: nat)
    requires Calls(cfg, to, calldata, selector, payload)
    requires var system := cfg.systemOf[to];
             Passes(cfg, system, cfg.index[system][selector], payload, inputs, vals) && ApartInputs(cfg, system, inputs)
    requires |inputs| == |vals| && RowCount(inputs, vals, n) && i < |inputs| && j < n
    ensures var system := cfg.systemOf[to];
            var r := DecodeTx(cfg, to, calldata, tx);
            && r.status.Decoded? && |r.actions| == n
            && r.actions[j].txHash == tx.txHash && r.actions[j].subIndex == j
            && r.actions[j].systemId == system && r.actions[j].actionType == cfg.actionType(system)
            && ReadSlot(r.actions[j], SlotOf(cfg, system, inputs[i].name))
               == Encode(cfg, SlotOf(cfg, system, inputs[i].name), Share(inputs, vals, IsBatchCall(inputs, vals), i, j))
  {
    hide DecodeTx, Passes, RowCount, RowOf, ReadSlot, Encode, Share, RowArgs, IsBatchCall, IsBatch, TupledArrays, NameArgs;
    var system := cfg.systemOf[to];
    var fn, batch := cfg.index[system][selector], IsBatchCall(inputs, vals);
    RowsOfCall(cfg, to, calldata, tx, selector, payload, inputs, vals, n, j);
    var args := RowArgs(inputs, vals, batch, j);
    ArgsOfRow(inputs, vals, batch, n, j);
    RowHeader(cfg, system, fn, tx, args, j);
    RowKeepsSlots(cfg, system, fn, tx, args, j, i);
  }

  // A slot that no argument fills keeps what the blank row has.
  lemma {:induction false} OtherSlots(cfg: Config, system: string, row: Action, args: seq<Arg>, slot: Slot)
    requires forall i | 0 <= i < |args| :: args[i].name != "" && SlotOf(cfg, system, args[i].name) != slot
    ensures ReadSlot(AssignArgs(cfg, system, row, args), slot) == ReadSlot(row, slot)
  {
    if args != [] {
      var init, last := args[..|args| - 1], args[|args| - 1];
      OtherSlots(cfg, system, row, init, slot);
      AssignArgFrame(cfg, system, AssignArgs(cfg, system, row, init), last, slot);
    }
  }

  // What a row holds where no input goes: the function's name, the position in a batch,
  // nothing else. A start row's harvest id is the exception, which its kami determines.
  predicate HoldsNoMore(r: Action, fn: AbiFn, j: nat, slot: Slot) {
    match slot
    case InMeta(key) =>
      var there := key in r.metadata;
      if key == "fn" then there && r.metadata[key] == MetaText(fn.name)
      else if key == "batch_idx" then (there <==> j > 0) && (there ==> r.metadata[key] == MetaInt(j))
      else !there
    case InColumn(KamiId) => r.kamiId.None?
    case InColumn(TargetKamiId) => r.targetKamiId.None?
    case InColumn(NodeId) => r.nodeId.None?
    case InColumn(Amount) => r.amount.None?
    case InColumn(ItemIndex) => r.itemIndex.None?
    case InColumn(HarvestId) => r.actionType.HarvestStart? || r.harvestId.None?
  }

  lemma OtherSlotsOfRow(cfg: Config, system: string, fn: AbiFn, tx: TxInfo, args: seq<Arg>, j: nat, slot: Slot)
    requires forall i | 0 <= i < |args| :: args[i].name != "" && SlotOf(cfg, system, args[i].name) != slot
    ensures HoldsNoMore(RowOf(cfg, system, fn, tx, args, j), fn, j, slot)
  {
    var blank := BlankRow(cfg, system, fn, tx, j);
    OtherSlots(cfg, system, blank, args, slot);
    AssignArgsKeepsHeader(cfg, system, blank, args);
  }

  lemma RowHoldsNoMore(cfg: Config, to: string, calldata: seq<byte>, tx: TxInfo, selector: seq<byte>, payload: seq<byte>,
                       inputs: seq<AbiInput>, vals: seq<Val>, n: nat, j: nat, slot: Slot)
    requires Calls(cfg, to, calldata, selector, payload)
    requires var system := cfg.systemOf[to];
             && Passes(cfg, system, cfg.index[system][selector], payload, inputs, vals)
             && forall i | 0 <= i < |inputs| :: inputs[i].name != "" && SlotOf(cfg, system, inputs[i].name) != slot
    requires |inputs| == |vals| && RowCount(inputs, vals, n) && j < n
    ensures var r := DecodeTx(cfg, to, calldata, tx);
            |r.actions| == n && HoldsNoMore(r.actions[j], cfg.index[cfg.systemOf[to]][selector], j, slot)
  {
    hide DecodeTx, Passes, RowCount, RowOf, HoldsNoMore, Share, RowArgs, IsBatchCall, IsBatch, TupledArrays, NameArgs;
    var system := cfg.systemOf[to];
    var fn, batch := cfg.index[system][selector], IsBatchCall(inputs, vals);
    RowsOfCall(cfg, to, calldata, tx, selector, payload, inputs, vals, n, j);
    ArgsOfRow(inputs, vals, batch, n, j);
    OtherSlotsOfRow(cfg, system, fn, tx, RowArgs(inputs, vals, batch, j), j, slot);
  }

  // An argument without a name is kept in the metadata under its number there.
  lemma UnnamedArgument(cfg: Config, system: string, row: Action, typ: string, v: Val)
    requires cfg.rule(system, "") == None
    ensures var key, r := "arg" + ToDecimal(|row.metadata|), AssignArg(cfg, system, row, Arg("", typ, v));
            && key in r.metadata && r.metadata[key] == MetaOf(v)
            && forall other | other != key :: (other in r.metadata <==> other in row.metadata)
                 && (other in r.metadata ==> r.metadata[other] == row.metadata[other])
  {
  }

  // ---------- How values are written ----------

  // The value of a hexadecimal digit, lower case.
  function Nibble(c: char): Option<nat> {
    if '0' <= c <= '9' then Some(c as int - '0' as int)
    else if 'a' <= c <= 'f' then Some(c as int - 'a' as int + 10)
    else None
  }

  // bytes.fromhex
  function FromHex(s: string): Option<seq<byte>> {
    if s == "" then Some([])
    else if |s| == 1 then None
    else
      var high, low, rest := Nibble(s[0]), Nibble(s[1]), FromHex(s[2..]);
      if high.None? || low.None? || rest.None? then None else Some([high.value * 16 + low.value] + rest.value)
  }

  lemma DigitIsNibble(d: nat)
    requires d < 16
    ensures Nibble(HexDigit(d)) == Some(d)
  {
    var digits := "0123456789abcdef";
    assert digits[d] == HexDigit(d);
  }

  // Hexadecimal text reads back as the bytes it was made from.
  lemma {:induction false} HexRoundTrip(b: seq<byte>)
    ensures FromHex(Hex(b)) == Some(b)
  {
    if b != [] {
      DigitIsNibble(b[0] / 16);
      DigitIsNibble(b[0] % 16);
      HexRoundTrip(b[1..]);
      assert Hex(b)[2..] == Hex(b[1..]);
      assert [b[0]] + b[1..] == b;
    }
  }

  // A text column holds a number in decimal, bytes as the big-endian number they are, text as
  // it is and a flag as Python writes it; the item index takes numbers and flags only.
  lemma ColumnsHold(cfg: Config, column: Column, n: nat, size: nat, text: string, flag: bool)
    requires !column.ItemIndex? && n < Pow256(size)
    ensures Encode(cfg, InColumn(column), VNat(n)) == Text(Some(ToDecimal(n)))
    ensures Encode(cfg, InColumn(column), VBytes(ToBigEndian(n, size))) == Text(Some(ToDecimal(n)))
    ensures Encode(cfg, InColumn(column), VText(text)) == Text(Some(text))
    ensures Encode(cfg, InColumn(column), VBool(flag)) == Text(Some(if flag then "True" else "False"))
    ensures Encode(cfg, InColumn(ItemIndex), VNat(n)) == Number(Some(n))
    ensures Encode(cfg, InColumn(ItemIndex), VBool(flag)) == Number(Some(if flag then 1 else 0))
    ensures Encode(cfg, InColumn(ItemIndex), VText(text)) == Number(None)
    ensures Encode(cfg, InColumn(ItemIndex), VBytes(ToBigEndian(n, size))) == Number(None)
  {
    BigEndianRoundTrip(n, size);
  }

  // Metadata holds a number in decimal and bytes in hexadecimal after 0x, from which they can
  // be read back, and a tuple element by element.
  lemma MetadataHolds(cfg: Config, key: string, n: nat, b: seq<byte>, text: string, items: seq<Val>)
    ensures Encode(cfg, InMeta(key), VNat(n)) == Meta(Some(MetaText(ToDecimal(n))))
    ensures exists hex :: FromHex(hex) == Some(b) && Encode(cfg, InMeta(key), VBytes(b)) == Meta(Some(MetaText("0x" + hex)))
    ensures Encode(cfg, InMeta(key), VText(text)) == Meta(Some(MetaText(text)))
    ensures exists metas: seq<MetaValue> ::
              && Encode(cfg, InMeta(key), VList(items)) == Meta(Some(MetaList(metas))) && |metas| == |items|
              && forall i | 0 <= i < |items| :: Encode(cfg, InMeta(key), items[i]) == Meta(Some(metas[i]))
  {
    HexRoundTrip(b);
    var metas := seq(|items|, i requires 0 <= i < |items| => MetaOf(items[i]));
    assert MetaOf(VList(items)) == MetaList(metas);
  }
}
