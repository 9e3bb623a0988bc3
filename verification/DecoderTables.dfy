/** How the decoder's tables come out of the registry (Decoder._load_all in
    ingester/decoder.py), and what a deployment seen later means for them. */
module DecoderTables {
  import opened Wrappers
  import opened Decimal
  import opened Decoder
  import opened Records
  import Registry

  // The functions of one ABI in dictionary order, by selector.
  type FnTable = seq<(seq<byte>, AbiFn)>

  type Index = map<string, map<seq<byte>, AbiFn>>
  type TypedFns = map<string, AbiFn>

  // The ABI files, and the documented signatures missing from them.
  datatype Abis = Abis(file: string -> FnTable, overlay: string -> FnTable)

  predicate HasSelector(fns: FnTable, selector: seq<byte>) {
    exists i :: 0 <= i < |fns| && fns[i].0 == selector
  }

  // Overlay entries are additive: they never override the file.
  function Overlaid(fns: FnTable, overlay: FnTable): FnTable {
    if overlay == [] then fns
    else
      var prior, last := Overlaid(fns, overlay[..|overlay| - 1]), overlay[|overlay| - 1];
      if HasSelector(prior, last.0) then prior else prior + [last]
  }

  function AsMap(fns: FnTable): map<seq<byte>, AbiFn> {
    if fns == [] then map[] else AsMap(fns[..|fns| - 1])[fns[|fns| - 1].0 := fns[|fns| - 1].1]
  }

  // next(fn for fn in fn_idx.values() if fn.name == "executeTyped"), None without one.
  function FirstTyped(fns: FnTable): Option<AbiFn> {
    if fns == [] then None else if fns[0].1.name == "executeTyped" then Some(fns[0].1) else FirstTyped(fns[1..])
  }

  // The functions of a system, read from the given ABI file.
  function FnsOf(abis: Abis, system: string, abiName: string): FnTable {
    Overlaid(abis.file(abiName), abis.overlay(system))
  }

  // Every deployment of a system has its ABI file.
  predicate OneAbi(infos: Registry.Contents) {
    forall k1, k2 | k1 in infos && k2 in infos && infos[k1].systemId == infos[k2].systemId ::
      infos[k1].abiName == infos[k2].abiName
  }

  // A registry probed at any heights is so when the table of systems gives each one ABI.
  lemma UnionHasOneAbi(c: Registry.Chain, heights: seq<int>, infos: Registry.Contents)
    requires Registry.IsUnion(c, heights, infos)
    requires forall i, j | 0 <= i < |c.systems| && 0 <= j < |c.systems| && c.systems[i].0 == c.systems[j].0 ::
               c.systems[i].1 == c.systems[j].1
    ensures OneAbi(infos)
  {
    forall k | k in infos ensures (infos[k].systemId, infos[k].abiName) in c.systems {
      assert Registry.IsHistory(c, heights, k, infos[k]);
      Registry.SnapshotEntry(c, infos[k].firstSeen.value, k);
    }
  }

  // The tables hold this entry's system as its ABI has it.
  predicate Holds(abis: Abis, info: Registry.SystemInfo, index: Index, typed: TypedFns) {
    var fns := FnsOf(abis, info.systemId, info.abiName);
    && info.systemId in index && index[info.systemId] == AsMap(fns)
    && (if info.systemId in typed then Some(typed[info.systemId]) else None) == FirstTyped(fns)
  }

  // The tables of a registry: its systems, each as its ABI has it, and nothing else.
  ghost predicate AreTables(abis: Abis, infos: Registry.Contents, index: Index, typed: TypedFns) {
    && (forall k | k in infos :: Holds(abis, infos[k], index, typed))
    && (forall system | system in index || system in typed :: exists k :: k in infos && infos[k].systemId == system)
  }

  // The tables after one entry: that entry's system is loaded, no other system changes.
  ghost predicate Loaded(abis: Abis, info: Registry.SystemInfo, index0: Index, typed0: TypedFns, index: Index, typed: TypedFns) {
    && ((info.systemId in typed0 ==> Holds(abis, info, index0, typed0)) ==> Holds(abis, info, index, typed))
    && index.Keys == index0.Keys + {info.systemId} && typed.Keys <= typed0.Keys + {info.systemId}
    && (forall system | system in index0 && system != info.systemId :: index[system] == index0[system])
    && (forall system | system != info.systemId ::
          (system in typed <==> system in typed0) && (system in typed ==> typed[system] == typed0[system]))
  }

  method LoadOne(abis: Abis, info: Registry.SystemInfo, index0: Index, typed0: TypedFns) returns (index: Index, typed: TypedFns)
    ensures Loaded(abis, info, index0, typed0, index, typed)
  {
    var fns := FnsOf(abis, info.systemId, info.abiName);
    index, typed := index0[info.systemId := AsMap(fns)], typed0;
    var first := FirstTyped(fns);
    if first.Some? {
      typed := typed[info.systemId := first.value];
    }
  }

  // The tables of the entries that are not left to load.
  ghost predicate TablesBut(abis: Abis, infos: Registry.Contents, todo: set<string>, index: Index, typed: TypedFns) {
    && (forall k | k in infos && k !in todo :: Holds(abis, infos[k], index, typed))
    && (forall system | system in index || system in typed ::
          exists k :: k in infos && k !in todo && infos[k].systemId == system)
  }

  lemma HoldsStays(abis: Abis, info: Registry.SystemInfo, other: Registry.SystemInfo, index0: Index, typed0: TypedFns,
                   index: Index, typed: TypedFns)
    requires Loaded(abis, info, index0, typed0, index, typed) && other.systemId != info.systemId
    requires Holds(abis, other, index0, typed0)
    ensures Holds(abis, other, index, typed)
  {
  }

  lemma LoadedStep(abis: Abis, infos: Registry.Contents, todo: set<string>, addr: string, rest: set<string>,
                   index0: Index, typed0: TypedFns, index: Index, typed: TypedFns)
    requires OneAbi(infos) && addr in todo && addr in infos && rest == todo - {addr}
    requires TablesBut(abis, infos, todo, index0, typed0)
    requires Loaded(abis, infos[addr], index0, typed0, index, typed)
    ensures TablesBut(abis, infos, rest, index, typed)
  {
    if infos[addr].systemId in typed0 {
      var k :| k in infos && k !in todo && infos[k].systemId == infos[addr].systemId;
      assert Holds(abis, infos[k], index0, typed0);
    }
    forall k | k in infos && k !in rest ensures Holds(abis, infos[k], index, typed) {
      if infos[k].systemId != infos[addr].systemId {
        HoldsStays(abis, infos[addr], infos[k], index0, typed0, index, typed);
      }
    }
    forall system | system in index || system in typed
      ensures exists k :: k in infos && k !in rest && infos[k].systemId == system
    {
      if system == infos[addr].systemId {
        assert addr !in rest;
      } else {
        var k :| k in infos && k !in todo && infos[k].systemId == system;
      }
    }
  }

  // ---------- What a table holds ----------

  ghost predicate LastWith(fns: FnTable, selector: seq<byte>, fn: AbiFn) {
    exists i :: 0 <= i < |fns| && fns[i] == (selector, fn) && forall j | i < j < |fns| :: fns[j].0 != selector
  }

  lemma {:induction false} AsMapMeaning(fns: FnTable, selector: seq<byte>, fn: AbiFn)
    ensures (selector in AsMap(fns) && AsMap(fns)[selector] == fn) <==> LastWith(fns, selector, fn)
  {
    if fns != [] {
      var init, last := fns[..|fns| - 1], fns[|fns| - 1];
      AsMapMeaning(init, selector, fn);
      if last.0 == selector {
        assert last.1 == fn ==> fns[|init|] == (selector, fn);
      } else {
        if i :| 0 <= i < |init| && init[i] == (selector, fn) && forall j | i < j < |init| :: init[j].0 != selector {
          assert fns[i] == (selector, fn);
        }
        if i :| 0 <= i < |fns| && fns[i] == (selector, fn) && forall j | i < j < |fns| :: fns[j].0 != selector {
          assert init[i] == (selector, fn);
        }
      }
    }
  }

  ghost predicate FirstWith(fns: FnTable, selector: seq<byte>, fn: AbiFn) {
    exists i :: 0 <= i < |fns| && fns[i] == (selector, fn) && forall j | 0 <= j < i :: fns[j].0 != selector
  }

  ghost predicate Lacks(fns: FnTable, selector: seq<byte>) {
    forall i | 0 <= i < |fns| :: fns[i].0 != selector
  }

  lemma {:induction false} OverlaidMeaning(fns: FnTable, overlay: FnTable, selector: seq<byte>, fn: AbiFn)
    ensures Lacks(Overlaid(fns, overlay), selector) <==> Lacks(fns, selector) && Lacks(overlay, selector)
    ensures LastWith(Overlaid(fns, overlay), selector, fn) <==>
            if Lacks(fns, selector) then FirstWith(overlay, selector, fn) else LastWith(fns, selector, fn)
  {
    if overlay == [] {
    } else {
      var init, last := overlay[..|overlay| - 1], overlay[|overlay| - 1];
      OverlaidMeaning(fns, init, selector, fn);
      assert overlay == init + [last];
      FirstSnoc(init, last, selector, fn);
      var prior := Overlaid(fns, init);
      if !HasSelector(prior, last.0) {
        LastSnoc(prior, last, selector, fn);
      }
    }
  }

  lemma FirstSnoc(init: FnTable, last: (seq<byte>, AbiFn), selector: seq<byte>, fn: AbiFn)
    ensures Lacks(init + [last], selector) <==> Lacks(init, selector) && last.0 != selector
    ensures FirstWith(init + [last], selector, fn) <==>
            FirstWith(init, selector, fn) || (Lacks(init, selector) && last == (selector, fn))
  {
    var fns := init + [last];
    assert fns[|init|] == last && forall i | 0 <= i < |init| :: fns[i] == init[i];
    if i :| 0 <= i < |init| && init[i] == (selector, fn) && forall j | 0 <= j < i :: init[j].0 != selector {
      assert fns[i] == (selector, fn);
    }
  }

  lemma LastSnoc(init: FnTable, last: (seq<byte>, AbiFn), selector: seq<byte>, fn: AbiFn)
    requires Lacks(init, last.0)
    ensures Lacks(init + [last], selector) <==> Lacks(init, selector) && last.0 != selector
    ensures LastWith(init + [last], selector, fn) <==> LastWith(init, selector, fn) || last == (selector, fn)
  {
    var fns := init + [last];
    assert fns[|init|] == last && forall i | 0 <= i < |init| :: fns[i] == init[i];
    if i :| 0 <= i < |init| && init[i] == (selector, fn) && forall j | i < j < |init| :: init[j].0 != selector {
      assert fns[i] == (selector, fn);
    }
  }

  // What a system's table gives for a selector: the ABI file's function, its last with that
  // selector; only without one the overlay's, its first.
  lemma EntryMeaning(abis: Abis, infos: Registry.Contents, index: Index, typed: TypedFns, k: string, selector: seq<byte>, fn: AbiFn)
    requires AreTables(abis, infos, index, typed) && k in infos
    ensures var file, overlay := abis.file(infos[k].abiName), abis.overlay(infos[k].systemId);
            && infos[k].systemId in index
            && ((selector in index[infos[k].systemId] && index[infos[k].systemId][selector] == fn)
                <==> if Lacks(file, selector) then FirstWith(overlay, selector, fn) else LastWith(file, selector, fn))
  {
    assert Holds(abis, infos[k], index, typed);
    var file, overlay := abis.file(infos[k].abiName), abis.overlay(infos[k].systemId);
    AsMapMeaning(Overlaid(file, overlay), selector, fn);
    OverlaidMeaning(file, overlay, selector, fn);
  }

  // And its executeTyped is the first function of that name.
  lemma {:induction false} FirstTypedMeaning(fns: FnTable, fn: AbiFn)
    ensures FirstTyped(fns) == Some(fn) <==>
            exists i :: 0 <= i < |fns| && fns[i].1 == fn && fn.name == "executeTyped"
                        && forall j | 0 <= j < i :: fns[j].1.name != "executeTyped"
  {
    if fns != [] && fns[0].1.name != "executeTyped" {
      FirstTypedMeaning(fns[1..], fn);
      if i :| 0 <= i < |fns[1..]| && fns[1..][i].1 == fn && fn.name == "executeTyped"
              && forall j | 0 <= j < i :: fns[1..][j].1.name != "executeTyped" {
        assert fns[i + 1].1 == fn;
        forall j | 0 <= j < i + 1 ensures fns[j].1.name != "executeTyped" {
          assert j > 0 ==> fns[1..][j - 1] == fns[j];
        }
      }
      if i :| 0 <= i < |fns| && fns[i].1 == fn && fn.name == "executeTyped"
              && forall j | 0 <= j < i :: fns[j].1.name != "executeTyped" {
        assert i > 0 && fns[1..][i - 1].1 == fn;
        assert forall j | 0 <= j < i - 1 :: fns[1..][j] == fns[j + 1];
      }
    }
  }

  // _load_all, with the registry's entries in any order.
  method LoadAll(abis: Abis, infos: Registry.Contents) returns (index: Index, typed: TypedFns)
    ensures OneAbi(infos) ==> AreTables(abis, infos, index, typed)
  {
    index, typed := map[], map[];
    var todo := infos.Keys;
    while todo != {}
      invariant todo <= infos.Keys
      invariant OneAbi(infos) ==> TablesBut(abis, infos, todo, index, typed)
      decreases |todo|
    {
      var addr :| addr in todo;
      ghost var left, index0, typed0 := todo, index, typed;
      todo := todo - {addr};
      index, typed := LoadOne(abis, infos[addr], index, typed);
      if OneAbi(infos) {
        LoadedStep(abis, infos, left, addr, todo, index0, typed0, index, typed);
      }
    }
  }

  // The decoder over these tables; get_by_address reads the registry itself.
  function ConfigOver(cfg: Config, infos: Registry.Contents, index: Index, typed: TypedFns): Config {
    cfg.(systemOf := map k | k in infos :: infos[k].systemId, index := index, typed := typed)
  }

  // The order in which the registry's entries are loaded does not matter.
  lemma TablesUnique(abis: Abis, infos: Registry.Contents, i1: Index, t1: TypedFns, i2: Index, t2: TypedFns)
    requires AreTables(abis, infos, i1, t1) && AreTables(abis, infos, i2, t2)
    ensures i1 == i2 && t1 == t2
  {
    TablesWithin(abis, infos, i1, t1, i2, t2);
    TablesWithin(abis, infos, i2, t2, i1, t1);
  }

  lemma TablesWithin(abis: Abis, infos: Registry.Contents, i1: Index, t1: TypedFns, i2: Index, t2: TypedFns)
    requires AreTables(abis, infos, i1, t1) && AreTables(abis, infos, i2, t2)
    ensures forall system | system in i1 :: system in i2 && i2[system] == i1[system]
    ensures forall system | system in t1 :: system in t2 && t2[system] == t1[system]
  {
    forall system | system in i1 || system in t1
      ensures system in i1 ==> system in i2 && i2[system] == i1[system]
      ensures system in t1 ==> system in t2 && t2[system] == t1[system]
    {
      var k :| k in infos && infos[k].systemId == system;
      assert Holds(abis, infos[k], i1, t1) && Holds(abis, infos[k], i2, t2);
    }
  }

  // Tables loaded before and after hold the same entries for a system that both know.
  lemma SameEntries(abis: Abis, infos: Registry.Contents, infos': Registry.Contents,
                    index: Index, typed: TypedFns, index': Index, typed': TypedFns, to: string)
    requires OneAbi(infos') && AreTables(abis, infos, index, typed) && AreTables(abis, infos', index', typed')
    requires forall k | k in infos :: k in infos' && infos'[k].systemId == infos[k].systemId
                                      && infos'[k].abiName == infos[k].abiName
    requires to in infos' && infos'[to].systemId in index
    ensures var system := infos'[to].systemId;
            && system in index' && index'[system] == index[system]
            && (system in typed <==> system in typed')
            && (system in typed ==> typed'[system] == typed[system])
  {
    var system := infos'[to].systemId;
    var k :| k in infos && infos[k].systemId == system;
    assert Holds(abis, infos[k], index, typed) && Holds(abis, infos'[to], index', typed');
  }

  lemma NoEntry(c: Config, to: string, calldata: seq<byte>, tx: TxInfo)
    requires to in c.systemOf && c.systemOf[to] !in c.index && |calldata| >= 4
    ensures DecodeTx(c, to, calldata, tx) == DecodeResult([], UnknownSelector)
  {
  }

  // The poller extends the registry but keeps its decoder's tables. A deployment of a system
  // the tables know, first seen after they were loaded, decodes exactly as if they had been
  // loaded again; one of a new system has no known selector until then.
  lemma LateDeployment(cfg: Config, abis: Abis, infos: Registry.Contents, infos': Registry.Contents,
                       index: Index, typed: TypedFns, index': Index, typed': TypedFns,
                       to: string, calldata: seq<byte>, tx: TxInfo)
    requires OneAbi(infos') && AreTables(abis, infos, index, typed) && AreTables(abis, infos', index', typed')
    requires forall k | k in infos :: k in infos' && infos'[k].systemId == infos[k].systemId
                                      && infos'[k].abiName == infos[k].abiName
    requires to in infos'
    ensures infos'[to].systemId in index ==>
              DecodeTx(ConfigOver(cfg, infos', index, typed), to, calldata, tx)
              == DecodeTx(ConfigOver(cfg, infos', index', typed'), to, calldata, tx)
    ensures infos'[to].systemId !in index && |calldata| >= 4 ==>
              DecodeTx(ConfigOver(cfg, infos', index, typed), to, calldata, tx) == DecodeResult([], UnknownSelector)
  {
    hide DecodeTx;
    if infos'[to].systemId in index {
      SameEntries(abis, infos, infos', index, typed, index', typed', to);
      SameEntryDecodes(ConfigOver(cfg, infos', index, typed), ConfigOver(cfg, infos', index', typed'), to, calldata, tx);
    } else if |calldata| >= 4 {
      NoEntry(ConfigOver(cfg, infos', index, typed), to, calldata, tx);
    }
  }

  // Decoding reads only the entries of the address's own system.
  lemma SameEntryDecodes(c1: Config, c2: Config, to: string, calldata: seq<byte>, tx: TxInfo)
    requires c2 == c1.(index := c2.index, typed := c2.typed) && to in c1.systemOf
    requires var system := c1.systemOf[to];
             && system in c1.index && system in c2.index && c1.index[system] == c2.index[system]
             && (system in c1.typed <==> system in c2.typed)
             && (system in c1.typed ==> c1.typed[system] == c2.typed[system])
    ensures DecodeTx(c1, to, calldata, tx) == DecodeTx(c2, to, calldata, tx)
  {
    if |calldata| >= 4 && calldata[..4] in c1.index[c1.systemOf[to]] {
      var system, fn := c1.systemOf[to], c1.index[c1.systemOf[to]][calldata[..4]];
      var args := DecodeArgs(c1, system, fn, calldata[4..]);
      assert args == DecodeArgs(c2, system, fn, calldata[4..]);
      if args.Some? {
        SameFanOut(c1, c2, system, fn, tx, args.value);
      }
    }
  }

  lemma {:induction false} SameRow(c1: Config, c2: Config, system: string, row: Action, args: seq<Arg>)
    requires c2 == c1.(index := c2.index, typed := c2.typed)
    ensures AssignArgs(c1, system, row, args) == AssignArgs(c2, system, row, args)
    decreases |args|
  {
    if args != [] {
      SameRow(c1, c2, system, row, args[..|args| - 1]);
      SameArg(c1, c2, system, AssignArgs(c1, system, row, args[..|args| - 1]), args[|args| - 1]);
    }
  }

  lemma SameArg(c1: Config, c2: Config, system: string, row: Action, arg: Arg)
    requires c2 == c1.(index := c2.index, typed := c2.typed)
    ensures AssignArg(c1, system, row, arg) == AssignArg(c2, system, row, arg)
  {
  }

  lemma SameFanOut(c1: Config, c2: Config, system: string, fn: AbiFn, tx: TxInfo, args: seq<Arg>)
    requires c2 == c1.(index := c2.index, typed := c2.typed) && TupledArrays(args)
    ensures FanOut(c1, system, fn, tx, args) == FanOut(c2, system, fn, tx, args)
  {
    var n := BatchLength(args);
    if n == 0 {
      SameRow(c1, c2, system, BlankRow(c1, system, fn, tx, 0), args);
    } else {
      BatchLengthMeaning(args, n);
      forall j | 0 <= j < n ensures FanOut(c1, system, fn, tx, args)[j] == FanOut(c2, system, fn, tx, args)[j] {
        SameRow(c1, c2, system, BlankRow(c1, system, fn, tx, j), Spread(args, j));
      }
    }
  }
}
