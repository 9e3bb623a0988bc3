/** Kami ids are written the way str() writes a number, in every database the service can
    reach, as long as the ABI declares kami arguments as unsigned integers. */
module CanonicalKamis {
  import opened Wrappers
  import opened Decimal
  import opened Records
  import opened Decoder
  import opened Storage
  import opened HarvestResolver
  import opened Migration002
  import opened Ingest
  import opened Pipeline
  import opened Convergence

  // ---------- What the ABI promises ----------

  predicate IsUnsigned(typ: string) {
    |typ| >= 4 && typ[..4] == "uint"
  }

  // An unsigned integer, or the tuple of them that an array type gives.
  predicate IsNumbers(v: Val) {
    v.VNat? || (v.VList? && forall i | 0 <= i < |v.items| :: v.items[i].VNat?)
  }

  // The ABI library returns integers for unsigned types.
  ghost predicate AbiTyped(decode: AbiDecoder) {
    forall types, payload, i: nat | decode(types, payload).Some? && i < |types| && i < |decode(types, payload).value| ::
      IsUnsigned(types[i]) ==> IsNumbers(decode(types, payload).value[i])
  }

  // Arguments that name a kami are declared as unsigned integers.
  predicate KamiInputs(cfg: Config, system: string, inputs: seq<AbiInput>) {
    forall i | 0 <= i < |inputs| :: cfg.rule(system, inputs[i].name) == Some(ToColumn(KamiId)) ==> IsUnsigned(inputs[i].typ)
  }

  // The whole configuration does so, and str() of a tuple is not a number: it starts with a
  // parenthesis.
  ghost predicate NumericKamis(cfg: Config) {
    && AbiTyped(cfg.abiDecode)
    && (forall system, selector | system in cfg.index && selector in cfg.index[system] ::
          KamiInputs(cfg, system, cfg.index[system][selector].inputs))
    && (forall system | system in cfg.typed :: KamiInputs(cfg, system, cfg.typed[system].inputs))
    && (forall v: Val | v.VList? :: ParseDecimal(cfg.show(v)).None?)
  }

  // ---------- Decoded rows ----------

  predicate Plain(a: Action) {
    a.kamiId.Some? ==> Canonical(a.kamiId.value)
  }

  predicate PlainRows(rows: seq<Action>) {
    forall i | 0 <= i < |rows| :: Plain(rows[i])
  }

  // Whatever the argument names, a kami column filled from it is plain.
  predicate PlainArgs(cfg: Config, system: string, args: seq<Arg>) {
    forall i | 0 <= i < |args| ::
      cfg.rule(system, args[i].name) == Some(ToColumn(KamiId)) ==> IsNumbers(args[i].val) || args[i].val.VBytes?
  }

  lemma NumberIsCanonical(cfg: Config, v: Val)
    requires (IsNumbers(v) || v.VBytes?) && (v.VList? ==> ParseDecimal(cfg.show(v)).None?)
    ensures Canonical(CoerceDecimal(cfg, v))
  {
    match v
    case VNat(n) => DecimalRoundTrip(n);
    case VBytes(b) => DecimalRoundTrip(FromBigEndian(b));
    case _ =>
  }

  lemma AssignArgPlain(cfg: Config, system: string, row: Action, arg: Arg)
    requires Plain(row) && NumericKamis(cfg)
    requires cfg.rule(system, arg.name) == Some(ToColumn(KamiId)) ==> IsNumbers(arg.val) || arg.val.VBytes?
    ensures Plain(AssignArg(cfg, system, row, arg))
  {
    if cfg.rule(system, arg.name) == Some(ToColumn(KamiId)) {
      NumberIsCanonical(cfg, arg.val);
    }
  }

  lemma {:induction false} AssignArgsPlain(cfg: Config, system: string, row: Action, args: seq<Arg>)
    requires NumericKamis(cfg) && PlainArgs(cfg, system, args) && Plain(row)
    ensures Plain(AssignArgs(cfg, system, row, args))
  {
    hide AssignArg, Plain, NumericKamis;
    if args != [] {
      var init, last := args[..|args| - 1], args[|args| - 1];
      AssignArgsPlain(cfg, system, row, init);
      AssignArgPlain(cfg, system, AssignArgs(cfg, system, row, init), last);
    }
  }

  lemma RowPlain(cfg: Config, system: string, fn: AbiFn, tx: TxInfo, args: seq<Arg>, sub: nat)
    requires NumericKamis(cfg) && PlainArgs(cfg, system, args)
    ensures Plain(RowOf(cfg, system, fn, tx, args, sub))
  {
    AssignArgsPlain(cfg, system, BlankRow(cfg, system, fn, tx, sub), args);
  }

  lemma FanOutPlain(cfg: Config, system: string, fn: AbiFn, tx: TxInfo, args: seq<Arg>)
    requires NumericKamis(cfg) && TupledArrays(args) && PlainArgs(cfg, system, args)
    ensures PlainRows(FanOut(cfg, system, fn, tx, args))
  {
    var n := BatchLength(args);
    if n == 0 {
      RowPlain(cfg, system, fn, tx, args, 0);
    } else {
      BatchLengthMeaning(args, n);
      forall j | 0 <= j < n ensures Plain(RowOf(cfg, system, fn, tx, Spread(args, j), j)) {
        RowPlain(cfg, system, fn, tx, Spread(args, j), j);
      }
    }
  }

  lemma InputsPlain(cfg: Config, system: string, inputs: seq<AbiInput>, payload: seq<byte>)
    requires NumericKamis(cfg) && KamiInputs(cfg, system, inputs)
    ensures var args := DecodeInputs(cfg, inputs, payload); args.Some? ==> PlainArgs(cfg, system, args.value)
  {
    var types := seq(|inputs|, i requires 0 <= i < |inputs| => inputs[i].typ);
    var vals := cfg.abiDecode(types, payload);
    var args := DecodeInputs(cfg, inputs, payload);
    if args.Some? {
      forall i | 0 <= i < |inputs| && cfg.rule(system, inputs[i].name) == Some(ToColumn(KamiId))
        ensures IsNumbers(vals.value[i])
      {
        assert IsUnsigned(types[i]);
      }
    }
  }

  // Every decoded row names its kami plainly, through execute(bytes) as well.
  lemma DecodedPlain(cfg: Config, to: string, calldata: seq<byte>, tx: TxInfo)
    requires NumericKamis(cfg)
    ensures PlainRows(DecodeTx(cfg, to, calldata, tx).actions)
  {
    if DecodeTx(cfg, to, calldata, tx).status.Decoded? {
      var system := cfg.systemOf[to];
      var fn := cfg.index[system][calldata[..4]];
      ArgsPlain(cfg, system, fn, calldata[4..]);
      FanOutPlain(cfg, system, fn, tx, DecodeArgs(cfg, system, fn, calldata[4..]).value);
    }
  }

  lemma ArgsPlain(cfg: Config, system: string, fn: AbiFn, payload: seq<byte>)
    requires NumericKamis(cfg) && KamiInputs(cfg, system, fn.inputs)
    ensures var args := DecodeArgs(cfg, system, fn, payload); args.Some? ==> PlainArgs(cfg, system, args.value)
  {
    InputsPlain(cfg, system, fn.inputs, payload);
    var outer := cfg.abiDecode(["bytes"], payload);
    if system in cfg.typed && outer.Some? && |outer.value| > 0 && outer.value[0].VBytes? {
      InputsPlain(cfg, system, cfg.typed[system].inputs, outer.value[0].bytes);
    }
  }

  // ---------- Stored rows ----------

  lemma {:induction false} ScanPlain(cfg: Config, n: nat, b: Block, fetches: seq<Option<Receipt>>, before: Option<Receipt>, i: nat)
    requires NumericKamis(cfg) && |fetches| == |b.txs| && i <= |b.txs|
    ensures var p := ScanTxs(cfg, n, b, fetches, before, i); p.Some? ==> PlainRows(p.value.batch.actions)
  {
    hide NumericKamis;
    if i > 0 {
      ScanPlain(cfg, n, b, fetches, before, i - 1);
      var tx := b.txs[i - 1];
      if Matched(cfg, tx) {
        DecodedPlain(cfg, tx.to.address, tx.input, InfoOf(n, b.timestamp, tx, StatusOf(fetches[i - 1])));
      }
    }
  }

  ghost predicate PlainMap(kamis: Option<KamiMap>) {
    kamis.Some? ==> forall hid | hid in kamis.value :: Canonical(kamis.value[hid])
  }

  lemma {:induction false} ObservePlain(h: HarvestHash, m: KamiMap, rows: seq<Action>)
    requires PlainMap(Some(m)) && PlainRows(rows)
    ensures PlainMap(Some(Observe(h, m, rows)))
  {
    if rows != [] {
      ObservePlain(h, m, rows[..|rows| - 1]);
      assert Plain(rows[|rows| - 1]);
    }
  }

  ghost predicate PlainPoller(p: Poller) {
    match p
    case Down => true
    case Idle(_, kamis) => PlainMap(kamis)
    case Scanning(_, _, _, kamis, _, pc) =>
      PlainMap(kamis) && (pc.WritingTxs? || pc.WritingActions? ==> PlainRows(pc.b.actions))
  }

  ghost predicate PlainState(s: State) {
    CanonicalIds(s.db.kamiAction) && PlainPoller(s.poller)
  }

  lemma FetchPlain(w: World, s: State, fetches: seq<Option<Receipt>>)
    requires NumericKamis(w.cfg) && PlainState(s)
    requires s.poller.Scanning? && s.poller.pc.Fetching? && Honest(w.chain(s.poller.at), fetches)
    ensures PlainState(FetchStep(w, s, fetches))
  {
    var p, b := s.poller, w.chain(s.poller.at);
    ScanPlain(w.cfg, p.at, b, fetches, p.receipt, |b.txs|);
    var progress := ScanTxs(w.cfg, p.at, b, fetches, p.receipt, |b.txs|);
    if progress.Some? {
      var rows := progress.value.batch.actions;
      if p.kamis.Some? {
        ObservePlain(w.cfg.hash, p.kamis.value, rows);
        StitchPlain(Observe(w.cfg.hash, p.kamis.value, rows), rows);
      }
    }
  }

  lemma StitchPlain(m: KamiMap, rows: seq<Action>)
    requires PlainMap(Some(m)) && PlainRows(rows)
    ensures PlainRows(Stitch(m, rows))
  {
    forall i | 0 <= i < |rows| ensures Plain(StitchRow(m, rows[i])) {
      assert Plain(rows[i]);
    }
  }

  lemma WritePlain(t: map<string, Action>, rows: seq<Action>, budget: nat)
    requires CanonicalIds(t) && PlainRows(rows)
    ensures CanonicalIds(InsertOrIgnore(t, KeyedActions(Written(rows, budget))))
  {
    var keyed := KeyedActions(Written(rows, budget));
    var r := InsertOrIgnore(t, keyed);
    forall id | id in r && r[id].kamiId.Some? ensures Canonical(r[id].kamiId.value) {
      if id !in t {
        var i :| 0 <= i < |keyed| && keyed[i] == (id, r[id]);
        assert Plain(rows[i]);
      }
    }
  }

  lemma StepPlain(w: World, s: State, e: Event)
    requires NumericKamis(w.cfg) && PlainState(s) && Step(w, s, e).Some?
    ensures PlainState(Step(w, s, e).value)
  {
    hide NumericKamis, FetchStep;
    match e
    case Fetch(fetches) => FetchPlain(w, s, fetches);
    case WriteActions(budget) => WritePlain(s.db.kamiAction, s.poller.pc.b.actions, budget);
    case _ =>
  }

  // In every reachable database every kami id that is a number is written as str() writes it.
  lemma {:induction false} ReachableCanonical(w: World, es: seq<Event>)
    requires NumericKamis(w.cfg) && Exec(w, INIT, es).Some?
    ensures PlainState(Exec(w, INIT, es).value)
  {
    if es != [] {
      ReachableCanonical(w, es[..|es| - 1]);
      StepPlain(w, Exec(w, INIT, es[..|es| - 1]).value, es[|es| - 1]);
    }
  }

  // So on any database the service can reach, migration 002 and a resolver bootstrapped from
  // it agree on every row, to the letter.
  lemma OfflineIsOnlineOnRuns(w: World, es: seq<Event>, t': Table, m: KamiMap)
    requires ValidWorld(w) && NumericKamis(w.cfg) && Exec(w, INIT, es).Some?
    requires Stitched(w.cfg.hash, Exec(w, INIT, es).value.db.kamiAction, t')
    requires IsBootstrap(w.cfg.hash, Exec(w, INIT, es).value.db.kamiAction, m)
    ensures t' == StitchTable(m, Exec(w, INIT, es).value.db.kamiAction)
  {
    var t := Exec(w, INIT, es).value.db.kamiAction;
    ReachableCanonical(w, es);
    ReachablePairs(w, es);
    CanonicalIsOneSpelling(w.cfg.hash, t);
    OfflineIsOnline(w.cfg.hash, t, t', m);
  }

  // ---------- Convergence to the letter ----------

  // The same row, except that the kami id of a stop or collect may be missing from one.
  predicate SameOrUnstitched(a: Action, b: Action) {
    && a.(kamiId := b.kamiId) == b
    && (a.kamiId != b.kamiId ==> a.Stitchable() && (a.kamiId.None? || b.kamiId.None?))
  }

  lemma SameSpelling(h: HarvestHash, a: Action, b: Action)
    requires Injective(h) && SameUpToStitch(h, a, b) && Plain(a) && Plain(b)
    ensures SameOrUnstitched(a, b)
  {
    if a.kamiId != b.kamiId && a.kamiId.Some? && b.kamiId.Some? {
      PairsUnique(h, a.kamiId.value, b.kamiId.value, a.harvestId.value);
      assert false;
    }
  }

  // Two undisturbed runs hold the same kami ids for all blocks that both have committed: the
  // same string in both, or NULL in one.
  lemma ConvergesToTheLetter(w: World, es1: seq<Event>, es2: seq<Event>, s1: State, s2: State, first: nat, end: nat)
    requires ValidWorld(w) && NumericKamis(w.cfg)
    requires Exec(w, INIT, es1) == Some(s1) && Exec(w, INIT, es2) == Some(s2) && BothCommitted(s1, s2, first, end)
    ensures TxsBetween(s1.db.rawTx, first, end) == TxsBetween(s2.db.rawTx, first, end)
    ensures var t1, t2 := ActionsBetween(s1.db.kamiAction, first, end), ActionsBetween(s2.db.kamiAction, first, end);
            t1.Keys == t2.Keys && forall id | id in t1 :: SameOrUnstitched(t1[id], t2[id])
  {
    Converges(w, es1, es2, s1, s2, first, end);
    ReachableCanonical(w, es1);
    ReachableCanonical(w, es2);
    var t1, t2 := ActionsBetween(s1.db.kamiAction, first, end), ActionsBetween(s2.db.kamiAction, first, end);
    forall id | id in t1 ensures SameOrUnstitched(t1[id], t2[id]) {
      assert SameUpToStitch(w.cfg.hash, t1[id], t2[id]);
      SameSpelling(w.cfg.hash, t1[id], t2[id]);
    }
  }
}
