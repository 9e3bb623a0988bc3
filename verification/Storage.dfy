/** The three tables the ingester writes, as the database leaves them after every call
    (ingester/storage.py). Each method runs under the storage lock, so it is one step to
    every other thread; a statement may fail, and an executemany may fail after some rows. */
module Storage {
  import opened Wrappers
  import opened Records

  // INSERT ... ON CONFLICT DO NOTHING of keyed rows, in order.
  function InsertOrIgnore<K, V>(t: map<K, V>, rows: seq<(K, V)>): (r: map<K, V>)
    ensures forall k | k in t :: k in r && r[k] == t[k]
    ensures forall i | 0 <= i < |rows| :: rows[i].0 in r
    ensures forall k | k in r && k !in t :: (k, r[k]) in rows
  {
    if rows == [] then t
    else
      var prior, row := InsertOrIgnore(t, rows[..|rows| - 1]), rows[|rows| - 1];
      if row.0 in prior then prior else prior[row.0 := row.1]
  }

  function KeyedTxs(txs: seq<RawTx>): seq<(string, RawTx)> {
    seq(|txs|, i requires 0 <= i < |txs| => (txs[i].txHash, txs[i]))
  }

  function KeyedActions(actions: seq<Action>): seq<(string, Action)> {
    seq(|actions|, i requires 0 <= i < |actions| => (actions[i].Id(), actions[i]))
  }

  lemma InsertStep<K, V>(t: map<K, V>, rows: seq<(K, V)>, i: nat)
    requires i < |rows|
    ensures var prior := InsertOrIgnore(t, rows[..i]);
            InsertOrIgnore(t, rows[..i + 1]) == if rows[i].0 in prior then prior else prior[rows[i].0 := rows[i].1]
  {
    assert rows[..i + 1][..i] == rows[..i];
  }

  // The rows of a batch that reach the table when the call can write `budget` rows.
  function Written<T>(rows: seq<T>, budget: nat): seq<T> {
    if budget < |rows| then rows[..budget] else rows
  }

  datatype Db = Db(rawTx: map<string, RawTx>, kamiAction: map<string, Action>, cursor: Option<nat>)

  function PruneTxs(t: map<string, RawTx>, cutoff: int): map<string, RawTx> {
    map h | h in t && t[h].blockTimestamp >= cutoff :: t[h]
  }

  function PruneActions(t: map<string, Action>, cutoff: int): map<string, Action> {
    map id | id in t && t[id].blockTimestamp >= cutoff :: t[id]
  }

  function Prune(db: Db, cutoff: int): Db {
    Db(PruneTxs(db.rawTx, cutoff), PruneActions(db.kamiAction, cutoff), db.cursor)
  }

  // Where a prune transaction can raise.
  datatype PruneFault = NoFault | AtBegin | AfterActions | AtCommit

  class Store {
    var rawTx: map<string, RawTx>
    var kamiAction: map<string, Action>
    var cursor: Option<nat>

    constructor ()
      ensures Contents() == Db(map[], map[], None)
    {
      rawTx, kamiAction, cursor := map[], map[], None;
    }

    function Contents(): Db
      reads this
    {
      Db(rawTx, kamiAction, cursor)
    }

    method GetCursor() returns (c: Option<nat>)
      ensures c == cursor
    {
      c := cursor;
    }

    // Overwrites the cursor row unconditionally.
    method SetCursor(blockNumber: nat, fails: bool) returns (ok: bool)
      modifies this`cursor
      ensures ok == !fails
      ensures cursor == if ok then Some(blockNumber) else old(cursor)
    {
      if fails {
        return false;
      }
      cursor := Some(blockNumber);
      ok := true;
    }

    method UpsertRawTxs(txs: seq<RawTx>, budget: nat) returns (ok: bool)
      modifies this`rawTx
      ensures ok <==> |txs| <= budget
      ensures rawTx == InsertOrIgnore(old(rawTx), KeyedTxs(Written(txs, budget)))
    {
      ghost var before, rows := rawTx, KeyedTxs(txs);
      var i := 0;
      while i < |txs|
        invariant 0 <= i <= |txs| && i <= budget
        invariant rawTx == InsertOrIgnore(before, rows[..i])
      {
        if i == budget {
          assert KeyedTxs(txs[..budget]) == rows[..i];
          return false;
        }
        InsertStep(before, rows, i);
        if txs[i].txHash !in rawTx {
          rawTx := rawTx[txs[i].txHash := txs[i]];
        }
        i := i + 1;
      }
      assert rows[..i] == rows;
      ok := true;
    }

    method UpsertActions(actions: seq<Action>, budget: nat) returns (ok: bool)
      modifies this`kamiAction
      ensures ok <==> |actions| <= budget
      ensures kamiAction == InsertOrIgnore(old(kamiAction), KeyedActions(Written(actions, budget)))
    {
      ghost var before, rows := kamiAction, KeyedActions(actions);
      var i := 0;
      while i < |actions|
        invariant 0 <= i <= |actions| && i <= budget
        invariant kamiAction == InsertOrIgnore(before, rows[..i])
      {
        if i == budget {
          assert KeyedActions(actions[..budget]) == rows[..i];
          return false;
        }
        InsertStep(before, rows, i);
        if actions[i].Id() !in kamiAction {
          kamiAction := kamiAction[actions[i].Id() := actions[i]];
        }
        i := i + 1;
      }
      assert rows[..i] == rows;
      ok := true;
    }

    // Deletes old rows from both tables in one transaction: all of it, or none of it.
    method PruneOlderThan(cutoff: int, fault: PruneFault) returns (r: Result<(nat, nat), ()>)
      modifies this`rawTx, this`kamiAction
      ensures r.Ok? <==> fault.NoFault?
      ensures Contents() == if r.Ok? then Prune(old(Contents()), cutoff) else old(Contents())
      ensures r.Ok? ==> forall id :: id in kamiAction <==> id in old(kamiAction) && old(kamiAction)[id].blockTimestamp >= cutoff
      ensures r.Ok? ==> forall h :: h in rawTx <==> h in old(rawTx) && old(rawTx)[h].blockTimestamp >= cutoff
      ensures r.Ok? ==> r.value.0 == |old(kamiAction)| - |kamiAction|
                        && r.value.1 == |old(rawTx)| - |rawTx|
    {
      var savedTxs, savedActions := rawTx, kamiAction;
      if fault.AtBegin? {
        return Err(());
      }
      var nActions := |(set id | id in kamiAction && kamiAction[id].blockTimestamp < cutoff)|;
      PrunedActionCount(kamiAction, cutoff);
      kamiAction := PruneActions(kamiAction, cutoff);
      if fault.AfterActions? {
        rawTx, kamiAction := savedTxs, savedActions;
        return Err(());
      }
      var nRaw := |(set h | h in rawTx && rawTx[h].blockTimestamp < cutoff)|;
      PrunedTxCount(rawTx, cutoff);
      rawTx := PruneTxs(rawTx, cutoff);
      if fault.AtCommit? {
        rawTx, kamiAction := savedTxs, savedActions;
        return Err(());
      }
      r := Ok((nActions, nRaw));
    }
  }

  lemma PrunedActionCount(t: map<string, Action>, cutoff: int)
    ensures |(set id | id in t && t[id].blockTimestamp < cutoff)| == |t| - |PruneActions(t, cutoff)|
  {
    var gone := set id | id in t && t[id].blockTimestamp < cutoff;
    assert t.Keys == gone + PruneActions(t, cutoff).Keys;
  }

  lemma PrunedTxCount(t: map<string, RawTx>, cutoff: int)
    ensures |(set h | h in t && t[h].blockTimestamp < cutoff)| == |t| - |PruneTxs(t, cutoff)|
  {
    var gone := set h | h in t && t[h].blockTimestamp < cutoff;
    assert t.Keys == gone + PruneTxs(t, cutoff).Keys;
  }
}
