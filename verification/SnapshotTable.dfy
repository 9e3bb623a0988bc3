/** The system_address_snapshot table (ingester/storage.py) against the in-memory registry
    (ingester/system_registry.py): upserting and loading is merging. */
module SnapshotTable {
  import opened Wrappers
  import opened Registry

  datatype Row = Row(abiName: string, firstSeen: Option<int>, lastSeen: Option<int>)

  // Keyed by (system_id, address).
  type Table = map<(string, string), Row>

  // LEAST and GREATEST of two columns: NULL if either is.
  function Least(a: Option<int>, b: Option<int>): Option<int> {
    if a.None? || b.None? then None else if a.value <= b.value then a else b
  }

  function Greatest(a: Option<int>, b: Option<int>): Option<int> {
    if a.None? || b.None? then None else if a.value >= b.value then a else b
  }

  function Coalesce(a: Option<int>, b: Option<int>): Option<int> {
    if a.Some? then a else b
  }

  // LEAST(COALESCE(x, y), COALESCE(y, x)) is _min_opt(x, y), whichever is NULL.
  lemma LeastIsMinOpt(stored: Option<int>, incoming: Option<int>)
    ensures Least(Coalesce(stored, incoming), Coalesce(incoming, stored)) == MinOpt(stored, incoming)
    ensures Greatest(Coalesce(stored, incoming), Coalesce(incoming, stored)) == MaxOpt(stored, incoming)
  {
  }

  function KeyOf(info: SystemInfo): (string, string) {
    (info.systemId, info.address)
  }

  function InfoOf(key: (string, string), row: Row): SystemInfo {
    SystemInfo(key.0, key.1, row.abiName, row.firstSeen, row.lastSeen)
  }

  // INSERT ... ON CONFLICT DO UPDATE of one row; the ABI name is not updated.
  function UpsertRow(t: Table, info: SystemInfo): Table {
    var key := KeyOf(info);
    if key !in t then t[key := Row(info.abiName, info.firstSeen, info.lastSeen)]
    else
      var row := t[key];
      t[key := Row(row.abiName,
                   Least(Coalesce(row.firstSeen, info.firstSeen), Coalesce(info.firstSeen, row.firstSeen)),
                   Greatest(Coalesce(row.lastSeen, info.lastSeen), Coalesce(info.lastSeen, row.lastSeen)))]
  }

  function UpsertRows(t: Table, rows: seq<SystemInfo>): Table {
    if rows == [] then t else UpsertRow(UpsertRows(t, rows[..|rows| - 1]), rows[|rows| - 1])
  }

  class SnapshotStore {
    var rows: Table

    constructor ()
      ensures rows == map[]
    {
      rows := map[];
    }

    method UpsertSystemAddressSnapshot(infos: seq<SystemInfo>)
      modifies this
      ensures rows == UpsertRows(old(rows), infos)
    {
      for i := 0 to |infos|
        invariant rows == UpsertRows(old(rows), infos[..i])
      {
        assert infos[..i + 1][..i] == infos[..i];
        rows := UpsertRow(rows, infos[i]);
      }
      assert infos[..|infos|] == infos;
    }

    // load_system_address_snapshot, then from_snapshot_rows: rows come in any order, and a
    // later row replaces an earlier one of the same address.
    method LoadRegistry() returns (r: Contents)
      ensures IsLoad(rows, r)
    {
      r := map[];
      var todo := rows.Keys;
      while todo != {}
        invariant todo <= rows.Keys
        invariant forall key | key !in todo :: LoadsKey(rows, r, key)
        invariant forall a :: LoadsEntry(rows, r, a)
        decreases |todo|
      {
        var key :| key in todo;
        todo := todo - {key};
        ghost var before := r;
        r := r[key.1 := InfoOf(key, rows[key])];
        forall a ensures LoadsEntry(rows, r, a) {
          assert LoadsEntry(rows, before, a);
          assert KeyOf(InfoOf(key, rows[key])) == key;
        }
      }
    }
  }

  predicate LoadsKey(t: Table, r: Contents, key: (string, string)) {
    key in t ==> key.1 in r
  }

  predicate LoadsEntry(t: Table, r: Contents, a: string) {
    a in r ==> KeyOf(r[a]) in t && r[a].address == a && r[a] == InfoOf(KeyOf(r[a]), t[KeyOf(r[a])])
  }

  // A registry that loading the table may give.
  ghost predicate IsLoad(t: Table, r: Contents) {
    (forall key :: LoadsKey(t, r, key)) && (forall a :: LoadsEntry(t, r, a))
  }

  predicate Clash(t: Table, k1: (string, string), k2: (string, string)) {
    k1 in t && k2 in t && k1.1 == k2.1 && k1 != k2
  }

  // No address is stored under two systems.
  ghost predicate OneSystem(t: Table) {
    forall k1, k2 :: !Clash(t, k1, k2)
  }

  // Then loading has one outcome.
  lemma LoadUnique(t: Table, r1: Contents, r2: Contents)
    requires OneSystem(t) && IsLoad(t, r1) && IsLoad(t, r2)
    ensures r1 == r2
  {
    forall a ensures a in r1 <==> a in r2 {
      LoadHas(t, r1, r2, a);
      LoadHas(t, r2, r1, a);
    }
    forall a | a in r1 ensures r1[a] == r2[a] {
      LoadHas(t, r1, r2, a);
    }
  }

  lemma LoadHas(t: Table, r1: Contents, r2: Contents, a: string)
    requires OneSystem(t) && IsLoad(t, r1) && IsLoad(t, r2)
    ensures a in r1 ==> a in r2 && r1[a] == r2[a]
  {
    if a in r1 {
      assert LoadsEntry(t, r1, a) && LoadsKey(t, r2, KeyOf(r1[a])) && LoadsEntry(t, r2, a);
      assert !Clash(t, KeyOf(r1[a]), KeyOf(r2[a]));
    }
  }

  // `rows` are the entries of the registry, in some order.
  ghost predicate IsRows(r: Contents, rows: seq<SystemInfo>) {
    && (forall i | 0 <= i < |rows| :: rows[i].address in r && r[rows[i].address] == rows[i])
    && (forall a | a in r :: r[a] in rows)
    && (forall i, j | 0 <= i < j < |rows| :: rows[i].address != rows[j].address)
  }

  // Every entry is stored under its own address.
  ghost predicate Keyed(r: Contents) {
    forall a | a in r :: r[a].address == a
  }

  // No address belongs to one system here and to another there.
  ghost predicate SameSystems(r1: Contents, r2: Contents) {
    forall a | a in r1 && a in r2 :: r1[a].systemId == r2[a].systemId
  }

  // What a set of upserts leaves under a key.
  lemma {:induction false} UpsertRowsMeaning(t: Table, rows: seq<SystemInfo>, key: (string, string))
    requires forall i, j | 0 <= i < j < |rows| :: rows[i].address != rows[j].address
    ensures var t' := UpsertRows(t, rows);
            && (key in t' <==> key in t || exists i :: 0 <= i < |rows| && KeyOf(rows[i]) == key)
            && (forall i | 0 <= i < |rows| && KeyOf(rows[i]) == key ::
                  key in t' && InfoOf(key, t'[key]) == if key in t then Widen(InfoOf(key, t[key]), rows[i]) else rows[i])
            && (key in t && (forall i | 0 <= i < |rows| :: KeyOf(rows[i]) != key) ==> t'[key] == t[key])
  {
    if rows != [] {
      var init, last := rows[..|rows| - 1], rows[|rows| - 1];
      UpsertRowsMeaning(t, init, key);
      if KeyOf(last) == key {
        assert forall i | 0 <= i < |init| :: init[i] == rows[i] && KeyOf(init[i]) != key;
        var t0 := UpsertRows(t, init);
        if key in t {
          LeastIsMinOpt(t[key].firstSeen, last.firstSeen);
          LeastIsMinOpt(t[key].lastSeen, last.lastSeen);
        }
      } else {
        assert forall i | 0 <= i < |rows| && KeyOf(rows[i]) == key :: i < |init| && init[i] == rows[i];
        assert forall i | 0 <= i < |init| :: init[i] == rows[i];
      }
    }
  }

  // The upserted table keeps one system per address exactly when the two registries agree.
  lemma UpsertKeepsOneSystemIff(t: Table, r1: Contents, r2: Contents, rows: seq<SystemInfo>)
    requires OneSystem(t) && IsLoad(t, r1) && IsRows(r2, rows) && Keyed(r2)
    ensures OneSystem(UpsertRows(t, rows)) <==> SameSystems(r1, r2)
  {
    var t' := UpsertRows(t, rows);
    forall key ensures key in t' <==> key in t || exists i :: 0 <= i < |rows| && KeyOf(rows[i]) == key {
      UpsertRowsMeaning(t, rows, key);
    }
    if SameSystems(r1, r2) {
      forall k1, k2 ensures !Clash(t', k1, k2) {
        if k1 in t' && k2 in t' && k1.1 == k2.1 {
          KeyOfAddress(t, r1, r2, rows, k1);
          KeyOfAddress(t, r1, r2, rows, k2);
        }
      }
    } else {
      var a :| a in r1 && a in r2 && r1[a].systemId != r2[a].systemId;
      var i :| 0 <= i < |rows| && rows[i] == r2[a];
      assert LoadsEntry(t, r1, a) && rows[i].address in r2 && r2[rows[i].address] == rows[i];
      assert rows[i].address == a;
      assert Clash(t', KeyOf(r1[a]), KeyOf(rows[i]));
    }
  }

  // A key of the upserted table names the system its address has in either registry.
  lemma KeyOfAddress(t: Table, r1: Contents, r2: Contents, rows: seq<SystemInfo>, key: (string, string))
    requires OneSystem(t) && IsLoad(t, r1) && IsRows(r2, rows) && SameSystems(r1, r2)
    requires key in t || exists i :: 0 <= i < |rows| && KeyOf(rows[i]) == key
    ensures key.1 in r1 ==> r1[key.1].systemId == key.0
    ensures key.1 in r2 ==> r2[key.1].systemId == key.0
    ensures key.1 in r1 || key.1 in r2
  {
    assert LoadsKey(t, r1, key) && LoadsEntry(t, r1, key.1);
    if key in t {
      assert !Clash(t, key, KeyOf(r1[key.1]));
    } else {
      var i :| 0 <= i < |rows| && KeyOf(rows[i]) == key;
      assert r2[key.1] == rows[i];
    }
  }

  // Persisting then loading is merging in memory: for registries that agree on who owns an
  // address, and whatever the order of the rows on either side.
  lemma UpsertLoadIsMerge(t: Table, r1: Contents, r2: Contents, rows: seq<SystemInfo>, r: Contents)
    requires OneSystem(t) && IsLoad(t, r1) && IsRows(r2, rows) && Keyed(r2) && SameSystems(r1, r2)
    requires IsLoad(UpsertRows(t, rows), r)
    ensures r == Merge(r1, r2)
  {
    var t' := UpsertRows(t, rows);
    forall a ensures a in r <==> a in r1 || a in r2 {
      MergedKeys(t, r1, r2, rows, r, a);
    }
    forall a | a in r ensures r[a] == Merge(r1, r2)[a] {
      MergedEntry(t, r1, r2, rows, r, a);
    }
    assert r.Keys == Merge(r1, r2).Keys;
  }

  lemma MergedKeys(t: Table, r1: Contents, r2: Contents, rows: seq<SystemInfo>, r: Contents, a: string)
    requires OneSystem(t) && IsLoad(t, r1) && IsRows(r2, rows) && Keyed(r2) && SameSystems(r1, r2)
    requires IsLoad(UpsertRows(t, rows), r)
    ensures a in r <==> a in r1 || a in r2
  {
    var t' := UpsertRows(t, rows);
    if a in r1 {
      assert LoadsEntry(t, r1, a) && LoadsKey(t', r, KeyOf(r1[a]));
      UpsertRowsMeaning(t, rows, KeyOf(r1[a]));
    }
    if a in r2 {
      var i :| 0 <= i < |rows| && rows[i] == r2[a];
      UpsertRowsMeaning(t, rows, KeyOf(r2[a]));
      assert LoadsKey(t', r, KeyOf(r2[a]));
    }
    if a in r {
      assert LoadsEntry(t', r, a);
      UpsertRowsMeaning(t, rows, KeyOf(r[a]));
      KeyOfAddress(t, r1, r2, rows, KeyOf(r[a]));
    }
  }

  lemma MergedEntry(t: Table, r1: Contents, r2: Contents, rows: seq<SystemInfo>, r: Contents, a: string)
    requires OneSystem(t) && IsLoad(t, r1) && IsRows(r2, rows) && Keyed(r2) && SameSystems(r1, r2)
    requires IsLoad(UpsertRows(t, rows), r) && a in r && (a in r1 || a in r2)
    ensures r[a] == Merge(r1, r2)[a]
  {
    var key := KeyOf(r[a]);
    assert LoadsEntry(UpsertRows(t, rows), r, a) && LoadsEntry(t, r1, a) && LoadsKey(t, r1, key);
    UpsertRowsMeaning(t, rows, key);
    KeyOfAddress(t, r1, r2, rows, key);
    if a in r1 {
      assert KeyOf(r1[a]) == key && key in t;
    }
    if a in r2 {
      var i :| 0 <= i < |rows| && rows[i] == r2[a];
      assert KeyOf(rows[i]) == key;
    } else {
      assert forall i | 0 <= i < |rows| :: KeyOf(rows[i]) != key;
    }
  }
}
