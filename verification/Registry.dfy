/** The registry of system addresses (ingester/system_registry.py) and its persisted copy, the
    system_address_snapshot table (ingester/storage.py): one join, kept in two places. */
module Registry {
  import opened Wrappers

  datatype SystemInfo = SystemInfo(
    systemId: string, address: string, abiName: string, firstSeen: Option<int>, lastSeen: Option<int>)

  // The address -> info part of a registry: its contents. The index by system id follows.
  type Contents = map<string, SystemInfo>

  function MinOpt(a: Option<int>, b: Option<int>): (r: Option<int>)
    ensures r.None? <==> a.None? && b.None?
    ensures r.Some? ==> (r == a || r == b)
                        && (a.Some? ==> r.value <= a.value) && (b.Some? ==> r.value <= b.value)
  {
    if a.None? then b else if b.None? then a else if b.value < a.value then b else a
  }

  function MaxOpt(a: Option<int>, b: Option<int>): (r: Option<int>)
    ensures r.None? <==> a.None? && b.None?
    ensures r.Some? ==> (r == a || r == b)
                        && (a.Some? ==> r.value >= a.value) && (b.Some? ==> r.value >= b.value)
  {
    if a.None? then b else if b.None? then a else if b.value > a.value then b else a
  }

  // ---------- The join of two registries ----------

  function Widen(existing: SystemInfo, info: SystemInfo): SystemInfo {
    existing.(firstSeen := MinOpt(existing.firstSeen, info.firstSeen),
              lastSeen := MaxOpt(existing.lastSeen, info.lastSeen))
  }

  function Merge(a: Contents, b: Contents): Contents {
    map k | k in a.Keys + b.Keys :: if k !in b then a[k] else if k !in a then b[k] else Widen(a[k], b[k])
  }

  // The two describe every common address alike, apart from where they saw it.
  ghost predicate Compatible(a: Contents, b: Contents) {
    forall k | k in a && k in b ::
      a[k].systemId == b[k].systemId && a[k].address == b[k].address && a[k].abiName == b[k].abiName
  }

  lemma MergeIdempotent(a: Contents)
    ensures Merge(a, a) == a
  {
  }

  lemma MergeAssociative(a: Contents, b: Contents, c: Contents)
    ensures Merge(Merge(a, b), c) == Merge(a, Merge(b, c))
  {
    var l, r := Merge(Merge(a, b), c), Merge(a, Merge(b, c));
    assert l.Keys == r.Keys;
    forall k | k in l ensures l[k] == r[k] {
      if k in a && k in b && k in c {
        assert l[k] == Widen(Widen(a[k], b[k]), c[k]) && r[k] == Widen(a[k], Widen(b[k], c[k]));
      }
    }
  }

  // Merging commutes exactly when no address is claimed by two systems.
  lemma MergeCommutesIff(a: Contents, b: Contents)
    ensures Merge(a, b) == Merge(b, a) <==> Compatible(a, b)
  {
    var l, r := Merge(a, b), Merge(b, a);
    assert l.Keys == r.Keys;
    if Compatible(a, b) {
      forall k | k in l ensures l[k] == r[k] {
        if k in a && k in b {
          assert Widen(a[k], b[k]) == Widen(b[k], a[k]);
        }
      }
    } else {
      var k :| k in a && k in b
               && !(a[k].systemId == b[k].systemId && a[k].address == b[k].address && a[k].abiName == b[k].abiName);
      assert l[k] != r[k];
    }
  }

  // ---------- The index by system id ----------

  // A registry entry never observed at a block ranks below every observed one.
  function Rank(info: SystemInfo): int {
    if info.lastSeen.Some? then info.lastSeen.value else -1
  }

  // No later than the other; an entry never observed counts as observed at block -1.
  predicate NoLater(a: Option<int>, b: Option<int>) {
    match (a, b)
    case (None, None) => true
    case (None, Some(y)) => y >= -1
    case (Some(x), None) => x <= -1
    case (Some(x), Some(y)) => x <= y
  }

  // Each system points to one of its entries, the last observed.
  ghost predicate IsIndex(c: Contents, index: map<string, SystemInfo>) {
    && (forall k | k in c :: c[k].systemId in index && NoLater(c[k].lastSeen, index[c[k].systemId].lastSeen))
    && (forall sid | sid in index :: index[sid].systemId == sid && exists k :: k in c && c[k] == index[sid])
  }

  // The entry of an address after info has been absorbed.
  function Absorbed(before: Contents, info: SystemInfo, k: string): SystemInfo {
    if k in before then Widen(before[k], info) else info
  }

  // What a key maps to when all of theirs but `todo` has been absorbed.
  predicate AbsorbedAt(before: Contents, theirs: Contents, todo: set<string>, after: Contents, k: string) {
    if k in theirs && k !in todo then k in after && after[k] == Absorbed(before, theirs[k], k)
    else if k in before then k in after && after[k] == before[k]
    else k !in after
  }

  lemma AbsorbedStep(before: Contents, theirs: Contents, todo: set<string>, was: Contents, addr: string,
                     rest: set<string>, after: Contents)
    requires addr in todo && addr in theirs
    requires forall k :: AbsorbedAt(before, theirs, todo, was, k)
    requires rest == todo - {addr} && after == was[addr := Absorbed(was, theirs[addr], addr)]
    ensures forall k :: AbsorbedAt(before, theirs, rest, after, k)
    ensures addr in was <==> addr in before
  {
    assert AbsorbedAt(before, theirs, todo, was, addr);
    forall k ensures AbsorbedAt(before, theirs, rest, after, k) {
      assert AbsorbedAt(before, theirs, todo, was, k);
    }
  }

  lemma AbsorbedAll(before: Contents, theirs: Contents, after: Contents)
    requires forall k :: AbsorbedAt(before, theirs, {}, after, k)
    ensures after == Merge(before, theirs)
  {
    var merged := Merge(before, theirs);
    forall k ensures k in after <==> k in merged {
      assert AbsorbedAt(before, theirs, {}, after, k);
    }
    forall k | k in merged ensures after[k] == merged[k] {
      assert AbsorbedAt(before, theirs, {}, after, k);
    }
    assert after.Keys == merged.Keys;
  }

  class SystemRegistry {
    var byAddress: Contents
    var bySystemId: map<string, SystemInfo>

    ghost predicate Valid()
      reads this
    {
      IsIndex(byAddress, bySystemId)
    }

    constructor (contents: Contents)
      ensures Valid() && byAddress == contents
    {
      byAddress := contents;
      bySystemId := map[];
      new;
      RebuildSystemIdIndex();
    }

    // The entries in whatever order the dictionary holds them.
    method RebuildSystemIdIndex()
      modifies this`bySystemId
      ensures Valid()
    {
      bySystemId := map[];
      var todo := byAddress.Keys;
      while todo != {}
        invariant todo <= byAddress.Keys
        invariant forall k | k in byAddress.Keys - todo ::
                    byAddress[k].systemId in bySystemId && Rank(byAddress[k]) <= Rank(bySystemId[byAddress[k].systemId])
        invariant forall sid | sid in bySystemId ::
                    bySystemId[sid].systemId == sid && exists k :: k in byAddress && byAddress[k] == bySystemId[sid]
        decreases |todo|
      {
        var k :| k in todo;
        var info := byAddress[k];
        if info.systemId !in bySystemId || Rank(info) > Rank(bySystemId[info.systemId]) {
          bySystemId := bySystemId[info.systemId := info];
        }
        todo := todo - {k};
      }
    }

    // One turn of the loop in extend.
    method AbsorbOne(addr: string, info: SystemInfo) returns (isNew: bool)
      modifies this`byAddress
      ensures byAddress == old(byAddress)[addr := Absorbed(old(byAddress), info, addr)]
      ensures isNew == (addr !in old(byAddress))
    {
      if addr !in byAddress {
        byAddress := byAddress[addr := info];
        return true;
      }
      var existing := byAddress[addr];
      var first := MinOpt(existing.firstSeen, info.firstSeen);
      var last := MaxOpt(existing.lastSeen, info.lastSeen);
      if first != existing.firstSeen || last != existing.lastSeen {
        byAddress := byAddress[addr := SystemInfo(existing.systemId, existing.address, existing.abiName, first, last)];
      }
      isNew := false;
    }

    // The dictionary part of extend.
    method Absorb(theirs: Contents) returns (newly: set<string>)
      modifies this`byAddress
      ensures byAddress == Merge(old(byAddress), theirs)
      ensures newly == theirs.Keys - old(byAddress).Keys
    {
      ghost var before := byAddress;
      newly := {};
      var todo := theirs.Keys;
      while todo != {}
        invariant todo <= theirs.Keys
        invariant forall k :: AbsorbedAt(before, theirs, todo, byAddress, k)
        invariant forall k :: k in newly <==> k in theirs && k !in todo && k !in before
        decreases |todo|
      {
        var addr :| addr in todo;
        ghost var was, left := byAddress, todo;
        todo := todo - {addr};
        var isNew := AbsorbOne(addr, theirs[addr]);
        AbsorbedStep(before, theirs, left, was, addr, todo, byAddress);
        if isNew {
          newly := newly + {addr};
        }
      }
      AbsorbedAll(before, theirs, byAddress);
    }

    method Extend(other: SystemRegistry) returns (newly: set<string>)
      modifies this
      ensures Valid() && byAddress == Merge(old(byAddress), old(other.byAddress))
      ensures newly == old(other.byAddress).Keys - old(byAddress).Keys
    {
      newly := Absorb(other.byAddress);
      RebuildSystemIdIndex();
    }
  }

  // ---------- Resolving at one height ----------

  // The contracts of the chain at some state: the address registered for a system id.
  type Lookup = string -> Option<string>

  // The entry of one system, unless it does not resolve or its address is already taken.
  function Resolved(lookup: Lookup, seen: Option<int>, sid: string, abi: string, sofar: Contents): Contents {
    var addr := lookup(sid);
    if addr.None? || addr.value in sofar then sofar
    else sofar[addr.value := SystemInfo(sid, addr.value, abi, seen, seen)]
  }

  function ResolveSystems(systems: seq<(string, string)>, knownAbis: set<string>, lookup: Lookup, seen: Option<int>): Contents {
    if systems == [] then map[]
    else
      var (sid, abi) := systems[|systems| - 1];
      var sofar := ResolveSystems(systems[..|systems| - 1], knownAbis, lookup, seen);
      if abi !in knownAbis then sofar else Resolved(lookup, seen, sid, abi, sofar)
  }

  // The system with a vendored ABI is at `addr`.
  ghost predicate ResolvesTo(systems: seq<(string, string)>, knownAbis: set<string>, lookup: Lookup, sid: string, abi: string, addr: string) {
    (sid, abi) in systems && abi in knownAbis && lookup(sid) == Some(addr)
  }

  lemma {:induction false} ResolveMeaning(systems: seq<(string, string)>, knownAbis: set<string>, lookup: Lookup, seen: Option<int>, addr: string)
    ensures var r := ResolveSystems(systems, knownAbis, lookup, seen);
            && (addr in r <==> exists sid, abi :: ResolvesTo(systems, knownAbis, lookup, sid, abi, addr))
            && (addr in r ==>
                  && r[addr].address == addr && r[addr].firstSeen == seen && r[addr].lastSeen == seen
                  && ResolvesTo(systems, knownAbis, lookup, r[addr].systemId, r[addr].abiName, addr))
  {
    if systems != [] {
      var init, last := systems[..|systems| - 1], systems[|systems| - 1];
      ResolveMeaning(init, knownAbis, lookup, seen, addr);
      assert systems == init + [last];
      assert forall sid, abi :: ResolvesTo(systems, knownAbis, lookup, sid, abi, addr) <==>
               ResolvesTo(init, knownAbis, lookup, sid, abi, addr)
               || ((sid, abi) == last && abi in knownAbis && lookup(sid) == Some(addr));
    }
  }

  ghost predicate FirstAt(systems: seq<(string, string)>, knownAbis: set<string>, lookup: Lookup, i: nat, addr: string) {
    && i < |systems| && systems[i].1 in knownAbis && lookup(systems[i].0) == Some(addr)
    && forall j | 0 <= j < i && systems[j].1 in knownAbis :: lookup(systems[j].0) != Some(addr)
  }

  // When several systems resolve to one address, the first of the table keeps it.
  lemma {:induction false} ResolveFirst(systems: seq<(string, string)>, knownAbis: set<string>, lookup: Lookup, seen: Option<int>,
                                        i: nat, addr: string)
    requires FirstAt(systems, knownAbis, lookup, i, addr)
    ensures var r := ResolveSystems(systems, knownAbis, lookup, seen);
            addr in r && r[addr] == SystemInfo(systems[i].0, addr, systems[i].1, seen, seen)
  {
    var init := systems[..|systems| - 1];
    if i < |init| {
      assert FirstAt(init, knownAbis, lookup, i, addr);
      ResolveFirst(init, knownAbis, lookup, seen, i, addr);
    } else {
      ResolveMeaning(init, knownAbis, lookup, seen, addr);
      assert forall j | 0 <= j < |init| :: init[j] == systems[j];
      assert forall sid, abi :: !ResolvesTo(init, knownAbis, lookup, sid, abi, addr);
    }
  }

  // ---------- Probing many heights ----------

  // The registry table and the chain it is resolved against, height by height.
  datatype Chain = Chain(systems: seq<(string, string)>, knownAbis: set<string>, at: int -> Lookup)

  function Snapshot(c: Chain, height: int): Contents {
    ResolveSystems(c.systems, c.knownAbis, c.at(height), Some(height))
  }

  // No address ever belongs to two systems, and each system has one ABI file.
  ghost predicate OneSystemPerAddress(c: Chain) {
    && (forall h1, h2, s1, a1, s2, a2, addr |
          ResolvesTo(c.systems, c.knownAbis, c.at(h1), s1, a1, addr) && ResolvesTo(c.systems, c.knownAbis, c.at(h2), s2, a2, addr)
          :: s1 == s2 && a1 == a2)
  }

  ghost predicate SeenAt(c: Chain, addr: string, height: int) {
    addr in Snapshot(c, height)
  }

  // The entry of the address as it resolved at the least of these heights, seen first there
  // and last at the greatest.
  ghost predicate IsHistory(c: Chain, heights: seq<int>, addr: string, info: SystemInfo) {
    && info.firstSeen.Some? && info.firstSeen.value in heights && SeenAt(c, addr, info.firstSeen.value)
    && info.lastSeen.Some? && info.lastSeen.value in heights && SeenAt(c, addr, info.lastSeen.value)
    && (forall h | h in heights && SeenAt(c, addr, h) :: info.firstSeen.value <= h <= info.lastSeen.value)
    && info == Snapshot(c, info.firstSeen.value)[addr].(lastSeen := info.lastSeen)
  }

  // The union of the snapshots at those heights.
  ghost predicate IsUnion(c: Chain, heights: seq<int>, r: Contents) {
    && (forall addr :: addr in r <==> exists h :: h in heights && SeenAt(c, addr, h))
    && (forall addr | addr in r :: IsHistory(c, heights, addr, r[addr]))
  }

  lemma SnapshotEntry(c: Chain, h: int, addr: string)
    requires SeenAt(c, addr, h)
    ensures var info := Snapshot(c, h)[addr];
            info.address == addr && info.firstSeen == Some(h) && info.lastSeen == Some(h)
            && ResolvesTo(c.systems, c.knownAbis, c.at(h), info.systemId, info.abiName, addr)
  {
    ResolveMeaning(c.systems, c.knownAbis, c.at(h), Some(h), addr);
  }

  lemma UnionOfOne(c: Chain, h: int)
    ensures IsUnion(c, [h], Snapshot(c, h))
  {
    forall addr | addr in Snapshot(c, h) ensures IsHistory(c, [h], addr, Snapshot(c, h)[addr]) {
      SnapshotEntry(c, h, addr);
    }
    forall addr ensures addr in Snapshot(c, h) <==> exists g :: g in [h] && SeenAt(c, addr, g) {
      assert addr in Snapshot(c, h) <==> h in [h] && SeenAt(c, addr, h);
    }
  }

  // Merging the snapshot of a later height gives the union over one more height.
  lemma UnionGrows(c: Chain, heights: seq<int>, r: Contents, h: int)
    requires IsUnion(c, heights, r) && forall g | g in heights :: g < h
    ensures IsUnion(c, heights + [h], Merge(r, Snapshot(c, h)))
  {
    var snap, all := Snapshot(c, h), heights + [h];
    var merged := Merge(r, snap);
    forall addr ensures addr in merged <==> exists g :: g in all && SeenAt(c, addr, g) {
      if g :| g in all && SeenAt(c, addr, g) {
        assert g in heights || g == h;
      }
      if addr in snap {
        assert h in all && SeenAt(c, addr, h);
      }
    }
    forall addr | addr in merged ensures IsHistory(c, all, addr, merged[addr]) {
      HistoryGrows(c, heights, r, h, addr);
    }
  }

  lemma HistoryGrows(c: Chain, heights: seq<int>, r: Contents, h: int, addr: string)
    requires IsUnion(c, heights, r) && (forall g | g in heights :: g < h) && addr in Merge(r, Snapshot(c, h))
    ensures IsHistory(c, heights + [h], addr, Merge(r, Snapshot(c, h))[addr])
  {
    if addr !in Snapshot(c, h) {
      HistoryUnseen(c, heights, h, addr, r[addr]);
    } else if addr !in r {
      assert forall g | g in heights :: !SeenAt(c, addr, g);
      HistoryNew(c, heights, h, addr);
    } else {
      HistoryJoins(c, heights, h, addr, r[addr]);
    }
  }

  lemma HistoryUnseen(c: Chain, heights: seq<int>, h: int, addr: string, info: SystemInfo)
    requires IsHistory(c, heights, addr, info) && !SeenAt(c, addr, h)
    ensures IsHistory(c, heights + [h], addr, info)
  {
  }

  lemma HistoryNew(c: Chain, heights: seq<int>, h: int, addr: string)
    requires SeenAt(c, addr, h) && forall g | g in heights :: !SeenAt(c, addr, g)
    ensures IsHistory(c, heights + [h], addr, Snapshot(c, h)[addr])
  {
    SnapshotEntry(c, h, addr);
  }

  lemma HistoryJoins(c: Chain, heights: seq<int>, h: int, addr: string, info: SystemInfo)
    requires IsHistory(c, heights, addr, info) && SeenAt(c, addr, h) && forall g | g in heights :: g < h
    ensures IsHistory(c, heights + [h], addr, Widen(info, Snapshot(c, h)[addr]))
  {
    SnapshotEntry(c, h, addr);
    var w := Widen(info, Snapshot(c, h)[addr]);
    assert w.firstSeen == info.firstSeen && w.lastSeen == Some(h);
  }

  // The entry of an address does not depend on where it was first seen when no address
  // changes owner.
  lemma OwnerEverywhere(c: Chain, heights: seq<int>, addr: string, info: SystemInfo, h: int)
    requires OneSystemPerAddress(c) && IsHistory(c, heights, addr, info) && SeenAt(c, addr, h)
    ensures info == Snapshot(c, h)[addr].(firstSeen := info.firstSeen, lastSeen := info.lastSeen)
  {
    SnapshotEntry(c, h, addr);
    SnapshotEntry(c, info.firstSeen.value, addr);
  }

  // sorted(set(heights))
  predicate Ascending(s: seq<int>) {
    forall i, j | 0 <= i < j < |s| :: s[i] < s[j]
  }

  function InsertHeight(s: seq<int>, h: int): (r: seq<int>)
    requires Ascending(s)
    ensures Ascending(r)
    ensures forall x :: x in r <==> x in s || x == h
  {
    if s == [] then [h]
    else if h < s[0] then [h] + s
    else if h == s[0] then s
    else
      var t := InsertHeight(s[1..], h);
      assert forall i | 0 <= i < |t| :: t[i] in t;
      assert forall x | x in s[1..] :: s[0] < x;
      [s[0]] + t
  }

  function SortedUnique(heights: seq<int>): (r: seq<int>)
    ensures Ascending(r)
    ensures forall x :: x in r <==> x in heights
  {
    if heights == [] then [] else InsertHeight(SortedUnique(heights[1..]), heights[0])
  }

  // What the loop over the heights builds.
  function MergeSnapshots(c: Chain, heights: seq<int>): Contents
    requires heights != []
  {
    var last := heights[|heights| - 1];
    if |heights| == 1 then Snapshot(c, last) else Merge(MergeSnapshots(c, heights[..|heights| - 1]), Snapshot(c, last))
  }

  lemma {:induction false} MergeSnapshotsUnion(c: Chain, heights: seq<int>)
    requires heights != [] && Ascending(heights)
    ensures IsUnion(c, heights, MergeSnapshots(c, heights))
  {
    var init, last := heights[..|heights| - 1], heights[|heights| - 1];
    assert heights == init + [last];
    if |heights| == 1 {
      UnionOfOne(c, last);
    } else {
      MergeSnapshotsUnion(c, init);
      UnionGrows(c, init, MergeSnapshots(c, init), last);
    }
  }

  // Order and repetition of the heights do not matter.
  lemma SameHeights(c: Chain, heights: seq<int>, heights': seq<int>, r: Contents)
    requires IsUnion(c, heights, r) && forall h :: h in heights <==> h in heights'
    ensures IsUnion(c, heights', r)
  {
    forall addr | addr in r ensures IsHistory(c, heights', addr, r[addr]) {
      assert IsHistory(c, heights, addr, r[addr]);
    }
  }

  lemma MergeSnapshotsStep(c: Chain, heights: seq<int>, i: nat)
    requires 0 < i < |heights|
    ensures MergeSnapshots(c, heights[..i + 1]) == Merge(MergeSnapshots(c, heights[..i]), Snapshot(c, heights[i]))
  {
    assert heights[..i + 1][..i] == heights[..i];
  }

  // The loop over the sorted heights.
  method ProbeSorted(c: Chain, heights: seq<int>) returns (combined: SystemRegistry)
    requires heights != []
    ensures fresh(combined) && combined.Valid() && combined.byAddress == MergeSnapshots(c, heights)
  {
    combined := new SystemRegistry(Snapshot(c, heights[0]));
    assert heights[..1] == [heights[0]];
    for i := 1 to |heights|
      invariant combined.Valid() && fresh(combined)
      invariant combined.byAddress == MergeSnapshots(c, heights[..i])
    {
      MergeSnapshotsStep(c, heights, i);
      var snap := new SystemRegistry(Snapshot(c, heights[i]));
      var newly := combined.Extend(snap);
    }
    assert heights[..|heights|] == heights;
  }

  // Probes the heights in ascending order, each once; an empty list is an error.
  method ProbeHistoricalSystems(c: Chain, heights: seq<int>) returns (r: Result<SystemRegistry, ()>)
    ensures r.Err? <==> heights == []
    ensures r.Ok? ==> r.value.Valid() && IsUnion(c, heights, r.value.byAddress)
  {
    if heights == [] {
      return Err(());
    }
    assert heights[0] in SortedUnique(heights);
    var combined := ProbeSorted(c, SortedUnique(heights));
    MergeSnapshotsUnion(c, SortedUnique(heights));
    SameHeights(c, SortedUnique(heights), heights, combined.byAddress);
    r := Ok(combined);
  }

  // The union is one value, the same for any list of the same heights.
  lemma UnionUnique(c: Chain, heights: seq<int>, heights': seq<int>, r1: Contents, r2: Contents)
    requires IsUnion(c, heights, r1) && IsUnion(c, heights', r2) && forall h :: h in heights <==> h in heights'
    ensures r1 == r2
  {
    SameHeights(c, heights', heights, r2);
    forall addr | addr in r1 ensures addr in r2 && r1[addr] == r2[addr] {
      var h :| h in heights && SeenAt(c, addr, h);
      assert IsHistory(c, heights, addr, r1[addr]) && IsHistory(c, heights, addr, r2[addr]);
    }
    assert r1.Keys == r2.Keys;
  }
}
