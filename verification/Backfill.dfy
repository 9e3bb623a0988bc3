/** Backfill (ingester/backfill.py): the search for the earliest block the node retains, and
    the loop that walks a range of blocks in chunks, surviving failures. */
module Backfill {
  import opened Wrappers

  // ---------- Retention search ----------

  function Pow2(k: nat): nat {
    if k == 0 then 1 else 2 * Pow2(k - 1)
  }

  function CeilLog2(n: nat): nat {
    if n <= 1 then 0 else 1 + CeilLog2((n + 1) / 2)
  }

  // CeilLog2(n) is the least exponent that reaches n.
  lemma {:induction false} CeilLog2Meaning(n: nat)
    requires n > 0
    ensures n <= Pow2(CeilLog2(n))
    ensures CeilLog2(n) > 0 ==> Pow2(CeilLog2(n) - 1) < n
  {
    if n > 1 {
      CeilLog2Meaning((n + 1) / 2);
    }
  }

  lemma {:induction false} CeilLog2Monotone(m: nat, n: nat)
    requires m <= n
    ensures CeilLog2(m) <= CeilLog2(n)
  {
    if m > 1 {
      CeilLog2Monotone((m + 1) / 2, (n + 1) / 2);
    }
  }

  ghost predicate UpwardClosed(exists_: int -> bool, floor: int, head: int) {
    forall m, n | floor <= m <= n <= head && exists_(m) :: exists_(n)
  }

  // For any answers of the node: the result exists or is head, and the block below it does
  // not. If the retained blocks are an upper end of the range that holds head, the result is
  // the earliest of them. The node is asked at most 1 + ceil(log2(head - floor)) times.
  method EarliestRetainedBlock(exists_: int -> bool, head: int, floor: int) returns (h: int, ghost probes: nat)
    ensures exists_(floor) ==> h == floor
    ensures !exists_(floor) && head <= floor ==> h == head
    ensures !exists_(floor) && head > floor ==> floor < h <= head && !exists_(h - 1) && (exists_(h) || h == head)
    ensures head > floor && UpwardClosed(exists_, floor, head) && exists_(head) ==>
              exists_(h) && forall n | floor <= n < h :: !exists_(n)
    ensures probes <= 1 + CeilLog2(if head > floor then head - floor else 0)
  {
    probes := 1;
    if exists_(floor) {
      return floor, probes;
    }
    var lo, hi := floor, head;
    while hi - lo > 1
      invariant head <= floor ==> lo == floor && hi == head && probes == 1
      invariant head > floor ==> floor <= lo < hi <= head && !exists_(lo) && (exists_(hi) || hi == head)
      invariant head > floor ==> probes + CeilLog2(hi - lo) <= 1 + CeilLog2(head - floor)
    {
      var mid := (lo + hi) / 2;
      CeilLog2Monotone(mid - lo, (hi - lo + 1) / 2);
      CeilLog2Monotone(hi - mid, (hi - lo + 1) / 2);
      probes := probes + 1;
      if exists_(mid) {
        hi := mid;
      } else {
        lo := mid;
      }
    }
    h := hi;
  }

  // ---------- The chunk loop ----------

  // One call of process_block_range: it succeeds, or it raises after committing the cursor
  // of its first k blocks.
  datatype Attempt = Succeeds | FailsAfter(k: nat)

  // The loop's `cur`, the cursor row, and the blocks scanned and committed so far.
  datatype Walk = Walk(cur: nat, cursor: Option<nat>, scanned: set<nat>)

  predicate AtLeast(n: nat, lo: nat) {
    n >= lo
  }

  function Range(lo: nat, hi: nat): set<nat> {
    set n: nat | n < hi && AtLeast(n, lo)
  }

  function Min(a: nat, b: nat): nat {
    if a <= b then a else b
  }

  // Commits the first k blocks from cur on.
  function Commit(s: Walk, k: nat): Walk {
    s.(cursor := if k == 0 then s.cursor else Some(s.cur + k - 1), scanned := s.scanned + Range(s.cur, s.cur + k))
  }

  // After a failure `cur` trusts the cursor row if that is further on.
  function Resume(cur: nat, cursor: Option<nat>): nat {
    if cursor.Some? && cursor.value + 1 > cur then cursor.value + 1 else cur
  }

  function Refresh(s: Walk): Walk {
    s.(cur := Resume(s.cur, s.cursor))
  }

  function StepWalk(head: nat, chunk: nat, s: Walk, a: Attempt): Walk
    requires chunk > 0
  {
    if s.cur > head then s
    else
      var size := Min(head, s.cur + chunk - 1) + 1 - s.cur;
      match a
      case Succeeds => Commit(s, size).(cur := s.cur + size)
      case FailsAfter(k) => Refresh(Commit(s, Min(k, size)))
  }

  function Walks(head: nat, chunk: nat, s: Walk, attempts: seq<Attempt>): Walk
    requires chunk > 0
    decreases |attempts|
  {
    if attempts == [] then s else Walks(head, chunk, StepWalk(head, chunk, s, attempts[0]), attempts[1..])
  }

  // The body of the try block: chunk after chunk until the end or the first failure.
  method WalkChunks(cur0: nat, dbCur0: Option<nat>, head: nat, chunk: nat, attempts: seq<Attempt>, ghost s0: Walk)
    returns (cur: nat, dbCur: Option<nat>, rest: seq<Attempt>, failed: bool, ghost s: Walk)
    requires chunk > 0 && cur0 == s0.cur && dbCur0 == s0.cursor
    ensures |rest| <= |attempts| && (cur0 <= head && attempts != [] ==> |rest| < |attempts|)
    ensures Walks(head, chunk, s, rest) == Walks(head, chunk, s0, attempts) && dbCur == s.cursor
    ensures if failed then s.cur == Resume(cur, dbCur) else cur == s.cur && (cur > head || rest == [])
  {
    cur, dbCur, rest, failed, s := cur0, dbCur0, attempts, false, s0;
    while cur <= head && rest != []
      invariant |rest| <= |attempts| && (|rest| < |attempts| || cur == cur0)
      invariant Walks(head, chunk, s, rest) == Walks(head, chunk, s0, attempts) && dbCur == s.cursor && cur == s.cur
      decreases |rest|
    {
      var chunkEnd, attempt := Min(head, cur + chunk - 1), rest[0];
      StepWalkCursor(head, chunk, s, attempt);
      s, rest := StepWalk(head, chunk, s, attempt), rest[1..];
      match attempt
      case Succeeds =>
        dbCur := Some(chunkEnd);
        cur := chunkEnd + 1;
      case FailsAfter(k) =>
        var n := Min(k, chunkEnd + 1 - cur);
        if n > 0 {
          dbCur := Some(cur + n - 1);
        }
        return cur, dbCur, rest, true, s;
    }
  }

  // The survival loop around it, for as long as the given attempts last.
  method WalkBlocks(cursor: Option<nat>, start: nat, head: nat, chunk: nat, attempts: seq<Attempt>)
    returns (cur: nat, dbCur: Option<nat>, ghost s: Walk)
    requires chunk > 0
    ensures s == Walks(head, chunk, Walk(start, cursor, {}), attempts)
    ensures cur == Walks(head, chunk, Walk(start, cursor, {}), attempts).cur
    ensures dbCur == Walks(head, chunk, Walk(start, cursor, {}), attempts).cursor
  {
    cur, dbCur := start, cursor;
    s := Walk(start, cursor, {});
    ghost var s0 := s;
    var rest := attempts;
    while cur <= head && rest != []
      invariant Walks(head, chunk, s, rest) == Walks(head, chunk, s0, attempts) && cur == s.cur && dbCur == s.cursor
      decreases |rest|
    {
      var failed;
      cur, dbCur, rest, failed, s := WalkChunks(cur, dbCur, head, chunk, rest, s);
      if failed && dbCur.Some? && dbCur.value + 1 > cur {
        cur := dbCur.value + 1;
      }
    }
    WalksDone(head, chunk, s, rest);
  }

  lemma {:induction false} WalksDone(head: nat, chunk: nat, s: Walk, attempts: seq<Attempt>)
    requires chunk > 0 && (attempts == [] || s.cur > head)
    ensures Walks(head, chunk, s, attempts) == s
  {
    if attempts != [] {
      WalksDone(head, chunk, s, attempts[1..]);
    }
  }

  lemma StepWalkCursor(head: nat, chunk: nat, s: Walk, a: Attempt)
    requires chunk > 0 && s.cur <= head
    ensures var r, chunkEnd := StepWalk(head, chunk, s, a), Min(head, s.cur + chunk - 1);
            match a
            case Succeeds => r.cur == chunkEnd + 1 && r.cursor == Some(chunkEnd)
            case FailsAfter(k) =>
              var n := Min(k, chunkEnd + 1 - s.cur);
              r.cursor == (if n > 0 then Some(s.cur + n - 1) else s.cursor) && r.cur == Resume(s.cur, r.cursor)
  {
  }

  // One attempt, block by block: it scans from cur on, at most `chunk` blocks and none beyond
  // the head; the cursor is the last block it commits. A success moves past the chunk, a
  // failure to one past the cursor unless that lies behind.
  lemma AttemptMeaning(head: nat, chunk: nat, s: Walk, a: Attempt, n: nat)
    requires chunk > 0 && s.cur <= head
    ensures var r, size := StepWalk(head, chunk, s, a), if head - s.cur + 1 < chunk then head - s.cur + 1 else chunk;
            var done := if a.Succeeds? || a.k > size then size else a.k;
            && (n in r.scanned <==> n in s.scanned || s.cur <= n < s.cur + done)
            && r.cursor == (if done == 0 then s.cursor else Some(s.cur + done - 1))
            && (a.Succeeds? ==> r.cur == s.cur + size)
            && (a.FailsAfter? ==> r.cur >= s.cur && (r.cursor.Some? ==> r.cur > r.cursor.value)
                                  && (r.cur == s.cur || r.cursor == Some(r.cur - 1)))
  {
  }

  // ---------- Coverage ----------

  // Nothing below cur is missing, nor below the cursor once it has reached start.
  ghost predicate NoGap(start: nat, s: Walk) {
    && start <= s.cur
    && Range(start, s.cur) <= s.scanned
    && (s.cursor.Some? && s.cursor.value >= start ==> Range(start, s.cursor.value + 1) <= s.scanned)
  }

  lemma {:induction false} CoversAll(start: nat, head: nat, chunk: nat, s: Walk, attempts: seq<Attempt>)
    requires chunk > 0 && NoGap(start, s)
    ensures NoGap(start, Walks(head, chunk, s, attempts))
    decreases |attempts|
  {
    if attempts != [] {
      StepNoGap(start, head, chunk, s, attempts[0]);
      CoversAll(start, head, chunk, StepWalk(head, chunk, s, attempts[0]), attempts[1..]);
    }
  }

  lemma StepNoGap(start: nat, head: nat, chunk: nat, s: Walk, a: Attempt)
    requires chunk > 0 && NoGap(start, s)
    ensures NoGap(start, StepWalk(head, chunk, s, a))
  {
  }

  // Once skipped, a block is never scanned.
  lemma {:induction false} SkippedForever(head: nat, chunk: nat, s: Walk, attempts: seq<Attempt>, n: nat)
    requires chunk > 0 && n < s.cur && n !in s.scanned
    ensures n !in Walks(head, chunk, s, attempts).scanned
    decreases |attempts|
  {
    if attempts != [] {
      SkippedForever(head, chunk, StepWalk(head, chunk, s, attempts[0]), attempts[1..], n);
    }
  }

  // All blocks of the range that `cur` has passed were scanned.
  ghost predicate Covers(start: nat, head: nat, s: Walk) {
    forall n: nat | start <= n <= head && n < s.cur :: n in s.scanned
  }

  ghost predicate CoversUnder(cursor: Option<nat>, start: nat, head: nat, chunk: nat, attempts: seq<Attempt>)
    requires chunk > 0
  {
    Covers(start, head, Walks(head, chunk, Walk(start, cursor, {}), attempts))
  }

  // Under every schedule of failures the loop scans every block it passes, exactly when the
  // database had no cursor, or one below start (or there was nothing to scan).
  lemma CoverageIff(cursor: Option<nat>, start: nat, head: nat, chunk: nat)
    requires chunk > 0
    ensures (forall attempts :: CoversUnder(cursor, start, head, chunk, attempts))
            <==> (cursor.None? || cursor.value < start || head < start)
  {
    var s0 := Walk(start, cursor, {});
    if cursor.None? || cursor.value < start || head < start {
      forall attempts ensures CoversUnder(cursor, start, head, chunk, attempts) {
        if head >= start {
          CoversAll(start, head, chunk, s0, attempts);
        }
      }
    } else {
      var skip := [FailsAfter(0)];
      var s := StepWalk(head, chunk, s0, skip[0]);
      assert s == Refresh(Commit(s0, 0)) && start !in s.scanned && start < s.cur;
      assert skip[1..] == [] && Walks(head, chunk, s0, skip) == s;
      assert !CoversUnder(cursor, start, head, chunk, skip);
    }
  }

  // Otherwise a single failure before the first commit skips the start for good, whatever
  // happens later.
  lemma StartSkipped(cursor: nat, start: nat, head: nat, chunk: nat, later: seq<Attempt>)
    requires chunk > 0 && start <= head && start <= cursor
    ensures start !in Walks(head, chunk, Walk(start, Some(cursor), {}), [FailsAfter(0)] + later).scanned
  {
    var s0, attempts := Walk(start, Some(cursor), {}), [FailsAfter(0)] + later;
    assert attempts[1..] == later && attempts[0] == FailsAfter(0);
    var s := StepWalk(head, chunk, s0, attempts[0]);
    assert s == Refresh(Commit(s0, 0));
    SkippedForever(head, chunk, s, later, start);
  }

  function Successes(attempts: seq<Attempt>): nat {
    if attempts == [] then 0 else (if attempts[0].Succeeds? then 1 else 0) + Successes(attempts[1..])
  }

  // Each success moves the loop on, so it ends whatever fails in between.
  lemma {:induction false} Finishes(head: nat, chunk: nat, s: Walk, attempts: seq<Attempt>)
    requires chunk > 0
    ensures var r := Walks(head, chunk, s, attempts).cur; r > head || r >= s.cur + Successes(attempts)
    decreases |attempts|
  {
    if attempts != [] {
      if s.cur > head {
        WalksDone(head, chunk, s, attempts);
      } else {
        Finishes(head, chunk, StepWalk(head, chunk, s, attempts[0]), attempts[1..]);
      }
    }
  }
}
