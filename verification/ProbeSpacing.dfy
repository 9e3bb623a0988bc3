/** Evenly spaced probe heights (evenly_spaced_probes in ingester/system_registry.py), over
    exact rationals, and the deployments they are sure to meet. */
module ProbeSpacing {
  import opened Wrappers
  import opened Registry
  import opened Rounding

  function SpacingOf(start: int, head: int, n: int): (step: real)
    requires n >= 2
    ensures head >= start ==> step >= 0.0
  {
    (head - start) as real / (n - 1) as real
  }

  // The exact position of probe i.
  function Position(start: int, step: real, i: int): real {
    start as real + i as real * step
  }

  lemma PositionStep(start: int, step: real, i: int)
    ensures Position(start, step, i + 1) == Position(start, step, i) + step
  {
    assert (i + 1) as real == i as real + 1.0;
    assert (i as real + 1.0) * step == i as real * step + step;
  }

  lemma LastPosition(start: int, head: int, n: int)
    requires n >= 2
    ensures Position(start, SpacingOf(start, head, n), n - 1) == head as real
  {
    var d, m := (head - start) as real, (n - 1) as real;
    assert m * (d / m) == d;
  }

  function EvenlySpacedProbes(start: int, head: int, n: int): (r: seq<int>)
    ensures |r| == if n < 2 || head <= start then 1 else n
    ensures r[|r| - 1] == head
  {
    if n < 2 || head <= start then [head]
    else
      var step := SpacingOf(start, head, n);
      var heights := seq(n, i requires 0 <= i < n => RoundHalfEven(Position(start, step, i)));
      heights[0 := start][n - 1 := head]
  }

  // Overwriting the two ends changes nothing in exact arithmetic.
  lemma ProbeAt(start: int, head: int, n: int, i: int)
    requires n >= 2 && head > start && 0 <= i < n
    ensures EvenlySpacedProbes(start, head, n)[i] == RoundHalfEven(Position(start, SpacingOf(start, head, n), i))
  {
    var step := SpacingOf(start, head, n);
    LastPosition(start, head, n);
    RoundInteger(start);
    RoundInteger(head);
    assert Position(start, step, 0) == start as real;
  }

  // The heights run from start to head, never step back, and leave gaps of at most step + 1.
  lemma ProbesSpread(start: int, head: int, n: int)
    requires n >= 2 && head > start
    ensures var h, step := EvenlySpacedProbes(start, head, n), SpacingOf(start, head, n);
            && h[0] == start && h[n - 1] == head
            && forall i | 0 <= i < n - 1 :: h[i] <= h[i + 1] && (h[i + 1] - h[i]) as real <= step + 1.0
  {
    var h, step := EvenlySpacedProbes(start, head, n), SpacingOf(start, head, n);
    forall i | 0 <= i < n - 1 ensures h[i] <= h[i + 1] && (h[i + 1] - h[i]) as real <= step + 1.0 {
      ProbeAt(start, head, n, i);
      ProbeAt(start, head, n, i + 1);
      PositionStep(start, step, i);
      RoundMonotone(Position(start, step, i), Position(start, step, i + 1));
    }
  }

  // Some position up to i is the first beyond `low`, and it is not a step beyond it.
  lemma {:induction false} FirstBeyond(start: int, step: real, low: real, i: nat) returns (j: nat)
    requires start as real > low || Position(start, step, 0) <= low
    requires Position(start, step, i) > low
    ensures j <= i && Position(start, step, j) > low
    ensures j == 0 || Position(start, step, j) <= low + step
  {
    if i == 0 || Position(start, step, i - 1) <= low {
      j := i;
      if i > 0 {
        PositionStep(start, step, i - 1);
      }
    } else {
      j := FirstBeyond(start, step, low, i - 1);
    }
  }

  // A stretch [a, b] of the window with b - a >= step - 1 holds a probe. Where b - a is
  // exactly step - 1 the step is a whole number, and so is every position.
  lemma ProbeInside(start: int, head: int, n: int, a: int, b: int) returns (i: nat)
    requires n >= 2 && head > start && start <= a <= b <= head
    requires (b - a) as real >= SpacingOf(start, head, n) - 1.0
    ensures i < n && a <= EvenlySpacedProbes(start, head, n)[i] <= b
  {
    var step := SpacingOf(start, head, n);
    var low := a as real - 0.5;
    LastPosition(start, head, n);
    i := FirstBeyond(start, step, low, n - 1);
    ProbeAt(start, head, n, i);
    if i == 0 {
      assert Position(start, step, 0) == start as real;
      RoundInteger(start);
    } else if (b - a) as real == step - 1.0 {
      WholePosition(start, b - a + 1, i);
      RoundInteger(start + i * (b - a + 1));
    } else {
      assert Position(start, step, i) < b as real + 0.5;
    }
  }

  lemma WholePosition(start: int, step: int, i: nat)
    ensures Position(start, step as real, i) == (start + i * step) as real
  {
    assert (i * step) as real == i as real * step as real;
  }

  // Numbers that climb by k steps in all climb by a whole step somewhere.
  lemma {:induction false} WideGap(h: seq<int>, step: real, k: nat) returns (i: nat)
    requires 0 < k < |h| && (h[k] - h[0]) as real >= k as real * step
    ensures i < k && (h[i + 1] - h[i]) as real >= step
  {
    if k == 1 || (h[k] - h[k - 1]) as real >= step {
      i := k - 1;
    } else {
      assert k as real * step == (k - 1) as real * step + step;
      i := WideGap(h, step, k - 1);
    }
  }

  // A stretch of the window that no probe meets.
  ghost predicate Missed(start: int, head: int, n: int, a: int, len: nat) {
    && start <= a && a + len <= head
    && forall i | 0 <= i < |EvenlySpacedProbes(start, head, n)| :: !(a <= EvenlySpacedProbes(start, head, n)[i] <= a + len)
  }

  lemma {:induction false} ProbesAscend(start: int, head: int, n: int, i: nat, j: nat)
    requires n >= 2 && head > start && i <= j < n
    ensures EvenlySpacedProbes(start, head, n)[i] <= EvenlySpacedProbes(start, head, n)[j]
  {
    if i < j {
      ProbesAscend(start, head, n, i, j - 1);
      ProbesSpread(start, head, n);
    }
  }

  // The inside of a wide gap is missed.
  lemma GapMissed(start: int, head: int, n: int, len: nat, i: nat)
    requires n >= 2 && head > start && i + 1 < n
    requires EvenlySpacedProbes(start, head, n)[i + 1] - EvenlySpacedProbes(start, head, n)[i] >= len + 2
    ensures Missed(start, head, n, EvenlySpacedProbes(start, head, n)[i] + 1, len)
  {
    var h := EvenlySpacedProbes(start, head, n);
    ProbesSpread(start, head, n);
    ProbesAscend(start, head, n, 0, i);
    ProbesAscend(start, head, n, i + 1, n - 1);
    forall j | 0 <= j < |h| ensures !(h[i] + 1 <= h[j] <= h[i] + 1 + len) {
      if j <= i {
        ProbesAscend(start, head, n, j, i);
      } else {
        ProbesAscend(start, head, n, i + 1, j);
      }
    }
  }

  // So stretches shorter than step - 1 can be missed.
  lemma SomeMissed(start: int, head: int, n: int, len: nat) returns (a: int)
    requires n >= 2 && head > start && (len as real) < SpacingOf(start, head, n) - 1.0
    ensures Missed(start, head, n, a, len)
  {
    var h, step := EvenlySpacedProbes(start, head, n), SpacingOf(start, head, n);
    LastPosition(start, head, n);
    assert h[n - 1] == head && h[0] == start;
    var i := WideGap(h, step, n - 1);
    GapMissed(start, head, n, len, i);
    a := h[i] + 1;
  }

  // The exact bound: every stretch of the given length in the window meets a probe if and
  // only if the length is at least step - 1.
  lemma StretchesHitIff(start: int, head: int, n: int, len: nat)
    requires n >= 2 && head > start
    ensures (forall a: int :: !Missed(start, head, n, a, len)) <==> len as real >= SpacingOf(start, head, n) - 1.0
  {
    if len as real >= SpacingOf(start, head, n) - 1.0 {
      forall a: int ensures !Missed(start, head, n, a, len) {
        if start <= a && a + len <= head {
          var i := ProbeInside(start, head, n, a, a + len);
        }
      }
    } else {
      var a := SomeMissed(start, head, n, len);
    }
  }

  // So a deployment that resolves throughout such a stretch ends up in the probed registry.
  lemma DeploymentFound(c: Chain, start: int, head: int, n: int, a: int, b: int, addr: string, r: Contents)
    requires n >= 2 && head > start && start <= a <= b <= head
    requires (b - a) as real >= SpacingOf(start, head, n) - 1.0
    requires forall h | a <= h <= b :: SeenAt(c, addr, h)
    requires IsUnion(c, EvenlySpacedProbes(start, head, n), r)
    ensures addr in r
  {
    var i := ProbeInside(start, head, n, a, b);
    assert EvenlySpacedProbes(start, head, n)[i] in EvenlySpacedProbes(start, head, n);
    assert SeenAt(c, addr, EvenlySpacedProbes(start, head, n)[i]);
  }
}
