/** The fixed-window rate limiter (ingester/ratelimit.py), over whole traces of requests. */
module RateLimit {
  import opened Wrappers
  import opened Text

  const WINDOW: real := 60.0

  datatype Window = Window(start: real, count: nat)

  // ---------- One request ----------

  // The window after a request at time `now`.
  function Hit(w: Option<Window>, now: real): Window {
    if w.None? || now - w.value.start >= WINDOW then Window(now, 1) else Window(w.value.start, w.value.count + 1)
  }

  datatype Decision = PassedThrough | Admitted | Rejected(retryAfter: int)

  // max(1, int(60 - elapsed)); int() truncates, which is Floor as the rest is positive.
  function RetryAfter(w: Window, now: real): int {
    var left := (WINDOW - (now - w.start)).Floor;
    if left > 1 then left else 1
  }

  const BEARER := "Bearer "

  // The bucket of a request; `digest` stands for the truncated SHA-256 of the token.
  function BucketKey(digest: string -> string, authorization: Option<string>): Option<string> {
    if authorization.None? || !(BEARER <= authorization.value) then None
    else
      var token := Strip(authorization.value[|BEARER|..]);
      if token == "" then None else Some(digest(token))
  }

  // A token as it is counted: nothing to strip at either end.
  predicate Trimmed(token: string) {
    token != "" && !IsSpace(token[0]) && !IsSpace(token[|token| - 1])
  }

  predicate Bears(authorization: Option<string>, left: string, token: string, right: string) {
    authorization == Some("Bearer " + left + token + right) && AllSpace(left) && AllSpace(right) && Trimmed(token)
  }

  lemma StrippedIsBorne(authorization: Option<string>) returns (left: string, right: string)
    requires authorization.Some? && BEARER <= authorization.value && Strip(authorization.value[|BEARER|..]) != ""
    ensures Bears(authorization, left, Strip(authorization.value[|BEARER|..]), right)
  {
    hide Strip, IsSpace;
    var rest := authorization.value[|BEARER|..];
    StripMeaning(rest);
    left, right :| rest == left + Strip(rest) + right && AllSpace(left) && AllSpace(right);
    assert authorization.value == BEARER + rest;
    assert BEARER + (left + Strip(rest) + right) == "Bearer " + left + Strip(rest) + right;
  }

  // A request is counted exactly if it bears a token, and then under that token's digest,
  // whatever white space surrounds it.
  lemma BucketKeyIff(digest: string -> string, authorization: Option<string>, key: string)
    ensures BucketKey(digest, authorization) == Some(key)
            <==> exists left, token, right :: Bears(authorization, left, token, right) && key == digest(token)
  {
    hide Bears, Strip;
    if BucketKey(digest, authorization) == Some(key) {
      var left, right := StrippedIsBorne(authorization);
    }
    if left, token, right :| Bears(authorization, left, token, right) && key == digest(token) {
      BearsIsStripped(authorization, left, token, right);
    }
  }

  lemma BearsIsStripped(authorization: Option<string>, left: string, token: string, right: string)
    requires Bears(authorization, left, token, right)
    ensures authorization.Some? && BEARER <= authorization.value && Strip(authorization.value[|BEARER|..]) == token && token != ""
  {
    assert authorization.value == BEARER + (left + token + right);
    assert authorization.value[|BEARER|..] == left + token + right;
    StripOf(left, token, right);
  }

  // Two tokens share a bucket only if their digests do.
  lemma TokensApart(digest: string -> string, t1: string, t2: string)
    requires Trimmed(t1) && Trimmed(t2)
    ensures BucketKey(digest, Some("Bearer " + t1)) == BucketKey(digest, Some("Bearer " + t2)) <==> digest(t1) == digest(t2)
  {
    assert "Bearer " + "" + t1 + "" == "Bearer " + t1 && "Bearer " + "" + t2 + "" == "Bearer " + t2;
    BearsIsStripped(Some("Bearer " + t1), "", t1, "");
    BearsIsStripped(Some("Bearer " + t2), "", t2, "");
  }

  class RateLimiter {
    const limit: nat
    const skip: set<string>
    const digest: string -> string
    var counts: map<string, Window>

    constructor (limitPerMin: int, skip: set<string>, digest: string -> string)
      ensures limit == (if limitPerMin > 1 then limitPerMin else 1) && limit >= 1
      ensures this.skip == skip && this.digest == digest && counts == map[]
    {
      limit := if limitPerMin > 1 then limitPerMin else 1;
      this.skip := skip;
      this.digest := digest;
      counts := map[];
    }

    // The part under the lock.
    method CountHit(key: string, now: real) returns (w: Window)
      modifies this
      ensures counts == After(old(counts), Request(key, now)) && w == counts[key]
    {
      var start, count := now, 0;
      if key in counts {
        start, count := counts[key].start, counts[key].count;
      }
      if now - start >= WINDOW {
        start, count := now, 0;
      }
      w := Window(start, count + 1);
      counts := counts[key := w];
    }

    // The bucket to count a request in, None for one that is not limited.
    function KeyFor(path: string, authorization: Option<string>): Option<string>
    {
      if path in skip then None else BucketKey(digest, authorization)
    }

    method Dispatch(path: string, authorization: Option<string>, now: real) returns (d: Decision)
      modifies this
      ensures path in skip ==> d.PassedThrough? && counts == old(counts)
      ensures path !in skip ==> KeyFor(path, authorization) == BucketKey(digest, authorization)
      ensures KeyFor(path, authorization).None? ==> d.PassedThrough? && counts == old(counts)
      ensures var key := KeyFor(path, authorization);
              key.Some? ==>
                && counts == After(old(counts), Request(key.value, now))
                && d == if counts[key.value].count <= limit then Admitted
                        else Rejected(RetryAfter(counts[key.value], now))
    {
      var key := KeyFor(path, authorization);
      if key.None? {
        return PassedThrough;
      }
      var w := CountHit(key.value, now);
      d := if w.count > limit then Rejected(RetryAfter(w, now)) else Admitted;
    }
  }

  // ---------- Traces of many keys ----------

  datatype Request = Request(key: string, time: real)

  function Get(counts: map<string, Window>, key: string): Option<Window> {
    if key in counts then Some(counts[key]) else None
  }

  function After(counts: map<string, Window>, r: Request): map<string, Window> {
    counts[r.key := Hit(Get(counts, r.key), r.time)]
  }

  function AfterAll(reqs: seq<Request>): map<string, Window> {
    if reqs == [] then map[] else After(AfterAll(reqs[..|reqs| - 1]), reqs[|reqs| - 1])
  }

  // The times of one key's requests.
  function TimesOf(reqs: seq<Request>, key: string): seq<real> {
    if reqs == [] then []
    else TimesOf(reqs[..|reqs| - 1], key) + if reqs[|reqs| - 1].key == key then [reqs[|reqs| - 1].time] else []
  }

  // ---------- One key ----------

  // The window after a run of requests of one key.
  function Run(ts: seq<real>): (w: Option<Window>)
    ensures w.None? <==> ts == []
    ensures w.Some? ==> w.value.count > 0
  {
    if ts == [] then None else Some(Hit(Run(ts[..|ts| - 1]), ts[|ts| - 1]))
  }

  // Keys do not affect each other: what the limiter knows of a key is what it would know if
  // only that key's requests had come.
  lemma {:induction false} KeysIndependent(reqs: seq<Request>, key: string)
    ensures Get(AfterAll(reqs), key) == Run(TimesOf(reqs, key))
  {
    if reqs != [] {
      var init, last := reqs[..|reqs| - 1], reqs[|reqs| - 1];
      KeysIndependent(init, key);
      if last.key == key {
        var ts := TimesOf(init, key) + [last.time];
        assert ts[..|ts| - 1] == TimesOf(init, key);
      } else {
        assert TimesOf(reqs, key) == TimesOf(init, key);
      }
    }
  }

  // The last request of the run is admitted.
  predicate LastAdmitted(limit: nat, ts: seq<real>)
    requires ts != []
  {
    Run(ts).value.count <= limit
  }

  predicate Ascending(ts: seq<real>) {
    forall i, j | 0 <= i < j < |ts| :: ts[i] <= ts[j]
  }

  function Min(a: int, b: int): int {
    if a <= b then a else b
  }

  // A new window starts at least 60 seconds after the one before.
  lemma WindowsApart(ts: seq<real>, now: real)
    requires ts != []
    ensures var w, w' := Run(ts).value, Run(ts + [now]).value;
            w'.start == w.start || (w'.start == now && w'.start >= w.start + WINDOW)
  {
    assert (ts + [now])[..|ts|] == ts;
  }

  // The window never starts after the last request, nor 60 seconds before it.
  lemma {:induction false} WindowRecent(ts: seq<real>)
    requires ts != [] && Ascending(ts)
    ensures ts[|ts| - 1] - WINDOW < Run(ts).value.start <= ts[|ts| - 1]
  {
    var init := ts[..|ts| - 1];
    if init != [] {
      WindowRecent(init);
      assert init[|init| - 1] == ts[|ts| - 2];
    }
  }

  // How many requests of the window that starts at s were admitted.
  function AdmittedInWindow(limit: nat, ts: seq<real>, s: real): nat {
    if ts == [] then 0
    else
      AdmittedInWindow(limit, ts[..|ts| - 1], s)
      + if LastAdmitted(limit, ts) && Run(ts).value.start == s then 1 else 0
  }

  // At most `limit` in any window.
  lemma {:induction false} AtMostLimitPerWindow(limit: nat, ts: seq<real>, s: real)
    requires Ascending(ts)
    ensures AdmittedInWindow(limit, ts, s) <= limit
    ensures ts != [] && s == Run(ts).value.start ==> AdmittedInWindow(limit, ts, s) == Min(Run(ts).value.count, limit)
    ensures ts == [] || s > Run(ts).value.start ==> AdmittedInWindow(limit, ts, s) == 0
  {
    if ts != [] {
      var init := ts[..|ts| - 1];
      AtMostLimitPerWindow(limit, init, s);
      if init != [] {
        WindowsApart(init, ts[|ts| - 1]);
        assert ts == init + [ts[|ts| - 1]];
      }
    }
  }

  // How many requests in the half-open interval [a, a + 60) were admitted.
  function AdmittedWithin(limit: nat, ts: seq<real>, a: real): nat {
    if ts == [] then 0
    else
      AdmittedWithin(limit, ts[..|ts| - 1], a)
      + if LastAdmitted(limit, ts) && a <= ts[|ts| - 1] < a + WINDOW then 1 else 0
  }

  // What the current window says about the interval [a, a + 60).
  predicate WithinBound(limit: nat, n: nat, w: Window, last: real, a: real) {
    if last < a then n == 0
    else if w.start < a then n <= Min(w.count, limit) - 1
    else if w.start < a + WINDOW then n <= limit - 1 + Min(w.count, limit)
    else n <= 2 * limit - 1
  }

  lemma {:induction false} WithinWindow(limit: nat, ts: seq<real>, a: real)
    requires limit >= 1 && Ascending(ts) && ts != []
    ensures WithinBound(limit, AdmittedWithin(limit, ts, a), Run(ts).value, ts[|ts| - 1], a)
  {
    var init, last := ts[..|ts| - 1], ts[|ts| - 1];
    WindowRecent(ts);
    if init != [] {
      assert init[|init| - 1] == ts[|ts| - 2] && ts[|ts| - 2] <= last;
      WithinWindow(limit, init, a);
      WindowRecent(init);
      WindowsApart(init, last);
      assert ts == init + [last];
    }
  }

  // Any 60 seconds, wherever they begin, admit at most 2 * limit - 1 requests of a key.
  lemma AtMostTwiceLimit(limit: nat, ts: seq<real>, a: real)
    requires limit >= 1 && Ascending(ts)
    ensures AdmittedWithin(limit, ts, a) <= 2 * limit - 1
  {
    if ts != [] {
      WithinWindow(limit, ts, a);
    }
  }

  // For any trace of all keys, with a clock that never steps back.
  lemma {:induction false} TimesAscend(reqs: seq<Request>, key: string)
    requires forall i, j | 0 <= i < j < |reqs| :: reqs[i].time <= reqs[j].time
    ensures Ascending(TimesOf(reqs, key))
    ensures forall i | 0 <= i < |TimesOf(reqs, key)| :: exists j :: 0 <= j < |reqs| && TimesOf(reqs, key)[i] == reqs[j].time
  {
    if reqs != [] {
      TimesAscend(reqs[..|reqs| - 1], key);
    }
  }

  lemma AnyTrace(limit: nat, reqs: seq<Request>, key: string, a: real)
    requires limit >= 1 && forall i, j | 0 <= i < j < |reqs| :: reqs[i].time <= reqs[j].time
    ensures AdmittedWithin(limit, TimesOf(reqs, key), a) <= 2 * limit - 1
    ensures forall s :: AdmittedInWindow(limit, TimesOf(reqs, key), s) <= limit
  {
    TimesAscend(reqs, key);
    AtMostTwiceLimit(limit, TimesOf(reqs, key), a);
    forall s ensures AdmittedInWindow(limit, TimesOf(reqs, key), s) <= limit {
      AtMostLimitPerWindow(limit, TimesOf(reqs, key), s);
    }
  }

  // ---------- Rejected requests ----------

  // The run without its rejected requests.
  function AdmittedOnly(limit: nat, ts: seq<real>): seq<real> {
    if ts == [] then []
    else AdmittedOnly(limit, ts[..|ts| - 1]) + if LastAdmitted(limit, ts) then [ts[|ts| - 1]] else []
  }

  // The same window, its count capped at the limit.
  predicate CappedAs(limit: nat, w: Option<Window>, w': Option<Window>) {
    if w.None? then w'.None? else w' == Some(Window(w.value.start, Min(w.value.count, limit)))
  }

  lemma HitCapped(limit: nat, w: Option<Window>, w': Option<Window>, now: real)
    requires limit >= 1 && CappedAs(limit, w, w')
    ensures Hit(w, now).count <= limit <==> Hit(w', now).count <= limit
    ensures CappedAs(limit, Some(Hit(w, now)), if Hit(w, now).count <= limit then Some(Hit(w', now)) else w')
  {
  }

  lemma RunSnoc(ts: seq<real>, now: real)
    ensures Run(ts + [now]) == Some(Hit(Run(ts), now))
  {
    assert (ts + [now])[..|ts|] == ts;
  }

  // Rejected requests never prolong the window: without them it starts when it did.
  lemma {:induction false} RejectedChangeNothing(limit: nat, ts: seq<real>)
    requires limit >= 1
    ensures CappedAs(limit, Run(ts), Run(AdmittedOnly(limit, ts)))
  {
    if ts != [] {
      var init, last := ts[..|ts| - 1], ts[|ts| - 1];
      RejectedChangeNothing(limit, init);
      HitCapped(limit, Run(init), Run(AdmittedOnly(limit, init)), last);
      RunSnoc(AdmittedOnly(limit, init), last);
      assert !LastAdmitted(limit, ts) ==> AdmittedOnly(limit, ts) == AdmittedOnly(limit, init);
    }
  }

  // So dropping them changes no decision.
  lemma RejectedChangeNoDecision(limit: nat, ts: seq<real>, now: real)
    requires limit >= 1
    ensures LastAdmitted(limit, AdmittedOnly(limit, ts) + [now]) <==> LastAdmitted(limit, ts + [now])
  {
    RejectedChangeNothing(limit, ts);
    RunSnoc(ts, now);
    RunSnoc(AdmittedOnly(limit, ts), now);
    HitCapped(limit, Run(ts), Run(AdmittedOnly(limit, ts)), now);
  }

  // ---------- Retry-After ----------

  predicate WholeNumber(x: real) {
    x == x.Floor as real
  }

  // A client that waits exactly Retry-After seconds finds a fresh window iff the time left
  // was a whole number of seconds, or at most one.
  lemma RetryAfterIff(w: Window, now: real)
    requires w.start <= now < w.start + WINDOW
    ensures var left := WINDOW - (now - w.start);
            Hit(Some(w), now + RetryAfter(w, now) as real).start != w.start
            <==> WholeNumber(left) || left <= 1.0
  {
  }

  // ---------- The bound is met ----------

  function BurstTime(limit: nat, n: nat): real {
    if n == 1 then 0.0 else if n <= limit then 59.0 else 60.0
  }

  // One request at 0, limit - 1 at 59 and limit at 60: all are admitted, and all but the
  // first fall within 60 seconds.
  function Burst(limit: nat, n: nat): (r: seq<real>)
    ensures |r| == n
  {
    if n == 0 then [] else Burst(limit, n - 1) + [BurstTime(limit, n)]
  }

  lemma {:induction false} BurstAscends(limit: nat, n: nat)
    requires limit >= 1
    ensures Ascending(Burst(limit, n))
    ensures forall i | 0 <= i < n :: Burst(limit, n)[i] <= BurstTime(limit, n)
  {
    if n > 0 {
      BurstAscends(limit, n - 1);
    }
  }

  lemma WithinSnoc(limit: nat, ts: seq<real>, now: real, a: real)
    ensures AdmittedWithin(limit, ts + [now], a) ==
            AdmittedWithin(limit, ts, a) + if Hit(Run(ts), now).count <= limit && a <= now < a + WINDOW then 1 else 0
  {
    RunSnoc(ts, now);
    assert (ts + [now])[..|ts|] == ts;
  }

  lemma {:induction false} BurstAdmitted(limit: nat, n: nat)
    requires limit >= 1 && 1 <= n <= 2 * limit
    ensures Run(Burst(limit, n)) == Some(if n <= limit then Window(0.0, n) else Window(60.0, n - limit))
    ensures AdmittedWithin(limit, Burst(limit, n), 59.0) == n - 1
  {
    if n > 1 {
      BurstAdmitted(limit, n - 1);
    }
    RunSnoc(Burst(limit, n - 1), BurstTime(limit, n));
    WithinSnoc(limit, Burst(limit, n - 1), BurstTime(limit, n), 59.0);
  }

  lemma BoundIsMet(limit: nat)
    requires limit >= 1
    ensures Ascending(Burst(limit, 2 * limit))
    ensures AdmittedWithin(limit, Burst(limit, 2 * limit), 59.0) == 2 * limit - 1
  {
    BurstAscends(limit, 2 * limit);
    BurstAdmitted(limit, 2 * limit);
  }
}
