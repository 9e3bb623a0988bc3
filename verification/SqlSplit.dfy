/** Splitting comment-free SQL at its semicolons (validate_readonly_sql in ingester/sql.py). */
module SqlSplit {
  import opened Wrappers
  import opened Text

  function SemiIndex(s: string): (r: Option<nat>)
    ensures r.Some? ==> r.value < |s| && s[r.value] == ';' && forall i | 0 <= i < r.value :: s[i] != ';'
    ensures r.None? ==> forall i | 0 <= i < |s| :: s[i] != ';'
  {
    if s == "" then None
    else if s[0] == ';' then Some(0)
    else
      var r := SemiIndex(s[1..]);
      if r.None? then None else Some(r.value + 1)
  }

  // s.split(";")
  function Split(s: string): seq<string>
    decreases |s|
  {
    var i := SemiIndex(s);
    if i.None? then [s] else [s[..i.value]] + Split(s[i.value + 1..])
  }

  // [c for c in (strip(p) for p in parts) if c]
  function Kept(strip: string -> string, parts: seq<string>): seq<string> {
    if parts == [] then [] else Piece(strip, parts[0]) + Kept(strip, parts[1..])
  }

  function Piece(strip: string -> string, x: string): seq<string> {
    if strip(x) == "" then [] else [strip(x)]
  }

  function Chunks(s: string): seq<string> {
    Kept(Strip, Split(s))
  }

  // ---------- What the text looks like ----------

  // A character of a statement: not white space and not a separator.
  predicate Visible(c: char) {
    !IsSpace(c) && c != ';'
  }

  // Nothing to run from lo up to hi.
  ghost predicate BlankBetween(s: string, lo: int, hi: int)
    requires 0 <= lo <= hi <= |s|
  {
    forall i | lo <= i < hi :: !Visible(s[i])
  }

  ghost predicate Blank(s: string) {
    BlankBetween(s, 0, |s|)
  }

  predicate SeparatedAt(s: string, i: int, j: int, k: int) {
    0 <= i < j < k < |s| && Visible(s[i]) && s[j] == ';' && Visible(s[k])
  }

  // Something to run on both sides of a semicolon.
  ghost predicate Stacked(s: string) {
    exists i, j, k :: SeparatedAt(s, i, j, k)
  }

  ghost predicate SliceAt(s: string, t: string, i: int) {
    0 <= i <= i + |t| <= |s| && t == s[i..i + |t|]
  }

  ghost predicate IsSlice(s: string, t: string) {
    exists i :: SliceAt(s, t, i)
  }

  // All of s but b is white space and semicolons.
  ghost predicate CoreAt(s: string, b: string, i: int) {
    SliceAt(s, b, i) && BlankBetween(s, 0, i) && BlankBetween(s, i + |b|, |s|)
  }

  // b begins and ends with a visible character and holds no semicolon.
  predicate Tight(b: string) {
    b != "" && !IsSpace(b[0]) && !IsSpace(b[|b| - 1]) && forall i | 0 <= i < |b| :: b[i] != ';'
  }

  ghost predicate IsCore(s: string, b: string) {
    Tight(b) && exists i :: CoreAt(s, b, i)
  }

  predicate NoSemicolon(x: string) {
    forall i | 0 <= i < |x| :: x[i] != ';'
  }

  // strip finds the core of x.
  ghost predicate CoreFound(strip: string -> string, x: string) {
    if Blank(x) then strip(x) == "" else IsCore(x, strip(x))
  }

  // What the proofs need of strip.
  ghost predicate FindsCore(strip: string -> string) {
    forall x | NoSemicolon(x) :: CoreFound(strip, x)
  }

  // ---------- Parts and whole ----------

  lemma BlankParts(s: string, n: nat)
    requires n < |s| && s[n] == ';'
    ensures Blank(s) <==> Blank(s[..n]) && Blank(s[n + 1..])
    ensures Blank(s[..n]) ==> BlankBetween(s, 0, n + 1)
    ensures Blank(s[n + 1..]) ==> BlankBetween(s, n, |s|)
  {
    var x, rest := s[..n], s[n + 1..];
    assert forall i | 0 <= i < n :: x[i] == s[i];
    assert forall i | n < i < |s| :: s[i] == rest[i - n - 1];
  }

  lemma StackedParts(s: string, n: nat)
    requires n < |s| && s[n] == ';' && forall i | 0 <= i < n :: s[i] != ';'
    ensures Stacked(s) <==> (!Blank(s[..n]) && !Blank(s[n + 1..])) || Stacked(s[n + 1..])
  {
    var x, rest := s[..n], s[n + 1..];
    assert forall i | 0 <= i < n :: x[i] == s[i];
    assert forall i | n < i < |s| :: s[i] == rest[i - n - 1];
    if i, j, k :| SeparatedAt(s, i, j, k) {
      assert j >= n && Visible(rest[k - n - 1]);
      assert i > n ==> SeparatedAt(rest, i - n - 1, j - n - 1, k - n - 1);
      assert i < n ==> Visible(x[i]);
    }
    if !Blank(x) && !Blank(rest) {
      var i :| 0 <= i < |x| && Visible(x[i]);
      var k :| 0 <= k < |rest| && Visible(rest[k]);
      assert SeparatedAt(s, i, n, k + n + 1);
    }
    if i, j, k :| SeparatedAt(rest, i, j, k) {
      assert SeparatedAt(s, i + n + 1, j + n + 1, k + n + 1);
    }
  }

  // The core of a part that has only blanks beside it is the core of the whole.
  lemma CoreOfPart(s: string, lo: nat, hi: nat, b: string)
    requires lo <= hi <= |s| && BlankBetween(s, 0, lo) && BlankBetween(s, hi, |s|)
    requires IsCore(s[lo..hi], b)
    ensures IsCore(s, b)
  {
    var t := s[lo..hi];
    var i :| CoreAt(t, b, i);
    assert forall k | lo <= k < hi :: s[k] == t[k - lo];
    assert b == t[i..i + |b|] == s[lo + i..lo + i + |b|];
    assert CoreAt(s, b, lo + i);
  }

  // A text has one core at most: it runs from the first visible character to the last.
  lemma CoreUnique(s: string, b1: string, b2: string)
    requires IsCore(s, b1) && IsCore(s, b2)
    ensures b1 == b2
  {
    var i1 :| CoreAt(s, b1, i1);
    var i2 :| CoreAt(s, b2, i2);
    CoreEnds(s, b1, i1, b2, i2);
    CoreEnds(s, b2, i2, b1, i1);
  }

  lemma CoreEnds(s: string, b1: string, i1: nat, b2: string, i2: nat)
    requires Tight(b1) && CoreAt(s, b1, i1) && Tight(b2) && CoreAt(s, b2, i2)
    ensures i2 <= i1 && i1 + |b1| <= i2 + |b2|
  {
    assert s[i1] == b1[0] && s[i1 + |b1| - 1] == b1[|b1| - 1];
  }

  // A core has a visible character, and no semicolon between visible characters.
  lemma CoreIsOne(s: string, b: string)
    requires IsCore(s, b)
    ensures !Blank(s) && !Stacked(s)
  {
    var i :| CoreAt(s, b, i);
    assert s[i] == b[0];
    assert forall k | i <= k < i + |b| :: s[k] == b[k - i];
  }

  // ---------- The chunks ----------

  lemma KeptStep(strip: string -> string, s: string, n: nat)
    requires SemiIndex(s) == Some(n)
    ensures Kept(strip, Split(s)) == Piece(strip, s[..n]) + Kept(strip, Split(s[n + 1..]))
  {
    assert Split(s) == [s[..n]] + Split(s[n + 1..]);
    assert Split(s)[1..] == Split(s[n + 1..]);
  }

  lemma KeptLast(strip: string -> string, s: string)
    requires SemiIndex(s).None?
    ensures Kept(strip, Split(s)) == Piece(strip, s)
  {
    assert Split(s) == [s] && [s][1..] == [];
  }

  // What is kept of a text, in terms of the text.
  ghost predicate KeptAs(s: string, chunks: seq<string>) {
    && (chunks == [] <==> Blank(s))
    && (|chunks| > 1 <==> Stacked(s))
    && (|chunks| == 1 ==> IsCore(s, chunks[0]))
  }

  lemma PieceMeaning(strip: string -> string, x: string)
    requires CoreFound(strip, x) && NoSemicolon(x)
    ensures KeptAs(x, Piece(strip, x))
  {
    NotStacked(x);
  }

  lemma NotStacked(x: string)
    requires NoSemicolon(x)
    ensures !Stacked(x)
  {
  }

  lemma KeptJoin(s: string, n: nat, first: seq<string>, rest: seq<string>)
    requires SemiIndex(s) == Some(n) && |first| <= 1
    requires KeptAs(s[..n], first) && KeptAs(s[n + 1..], rest)
    ensures KeptAs(s, first + rest)
  {
    BlankParts(s, n);
    StackedParts(s, n);
    if |first + rest| == 1 {
      if first == [] {
        assert s[n + 1..|s|] == s[n + 1..];
        CoreOfPart(s, n + 1, |s|, rest[0]);
      } else {
        assert s[0..n] == s[..n];
        CoreOfPart(s, 0, n, first[0]);
      }
    }
  }

  lemma {:induction false} KeptMeaning(strip: string -> string, s: string)
    requires FindsCore(strip)
    ensures KeptAs(s, Kept(strip, Split(s)))
    decreases |s|
  {
    var i := SemiIndex(s);
    if i.None? {
      assert NoSemicolon(s) && CoreFound(strip, s);
      KeptLast(strip, s);
      PieceMeaning(strip, s);
    } else {
      var x := s[..i.value];
      assert NoSemicolon(x) && CoreFound(strip, x);
      KeptStep(strip, s, i.value);
      PieceMeaning(strip, x);
      KeptMeaning(strip, s[i.value + 1..]);
      KeptJoin(s, i.value, Piece(strip, x), Kept(strip, Split(s[i.value + 1..])));
    }
  }

  lemma {:induction false} StripLeftSkips(s: string)
    ensures forall i | 0 <= i < |s| - |StripLeft(s)| :: IsSpace(s[i])
  {
    hide IsSpace;
    if s != "" && IsSpace(s[0]) {
      StripLeftSkips(s[1..]);
      assert forall i | 0 < i < |s| - |StripLeft(s)| :: s[i] == s[1..][i - 1];
    }
  }

  lemma {:induction false} StripRightSkips(s: string)
    ensures forall i | |StripRight(s)| <= i < |s| :: IsSpace(s[i])
  {
    if s != "" && IsSpace(s[|s| - 1]) {
      StripRightSkips(s[..|s| - 1]);
    }
  }

  lemma StripCore(x: string)
    requires NoSemicolon(x)
    ensures CoreFound(Strip, x)
  {
    StripBlank(x);
    var t, r := StripLeft(x), Strip(x);
    StripLeftSkips(x);
    StripRightSkips(t);
    SkippedIsCore(x, t, r);
  }

  lemma SkippedIsCore(x: string, t: string, r: string)
    requires |t| <= |x| && t == x[|x| - |t|..] && |r| <= |t| && r == t[..|r|]
    requires forall i | 0 <= i < |x| - |t| :: IsSpace(x[i])
    requires forall i | |r| <= i < |t| :: IsSpace(t[i])
    requires NoSemicolon(x) && (r != "" ==> !IsSpace(r[0]) && !IsSpace(r[|r| - 1]))
    ensures r != "" ==> IsCore(x, r)
  {
    var i := |x| - |t|;
    assert forall k | i <= k < |x| :: x[k] == t[k - i];
    assert r == x[i..i + |r|];
    assert CoreAt(x, r, i);
  }

  lemma StripFindsCore()
    ensures FindsCore(Strip)
  {
    forall x | NoSemicolon(x) ensures CoreFound(Strip, x) {
      StripCore(x);
    }
  }

  lemma KeptCore(s: string, chunks: seq<string>, b: string)
    requires KeptAs(s, chunks)
    ensures chunks == [b] <==> IsCore(s, b)
  {
    if IsCore(s, b) {
      CoreIsOne(s, b);
      CoreUnique(s, b, chunks[0]);
    }
  }

  // The chunks of a text: none if nothing is visible, several if a semicolon separates
  // visible characters, and otherwise its core alone.
  lemma ChunksIff(s: string, b: string)
    ensures Chunks(s) == [] <==> Blank(s)
    ensures |Chunks(s)| > 1 <==> Stacked(s)
    ensures Chunks(s) == [b] <==> IsCore(s, b)
  {
    StripFindsCore();
    KeptMeaning(Strip, s);
    KeptCore(s, Chunks(s), b);
  }

  // Tight text is its own core.
  lemma TightCore(b: string)
    requires Tight(b)
    ensures IsCore(b, b)
  {
    assert CoreAt(b, b, 0);
  }
}
