/** Python's str.strip(). */
module Text {
  // Unicode white space, as str.isspace() has it.
  predicate IsSpace(c: char) {
    var n := c as int;
    9 <= n <= 13 || 28 <= n <= 32 || n == 0x85 || n == 0xA0 || n == 0x1680 || 0x2000 <= n <= 0x200A
    || n == 0x2028 || n == 0x2029 || n == 0x202F || n == 0x205F || n == 0x3000
  }

  function StripLeft(s: string): (r: string)
    ensures |r| <= |s| && r == s[|s| - |r|..]
    ensures r != "" ==> !IsSpace(r[0])
  {
    if s != "" && IsSpace(s[0]) then StripLeft(s[1..]) else s
  }

  function StripRight(s: string): (r: string)
    ensures |r| <= |s| && r == s[..|r|]
    ensures r != "" ==> !IsSpace(r[|r| - 1])
  {
    if s != "" && IsSpace(s[|s| - 1]) then StripRight(s[..|s| - 1]) else s
  }

  function Strip(s: string): (r: string)
    ensures |r| <= |s|
    ensures r != "" ==> !IsSpace(r[0]) && !IsSpace(r[|r| - 1])
  {
    StripRight(StripLeft(s))
  }

  // Text that neither begins nor ends with white space is left alone.
  lemma StripTight(s: string)
    requires s != "" && !IsSpace(s[0]) && !IsSpace(s[|s| - 1])
    ensures Strip(s) == s
  {
    assert StripLeft(s) == s && StripRight(s) == s;
  }

  lemma {:induction false} StripBlankLeft(s: string)
    ensures StripLeft(s) == "" <==> forall i | 0 <= i < |s| :: IsSpace(s[i])
  {
    if s != "" && IsSpace(s[0]) {
      StripBlankLeft(s[1..]);
      if forall i | 0 <= i < |s[1..]| :: IsSpace(s[1..][i]) {
        forall i | 0 <= i < |s| ensures IsSpace(s[i]) {
          assert i > 0 ==> s[i] == s[1..][i - 1];
        }
      }
    }
  }

  // Strip leaves nothing exactly of blank text.
  lemma StripBlank(s: string)
    ensures Strip(s) == "" <==> forall i | 0 <= i < |s| :: IsSpace(s[i])
  {
    StripBlankLeft(s);
    var t := StripLeft(s);
    if t != "" {
      assert StripRight(t) != "" by {
        KeepsFirst(t);
      }
    }
  }

  lemma {:induction false} KeepsFirst(t: string)
    requires t != "" && !IsSpace(t[0])
    ensures StripRight(t) != ""
  {
    if |t| > 1 && IsSpace(t[|t| - 1]) {
      KeepsFirst(t[..|t| - 1]);
    }
  }

  predicate AllSpace(s: string) {
    forall i | 0 <= i < |s| :: IsSpace(s[i])
  }

  lemma {:induction false} LeftIsSpace(s: string)
    ensures AllSpace(s[..|s| - |StripLeft(s)|])
  {
    if s != "" && IsSpace(s[0]) {
      LeftIsSpace(s[1..]);
      var n := |s| - |StripLeft(s)|;
      forall i | 0 <= i < n ensures IsSpace(s[..n][i]) {
        assert i > 0 ==> s[i] == s[1..][..n - 1][i - 1];
      }
    }
  }

  lemma {:induction false} RightIsSpace(s: string)
    ensures AllSpace(s[|StripRight(s)|..])
  {
    if s != "" && IsSpace(s[|s| - 1]) {
      var init, n := s[..|s| - 1], |StripRight(s)|;
      RightIsSpace(init);
      assert s[n..] == init[n..] + [s[|s| - 1]];
    }
  }

  // Strip takes white space from both ends and nothing else.
  lemma StripMeaning(s: string)
    ensures exists left, right :: s == left + Strip(s) + right && AllSpace(left) && AllSpace(right)
  {
    var t := StripLeft(s);
    LeftIsSpace(s);
    RightIsSpace(t);
    var left, right := s[..|s| - |t|], t[|Strip(s)|..];
    assert s == left + Strip(s) + right;
  }

  // White space by name: tab to carriage return, the four separators, space, next line, the
  // two no-break spaces, and the Unicode spaces.
  lemma SpacesAre(c: char)
    ensures IsSpace(c) <==>
            c in {'\t', '\n', '\U{000B}', '\U{000C}', '\r', '\U{001C}', '\U{001D}', '\U{001E}', '\U{001F}', ' ',
                  '\U{0085}', '\U{00A0}', '\U{1680}', '\U{2000}', '\U{2001}', '\U{2002}', '\U{2003}', '\U{2004}',
                  '\U{2005}', '\U{2006}', '\U{2007}', '\U{2008}', '\U{2009}', '\U{200A}', '\U{2028}', '\U{2029}',
                  '\U{202F}', '\U{205F}', '\U{3000}'}
  {
  }

  lemma {:induction false} StripLeftOf(left: string, s: string)
    requires AllSpace(left) && (s != "" ==> !IsSpace(s[0]))
    ensures StripLeft(left + s) == s
  {
    if left == "" {
      assert left + s == s;
    } else {
      assert (left + s)[1..] == left[1..] + s;
      StripLeftOf(left[1..], s);
    }
  }

  lemma {:induction false} StripRightOf(s: string, right: string)
    requires AllSpace(right) && (s != "" ==> !IsSpace(s[|s| - 1]))
    ensures StripRight(s + right) == s
  {
    if right == "" {
      assert s + right == s;
    } else {
      assert (s + right)[..|s + right| - 1] == s + right[..|right| - 1];
      StripRightOf(s, right[..|right| - 1]);
    }
  }

  // White space around text that has none at its ends is all that is taken.
  lemma StripOf(left: string, s: string, right: string)
    requires AllSpace(left) && AllSpace(right) && s != "" && !IsSpace(s[0]) && !IsSpace(s[|s| - 1])
    ensures Strip(left + s + right) == s
  {
    assert left + s + right == left + (s + right);
    StripLeftOf(left, s + right);
    StripRightOf(s, right);
  }
}
