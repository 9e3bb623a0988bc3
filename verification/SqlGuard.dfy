/** The read-only SQL validator (validate_readonly_sql in ingester/sql.py). */
module SqlGuard {
  import opened SqlSplit
  import opened Text
  import opened Wrappers

  const MAX_QUERY_CHARS: nat := 10000

  const ALLOWED_LEADING: set<string> :=
    {"SELECT", "WITH", "SHOW", "DESCRIBE", "EXPLAIN", "PRAGMA", "SUMMARIZE"}

  const BLACKLIST: set<string> :=
    {"INSERT", "UPDATE", "DELETE", "DROP", "CREATE", "ALTER", "TRUNCATE",
     "ATTACH", "DETACH", "LOAD", "INSTALL", "COPY", "IMPORT", "EXPORT",
     "CHECKPOINT", "CALL"}

  datatype SqlError =
    | Required
    | Empty
    | TooLong
    | EmptyWithoutComments
    | ManyStatements
    | NoKeyword
    | KeywordNotAllowed(word: string)
    | TokenNotAllowed

  // ---------- Comments ----------

  predicate DashAt(s: string, i: int) {
    0 <= i && i + 1 < |s| && s[i] == '-' && s[i + 1] == '-'
  }

  predicate OpensAt(s: string, i: int) {
    0 <= i && i + 1 < |s| && s[i] == '/' && s[i + 1] == '*'
  }

  predicate ClosesAt(s: string, i: int) {
    0 <= i && i + 1 < |s| && s[i] == '*' && s[i + 1] == '/'
  }

  // From the end of the line on: [^\n]* consumed.
  function DropLine(s: string): (r: string)
    ensures |r| <= |s|
    ensures r != "" ==> r[0] == '\n'
  {
    if s == "" || s[0] == '\n' then s else DropLine(s[1..])
  }

  // re.sub(r"--[^\n]*", " ", s)
  function StripLineComments(s: string): (r: string)
    ensures |r| <= |s|
    ensures s != "" ==> r != "" && (r[0] == s[0] || r[0] == ' ')
    decreases |s|
  {
    if s == "" then ""
    else if DashAt(s, 0) then " " + StripLineComments(DropLine(s[2..]))
    else [s[0]] + StripLineComments(s[1..])
  }

  // The first "*/".
  function FindCloser(s: string): (r: Option<nat>)
    ensures r.Some? ==> ClosesAt(s, r.value)
    ensures r.None? ==> forall i :: !ClosesAt(s, i)
  {
    if |s| < 2 then None
    else if ClosesAt(s, 0) then Some(0)
    else
      var r := FindCloser(s[1..]);
      assert forall i | i > 0 :: ClosesAt(s, i) <==> ClosesAt(s[1..], i - 1);
      if r.None? then None else Some(r.value + 1)
  }

  // re.sub(r"/\*.*?\*/", " ", s, flags=DOTALL)
  function StripBlockComments(s: string): (r: string)
    ensures |r| <= |s|
    ensures s != "" ==> r != "" && (r[0] == s[0] || r[0] == ' ')
  {
    if s == "" then ""
    else if OpensAt(s, 0) && FindCloser(s[2..]).Some? then
      " " + StripBlockComments(s[2 + FindCloser(s[2..]).value + 2..])
    else [s[0]] + StripBlockComments(s[1..])
  }

  function StripComments(s: string): string {
    StripBlockComments(StripLineComments(s))
  }

  // ---------- The validator ----------

  predicate IsKeywordChar(c: char) {
    'A' <= c <= 'Z' || 'a' <= c <= 'z' || c == '_'
  }

  function TakeWord(s: string): string {
    if s == "" || !IsKeywordChar(s[0]) then "" else [s[0]] + TakeWord(s[1..])
  }

  function ToUpper(c: char): char {
    if 'a' <= c <= 'z' then ((c as int) - 32) as char else c
  }

  function Upper(s: string): string {
    seq(|s|, i requires 0 <= i < |s| => ToUpper(s[i]))
  }

  function FirstWord(s: string): string {
    Upper(TakeWord(StripLeft(s)))
  }

  // Case folding of re.IGNORECASE onto the letters A to Z.
  function Fold(c: char): char {
    if c == '\U{0130}' || c == '\U{0131}' then 'I'
    else if c == '\U{017F}' then 'S'
    else if c == '\U{212A}' then 'K'
    else ToUpper(c)
  }

  // \b at position i; `wordChar` is the engine's \w.
  predicate Boundary(wordChar: char -> bool, s: string, i: int)
    requires 0 <= i <= |s|
  {
    (i > 0 && wordChar(s[i - 1])) != (i < |s| && wordChar(s[i]))
  }

  predicate WordAt(wordChar: char -> bool, s: string, i: int, w: string) {
    && 0 <= i && i + |w| <= |s|
    && Boundary(wordChar, s, i) && Boundary(wordChar, s, i + |w|)
    && forall k | 0 <= k < |w| :: Fold(s[i + k]) == w[k]
  }

  predicate Blacklisted(wordChar: char -> bool, s: string) {
    exists w, i | w in BLACKLIST && 0 <= i <= |s| :: WordAt(wordChar, s, i, w)
  }

  // The single statement of a query, comments gone.
  function TheStatement(chunks: seq<string>): Result<string, SqlError> {
    if |chunks| == 0 then Err(EmptyWithoutComments)
    else if |chunks| > 1 then Err(ManyStatements)
    else Ok(chunks[0])
  }

  function BodyOf(q: Option<string>): Result<string, SqlError> {
    if q.None? then Err(Required)
    else
      var stripped := Strip(q.value);
      if stripped == "" then Err(Empty)
      else if |stripped| > MAX_QUERY_CHARS then Err(TooLong)
      else TheStatement(Chunks(StripComments(stripped)))
  }

  // The checks on the body, given its first word.
  function CheckWords(wordChar: char -> bool, word: string, body: string): Result<string, SqlError> {
    if word == "" then Err(NoKeyword)
    else if word !in ALLOWED_LEADING then Err(KeywordNotAllowed(word))
    else if Blacklisted(wordChar, body) then Err(TokenNotAllowed)
    else Ok(body)
  }

  function CheckBody(wordChar: char -> bool, body: string): Result<string, SqlError> {
    CheckWords(wordChar, FirstWord(body), body)
  }

  function ValidateReadonlySql(wordChar: char -> bool, q: Option<string>): Result<string, SqlError> {
    var body := BodyOf(q);
    if body.Err? then body else CheckBody(wordChar, body.value)
  }

  // ---------- What stripping comments leaves ----------

  ghost predicate NoLineComment(s: string) {
    forall i :: !DashAt(s, i)
  }

  // No opener with a closer beyond it.
  ghost predicate NoBlockComment(s: string) {
    forall i, j | OpensAt(s, i) && ClosesAt(s, j) :: j < i + 2
  }

  lemma {:induction false} LineCommentsGone(s: string)
    ensures NoLineComment(StripLineComments(s))
    decreases |s|
  {
    var r := StripLineComments(s);
    if s != "" {
      var t := if DashAt(s, 0) then DropLine(s[2..]) else s[1..];
      LineCommentsGone(t);
      forall i ensures !DashAt(r, i) {
        assert DashAt(r, i) && i > 0 ==> DashAt(StripLineComments(t), i - 1);
      }
    }
  }

  lemma {:induction false} NoLineCommentUnchanged(s: string)
    requires NoLineComment(s)
    ensures StripLineComments(s) == s
  {
    if s != "" {
      assert !DashAt(s, 0);
      forall i ensures !DashAt(s[1..], i) {
        assert !DashAt(s, i + 1);
      }
      NoLineCommentUnchanged(s[1..]);
    }
  }

  // Replacing block comments by a space joins no two dashes.
  lemma {:induction false} BlockKeepsNoLine(s: string)
    requires NoLineComment(s)
    ensures NoLineComment(StripBlockComments(s))
    decreases |s|
  {
    var r := StripBlockComments(s);
    if s != "" {
      var n := if OpensAt(s, 0) && FindCloser(s[2..]).Some? then 4 + FindCloser(s[2..]).value else 1;
      var t := s[n..];
      forall i ensures !DashAt(t, i) {
        assert !DashAt(s, i + n);
      }
      BlockKeepsNoLine(t);
      assert !DashAt(s, 0);
      forall i ensures !DashAt(r, i) {
        assert DashAt(r, i) && i > 0 ==> DashAt(StripBlockComments(t), i - 1);
      }
    }
  }

  // Text without a closer has no complete comment.
  lemma {:induction false} NoCloserUnchanged(s: string)
    requires forall i :: !ClosesAt(s, i)
    ensures StripBlockComments(s) == s
    decreases |s|
  {
    if s != "" {
      forall i ensures |s| >= 2 ==> !ClosesAt(s[2..], i) {
        assert !ClosesAt(s, i + 2);
      }
      forall i ensures !ClosesAt(s[1..], i) {
        assert !ClosesAt(s, i + 1);
      }
      NoCloserUnchanged(s[1..]);
    }
  }

  lemma {:induction false} BlockCommentsGone(s: string)
    ensures NoBlockComment(StripBlockComments(s))
    decreases |s|
  {
    if s != "" {
      if OpensAt(s, 0) && FindCloser(s[2..]).Some? {
        var t := s[2 + FindCloser(s[2..]).value + 2..];
        BlockCommentsGone(t);
        PrependBlock(' ', StripBlockComments(t));
      } else if OpensAt(s, 0) {
        UnclosedUnchanged(s);
      } else {
        BlockCommentsGone(s[1..]);
        PrependBlock(s[0], StripBlockComments(s[1..]));
      }
    }
  }

  // A character that does not open a comment with what follows.
  lemma PrependBlock(c: char, s: string)
    requires NoBlockComment(s) && !OpensAt([c] + s, 0)
    ensures NoBlockComment([c] + s)
  {
    var r := [c] + s;
    forall i, j | OpensAt(r, i) && ClosesAt(r, j) ensures j < i + 2 {
      assert OpensAt(s, i - 1);
      assert j > 0 ==> ClosesAt(s, j - 1);
    }
  }

  // An opener that nothing closes stays, and so does everything after it.
  lemma UnclosedUnchanged(s: string)
    requires OpensAt(s, 0) && FindCloser(s[2..]).None?
    ensures StripBlockComments(s) == s && NoBlockComment(s)
  {
    var t := s[2..];
    NoCloserUnchanged(t);
    assert s[1..][1..] == t && StripBlockComments(s[1..]) == [s[1]] + t;
    forall i, j | OpensAt(s, i) && ClosesAt(s, j) ensures j < i + 2 {
      assert j >= 2 ==> ClosesAt(t, j - 2);
    }
  }

  lemma {:induction false} NoBlockCommentUnchanged(s: string)
    requires NoBlockComment(s)
    ensures StripBlockComments(s) == s
    decreases |s|
  {
    if s != "" {
      if OpensAt(s, 0) {
        forall j ensures !ClosesAt(s[2..], j) {
          assert ClosesAt(s[2..], j) ==> ClosesAt(s, j + 2);
        }
      }
      forall i, j | OpensAt(s[1..], i) && ClosesAt(s[1..], j) ensures j < i + 2 {
        assert OpensAt(s, i + 1) && ClosesAt(s, j + 1);
      }
      NoBlockCommentUnchanged(s[1..]);
    }
  }

  // Stripping leaves no comment, and leaves text alone exactly when it has none. String
  // literals make no difference: a "--" inside quotes is a comment like any other.
  lemma StripCommentsIff(s: string)
    ensures NoLineComment(StripComments(s)) && NoBlockComment(StripComments(s))
    ensures StripComments(s) == s <==> NoLineComment(s) && NoBlockComment(s)
  {
    LineCommentsGone(s);
    BlockKeepsNoLine(StripLineComments(s));
    BlockCommentsGone(StripLineComments(s));
    if NoLineComment(s) && NoBlockComment(s) {
      NoLineCommentUnchanged(s);
      NoBlockCommentUnchanged(s);
    }
  }

  // ---------- What stripping comments takes away ----------

  lemma {:induction false} LineDropped(c: string, rest: string)
    requires (forall i | 0 <= i < |c| :: c[i] != '\n') && (rest != "" ==> rest[0] == '\n')
    ensures DropLine(c + rest) == rest
  {
    if c == "" {
      assert c + rest == rest;
    } else {
      assert (c + rest)[1..] == c[1..] + rest;
      LineDropped(c[1..], rest);
    }
  }

  // The first double dash and the rest of its line, no more and no less, become one space.
  lemma {:induction false} LineCommentCut(a: string, c: string, rest: string)
    requires forall i | 0 <= i < |a| :: !DashAt(a + "--", i)
    requires (forall i | 0 <= i < |c| :: c[i] != '\n') && (rest != "" ==> rest[0] == '\n')
    ensures StripLineComments(a + "--" + c + rest) == a + " " + StripLineComments(rest)
  {
    var s := a + "--" + c + rest;
    if a == "" {
      assert s[2..] == c + rest && DashAt(s, 0);
      LineDropped(c, rest);
    } else {
      assert !DashAt(a + "--", 0) && !DashAt(s, 0);
      assert s[1..] == a[1..] + "--" + c + rest;
      forall i | 0 <= i < |a[1..]| ensures !DashAt(a[1..] + "--", i) {
        assert !DashAt(a + "--", i + 1);
      }
      LineCommentCut(a[1..], c, rest);
    }
  }

  lemma {:induction false} FirstCloser(c: string, rest: string)
    requires forall i | 0 <= i < |c| :: !ClosesAt(c + "*/", i)
    ensures FindCloser(c + "*/" + rest) == Some(|c|)
  {
    var s := c + "*/" + rest;
    if c == "" {
      assert ClosesAt(s, 0);
    } else {
      assert !ClosesAt(c + "*/", 0) && !ClosesAt(s, 0);
      assert s[1..] == c[1..] + "*/" + rest;
      forall i | 0 <= i < |c[1..]| ensures !ClosesAt(c[1..] + "*/", i) {
        assert !ClosesAt(c + "*/", i + 1);
      }
      FirstCloser(c[1..], rest);
    }
  }

  // The first opener through the first closer after it become one space.
  lemma {:induction false} BlockCommentCut(a: string, c: string, rest: string)
    requires forall i | 0 <= i < |a| :: !OpensAt(a + "/*", i)
    requires forall i | 0 <= i < |c| :: !ClosesAt(c + "*/", i)
    ensures StripBlockComments(a + "/*" + c + "*/" + rest) == a + " " + StripBlockComments(rest)
  {
    var s := a + "/*" + c + "*/" + rest;
    if a == "" {
      FirstCloser(c, rest);
      assert s[2..] == c + "*/" + rest && OpensAt(s, 0);
      assert s[2 + |c| + 2..] == rest;
    } else {
      assert !OpensAt(a + "/*", 0) && !OpensAt(s, 0);
      assert s[1..] == a[1..] + "/*" + c + "*/" + rest;
      forall i | 0 <= i < |a[1..]| ensures !OpensAt(a[1..] + "/*", i) {
        assert !OpensAt(a + "/*", i + 1);
      }
      BlockCommentCut(a[1..], c, rest);
    }
  }

  // Line comments go first: one inside a block comment takes the closer with it.
  lemma LineCommentsFirst(a: string, c: string)
    requires (forall i | 0 <= i < |a| :: !DashAt(a + "--", i)) && (forall i | 0 <= i < |c| :: c[i] != '\n')
    ensures StripComments(a + "--" + c) == StripBlockComments(a + " ")
  {
    LineCommentCut(a, c, "");
    assert a + "--" + c + "" == a + "--" + c && a + " " + "" == a + " ";
  }

  // ---------- The theorem ----------

  // A single statement without comments, with nothing to strip.
  ghost predicate Bare(b: string) {
    Tight(b) && NoLineComment(b) && NoBlockComment(b)
  }

  // c is the capital w in either case, the four other letters that re.IGNORECASE folds to one
  // included.
  predicate SameLetter(c: char, w: char) {
    || c == w
    || c as int == w as int + 32
    || (w == 'I' && (c as int == 0x130 || c as int == 0x131))
    || (w == 'S' && c as int == 0x17F)
    || (w == 'K' && c as int == 0x212A)
  }

  // A word begins or ends at i: just one of its neighbours is a word character.
  predicate EdgeAt(wordChar: char -> bool, s: string, i: int) {
    (0 < i <= |s| && wordChar(s[i - 1])) <==> !(0 <= i < |s| && wordChar(s[i]))
  }

  // The word w stands at i, in any mix of cases.
  predicate TokenAt(wordChar: char -> bool, s: string, i: int, w: string) {
    && 0 <= i && i + |w| <= |s|
    && EdgeAt(wordChar, s, i) && EdgeAt(wordChar, s, i + |w|)
    && forall k | 0 <= k < |w| :: SameLetter(s[i + k], w[k])
  }

  // The text begins with w in any mix of cases, and the word ends there.
  predicate LeadsWith(s: string, w: string) {
    && |w| <= |s|
    && (forall k | 0 <= k < |w| :: s[k] == w[k] || s[k] as int == w[k] as int + 32)
    && (|w| < |s| ==> !('A' <= s[|w|] <= 'Z') && !('a' <= s[|w|] <= 'z') && s[|w|] != '_')
  }

  predicate IsReadWord(w: string) {
    w in {"SELECT", "WITH", "SHOW", "DESCRIBE", "EXPLAIN", "PRAGMA", "SUMMARIZE"}
  }

  predicate IsWriteWord(w: string) {
    w in {"INSERT", "UPDATE", "DELETE", "DROP", "CREATE", "ALTER", "TRUNCATE", "ATTACH", "DETACH", "LOAD",
          "INSTALL", "COPY", "IMPORT", "EXPORT", "CHECKPOINT", "CALL"}
  }

  ghost predicate HoldsWriteWord(wordChar: char -> bool, s: string) {
    exists w, i :: IsWriteWord(w) && TokenAt(wordChar, s, i, w)
  }

  ghost predicate Reading(b: string) {
    exists w :: IsReadWord(w) && LeadsWith(b, w)
  }

  // What the validator promises of a statement it lets through: it begins with a reading word
  // and holds no writing word.
  ghost predicate Clean(wordChar: char -> bool, b: string) {
    Bare(b) && Reading(b) && !HoldsWriteWord(wordChar, b)
  }

  // A query long enough and short enough to be looked at.
  predicate Admissible(q: string) {
    Strip(q) != "" && |Strip(q)| <= 10000
  }

  // ---------- Words ----------

  predicate Capitals(w: string) {
    forall k | 0 <= k < |w| :: 'A' <= w[k] <= 'Z'
  }

  lemma ListsAreCapitals(w: string)
    requires w in ALLOWED_LEADING || w in BLACKLIST
    ensures Capitals(w) && w != ""
  {
  }

  lemma FoldIff(c: char, w: char)
    requires 'A' <= w <= 'Z'
    ensures Fold(c) == w <==> SameLetter(c, w)
  {
  }

  lemma WordAtIff(wordChar: char -> bool, s: string, i: int, w: string)
    requires Capitals(w)
    ensures WordAt(wordChar, s, i, w) <==> TokenAt(wordChar, s, i, w)
  {
    if 0 <= i && i + |w| <= |s| {
      forall k | 0 <= k < |w| ensures Fold(s[i + k]) == w[k] <==> SameLetter(s[i + k], w[k]) {
        FoldIff(s[i + k], w[k]);
      }
    }
  }

  lemma BlacklistedIff(wordChar: char -> bool, s: string)
    ensures Blacklisted(wordChar, s) <==> HoldsWriteWord(wordChar, s)
  {
    forall w, i | w in BLACKLIST ensures WordAt(wordChar, s, i, w) <==> TokenAt(wordChar, s, i, w) {
      ListsAreCapitals(w);
      WordAtIff(wordChar, s, i, w);
    }
    if w, i :| IsWriteWord(w) && TokenAt(wordChar, s, i, w) {
      assert WordAt(wordChar, s, i, w);
    }
    if w, i :| w in BLACKLIST && 0 <= i <= |s| && WordAt(wordChar, s, i, w) {
      assert IsWriteWord(w) && TokenAt(wordChar, s, i, w);
    }
  }

  lemma {:induction false} TakeWordIff(s: string, w: string)
    requires Capitals(w)
    ensures Upper(TakeWord(s)) == w <==> LeadsWith(s, w)
  {
    var t := Upper(TakeWord(s));
    if s != "" && IsKeywordChar(s[0]) {
      assert t == [ToUpper(s[0])] + Upper(TakeWord(s[1..]));
      if w != "" {
        TakeWordIff(s[1..], w[1..]);
        assert w == [w[0]] + w[1..];
        assert LeadsWith(s, w) <==> ToUpper(s[0]) == w[0] && LeadsWith(s[1..], w[1..]) by {
          LeadsStep(s, w);
        }
      }
    } else {
      assert LeadsWith(s, w) ==> w == "";
    }
  }

  lemma LeadsStep(s: string, w: string)
    requires Capitals(w) && w != "" && s != "" && IsKeywordChar(s[0])
    ensures LeadsWith(s, w) <==> ToUpper(s[0]) == w[0] && LeadsWith(s[1..], w[1..])
  {
    assert ToUpper(s[0]) == w[0] <==> s[0] == w[0] || s[0] as int == w[0] as int + 32;
    if LeadsWith(s[1..], w[1..]) && ToUpper(s[0]) == w[0] {
      forall k | 0 <= k < |w| ensures s[k] == w[k] || s[k] as int == w[k] as int + 32 {
        if k > 0 {
          assert s[1..][k - 1] == s[k] && w[1..][k - 1] == w[k];
        }
      }
    }
  }

  lemma FirstWordIs(b: string, w: string)
    requires Tight(b) && w in ALLOWED_LEADING
    ensures FirstWord(b) == w <==> LeadsWith(b, w)
  {
    hide TakeWord, Upper, LeadsWith;
    assert StripLeft(b) == b;
    ListsAreCapitals(w);
    TakeWordIff(b, w);
  }

  lemma FirstWordIff(b: string)
    requires Tight(b)
    ensures FirstWord(b) in ALLOWED_LEADING <==> Reading(b)
  {
    hide FirstWord, LeadsWith, Tight;
    if FirstWord(b) in ALLOWED_LEADING {
      FirstWordIs(b, FirstWord(b));
      assert IsReadWord(FirstWord(b));
    }
    if w :| IsReadWord(w) && LeadsWith(b, w) {
      FirstWordIs(b, w);
    }
  }

  lemma CleanIff(wordChar: char -> bool, b: string)
    ensures Clean(wordChar, b) <==> Bare(b) && FirstWord(b) in ALLOWED_LEADING && !Blacklisted(wordChar, b)
  {
    if Bare(b) {
      FirstWordIff(b);
      BlacklistedIff(wordChar, b);
    }
  }

  // Where letters are word characters, a writing word counts exactly when no word character
  // touches it.
  lemma TokenStandsAlone(wordChar: char -> bool, s: string, i: int, w: string)
    requires IsWriteWord(w) && forall c, l | 'A' <= l <= 'Z' && SameLetter(c, l) :: wordChar(c)
    ensures TokenAt(wordChar, s, i, w) <==>
            && 0 <= i && i + |w| <= |s| && (forall k | 0 <= k < |w| :: SameLetter(s[i + k], w[k]))
            && (i > 0 ==> !wordChar(s[i - 1])) && (i + |w| < |s| ==> !wordChar(s[i + |w|]))
  {
    hide SameLetter, IsWriteWord;
    assert Capitals(w) && w != "" by {
      WriteWordsAreCapitals(w);
    }
    if 0 <= i && i + |w| <= |s| && (forall k | 0 <= k < |w| :: SameLetter(s[i + k], w[k])) {
      assert SameLetter(s[i + 0], w[0]) && wordChar(s[i]);
      assert SameLetter(s[i + (|w| - 1)], w[|w| - 1]) && wordChar(s[i + |w| - 1]);
    }
  }

  lemma WriteWordsAreCapitals(w: string)
    requires IsWriteWord(w)
    ensures Capitals(w) && w != ""
  {
    assert w in BLACKLIST;
    ListsAreCapitals(w);
  }

  // A slice of comment-free text is comment-free.
  lemma SliceKeeps(s: string, t: string)
    requires IsSlice(s, t)
    ensures |t| <= |s|
    ensures NoLineComment(s) ==> NoLineComment(t)
    ensures NoBlockComment(s) ==> NoBlockComment(t)
  {
    var i :| SliceAt(s, t, i);
    forall k ensures DashAt(t, k) ==> DashAt(s, i + k) {
    }
    forall k ensures OpensAt(t, k) ==> OpensAt(s, i + k) {
    }
    forall k ensures ClosesAt(t, k) ==> ClosesAt(s, i + k) {
    }
  }

  // A core of comment-free text is a piece of it, and bare.
  lemma CoreIsBare(s: string, b: string)
    requires IsCore(s, b) && NoLineComment(s) && NoBlockComment(s)
    ensures Bare(b) && IsSlice(s, b) && |b| <= |s|
  {
    var i :| CoreAt(s, b, i);
    assert SliceAt(s, b, i);
    SliceKeeps(s, b);
  }

  lemma StripCommentsShrinks(s: string)
    ensures |StripComments(s)| <= |s|
  {
  }

  lemma StatementIff(s: string, b: string)
    ensures TheStatement(Chunks(s)) == Err(EmptyWithoutComments) <==> Blank(s)
    ensures TheStatement(Chunks(s)) == Err(ManyStatements) <==> Stacked(s)
    ensures TheStatement(Chunks(s)) == Ok(b) <==> IsCore(s, b)
  {
    ChunksIff(s, b);
    if |Chunks(s)| == 1 {
      assert Chunks(s) == [Chunks(s)[0]];
    }
  }

  lemma BodyCases(q: string)
    ensures BodyOf(Some(q)) ==
            if Strip(q) == "" then Err(Empty)
            else if |Strip(q)| > MAX_QUERY_CHARS then Err(TooLong)
            else TheStatement(Chunks(StripComments(Strip(q))))
    ensures BodyOf(None) == Err(Required)
  {
  }

  // The comment-free text decides: nothing visible, visible text on both sides of a
  // semicolon, or a core, which is the body.
  lemma BodyIff(q: string, b: string)
    ensures var s := StripComments(Strip(q));
            && (BodyOf(Some(q)) == Err(EmptyWithoutComments) <==> Admissible(q) && Blank(s))
            && (BodyOf(Some(q)) == Err(ManyStatements) <==> Admissible(q) && Stacked(s))
            && (BodyOf(Some(q)) == Ok(b) <==> Admissible(q) && IsCore(s, b))
  {
    StatementIff(StripComments(Strip(q)), b);
    BodyCases(q);
  }

  lemma CheckedWords(wordChar: char -> bool, word: string, b: string)
    ensures CheckWords(wordChar, word, b).Ok? <==> word in ALLOWED_LEADING && !Blacklisted(wordChar, b)
    ensures CheckWords(wordChar, word, b).Ok? ==> CheckWords(wordChar, word, b).value == b
    ensures CheckWords(wordChar, word, b) != Err(ManyStatements)
    ensures CheckWords(wordChar, word, b) != Err(EmptyWithoutComments)
  {
    if word in ALLOWED_LEADING {
      assert |word| > 0;
    }
  }

  lemma CheckedBody(wordChar: char -> bool, b: string)
    ensures CheckBody(wordChar, b).Ok? <==> FirstWord(b) in ALLOWED_LEADING && !Blacklisted(wordChar, b)
    ensures CheckBody(wordChar, b).Ok? ==> CheckBody(wordChar, b).value == b
    ensures CheckBody(wordChar, b) != Err(ManyStatements)
    ensures CheckBody(wordChar, b) != Err(EmptyWithoutComments)
  {
    CheckedWords(wordChar, FirstWord(b), b);
  }

  // The validator in terms of its two halves.
  lemma ValidateCases(wordChar: char -> bool, q: Option<string>)
    ensures BodyOf(q).Err? ==> ValidateReadonlySql(wordChar, q) == BodyOf(q)
    ensures BodyOf(q).Ok? ==> ValidateReadonlySql(wordChar, q) == CheckBody(wordChar, BodyOf(q).value)
  {
  }

  // What the validator returns, exactly: the clean core of the comment-free text. Any run of
  // semicolons and white space around it is dropped.
  lemma AcceptedIff(wordChar: char -> bool, q: string, b: string)
    ensures ValidateReadonlySql(wordChar, Some(q)) == Ok(b)
            <==> Admissible(q) && IsCore(StripComments(Strip(q)), b) && Clean(wordChar, b)
  {
    ValidateCases(wordChar, Some(q));
    BodyIff(q, b);
    CheckedBody(wordChar, b);
    CleanIff(wordChar, b);
    if BodyOf(Some(q)).Ok? {
      CheckedBody(wordChar, BodyOf(Some(q)).value);
    }
    if IsCore(StripComments(Strip(q)), b) {
      StripCommentsIff(Strip(q));
      CoreIsBare(StripComments(Strip(q)), b);
    }
  }

  predicate BeginsWithWord(b: string) {
    b != "" && ('A' <= b[0] <= 'Z' || 'a' <= b[0] <= 'z' || b[0] == '_')
  }

  lemma RefusedBody(wordChar: char -> bool, b: string)
    requires Tight(b)
    ensures var r := CheckBody(wordChar, b);
            && (r == Err(NoKeyword) <==> !BeginsWithWord(b))
            && (r.Err? && r.error.KeywordNotAllowed? <==> BeginsWithWord(b) && !Reading(b))
            && (r == Err(TokenNotAllowed) <==> Reading(b) && HoldsWriteWord(wordChar, b))
  {
    hide HoldsWriteWord, LeadsWith, Blacklisted, FirstWord, Tight;
    FirstWordIff(b);
    BlacklistedIff(wordChar, b);
    NoFirstWordIff(b);
  }

  // Why a single statement is refused: it begins with no word, with one that does not read,
  // or it holds a writing word.
  lemma RefusedIff(wordChar: char -> bool, q: string, b: string)
    requires Admissible(q) && IsCore(StripComments(Strip(q)), b)
    ensures var r := ValidateReadonlySql(wordChar, Some(q));
            && (r == Err(NoKeyword) <==> !BeginsWithWord(b))
            && (r.Err? && r.error.KeywordNotAllowed? <==> BeginsWithWord(b) && !Reading(b))
            && (r == Err(TokenNotAllowed) <==> Reading(b) && HoldsWriteWord(wordChar, b))
  {
    hide CheckBody, HoldsWriteWord, Reading, BodyOf, ValidateReadonlySql;
    ValidateCases(wordChar, Some(q));
    BodyIff(q, b);
    RefusedBody(wordChar, b);
  }

  lemma NoFirstWordIff(b: string)
    requires Tight(b)
    ensures FirstWord(b) == "" <==> !BeginsWithWord(b)
  {
    assert StripLeft(b) == b;
  }

  // Stacked statements are rejected as such, with comments, white space and repeated
  // semicolons around them or not, and nothing else is.
  lemma StackedRejectedIff(wordChar: char -> bool, q: string)
    ensures ValidateReadonlySql(wordChar, Some(q)) == Err(ManyStatements)
            <==> Admissible(q) && Stacked(StripComments(Strip(q)))
  {
    ValidateCases(wordChar, Some(q));
    BodyIff(q, "");
    if BodyOf(Some(q)).Ok? {
      CheckedBody(wordChar, BodyOf(Some(q)).value);
    }
  }

  // Likewise queries with nothing but comments, white space and semicolons.
  lemma NothingLeftIff(wordChar: char -> bool, q: string)
    ensures ValidateReadonlySql(wordChar, Some(q)) == Err(EmptyWithoutComments)
            <==> Admissible(q) && Blank(StripComments(Strip(q)))
  {
    ValidateCases(wordChar, Some(q));
    BodyIff(q, "");
    if BodyOf(Some(q)).Ok? {
      CheckedBody(wordChar, BodyOf(Some(q)).value);
    }
  }

  // A missing or blank query is rejected as such, and so is one beyond the length limit.
  lemma RejectedEarly(wordChar: char -> bool, q: string)
    ensures ValidateReadonlySql(wordChar, None) == Err(Required)
    ensures (forall i | 0 <= i < |q| :: IsSpace(q[i])) ==> ValidateReadonlySql(wordChar, Some(q)) == Err(Empty)
    ensures |Strip(q)| > MAX_QUERY_CHARS ==> ValidateReadonlySql(wordChar, Some(q)) == Err(TooLong)
  {
    StripBlank(q);
    ValidateCases(wordChar, None);
    ValidateCases(wordChar, Some(q));
    BodyCases(q);
  }

  // Whatever the validator returns is clean, no longer than the stripped query, and a piece
  // of it once comments are gone.
  lemma AcceptedIsClean(wordChar: char -> bool, q: string, b: string)
    requires ValidateReadonlySql(wordChar, Some(q)) == Ok(b)
    ensures Clean(wordChar, b) && |b| <= |Strip(q)| <= MAX_QUERY_CHARS && IsSlice(StripComments(Strip(q)), b)
  {
    AcceptedIff(wordChar, q, b);
    StripCommentsIff(Strip(q));
    StripCommentsShrinks(Strip(q));
    CoreIsBare(StripComments(Strip(q)), b);
  }

  // The validator accepts a clean statement of admissible length as it is.
  lemma CleanIsAccepted(wordChar: char -> bool, b: string)
    requires Clean(wordChar, b) && |b| <= MAX_QUERY_CHARS
    ensures ValidateReadonlySql(wordChar, Some(b)) == Ok(b)
  {
    StripTight(b);
    StripCommentsIff(b);
    TightCore(b);
    AcceptedIff(wordChar, b, b);
  }

  // So it is a projection: whatever it returns it returns again.
  lemma ValidatorIsProjection(wordChar: char -> bool, q: string, b: string)
    requires ValidateReadonlySql(wordChar, Some(q)) == Ok(b)
    ensures ValidateReadonlySql(wordChar, Some(b)) == Ok(b)
  {
    AcceptedIsClean(wordChar, q, b);
    CleanIsAccepted(wordChar, b);
  }

  // The validator's whole range: the clean statements of admissible length, no others.
  lemma RangeIff(wordChar: char -> bool, b: string)
    ensures (exists q :: ValidateReadonlySql(wordChar, Some(q)) == Ok(b)) <==> Clean(wordChar, b) && |b| <= MAX_QUERY_CHARS
  {
    if q :| ValidateReadonlySql(wordChar, Some(q)) == Ok(b) {
      AcceptedIsClean(wordChar, q, b);
    }
    if Clean(wordChar, b) && |b| <= MAX_QUERY_CHARS {
      CleanIsAccepted(wordChar, b);
    }
  }
}
