/** Worktree branch and directory names, and the properties that read them back. */
module Naming {
  import opened Options
  import opened PyText

  /** The class `[a-z0-9._]`. */
  predicate Safe(c: char) { 'a' <= c <= 'z' || '0' <= c <= '9' || c == '.' || c == '_' }

  predicate Unsafe(c: char) { !Safe(c) }

  predicate Edge(c: char) { c == '-' || c == '.' || c == '_' }

  /** `replace(" ", "-")`. */
  function SpacesToHyphens(s: string): (r: string)
    ensures |r| == |s| && forall i :: 0 <= i < |s| ==> r[i] == if s[i] == ' ' then '-' else s[i]
  {
    if s == "" then "" else [if s[0] == ' ' then '-' else s[0]] + SpacesToHyphens(s[1..])
  }

  /** `_SAFE_SEGMENT.sub("-", s)`: each run of unsafe characters becomes one hyphen. */
  function Collapse(s: string): string
    decreases |s|
  {
    if s == "" then ""
    else if Safe(s[0]) then [s[0]] + Collapse(s[1..])
    else ['-'] + Collapse(DropLeft(s, Unsafe))
  }

  /** `lower` is `str.lower`, whatever it does to letters outside ASCII. */
  function Sanitize(lower: string -> string, segment: string): string {
    var cleaned := Strip(Collapse(SpacesToHyphens(lower(Strip(segment, IsSpace)))), Edge);
    if cleaned == "" then "x" else cleaned
  }

  function BranchName(lower: string -> string, runId: string, task: string): string {
    "wt/" + Sanitize(lower, runId) + "/" + Sanitize(lower, task)
  }

  function DirectoryName(lower: string -> string, runId: string, task: string, sha: string): string {
    "wt-" + Sanitize(lower, runId) + "-" + Sanitize(lower, task) + "-" + sha
  }

  // ---- WorktreeInfo properties ----

  const HEADS := "refs/heads/"

  function BranchShort(branch: Option<string>): Option<string> {
    if branch.None? then None
    else if StartsWith(branch.value, HEADS) then Some(branch.value[|HEADS|..])
    else branch
  }

  /** The second part of `split("/", 2)`, when the first is `wt`. */
  function RunId(branch: Option<string>): Option<string> {
    var short := BranchShort(branch);
    if short.None? || short.value == "" then None
    else if !Has(short.value, '/') || Before(short.value, '/') != "wt" then None
    else Some(Before(After(short.value, '/'), '/'))
  }

  /** The third part of `split("/", 2)`. */
  function TaskSlug(branch: Option<string>): Option<string> {
    var short := BranchShort(branch);
    if short.None? || short.value == "" then None
    else if !Has(short.value, '/') || Before(short.value, '/') != "wt" then None
    else
      var rest := After(short.value, '/');
      if !Has(rest, '/') then None else Some(After(rest, '/'))
  }

  // ---- the shape of a sanitised segment ----

  ghost predicate Alphabet(s: string) { forall i :: 0 <= i < |s| ==> Safe(s[i]) || s[i] == '-' }

  ghost predicate NoDoubleHyphen(s: string) {
    forall i, j :: 0 <= i && j == i + 1 && j < |s| ==> !(s[i] == '-' && s[j] == '-')
  }

  lemma {:induction false} CollapseShape(s: string)
    ensures Alphabet(Collapse(s)) && NoDoubleHyphen(Collapse(s))
    ensures s != "" && Safe(s[0]) ==> Collapse(s) != "" && Collapse(s)[0] == s[0]
    ensures s == "" ==> Collapse(s) == ""
    decreases |s|
  {
    if s == "" {
    } else if Safe(s[0]) {
      CollapseShape(s[1..]);
    } else {
      CollapseShape(DropLeft(s, Unsafe));
    }
  }

  /** Nothing to collapse. */
  lemma {:induction false} CollapseFixed(s: string)
    requires Alphabet(s) && NoDoubleHyphen(s)
    ensures Collapse(s) == s
    decreases |s|
  {
    if s == "" {
    } else {
      assert forall i :: 0 <= i < |s| - 1 ==> s[1..][i] == s[i + 1];
      CollapseFixed(s[1..]);
      if !Safe(s[0]) {
        assert |s| > 1 ==> Safe(s[1]);
        assert DropLeft(s, Unsafe) == DropLeft(s[1..], Unsafe) == s[1..];
      }
      assert s == [s[0]] + s[1..];
    }
  }

  ghost predicate Clean(s: string) {
    && s != "" && Alphabet(s) && NoDoubleHyphen(s) && !Edge(s[0]) && !Edge(s[|s| - 1])
  }

  lemma SliceClean(c: string, r: string, i: nat)
    requires Alphabet(c) && NoDoubleHyphen(c) && i + |r| <= |c| && r == c[i..i + |r|]
    ensures Alphabet(r) && NoDoubleHyphen(r)
  {
    assert forall k :: 0 <= k < |r| ==> r[k] == c[i + k];
  }

  lemma XIsClean()
    ensures Clean("x")
  {
  }

  /** The last two steps, for any text. */
  lemma CollapseStripClean(u: string)
    ensures Strip(Collapse(u), Edge) != "" ==> Clean(Strip(Collapse(u), Edge))
  {
    var c := Collapse(u);
    CollapseShape(u);
    var i := StripIsSlice(c, Edge);
    SliceClean(c, Strip(c, Edge), i);
  }

  /** A sanitised segment is never empty, uses only `[a-z0-9._-]`, has no two hyphens in a
      row and neither starts nor ends with `-`, `.` or `_`. */
  lemma SanitizeIsClean(lower: string -> string, segment: string)
    ensures Clean(Sanitize(lower, segment))
  {
    XIsClean();
    CollapseStripClean(SpacesToHyphens(lower(Strip(segment, IsSpace))));
  }

  /** `str.lower` leaves text in the safe alphabet alone. */
  ghost predicate LowerFixesSafe(lower: string -> string) {
    forall t :: Alphabet(t) ==> lower(t) == t
  }

  lemma NoSpaces(t: string)
    requires Alphabet(t)
    ensures SpacesToHyphens(t) == t
  {
  }

  lemma CleanFixed(lower: string -> string, t: string)
    requires Clean(t) && LowerFixesSafe(lower)
    ensures Sanitize(lower, t) == t
  {
    StripNothing(t, IsSpace);
    NoSpaces(t);
    CollapseFixed(t);
    StripNothing(t, Edge);
  }

  /** Sanitising is idempotent, and its results are exactly the clean segments. */
  lemma SanitizeIdempotent(lower: string -> string, segment: string)
    requires LowerFixesSafe(lower)
    ensures Sanitize(lower, Sanitize(lower, segment)) == Sanitize(lower, segment)
    ensures Sanitize(lower, segment) == segment <==> Clean(segment)
  {
    SanitizeIsClean(lower, segment);
    CleanFixed(lower, Sanitize(lower, segment));
    if Clean(segment) {
      CleanFixed(lower, segment);
    }
  }

  // ---- what of the input survives ----

  predicate LetterOrDigit(c: char) { 'a' <= c <= 'z' || '0' <= c <= '9' }

  /** The letters `a` to `z` and the digits of a text, in order. */
  function Letters(s: string): string {
    if s == "" then "" else (if LetterOrDigit(s[0]) then [s[0]] else []) + Letters(s[1..])
  }

  lemma LettersCons(c: char, s: string)
    ensures Letters([c] + s) == (if LetterOrDigit(c) then [c] else "") + Letters(s)
  {
    assert ([c] + s)[1..] == s;
  }

  lemma ConcatAssociates(x: string, y: string, z: string)
    ensures x + (y + z) == x + y + z
  {
  }

  lemma LettersConcatMore(c: char, s: string, t: string)
    requires Letters(s + t) == Letters(s) + Letters(t)
    ensures Letters([c] + s + t) == Letters([c] + s) + Letters(t)
  {
    ConcatAssociates([c], s, t);
    LettersCons(c, s);
    LettersCons(c, s + t);
    ConcatAssociates(if LetterOrDigit(c) then [c] else "", Letters(s), Letters(t));
  }

  lemma {:induction false} LettersConcat(s: string, t: string)
    ensures Letters(s + t) == Letters(s) + Letters(t)
  {
    if s == "" {
      assert s + t == t;
    } else {
      LettersConcat(s[1..], t);
      LettersConcatMore(s[0], s[1..], t);
      assert s == [s[0]] + s[1..];
    }
  }

  lemma {:induction false} NoLetters(s: string, drop: char -> bool)
    requires (forall c :: c in s ==> drop(c)) && forall c :: drop(c) ==> !LetterOrDigit(c)
    ensures Letters(s) == ""
  {
    if s != "" {
      assert s[0] in s;
      NoLetters(s[1..], drop);
    }
  }

  lemma {:induction false} LettersOfDropLeft(s: string, drop: char -> bool)
    requires forall c :: drop(c) ==> !LetterOrDigit(c)
    ensures Letters(DropLeft(s, drop)) == Letters(s)
  {
    if s != "" && drop(s[0]) { LettersOfDropLeft(s[1..], drop); }
  }

  lemma LettersOfStrip(s: string, drop: char -> bool)
    requires forall c :: drop(c) ==> !LetterOrDigit(c)
    ensures Letters(Strip(s, drop)) == Letters(s)
  {
    var before, after := StripParts(s, drop);
    LettersConcat(before, Strip(s, drop) + after);
    LettersConcat(Strip(s, drop), after);
    NoLetters(before, drop);
    NoLetters(after, drop);
  }

  lemma {:induction false} LettersOfHyphens(s: string)
    ensures Letters(SpacesToHyphens(s)) == Letters(s)
  {
    if s != "" {
      LettersOfHyphens(s[1..]);
      LettersCons(if s[0] == ' ' then '-' else s[0], SpacesToHyphens(s[1..]));
    }
  }

  lemma {:induction false} LettersOfCollapse(s: string)
    ensures Letters(Collapse(s)) == Letters(s)
    decreases |s|
  {
    if s == "" {
    } else if Safe(s[0]) {
      LettersOfCollapse(s[1..]);
      LettersCons(s[0], Collapse(s[1..]));
    } else {
      LettersOfCollapse(DropLeft(s, Unsafe));
      LettersCons('-', Collapse(DropLeft(s, Unsafe)));
      LettersOfDropLeft(s, Unsafe);
    }
  }

  /** A clean segment has a letter or a digit: it is not `-`, `.` or `_` at its ends. */
  lemma CleanHasLetters(s: string)
    requires Clean(s)
    ensures Letters(s) != ""
  {
    assert LetterOrDigit(s[0]);
  }

  /** What `str.lower` does to ASCII text. */
  function AsciiLower(s: string): (r: string)
    ensures |r| == |s|
  {
    if s == "" then "" else [if 'A' <= s[0] <= 'Z' then s[0] - 'A' + 'a' else s[0]] + AsciiLower(s[1..])
  }

  ghost predicate Ascii(s: string) { forall i :: 0 <= i < |s| ==> s[i] < '\U{80}' }

  ghost predicate LowersAscii(lower: string -> string) { forall t :: Ascii(t) ==> lower(t) == AsciiLower(t) }

  lemma {:induction false} LowerConcat(s: string, t: string)
    ensures AsciiLower(s + t) == AsciiLower(s) + AsciiLower(t)
  {
    if s == "" {
      assert s + t == t;
    } else {
      assert (s + t)[1..] == s[1..] + t;
      LowerConcat(s[1..], t);
    }
  }

  lemma {:induction false} LowerOfSpaces(s: string)
    requires forall c :: c in s ==> IsSpace(c)
    ensures AsciiLower(s) == s
  {
    if s != "" {
      assert s[0] in s;
      LowerOfSpaces(s[1..]);
    }
  }

  lemma LettersJoin(s: string, t: string)
    ensures Letters(AsciiLower(s + t)) == Letters(AsciiLower(s)) + Letters(AsciiLower(t))
  {
    LowerConcat(s, t);
    LettersConcat(AsciiLower(s), AsciiLower(t));
  }

  lemma OnlySpaces(s: string)
    requires forall c :: c in s ==> IsSpace(c)
    ensures Letters(AsciiLower(s)) == ""
  {
    LowerOfSpaces(s);
    NoLetters(s, IsSpace);
  }

  lemma SpacesAround(before: string, s: string, after: string)
    requires (forall c :: c in before ==> IsSpace(c)) && forall c :: c in after ==> IsSpace(c)
    ensures Letters(AsciiLower(before + (s + after))) == Letters(AsciiLower(s))
  {
    LettersJoin(before, s + after);
    LettersJoin(s, after);
    OnlySpaces(before);
    OnlySpaces(after);
  }

  /** Stripping loses no letter of either case. */
  lemma LettersOfStripped(s: string)
    ensures Letters(AsciiLower(Strip(s, IsSpace))) == Letters(AsciiLower(s))
  {
    var before, after := StripParts(s, IsSpace);
    SpacesAround(before, Strip(s, IsSpace), after);
  }

  /** Of an ASCII segment all letters, in lower case, and all digits survive, in order; without any
      the result is `x`. */
  lemma LettersSurvive(lower: string -> string, segment: string)
    requires LowersAscii(lower) && Ascii(segment)
    ensures var letters := Letters(AsciiLower(segment));
            if letters != "" then Letters(Sanitize(lower, segment)) == letters else Sanitize(lower, segment) == "x"
  {
    var stripped := Strip(segment, IsSpace);
    var i := StripIsSlice(segment, IsSpace);
    assert Ascii(stripped);
    LettersOfStripped(segment);
    var lowered := AsciiLower(stripped);
    LettersOfHyphens(lowered);
    LettersOfCollapse(SpacesToHyphens(lowered));
    LettersOfStrip(Collapse(SpacesToHyphens(lowered)), Edge);
    CollapseStripClean(SpacesToHyphens(lowered));
    var cleaned := Strip(Collapse(SpacesToHyphens(lowered)), Edge);
    if cleaned != "" { CleanHasLetters(cleaned); }
  }

  // ---- round trips ----

  lemma CleanHasNoSlash(s: string)
    requires Clean(s)
    ensures '/' !in s
  {
  }

  lemma ReadShort(a: string, b: string, branch: Option<string>)
    requires '/' !in a && BranchShort(branch) == Some("wt/" + a + "/" + b)
    ensures RunId(branch) == Some(a) && TaskSlug(branch) == Some(b)
  {
    SplitName(a, b, "wt/" + a + "/" + b);
  }

  lemma ShortOfName(name: string)
    requires name != "" && name[0] == 'w'
    ensures BranchShort(Some(HEADS + name)) == Some(name) && BranchShort(Some(name)) == Some(name)
  {
    assert HEADS <= HEADS + name && (HEADS + name)[|HEADS|..] == name;
    assert HEADS[0] == 'r';
  }

  /** The run id and task slug read from a branch name are the sanitised pair, with or
      without the `refs/heads/` prefix. */
  lemma BranchRoundTrip(lower: string -> string, runId: string, task: string)
    ensures var full := Some(HEADS + BranchName(lower, runId, task));
            RunId(full) == Some(Sanitize(lower, runId)) && TaskSlug(full) == Some(Sanitize(lower, task))
    ensures var short := Some(BranchName(lower, runId, task));
            RunId(short) == Some(Sanitize(lower, runId)) && TaskSlug(short) == Some(Sanitize(lower, task))
  {
    var a, b := Sanitize(lower, runId), Sanitize(lower, task);
    SanitizeIsClean(lower, runId);
    CleanHasNoSlash(a);
    var name := "wt/" + a + "/" + b;
    assert name[0] == 'w';
    ShortOfName(name);
    ReadShort(a, b, Some(HEADS + name));
    ReadShort(a, b, Some(name));
  }

  lemma SplitName(a: string, b: string, name: string)
    requires '/' !in a && name == "wt/" + a + "/" + b
    ensures Has(name, '/') && Before(name, '/') == "wt" && Has(After(name, '/'), '/')
    ensures Before(After(name, '/'), '/') == a && After(After(name, '/'), '/') == b
  {
    var rest := a + ['/'] + b;
    assert name == "wt" + ['/'] + rest;
    BeforeOf("wt", '/', rest);
    BeforeOf(a, '/', b);
  }

  /** So two branch names are equal exactly when the sanitised run and task are. */
  lemma BranchNameInjective(lower: string -> string, r1: string, t1: string, r2: string, t2: string)
    ensures BranchName(lower, r1, t1) == BranchName(lower, r2, t2) <==>
              Sanitize(lower, r1) == Sanitize(lower, r2) && Sanitize(lower, t1) == Sanitize(lower, t2)
  {
    BranchRoundTrip(lower, r1, t1);
    BranchRoundTrip(lower, r2, t2);
  }

  // ---- directory names ----

  /** A text that starts with `a` and a hyphen. */
  predicate Extends(b: string, a: string) { a + "-" <= b }

  /** The rest of such a text. */
  function Beyond(b: string, a: string): string
    requires Extends(b, a)
  {
    b[|a| + 1..]
  }

  /** Joining two texts by a hyphen hides where the first one ends exactly when the longer first
      text goes on with a hyphen and takes in the start of the other second text. */
  lemma JoinsAgree(r1: string, t1: string, r2: string, t2: string)
    ensures r1 + "-" + t1 == r2 + "-" + t2 <==>
              || (r1 == r2 && t1 == t2)
              || (Extends(r2, r1) && t1 == Beyond(r2, r1) + "-" + t2)
              || (Extends(r1, r2) && t2 == Beyond(r1, r2) + "-" + t1)
  {
    if |r1| <= |r2| { ShorterJoin(r1, t1, r2, t2); }
    if |r2| <= |r1| { ShorterJoin(r2, t2, r1, t1); }
  }

  lemma ShorterJoin(r1: string, t1: string, r2: string, t2: string)
    requires |r1| <= |r2|
    ensures r1 + "-" + t1 == r2 + "-" + t2 <==>
              (r1 == r2 && t1 == t2) || (Extends(r2, r1) && t1 == Beyond(r2, r1) + "-" + t2)
  {
    if Extends(r2, r1) && t1 == Beyond(r2, r1) + "-" + t2 {
      assert r2 == r1 + "-" + Beyond(r2, r1);
    }
    var x, y := r1 + "-" + t1, r2 + "-" + t2;
    if x == y {
      assert x[..|r1|] == r1 && y[..|r1|] == r2[..|r1|] && x[|r1| + 1..] == t1;
      if |r1| == |r2| {
        assert y[|r1| + 1..] == t2;
      } else {
        assert x[|r1|] == '-' && r2[..|r1| + 1] == y[..|r1| + 1] == r1 + "-";
        assert y[|r1| + 1..] == Beyond(r2, r1) + "-" + t2;
      }
    }
  }

  lemma AroundJoin(a: string, b: string, sha: string)
    ensures "wt-" + a + "-" + sha == "wt-" + b + "-" + sha <==> a == b
  {
    var x, y := "wt-" + a + "-" + sha, "wt-" + b + "-" + sha;
    assert |x| == |a| + |sha| + 4 && |y| == |b| + |sha| + 4;
    if x == y {
      assert x[3..3 + |a|] == a && y[3..3 + |b|] == b;
    }
  }

  /** When two directory names with the same commit are equal, in terms of the sanitised parts. */
  lemma DirectoryNamesAgree(lower: string -> string, r1: string, t1: string, r2: string, t2: string, sha: string)
    ensures var a, b, c, d := Sanitize(lower, r1), Sanitize(lower, t1), Sanitize(lower, r2), Sanitize(lower, t2);
            DirectoryName(lower, r1, t1, sha) == DirectoryName(lower, r2, t2, sha) <==>
              || (a == c && b == d)
              || (Extends(c, a) && b == Beyond(c, a) + "-" + d)
              || (Extends(a, c) && d == Beyond(a, c) + "-" + b)
  {
    NamesAgree(Sanitize(lower, r1), Sanitize(lower, t1), Sanitize(lower, r2), Sanitize(lower, t2), sha);
  }

  lemma NamesAgree(a: string, b: string, c: string, d: string, sha: string)
    ensures "wt-" + a + "-" + b + "-" + sha == "wt-" + c + "-" + d + "-" + sha <==>
              || (a == c && b == d)
              || (Extends(c, a) && b == Beyond(c, a) + "-" + d)
              || (Extends(a, c) && d == Beyond(a, c) + "-" + b)
  {
    assert "wt-" + a + "-" + b + "-" + sha == "wt-" + (a + "-" + b) + "-" + sha;
    assert "wt-" + c + "-" + d + "-" + sha == "wt-" + (c + "-" + d) + "-" + sha;
    AroundJoin(a + "-" + b, c + "-" + d, sha);
    JoinsAgree(a, b, c, d);
  }

  /** Commit names hold no hyphen, so the name tells them apart. */
  lemma CommitIsTold(lower: string -> string, r1: string, t1: string, s1: string, r2: string, t2: string, s2: string)
    requires '-' !in s1 && '-' !in s2 && DirectoryName(lower, r1, t1, s1) == DirectoryName(lower, r2, t2, s2)
    ensures s1 == s2
  {
    LastPart("wt-" + Sanitize(lower, r1) + "-" + Sanitize(lower, t1), s1,
             "wt-" + Sanitize(lower, r2) + "-" + Sanitize(lower, t2), s2);
  }

  lemma LastPart(a: string, s: string, b: string, t: string)
    requires '-' !in s && '-' !in t && a + "-" + s == b + "-" + t
    ensures s == t
  {
    var x, y := a + "-" + s, b + "-" + t;
    assert x[|a|] == '-' && y[|b|] == '-';
    assert forall k :: |a| < k < |x| ==> x[k] == s[k - |a| - 1];
    assert forall k :: |b| < k < |y| ==> y[k] == t[k - |b| - 1];
    assert |a| == |b|;
    assert x[|a| + 1..] == s && y[|b| + 1..] == t;
  }

  /** A run id that goes on from another with a hyphen and something a segment may start with. */
  predicate GoesOn(r2: string, r1: string) { Extends(r2, r1) && Beyond(r2, r1) != "" && !Edge(Beyond(r2, r1)[0]) }

  ghost predicate CanCollide(lower: string -> string, r1: string, r2: string, sha: string) {
    exists t1, t2 :: DirectoryName(lower, r1, t1, sha) == DirectoryName(lower, r2, t2, sha)
  }

  lemma BeyondIsClean(r1: string, r2: string)
    requires Clean(r2) && GoesOn(r2, r1)
    ensures Clean(Beyond(r2, r1) + "-x")
  {
    var s := Beyond(r2, r1);
    SliceClean(r2, s, |r1| + 1);
    assert s[|s| - 1] == r2[|r2| - 1];
  }

  /** Two different sanitised run ids share a directory name for some tasks exactly when one of
      them goes on from the other. */
  lemma CanCollideIff(lower: string -> string, r1: string, r2: string, sha: string)
    requires LowerFixesSafe(lower) && Sanitize(lower, r1) != Sanitize(lower, r2)
    ensures CanCollide(lower, r1, r2, sha) <==>
              GoesOn(Sanitize(lower, r2), Sanitize(lower, r1)) || GoesOn(Sanitize(lower, r1), Sanitize(lower, r2))
  {
    var a, c := Sanitize(lower, r1), Sanitize(lower, r2);
    if CanCollide(lower, r1, r2, sha) {
      var t1, t2 :| DirectoryName(lower, r1, t1, sha) == DirectoryName(lower, r2, t2, sha);
      DirectoryNamesAgree(lower, r1, t1, r2, t2, sha);
      CollisionGoesOn(lower, r1, t1, r2, t2);
      CollisionGoesOn(lower, r2, t2, r1, t1);
    }
    if GoesOn(c, a) {
      CollideWith(lower, r1, r2, sha);
    }
    if GoesOn(a, c) {
      CollideWith(lower, r2, r1, sha);
      var t1, t2 :| DirectoryName(lower, r2, t1, sha) == DirectoryName(lower, r1, t2, sha);
      assert DirectoryName(lower, r1, t2, sha) == DirectoryName(lower, r2, t1, sha);
    }
  }

  lemma CollisionGoesOn(lower: string -> string, r1: string, t1: string, r2: string, t2: string)
    ensures var a, b, c, d := Sanitize(lower, r1), Sanitize(lower, t1), Sanitize(lower, r2), Sanitize(lower, t2);
            Extends(c, a) && b == Beyond(c, a) + "-" + d ==> GoesOn(c, a)
  {
    var a, b, c, d := Sanitize(lower, r1), Sanitize(lower, t1), Sanitize(lower, r2), Sanitize(lower, t2);
    SanitizeIsClean(lower, t1);
    if Extends(c, a) && b == Beyond(c, a) + "-" + d {
      assert b[0] == if Beyond(c, a) == "" then '-' else Beyond(c, a)[0];
    }
  }

  lemma CollideWith(lower: string -> string, r1: string, r2: string, sha: string)
    requires LowerFixesSafe(lower) && GoesOn(Sanitize(lower, r2), Sanitize(lower, r1))
    ensures CanCollide(lower, r1, r2, sha)
  {
    var t := Beyond(Sanitize(lower, r2), Sanitize(lower, r1)) + "-x";
    SanitizeIsClean(lower, r2);
    BeyondIsClean(Sanitize(lower, r1), Sanitize(lower, r2));
    CleanFixed(lower, t);
    XIsClean();
    CleanFixed(lower, "x");
    assert t == Beyond(Sanitize(lower, r2), Sanitize(lower, r1)) + "-" + "x";
    DirectoryNamesAgree(lower, r1, t, r2, "x", sha);
  }

  /** The run `a-b` with task `c`, and the run `a` with task `b-c`. */
  lemma DirectoryNameAmbiguous(lower: string -> string, sha: string)
    requires LowerFixesSafe(lower)
    ensures DirectoryName(lower, "a-b", "c", sha) == DirectoryName(lower, "a", "b-c", sha)
    ensures Sanitize(lower, "a-b") == "a-b" && Sanitize(lower, "a") == "a"
  {
    ExamplesAreClean();
    CleanFixed(lower, "a-b");
    CleanFixed(lower, "a");
    CleanFixed(lower, "b-c");
    CleanFixed(lower, "c");
    SameExample(sha);
  }

  lemma ExamplesAreClean()
    ensures Clean("a") && Clean("c") && Clean("a-b") && Clean("b-c")
  {
  }

  lemma SameExample(sha: string)
    ensures "wt-" + "a-b" + "-" + "c" + "-" + sha == "wt-" + "a" + "-" + "b-c" + "-" + sha
  {
    assert "wt-" + "a-b" + "-" + "c" == "wt-" + "a" + "-" + "b-c";
  }
}
