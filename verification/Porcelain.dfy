/** `parse_porcelain_z`: reading `git worktree list --porcelain -z`. */
module Porcelain {
  import opened Options
  import opened PyText

  /** A parsed record. Paths are kept as the text git printed. */
  datatype WorktreeInfo = WorktreeInfo(
    path: string, head: Option<string>, branch: Option<string>, gitDir: Option<string>,
    isBare: bool, isDetached: bool,
    locked: bool, lockReason: Option<string>, prunable: bool, prunableReason: Option<string>,
    extras: map<string, string>)

  /** The `data` dictionary: a key that is absent is `None` or false. */
  datatype Data = Data(
    path: Option<string>, head: Option<string>, branch: Option<string>, isBare: bool, isDetached: bool,
    locked: bool, lockReason: Option<string>, prunable: bool, prunableReason: Option<string>)

  const NO_DATA := Data(None, None, None, false, false, false, None, false, None)

  datatype State = Reading(items: seq<WorktreeInfo>, data: Data, extras: map<string, string>) | MissingPath

  datatype Parsed = Ok(items: seq<WorktreeInfo>) | Failed

  const NUL := '\0'

  function Chunks(payload: string): (r: seq<string>)
    ensures r != []
    decreases |payload|
  {
    var first := Before(payload, NUL);
    if Has(payload, NUL) then [first] + Chunks(After(payload, NUL)) else [first]
  }

  /** `_to_info`. */
  function ToInfo(d: Data, extras: map<string, string>): WorktreeInfo
    requires d.path.Some?
  {
    WorktreeInfo(d.path.value, d.head, d.branch,
                 if "gitdir" in extras then Some(extras["gitdir"]) else None,
                 d.isBare, d.isDetached, d.locked, d.lockReason, d.prunable, d.prunableReason,
                 extras - {"gitdir"})
  }

  function Flush(s: State): State
    requires s.Reading?
  {
    if s.data == NO_DATA then s
    else if s.data.path.None? then MissingPath
    else Reading(s.items + [ToInfo(s.data, s.extras)], NO_DATA, map[])
  }

  /** What one non-empty entry does. */
  function Read(s: State, entry: string): State
    requires s.Reading?
  {
    if StartsWith(entry, "worktree ") then
      var f := Flush(s);
      if f.MissingPath? then f else f.(data := f.data.(path := Some(After(entry, ' '))))
    else if StartsWith(entry, "HEAD ") then s.(data := s.data.(head := Some(After(entry, ' '))))
    else if StartsWith(entry, "branch ") then s.(data := s.data.(branch := Some(After(entry, ' '))))
    else if StartsWith(entry, "gitdir ") then s.(extras := s.extras["gitdir" := After(entry, ' ')])
    else if entry == "bare" then s.(data := s.data.(isBare := true))
    else if entry == "detached" then s.(data := s.data.(isDetached := true))
    else if StartsWith(entry, "locked") then
      var reason := if Has(entry, ' ') then Some(After(entry, ' ')) else s.data.lockReason;
      s.(data := s.data.(locked := true, lockReason := reason))
    else if StartsWith(entry, "prunable") then
      var reason := if Has(entry, ' ') then Some(After(entry, ' ')) else s.data.prunableReason;
      s.(data := s.data.(prunable := true, prunableReason := reason))
    else s.(extras := s.extras[Before(entry, ' ') := After(entry, ' ')])
  }

  function ReadAll(s: State, entries: seq<string>): State
    decreases |entries|
  {
    if entries == [] || s.MissingPath? then s
    else ReadAll(if entries[0] == "" then s else Read(s, entries[0]), entries[1..])
  }

  const START := Reading([], NO_DATA, map[])

  function Finish(s: State): Parsed {
    if s.MissingPath? then Failed
    else var f := Flush(s); if f.MissingPath? then Failed else Ok(f.items)
  }

  method ParsePorcelain(payload: string) returns (r: Parsed)
    ensures r == Finish(ReadAll(START, Chunks(payload)))
  {
    if payload == "" {
      return Ok([]);
    }
    var chunks := Chunks(payload);
    var items: seq<WorktreeInfo> := [];
    var data := NO_DATA;
    var extras: map<string, string> := map[];
    for i := 0 to |chunks|
      invariant ReadAll(START, chunks) == ReadAll(Reading(items, data, extras), chunks[i..])
    {
      var entry := chunks[i];
      assert chunks[i..][0] == entry && chunks[i..][1..] == chunks[i + 1..];
      if entry != "" {
        var next := Read(Reading(items, data, extras), entry);
        if next.MissingPath? {
          return Failed;
        }
        items, data, extras := next.items, next.data, next.extras;
      }
    }
    assert chunks[|chunks|..] == [];
    var last := Flush(Reading(items, data, extras));
    r := if last.MissingPath? then Failed else Ok(last.items);
  }

  // ---- the layout git prints ----

  /** A worktree as git lists it; unknown attributes come in the order they are printed. */
  datatype Worktree = Worktree(
    path: string, head: Option<string>, branch: Option<string>, gitDir: Option<string>,
    isBare: bool, isDetached: bool,
    locked: bool, lockReason: Option<string>, prunable: bool, prunableReason: Option<string>,
    others: seq<(string, string)>)

  predicate Plain(s: string) { NUL !in s }

  predicate PlainOption(s: Option<string>) { s.Some? ==> Plain(s.value) }

  /** An attribute name the parser does not treat specially. */
  predicate Unknown(k: string) {
    && k != "" && ' ' !in k && Plain(k)
    && k !in ["worktree", "HEAD", "branch", "gitdir", "bare", "detached"]
    && !StartsWith(k, "locked") && !StartsWith(k, "prunable")
  }

  predicate WellFormed(w: Worktree) {
    && Plain(w.path) && PlainOption(w.head) && PlainOption(w.branch) && PlainOption(w.gitDir)
    && PlainOption(w.lockReason) && PlainOption(w.prunableReason)
    && (w.lockReason.Some? ==> w.locked) && (w.prunableReason.Some? ==> w.prunable)
    && forall i :: 0 <= i < |w.others| ==> Unknown(w.others[i].0) && Plain(w.others[i].1)
  }

  function Field(name: string, value: Option<string>): seq<string> {
    if value.Some? then [name + [' '] + value.value] else []
  }

  function Flag(name: string, set': bool): seq<string> { if set' then [name] else [] }

  function Reasoned(name: string, set': bool, reason: Option<string>): seq<string> {
    if !set' then [] else if reason.Some? then [name + [' '] + reason.value] else [name]
  }

  function OtherLine(o: (string, string)): string {
    if o.1 == "" then o.0 else o.0 + [' '] + o.1
  }

  function OtherLines(os: seq<(string, string)>): seq<string> {
    if os == [] then [] else [OtherLine(os[0])] + OtherLines(os[1..])
  }

  function Lines(w: Worktree): seq<string> {
    ["worktree" + [' '] + w.path]
    + (Field("HEAD", w.head)
    + (Field("branch", w.branch)
    + (Flag("bare", w.isBare)
    + (Flag("detached", w.isDetached)
    + (Field("gitdir", w.gitDir)
    + (Reasoned("locked", w.locked, w.lockReason)
    + (Reasoned("prunable", w.prunable, w.prunableReason)
    + OtherLines(w.others))))))))
  }

  function Terminated(lines: seq<string>): string {
    if lines == [] then "" else lines[0] + [NUL] + Terminated(lines[1..])
  }

  /** Each line ends in NUL, and each record in one more. */
  function PrintAll(ws: seq<Worktree>): string {
    if ws == [] then "" else Terminated(Lines(ws[0])) + [NUL] + PrintAll(ws[1..])
  }

  function MapOf(os: seq<(string, string)>): map<string, string> {
    if os == [] then map[] else MapOf(os[..|os| - 1])[os[|os| - 1].0 := os[|os| - 1].1]
  }

  /** What the parser should report for a worktree. */
  function InfoOf(w: Worktree): WorktreeInfo {
    WorktreeInfo(w.path, w.head, w.branch, w.gitDir, w.isBare, w.isDetached,
                 w.locked, w.lockReason, w.prunable, w.prunableReason, MapOf(w.others))
  }

  // ---- from bytes to lines ----

  lemma {:induction false} ReadAllConcat(s: State, a: seq<string>, b: seq<string>)
    ensures ReadAll(s, a + b) == ReadAll(ReadAll(s, a), b)
    decreases |a|
  {
    if a == [] {
      assert a + b == b;
    } else if !s.MissingPath? {
      assert (a + b)[0] == a[0] && (a + b)[1..] == a[1..] + b;
      ReadAllConcat(if a[0] == "" then s else Read(s, a[0]), a[1..], b);
    }
  }

  lemma ChunksOfLine(line: string, more: string)
    requires Plain(line)
    ensures Chunks(line + [NUL] + more) == [line] + Chunks(more)
  {
    BeforeOf(line, NUL, more);
    assert (line + [NUL] + more)[|line|] == NUL;
  }

  lemma {:induction false} ChunksOfTerminated(lines: seq<string>, rest: string)
    requires forall i :: 0 <= i < |lines| ==> Plain(lines[i])
    ensures Chunks(Terminated(lines) + rest) == lines + Chunks(rest)
  {
    if lines == [] {
      assert Terminated(lines) + rest == rest;
      assert lines + Chunks(rest) == Chunks(rest);
    } else {
      var more := Terminated(lines[1..]) + rest;
      assert Terminated(lines) + rest == lines[0] + [NUL] + more;
      ChunksOfLine(lines[0], more);
      ChunksOfTerminated(lines[1..], rest);
      Reassociate(lines, Chunks(rest));
    }
  }

  lemma Reassociate<T>(s: seq<T>, t: seq<T>)
    requires s != []
    ensures [s[0]] + (s[1..] + t) == s + t
  {
  }

  lemma ChunksOfRecord(lines: seq<string>, rest: string)
    requires forall i :: 0 <= i < |lines| ==> Plain(lines[i])
    ensures Chunks(Terminated(lines) + [NUL] + rest) == lines + ([""] + Chunks(rest))
  {
    var text, tail := Terminated(lines), "" + [NUL] + rest;
    assert text + [NUL] + rest == text + tail;
    ChunksOfTerminated(lines, tail);
    ChunksOfLine("", rest);
  }

  // ---- which branch each line takes ----

  /** `name value` starts with `p ` only if `name` is `p`. */
  lemma SpacedPrefix(p: string, name: string, value: string)
    requires ' ' !in p && ' ' !in name
    ensures StartsWith(name + [' '] + value, p + [' ']) <==> p == name
    ensures !StartsWith(name, p + [' '])
  {
    var line := name + [' '] + value;
    if p + [' '] <= line {
      assert line == p + [' '] + line[|p| + 1..];
      BeforeOf(p, ' ', line[|p| + 1..]);
    }
    BeforeOf(name, ' ', value);
    if p == name {
      assert line == p + [' '] + value;
    }
    assert forall i :: 0 <= i < |name| ==> name[i] != ' ';
    assert |p + [' ']| <= |name| ==> (p + [' '])[|p|] != name[|p|];
  }

  /** A word is a prefix of `name value` only if it is one of `name`. */
  lemma WordPrefix(p: string, name: string, value: string)
    requires ' ' !in p && ' ' !in name
    ensures StartsWith(name + [' '] + value, p) <==> StartsWith(name, p)
  {
    var line := name + [' '] + value;
    assert forall i :: 0 <= i < |p| ==> p[i] != ' ';
    assert line[|name|] == ' ';
    assert |name| < |p| ==> p[|name|] != line[|name|];
    assert |p| <= |name| ==> line[..|p|] == name[..|p|];
  }

  const NAMES := ["worktree", "HEAD", "branch", "gitdir"]

  /** The four `name value` tests, on a line with or without a value. */
  lemma Dispatch(name: string, value: string)
    requires ' ' !in name
    ensures var line := name + [' '] + value;
            && (StartsWith(line, "worktree ") <==> name == "worktree")
            && (StartsWith(line, "HEAD ") <==> name == "HEAD")
            && (StartsWith(line, "branch ") <==> name == "branch")
            && (StartsWith(line, "gitdir ") <==> name == "gitdir")
            && (StartsWith(line, "locked") <==> StartsWith(name, "locked"))
            && (StartsWith(line, "prunable") <==> StartsWith(name, "prunable"))
            && line != "bare" && line != "detached"
            && Has(line, ' ') && After(line, ' ') == value && Before(line, ' ') == name
  {
    SpacedPrefix("worktree", name, value);
    SpacedPrefix("HEAD", name, value);
    SpacedPrefix("branch", name, value);
    SpacedPrefix("gitdir", name, value);
    assert "worktree" + [' '] == "worktree " && "HEAD" + [' '] == "HEAD ";
    assert "branch" + [' '] == "branch " && "gitdir" + [' '] == "gitdir ";
    WordPrefix("locked", name, value);
    WordPrefix("prunable", name, value);
    BeforeOf(name, ' ', value);
    var line := name + [' '] + value;
    assert ' ' in line by { assert line[|name|] == ' '; }
  }

  lemma WordHasNoPrefix(word: string, prefix: string, name: string)
    requires ' ' !in name && prefix == word + [' ']
    ensures !StartsWith(name, prefix)
  {
    assert prefix[|word|] == ' ';
  }

  lemma DispatchWord(name: string)
    requires ' ' !in name
    ensures !StartsWith(name, "worktree ") && !StartsWith(name, "HEAD ")
    ensures !StartsWith(name, "branch ") && !StartsWith(name, "gitdir ")
    ensures !Has(name, ' ') && Before(name, ' ') == name && After(name, ' ') == ""
  {
    WordHasNoPrefix("worktree", "worktree ", name);
    WordHasNoPrefix("HEAD", "HEAD ", name);
    WordHasNoPrefix("branch", "branch ", name);
    WordHasNoPrefix("gitdir", "gitdir ", name);
    BeforeOf(name, ' ', "");
  }

  lemma FirstLetters()
    ensures !StartsWith("worktree", "locked") && !StartsWith("HEAD", "locked") && !StartsWith("branch", "locked")
    ensures !StartsWith("gitdir", "locked") && !StartsWith("bare", "locked") && !StartsWith("detached", "locked")
    ensures !StartsWith("prunable", "locked") && StartsWith("locked", "locked")
    ensures StartsWith("prunable", "prunable")
  {
    assert "locked"[0] == 'l' && "worktree"[0] == 'w' && "HEAD"[0] == 'H' && "branch"[0] == 'b';
    assert "gitdir"[0] == 'g' && "bare"[0] == 'b' && "detached"[0] == 'd' && "prunable"[0] == 'p';
  }

  lemma ReadOne(s: State, line: string)
    requires s.Reading? && line != ""
    ensures ReadAll(s, [line]) == Read(s, line)
  {
    assert [line][1..] == [];
    assert ReadAll(Read(s, line), []) == Read(s, line);
  }

  lemma ReadHead(s: State, v: Option<string>)
    requires s.Reading? && s.data.head.None?
    ensures ReadAll(s, Field("HEAD", v)) == s.(data := s.data.(head := v))
  {
    if v.Some? {
      Dispatch("HEAD", v.value);
      ReadOne(s, "HEAD" + [' '] + v.value);
    }
  }

  lemma ReadBranch(s: State, v: Option<string>)
    requires s.Reading? && s.data.branch.None?
    ensures ReadAll(s, Field("branch", v)) == s.(data := s.data.(branch := v))
  {
    if v.Some? {
      Dispatch("branch", v.value);
      ReadOne(s, "branch" + [' '] + v.value);
    }
  }

  lemma ReadGitDir(s: State, v: Option<string>)
    requires s.Reading?
    ensures ReadAll(s, Field("gitdir", v)) == s.(extras := if v.Some? then s.extras["gitdir" := v.value] else s.extras)
  {
    if v.Some? {
      Dispatch("gitdir", v.value);
      ReadOne(s, "gitdir" + [' '] + v.value);
    }
  }

  lemma ReadBare(s: State, b: bool)
    requires s.Reading? && !s.data.isBare
    ensures ReadAll(s, Flag("bare", b)) == s.(data := s.data.(isBare := b))
  {
    if b {
      DispatchWord("bare");
      ReadOne(s, "bare");
    }
  }

  lemma ReadDetached(s: State, b: bool)
    requires s.Reading? && !s.data.isDetached
    ensures ReadAll(s, Flag("detached", b)) == s.(data := s.data.(isDetached := b))
  {
    if b {
      DispatchWord("detached");
      assert "detached" != "bare" by { assert "detached"[0] != "bare"[0]; }
      ReadOne(s, "detached");
    }
  }

  lemma ReadLocked(s: State, b: bool, reason: Option<string>)
    requires s.Reading? && !s.data.locked && s.data.lockReason.None? && (reason.Some? ==> b)
    ensures ReadAll(s, Reasoned("locked", b, reason)) == s.(data := s.data.(locked := b, lockReason := reason))
  {
    FirstLetters();
    if reason.Some? {
      Dispatch("locked", reason.value);
      ReadOne(s, "locked" + [' '] + reason.value);
    } else if b {
      DispatchWord("locked");
      assert "locked"[0] != "bare"[0] && "locked"[0] != "detached"[0];
      ReadOne(s, "locked");
    }
  }

  lemma PrunableLine(s: State, reason: string)
    requires s.Reading?
    ensures Read(s, "prunable" + [' '] + reason)
         == s.(data := s.data.(prunable := true, prunableReason := Some(reason)))
  {
    FirstLetters();
    Dispatch("prunable", reason);
  }

  lemma PrunableWord(s: State)
    requires s.Reading?
    ensures Read(s, "prunable") == s.(data := s.data.(prunable := true))
  {
    var word := "prunable";
    FirstLetters();
    DispatchWord(word);
    assert word[0] == 'p' && "bare"[0] == 'b' && "detached"[0] == 'd';
    assert word != "bare" && word != "detached";
  }

  lemma ReadPrunable(s: State, b: bool, reason: Option<string>)
    requires s.Reading? && !s.data.prunable && s.data.prunableReason.None? && (reason.Some? ==> b)
    ensures ReadAll(s, Reasoned("prunable", b, reason)) == s.(data := s.data.(prunable := b, prunableReason := reason))
  {
    if reason.Some? {
      PrunableLine(s, reason.value);
      ReadOne(s, "prunable" + [' '] + reason.value);
    } else if b {
      PrunableWord(s);
      ReadOne(s, "prunable");
    }
  }

  lemma ReadOther(s: State, o: (string, string))
    requires s.Reading? && Unknown(o.0)
    ensures OtherLine(o) != "" && Read(s, OtherLine(o)) == s.(extras := s.extras[o.0 := o.1])
  {
    if o.1 == "" { DispatchWord(o.0); } else { Dispatch(o.0, o.1); }
  }

  /** The extras after reading the unknown attributes in order. */
  function WithOthers(extras: map<string, string>, os: seq<(string, string)>): map<string, string>
    decreases |os|
  {
    if os == [] then extras else WithOthers(extras[os[0].0 := os[0].1], os[1..])
  }

  lemma {:induction false} ReadOthers(s: State, os: seq<(string, string)>)
    requires s.Reading? && forall i :: 0 <= i < |os| ==> Unknown(os[i].0)
    ensures ReadAll(s, OtherLines(os)) == s.(extras := WithOthers(s.extras, os))
    decreases |os|
  {
    if os != [] {
      ReadOther(s, os[0]);
      ReadOthers(Read(s, OtherLine(os[0])), os[1..]);
    }
  }

  lemma {:induction false} WithOthersIs(extras: map<string, string>, os: seq<(string, string)>)
    ensures WithOthers(extras, os) == extras + MapOf(os)
    decreases |os|
  {
    if os != [] {
      WithOthersLast(extras, os);
      WithOthersIs(extras, os[..|os| - 1]);
    }
  }

  lemma {:induction false} WithOthersLast(extras: map<string, string>, os: seq<(string, string)>)
    requires os != []
    ensures WithOthers(extras, os) == WithOthers(extras, os[..|os| - 1])[os[|os| - 1].0 := os[|os| - 1].1]
    decreases |os|
  {
    if |os| > 1 {
      WithOthersLast(extras[os[0].0 := os[0].1], os[1..]);
      assert os[1..][..|os| - 2] == os[..|os| - 1][1..];
    }
  }

  lemma {:induction false} UnknownKeys(os: seq<(string, string)>)
    requires forall i :: 0 <= i < |os| ==> Unknown(os[i].0)
    ensures "gitdir" !in MapOf(os)
  {
    if os != [] { UnknownKeys(os[..|os| - 1]); }
  }

  // ---- one record, then all of them ----

  function DataOf(w: Worktree): Data {
    Data(Some(w.path), w.head, w.branch, w.isBare, w.isDetached, w.locked, w.lockReason, w.prunable, w.prunableReason)
  }

  function ExtrasOf(w: Worktree): map<string, string> {
    (if w.gitDir.Some? then map["gitdir" := w.gitDir.value] else map[]) + MapOf(w.others)
  }

  /** Between records: what is pending can be flushed. */
  predicate Ready(s: State) {
    s.Reading? && Flush(s).Reading? && (s.data == NO_DATA ==> s.extras == map[])
  }

  function Pending(items: seq<WorktreeInfo>, w: Worktree): State {
    Reading(items, DataOf(w), ExtrasOf(w))
  }

  /** Reading a record's lines flushes what was pending and leaves the record pending. */
  lemma ReadRecord(s: State, w: Worktree)
    requires WellFormed(w) && Ready(s)
    ensures ReadAll(s, Lines(w)) == Pending(Flush(s).items, w)
  {
    var f := Flush(s);
    var l8 := OtherLines(w.others);
    var l7 := Reasoned("prunable", w.prunable, w.prunableReason) + l8;
    var l6 := Reasoned("locked", w.locked, w.lockReason) + l7;
    var l5 := Field("gitdir", w.gitDir) + l6;
    var l4 := Flag("detached", w.isDetached) + l5;
    var l3 := Flag("bare", w.isBare) + l4;
    var l2 := Field("branch", w.branch) + l3;
    var l1 := Field("HEAD", w.head) + l2;
    var first := "worktree" + [' '] + w.path;
    Dispatch("worktree", w.path);
    ReadOne(s, first);
    ReadAllConcat(s, [first], l1);
    var s0 := f.(data := NO_DATA.(path := Some(w.path)));
    assert Read(s, first) == s0;
    ReadRest(s0, w, l1, l2, l3, l4, l5, l6, l7, l8);
  }

  lemma ReadRest(s0: State, w: Worktree, l1: seq<string>, l2: seq<string>, l3: seq<string>, l4: seq<string>,
      l5: seq<string>, l6: seq<string>, l7: seq<string>, l8: seq<string>)
    requires s0.Reading? && WellFormed(w) && s0.data == NO_DATA.(path := Some(w.path)) && s0.extras == map[]
    requires l8 == OtherLines(w.others)
    requires l7 == Reasoned("prunable", w.prunable, w.prunableReason) + l8
    requires l6 == Reasoned("locked", w.locked, w.lockReason) + l7
    requires l5 == Field("gitdir", w.gitDir) + l6
    requires l4 == Flag("detached", w.isDetached) + l5
    requires l3 == Flag("bare", w.isBare) + l4
    requires l2 == Field("branch", w.branch) + l3
    requires l1 == Field("HEAD", w.head) + l2
    ensures ReadAll(s0, l1) == Reading(s0.items, DataOf(w), ExtrasOf(w))
  {
    ReadAllConcat(s0, Field("HEAD", w.head), l2);
    ReadHead(s0, w.head);
    var s1 := s0.(data := s0.data.(head := w.head));
    ReadAllConcat(s1, Field("branch", w.branch), l3);
    ReadBranch(s1, w.branch);
    var s2 := s1.(data := s1.data.(branch := w.branch));
    ReadAllConcat(s2, Flag("bare", w.isBare), l4);
    ReadBare(s2, w.isBare);
    var s3 := s2.(data := s2.data.(isBare := w.isBare));
    ReadAllConcat(s3, Flag("detached", w.isDetached), l5);
    ReadDetached(s3, w.isDetached);
    var s4 := s3.(data := s3.data.(isDetached := w.isDetached));
    ReadAllConcat(s4, Field("gitdir", w.gitDir), l6);
    ReadGitDir(s4, w.gitDir);
    var s5 := s4.(extras := if w.gitDir.Some? then s4.extras["gitdir" := w.gitDir.value] else s4.extras);
    ReadAllConcat(s5, Reasoned("locked", w.locked, w.lockReason), l7);
    ReadLocked(s5, w.locked, w.lockReason);
    var s6 := s5.(data := s5.data.(locked := w.locked, lockReason := w.lockReason));
    ReadAllConcat(s6, Reasoned("prunable", w.prunable, w.prunableReason), l8);
    ReadPrunable(s6, w.prunable, w.prunableReason);
    var s7 := s6.(data := s6.data.(prunable := w.prunable, prunableReason := w.prunableReason));
    ReadOthers(s7, w.others);
    WithOthersIs(s7.extras, w.others);
  }

  lemma FlushRecord(items: seq<WorktreeInfo>, w: Worktree)
    requires WellFormed(w)
    ensures Ready(Pending(items, w))
    ensures Flush(Pending(items, w)) == Reading(items + [InfoOf(w)], NO_DATA, map[])
  {
    UnknownKeys(w.others);
    var e := ExtrasOf(w);
    assert "gitdir" in e <==> w.gitDir.Some?;
    assert e - {"gitdir"} == MapOf(w.others);
  }

  lemma LinesPlain(w: Worktree)
    requires WellFormed(w)
    ensures forall i :: 0 <= i < |Lines(w)| ==> Plain(Lines(w)[i])
  {
    OthersPlain(w.others);
    forall l | l in Lines(w) ensures Plain(l) {
    }
  }

  lemma {:induction false} OthersPlain(os: seq<(string, string)>)
    requires forall i :: 0 <= i < |os| ==> Unknown(os[i].0) && Plain(os[i].1)
    ensures forall l :: l in OtherLines(os) ==> Plain(l)
  {
    if os != [] { OthersPlain(os[1..]); }
  }

  lemma {:induction false} ReadPrinted(s: State, ws: seq<Worktree>)
    requires Ready(s)
    requires forall i :: 0 <= i < |ws| ==> WellFormed(ws[i])
    ensures Finish(ReadAll(s, Chunks(PrintAll(ws)))) == Ok(Flush(s).items + Infos(ws))
    decreases |ws|
  {
    if ws == [] {
      ReadEmpty(s);
    } else {
      var items := Flush(s).items;
      ReadOneRecord(s, ws[0], PrintAll(ws[1..]));
      FlushRecord(items, ws[0]);
      ReadPrinted(Pending(items, ws[0]), ws[1..]);
      InfosStep(items, ws);
    }
  }

  lemma InfosStep(items: seq<WorktreeInfo>, ws: seq<Worktree>)
    requires ws != []
    ensures items + [InfoOf(ws[0])] + Infos(ws[1..]) == items + Infos(ws)
  {
  }

  lemma ReadOneRecord(s: State, w: Worktree, rest: string)
    requires WellFormed(w) && Ready(s)
    ensures ReadAll(s, Chunks(Terminated(Lines(w)) + [NUL] + rest))
         == ReadAll(Pending(Flush(s).items, w), Chunks(rest))
  {
    LinesPlain(w);
    ChunksOfRecord(Lines(w), rest);
    ReadAllConcat(s, Lines(w), [""] + Chunks(rest));
    ReadRecord(s, w);
    var t := Pending(Flush(s).items, w);
    ReadAllConcat(t, [""], Chunks(rest));
    SkipEmpty(t);
  }

  lemma SkipEmpty(s: State)
    requires s.Reading?
    ensures ReadAll(s, [""]) == s
  {
    assert [""][1..] == [];
  }

  lemma ReadEmpty(s: State)
    requires s.Reading?
    ensures ReadAll(s, Chunks("")) == s
  {
    assert Chunks("") == [""];
    SkipEmpty(s);
  }

  function Infos(ws: seq<Worktree>): seq<WorktreeInfo> {
    if ws == [] then [] else [InfoOf(ws[0])] + Infos(ws[1..])
  }

  /** Parsing what git prints gives back every record, in order, with paths, reasons and
      unknown attributes as they were. */
  lemma PorcelainRoundTrip(ws: seq<Worktree>)
    requires forall i :: 0 <= i < |ws| ==> WellFormed(ws[i])
    ensures Finish(ReadAll(START, Chunks(PrintAll(ws)))) == Ok(Infos(ws))
  {
    ReadPrinted(START, ws);
  }
}
