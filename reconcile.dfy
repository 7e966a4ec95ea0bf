/** The status records `main` of git-ls.py attributes to one listed name (lines 182 and 217-218),
    and what it concludes from them: the file loop of lines 192-199 and the directory summary of
    lines 225-232. */
module Reconcile {
  import opened Base
  import opened Text
  import opened StatusFeed

  /** `file_name in i[2:]`: the record's path or its rename destination is the name. */
  predicate Mentions(r: StatusRecord, name: String) {
    r.path == name || r.pathTo == Some(name)
  }

  /** `is_subdir(path)` of lines 210-215: the directory itself or a path below it. */
  predicate IsSubdir(path: Option<String>, dir: String) {
    path == Some(dir) || (path.Some? && path.value != [] && StartsWith(path.value, dir + "/"))
  }

  /** `is_subdir(i[2]) or is_subdir(i[3])` */
  predicate Within(r: StatusRecord, dir: String) {
    IsSubdir(Some(r.path), dir) || IsSubdir(r.pathTo, dir)
  }

  /** `[i for i in status if file_name in i[2:]]` */
  function FileMatches(status: seq<StatusRecord>, name: String): (ms: seq<StatusRecord>)
    ensures |ms| <= |status|
    ensures forall r :: r in ms <==> r in status && Mentions(r, name)
  {
    if status == [] then []
    else
      var last := status[|status| - 1];
      FileMatches(status[..|status| - 1], name) + (if Mentions(last, name) then [last] else [])
  }

  /** `[i for i in status if is_subdir(i[2]) or is_subdir(i[3])]` */
  function DirMatches(status: seq<StatusRecord>, dir: String): (ms: seq<StatusRecord>)
    ensures |ms| <= |status|
    ensures forall r :: r in ms <==> r in status && Within(r, dir)
  {
    if status == [] then []
    else
      var last := status[|status| - 1];
      DirMatches(status[..|status| - 1], dir) + (if Within(last, dir) then [last] else [])
  }

  /** The records that mention a file keep the order they have in `status`: filtering a
      concatenation filters each part. */
  lemma {:induction false} FileMatchesSplit(a: seq<StatusRecord>, b: seq<StatusRecord>, name: String)
    ensures FileMatches(a + b, name) == FileMatches(a, name) + FileMatches(b, name)
  {
    if b == [] {
      assert a + b == a;
    } else {
      var c, front, r := a + b, b[..|b| - 1], b[|b| - 1];
      var t := if Mentions(r, name) then [r] else [];
      assert c[..|c| - 1] == a + front && c[|c| - 1] == r;
      calc {
        FileMatches(c, name);
        FileMatches(a + front, name) + t;
        { FileMatchesSplit(a, front, name); }
        (FileMatches(a, name) + FileMatches(front, name)) + t;
        FileMatches(a, name) + (FileMatches(front, name) + t);
      }
    }
  }

  /** The records below a directory keep the order they have in `status`. */
  lemma {:induction false} DirMatchesSplit(a: seq<StatusRecord>, b: seq<StatusRecord>, dir: String)
    ensures DirMatches(a + b, dir) == DirMatches(a, dir) + DirMatches(b, dir)
  {
    if b == [] {
      assert a + b == a;
    } else {
      var c, front, r := a + b, b[..|b| - 1], b[|b| - 1];
      var t := if Within(r, dir) then [r] else [];
      assert c[..|c| - 1] == a + front && c[|c| - 1] == r;
      calc {
        DirMatches(c, dir);
        DirMatches(a + front, dir) + t;
        { DirMatchesSplit(a, front, dir); }
        (DirMatches(a, dir) + DirMatches(front, dir)) + t;
        DirMatches(a, dir) + (DirMatches(front, dir) + t);
      }
    }
  }

  /** `(x, y) == ("?", "?")`: the record of an untracked path. */
  predicate IsUntracked(r: StatusRecord) {
    r.x == "?" && r.y == "?"
  }

  /** The variables the loops of `main` set for one name: the two codes, the rename source and
      destination, and `with_untracked`. */
  datatype Decision = Decision(x: String, y: String, pathFrom: Option<String>, pathTo: Option<String>, untracked: bool)

  /** One pass of `for info in file_status` (lines 193-199). */
  function FileStep(d: Decision, r: StatusRecord, name: String): Decision {
    var d1 := d.(x := r.x, y := r.y);
    if IsUntracked(r) then d1.(untracked := true)
    else if r.pathTo == Some(name) then d1.(pathFrom := Some(r.path))
    else if r.path == name then d1.(pathTo := r.pathTo)
    else d1
  }

  function FileFold(d: Decision, ms: seq<StatusRecord>, name: String): Decision {
    if ms == [] then d else FileStep(FileFold(d, ms[..|ms| - 1], name), ms[|ms| - 1], name)
  }

  /** The loop of lines 192-199 over the records that mention a file. */
  method MatchFile(matches: seq<StatusRecord>, name: String, init: Decision) returns (d: Decision)
    ensures d == FileFold(init, matches, name)
  {
    d := init;
    var i := 0;
    while i < |matches|
      invariant 0 <= i <= |matches|
      invariant d == FileFold(init, matches[..i], name)
    {
      var info := matches[i];
      assert matches[..i + 1][..i] == matches[..i];
      d := d.(x := info.x, y := info.y);
      if IsUntracked(info) {
        d := d.(untracked := true);
      } else if info.pathTo == Some(name) {
        d := d.(pathFrom := Some(info.path));
      } else if info.path == name {
        d := d.(pathTo := info.pathTo);
      }
      i := i + 1;
    }
    assert matches[..i] == matches;
  }

  /** The file's codes are those of the last record that mentions it; it is marked untracked
      exactly when one of those records is untracked. */
  lemma {:induction false} FileCodes(d: Decision, ms: seq<StatusRecord>, name: String)
    ensures var e := FileFold(d, ms, name);
      && (ms != [] ==> e.x == ms[|ms| - 1].x && e.y == ms[|ms| - 1].y)
      && (ms == [] ==> e.x == d.x && e.y == d.y)
      && (e.untracked <==> d.untracked || exists k :: 0 <= k < |ms| && IsUntracked(ms[k]))
  {
    if ms != [] {
      var init := ms[..|ms| - 1];
      FileCodes(d, init, name);
      assert forall k :: 0 <= k < |init| ==> init[k] == ms[k];
      assert (exists k :: 0 <= k < |ms| && IsUntracked(ms[k])) <==>
        (exists k :: 0 <= k < |init| && IsUntracked(init[k])) || IsUntracked(ms[|ms| - 1]);
    }
  }

  lemma NoMatches(status: seq<StatusRecord>, name: String)
    requires forall j :: 0 <= j < |status| ==> !Mentions(status[j], name)
    ensures FileMatches(status, name) == []
  {
    var ms := FileMatches(status, name);
    if ms != [] {
      assert ms[0] in status;
    }
  }

  /** Up to the last record that mentions a file, the matches end with that record. */
  lemma MatchesEndAt(status: seq<StatusRecord>, name: String, k: nat)
    requires k < |status| && Mentions(status[k], name)
    requires forall j :: k < j < |status| ==> !Mentions(status[j], name)
    ensures FileMatches(status, name) == FileMatches(status[..k], name) + [status[k]]
  {
    var head, tail := status[..k + 1], status[k + 1..];
    assert status == head + tail;
    FileMatchesSplit(head, tail, name);
    NoMatches(tail, name);
    assert head[..k] == status[..k];
  }

  /** The codes a file shows are those of the last record of `status` that mentions it. */
  lemma FileCodesFromStatus(d: Decision, status: seq<StatusRecord>, name: String, k: nat)
    requires k < |status| && Mentions(status[k], name)
    requires forall j :: k < j < |status| ==> !Mentions(status[j], name)
    ensures FileFold(d, FileMatches(status, name), name).x == status[k].x
    ensures FileFold(d, FileMatches(status, name), name).y == status[k].y
  {
    MatchesEndAt(status, name, k);
    FileCodes(d, FileMatches(status, name), name);
  }

  /** A tracked record that renames something to `name`: the branch of line 196. */
  predicate RenamesTo(r: StatusRecord, name: String) {
    !IsUntracked(r) && r.pathTo == Some(name)
  }

  /** A tracked record whose source is `name` and that does not rename to `name`: the branch of line 198. */
  predicate RenamesFrom(r: StatusRecord, name: String) {
    !IsUntracked(r) && r.pathTo != Some(name) && r.path == name
  }

  /** A rename source is recorded exactly when a tracked record renames something to the file,
      and the last such record wins; without one the source is left as it was. */
  lemma {:induction false} FileRenameSource(d: Decision, ms: seq<StatusRecord>, name: String)
    ensures var e := FileFold(d, ms, name);
      && (e.pathFrom.Some? <==> d.pathFrom.Some? || exists k :: 0 <= k < |ms| && RenamesTo(ms[k], name))
      && ((forall k :: 0 <= k < |ms| ==> !RenamesTo(ms[k], name)) ==> e.pathFrom == d.pathFrom)
    ensures forall k ::
              0 <= k < |ms| && RenamesTo(ms[k], name) && (forall j :: k < j < |ms| ==> !RenamesTo(ms[j], name))
              ==> FileFold(d, ms, name).pathFrom == Some(ms[k].path)
  {
    if ms != [] {
      var init := ms[..|ms| - 1];
      var last := ms[|ms| - 1];
      FileRenameSource(d, init, name);
      assert forall k :: 0 <= k < |init| ==> init[k] == ms[k];
      if RenamesTo(last, name) {
        assert FileFold(d, ms, name).pathFrom == Some(last.path);
      } else {
        assert FileFold(d, ms, name).pathFrom == FileFold(d, init, name).pathFrom;
      }
    }
  }

  /** A rename destination is taken from a tracked record whose source is the file and that does
      not rename to the file itself, the last such record winning; it may be `None`, which clears
      an earlier one. Without such a record the destination is left as it was. */
  lemma {:induction false} FileRenameTarget(d: Decision, ms: seq<StatusRecord>, name: String)
    ensures var e := FileFold(d, ms, name);
      && (e.pathTo == d.pathTo || exists k :: 0 <= k < |ms| && RenamesFrom(ms[k], name) && e.pathTo == ms[k].pathTo)
      && ((forall k :: 0 <= k < |ms| ==> !RenamesFrom(ms[k], name)) ==> e.pathTo == d.pathTo)
    ensures forall k ::
              0 <= k < |ms| && RenamesFrom(ms[k], name) && (forall j :: k < j < |ms| ==> !RenamesFrom(ms[j], name))
              ==> FileFold(d, ms, name).pathTo == ms[k].pathTo
  {
    if ms != [] {
      var init := ms[..|ms| - 1];
      var last := ms[|ms| - 1];
      FileRenameTarget(d, init, name);
      assert forall k :: 0 <= k < |init| ==> init[k] == ms[k];
      if RenamesFrom(last, name) {
        assert FileFold(d, ms, name).pathTo == last.pathTo;
      } else {
        assert FileFold(d, ms, name).pathTo == FileFold(d, init, name).pathTo;
      }
    }
  }

  /** One pass of `for info in subdir_status` (lines 226-230), apart from the path it appends to
      `files`. The worktree code is compared with the record's INDEX code `info[0]`, as written. */
  function DirStep(d: Decision, r: StatusRecord): Decision {
    if IsUntracked(r) then d.(untracked := true)
    else
      d.(x := if d.x == [] then r.x else if d.x == r.x then d.x else "*",
         y := if d.y == [] then r.y else if d.y == r.x then d.y else "*")
  }

  function DirFold(d: Decision, ms: seq<StatusRecord>): Decision {
    if ms == [] then d else DirStep(DirFold(d, ms[..|ms| - 1]), ms[|ms| - 1])
  }

  /** `files.append(info[2])` for every record of the directory, in order. */
  function Paths(ms: seq<StatusRecord>): (ps: seq<String>)
    ensures |ps| == |ms| && forall k :: 0 <= k < |ms| ==> ps[k] == ms[k].path
  {
    if ms == [] then [] else Paths(ms[..|ms| - 1]) + [ms[|ms| - 1].path]
  }

  /** The loop of lines 225-232 over the records below a directory: the summary, and the paths
      appended to `files`. */
  method SummarizeDirectory(matches: seq<StatusRecord>, init: Decision) returns (d: Decision, paths: seq<String>)
    ensures d == DirFold(init, matches)
    ensures paths == Paths(matches)
  {
    d := init;
    paths := [];
    var i := 0;
    while i < |matches|
      invariant 0 <= i <= |matches|
      invariant d == DirFold(init, matches[..i])
      invariant paths == Paths(matches[..i])
    {
      var info := matches[i];
      assert matches[..i + 1][..i] == matches[..i];
      if IsUntracked(info) {
        d := d.(untracked := true);
      } else {
        var x := if d.x == [] then info.x else if d.x == info.x then d.x else "*";
        var y := if d.y == [] then info.y else if d.y == info.x then d.y else "*";
        d := d.(x := x, y := y);
      }
      paths := paths + [info.path];
      i := i + 1;
    }
    assert matches[..i] == matches;
  }

  /** The starting point of lines 176-177: blank codes, no rename, nothing untracked. */
  const Blank: Decision := Decision([], [], None, None, false)

  /** The index codes of the tracked records, in order. */
  function XCodes(ms: seq<StatusRecord>): seq<String> {
    if ms == [] then []
    else XCodes(ms[..|ms| - 1]) + (if IsUntracked(ms[|ms| - 1]) then [] else [ms[|ms| - 1].x])
  }

  predicate AllBlank(codes: seq<String>) {
    forall k :: 0 <= k < |codes| ==> codes[k] == []
  }

  /** The position of the first non-blank code. */
  function FirstSet(codes: seq<String>): (j: nat)
    requires !AllBlank(codes)
    ensures j < |codes| && codes[j] != [] && AllBlank(codes[..j])
  {
    if codes[0] != [] then 0
    else
      assert !AllBlank(codes[1..]) by {
        var k :| 0 <= k < |codes| && codes[k] != [];
        assert codes[1..][k - 1] == codes[k];
      }
      var i := FirstSet(codes[1..]);
      assert codes[1 + i] == codes[1..][i];
      var before := codes[..1 + i];
      assert AllBlank(before) by {
        forall k | 0 <= k < |before|
          ensures before[k] == []
        {
          if k > 0 {
            assert before[k] == codes[1..][..i][k - 1];
          }
        }
      }
      1 + i
  }

  /** The summary column a directory shows, stated directly: blank while every tracked code is
      blank, then the first non-blank code if every later code equals it, and '*' otherwise. */
  function Settle(codes: seq<String>): String {
    if AllBlank(codes) then []
    else
      var j := FirstSet(codes);
      if forall k :: j < k < |codes| ==> codes[k] == codes[j] then codes[j] else "*"
  }

  lemma {:induction false} FirstSetAppend(codes: seq<String>, c: String)
    requires !AllBlank(codes)
    ensures !AllBlank(codes + [c]) && FirstSet(codes + [c]) == FirstSet(codes)
  {
    var ext := codes + [c];
    var j := FirstSet(codes);
    assert ext[j] == codes[j];
    if codes[0] == [] {
      assert ext[1..] == codes[1..] + [c];
      FirstSetAppend(codes[1..], c);
    }
  }

  lemma {:induction false} FirstSetAfterBlanks(codes: seq<String>, c: String)
    requires AllBlank(codes) && c != []
    ensures !AllBlank(codes + [c]) && FirstSet(codes + [c]) == |codes|
  {
    var ext := codes + [c];
    assert ext[|codes|] == c;
    if codes != [] {
      assert ext[1..] == codes[1..] + [c];
      FirstSetAfterBlanks(codes[1..], c);
    }
  }

  /** Appending one code to the settled column behaves like one step of the loop. */
  lemma SettleStep(codes: seq<String>, c: String)
    ensures var s := Settle(codes);
      Settle(codes + [c]) == (if s == [] then c else if s == c then s else "*")
  {
    var ext := codes + [c];
    if AllBlank(codes) {
      if c == [] {
        assert AllBlank(ext);
      } else {
        FirstSetAfterBlanks(codes, c);
      }
    } else {
      FirstSetAppend(codes, c);
      var j := FirstSet(codes);
      assert forall k :: j < k < |codes| ==> ext[k] == codes[k];
      assert ext[j] == codes[j] && ext[|codes|] == c;
    }
  }

  /** The directory's index-code column is `Settle` of the tracked records' index codes: the loop
      of lines 225-230 is order-sensitive exactly as `Settle` says. */
  lemma {:induction false} DirColumnX(ms: seq<StatusRecord>)
    ensures DirFold(Blank, ms).x == Settle(XCodes(ms))
  {
    if ms != [] {
      var init := ms[..|ms| - 1];
      var last := ms[|ms| - 1];
      DirColumnX(init);
      assert DirFold(Blank, ms) == DirStep(DirFold(Blank, init), last);
      if !IsUntracked(last) {
        assert XCodes(ms) == XCodes(init) + [last.x];
        SettleStep(XCodes(init), last.x);
      } else {
        assert XCodes(ms) == XCodes(init) + [];
        assert XCodes(init) + [] == XCodes(init);
      }
    } else {
      assert AllBlank(XCodes(ms));
    }
  }

  /** The worktree codes of the tracked records, in order. */
  function YCodes(ms: seq<StatusRecord>): seq<String> {
    if ms == [] then []
    else YCodes(ms[..|ms| - 1]) + (if IsUntracked(ms[|ms| - 1]) then [] else [ms[|ms| - 1].y])
  }

  /** The worktree column a directory shows, stated directly from the tracked records' worktree
      codes `ys` and index codes `xs`: blank while every worktree code is blank, then the first
      non-blank worktree code if every LATER record's index code equals it, and '*' otherwise. */
  function SettleAgainst(ys: seq<String>, xs: seq<String>): String {
    if AllBlank(ys) then []
    else
      var j := FirstSet(ys);
      if forall k :: j < k < |xs| ==> xs[k] == ys[j] then ys[j] else "*"
  }

  /** Appending one record's codes to the settled worktree column behaves like one step of the loop. */
  lemma SettleAgainstStep(ys: seq<String>, xs: seq<String>, y: String, x: String)
    requires |ys| == |xs|
    ensures var s := SettleAgainst(ys, xs);
      SettleAgainst(ys + [y], xs + [x]) == (if s == [] then y else if s == x then s else "*")
  {
    var ey, ex := ys + [y], xs + [x];
    if AllBlank(ys) {
      if y == [] {
        assert AllBlank(ey);
      } else {
        FirstSetAfterBlanks(ys, y);
      }
    } else {
      FirstSetAppend(ys, y);
      var j := FirstSet(ys);
      assert forall k :: j < k < |xs| ==> ex[k] == xs[k];
      assert ey[j] == ys[j] && ex[|xs|] == x;
    }
  }

  /** The directory's worktree-code column is `SettleAgainst` of the tracked records' worktree and
      index codes: it is kept only while later records' INDEX codes repeat it. */
  lemma {:induction false} DirColumnY(ms: seq<StatusRecord>)
    ensures |YCodes(ms)| == |XCodes(ms)|
    ensures DirFold(Blank, ms).y == SettleAgainst(YCodes(ms), XCodes(ms))
  {
    if ms != [] {
      var init := ms[..|ms| - 1];
      var last := ms[|ms| - 1];
      DirColumnY(init);
      assert DirFold(Blank, ms) == DirStep(DirFold(Blank, init), last);
      if !IsUntracked(last) {
        assert XCodes(ms) == XCodes(init) + [last.x];
        assert YCodes(ms) == YCodes(init) + [last.y];
        SettleAgainstStep(YCodes(init), XCodes(init), last.y, last.x);
      } else {
        assert XCodes(ms) == XCodes(init) + [] == XCodes(init);
        assert YCodes(ms) == YCodes(init) + [] == YCodes(init);
      }
    } else {
      assert AllBlank(YCodes(ms));
    }
  }

  /** A directory is marked untracked exactly when one of its records is untracked. */
  lemma {:induction false} DirUntracked(d: Decision, ms: seq<StatusRecord>)
    ensures DirFold(d, ms).untracked <==> d.untracked || exists k :: 0 <= k < |ms| && IsUntracked(ms[k])
  {
    if ms != [] {
      var init := ms[..|ms| - 1];
      DirUntracked(d, init);
      assert forall k :: 0 <= k < |init| ==> init[k] == ms[k];
      assert (exists k :: 0 <= k < |ms| && IsUntracked(ms[k])) <==>
        (exists k :: 0 <= k < |init| && IsUntracked(init[k])) || IsUntracked(ms[|ms| - 1]);
    }
  }

  /** When every tracked record has equal codes, the worktree column agrees with the index column,
      so comparing with `info[0]` is then harmless. */
  lemma {:induction false} DirColumnsAgree(ms: seq<StatusRecord>)
    requires forall k :: 0 <= k < |ms| && !IsUntracked(ms[k]) ==> ms[k].x == ms[k].y
    ensures DirFold(Blank, ms).y == DirFold(Blank, ms).x
  {
    if ms != [] {
      var init := ms[..|ms| - 1];
      assert forall k :: 0 <= k < |init| ==> init[k] == ms[k];
      DirColumnsAgree(init);
    }
  }

  /** `MM` then `AM`: both records leave the worktree modified, yet the summary's worktree column
      becomes '*', because line 230 compares it with the second record's index code 'A'. */
  lemma WorktreeColumnComparedWithIndexCode()
    ensures var ms := [StatusRecord("M", "M", "d/a", None), StatusRecord("A", "M", "d/b", None)];
      && ms[0].y == ms[1].y
      && DirFold(Blank, ms).x == "*"
      && DirFold(Blank, ms).y == "*"
  {
    var ms := [StatusRecord("M", "M", "d/a", None), StatusRecord("A", "M", "d/b", None)];
    assert ms[..1] == [ms[0]] && ms[..1][..0] == [];
  }

  /** The summary depends on the order of the records: a file staged and a file modified give
      `*M` in one order and `MM` in the other. */
  lemma DirSummaryDependsOnOrder()
    ensures var staged := StatusRecord("M", "", "d/a", None);
      var modified := StatusRecord("", "M", "d/b", None);
      && DirFold(Blank, [staged, modified]) == Blank.(x := "*", y := "M")
      && DirFold(Blank, [modified, staged]) == Blank.(x := "M", y := "M")
  {
    var staged := StatusRecord("M", "", "d/a", None);
    var modified := StatusRecord("", "M", "d/b", None);
    assert [staged, modified][..1] == [staged] && [staged][..0] == [];
    assert DirFold(Blank, [staged]) == Blank.(x := "M");
    assert [modified, staged][..1] == [modified] && [modified][..0] == [];
    assert DirFold(Blank, [modified]) == Blank.(y := "M");
  }
}
