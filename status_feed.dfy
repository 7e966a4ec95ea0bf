/** `git_status` of git-ls.py: reading `git status --porcelain` lines into status records. */
module StatusFeed {
  import opened Base
  import opened Text

  /** One porcelain line: index code `x`, worktree code `y` (each "" when blank), the path and,
      for a rename or copy, the destination. */
  datatype StatusRecord = StatusRecord(x: String, y: String, path: String, pathTo: Option<String>)

  const Arrow: String := " -> "

  /** `line[k].strip()` for one character: empty for whitespace, the character otherwise. */
  function StatusCode(ch: char): String {
    if IsSpace(ch) then [] else [ch]
  }

  /** `StatusCode` is Python's `strip()` of the one-character string. */
  lemma StatusCodeIsStrip(ch: char)
    ensures StatusCode(ch) == Strip([ch])
  {
    if IsSpace(ch) {
      StripPadded([ch], [], []);
      assert [ch] + [] + [] == [ch];
    } else {
      StripPadded([], [ch], []);
      assert [] + [ch] + [] == [ch];
    }
  }

  /** `line[3:]` */
  function PathField(line: String): String {
    if |line| >= 3 then line[3..] else []
  }

  /** The record `git_status` appends for one line of at least two characters. */
  function RecordOf(line: String): StatusRecord
    requires |line| >= 2
  {
    var path := PathField(line);
    match SplitOnce(path, Arrow)
    case None => StatusRecord(StatusCode(line[0]), StatusCode(line[1]), path, None)
    case Some((from, to)) => StatusRecord(StatusCode(line[0]), StatusCode(line[1]), from, Some(to))
  }

  /** Lines 45-53 for one line of at least two characters. */
  method ParseStatusLine(line: String) returns (rec: StatusRecord)
    requires |line| >= 2
    ensures rec == RecordOf(line)
  {
    var x := StatusCode(line[0]);
    var y := StatusCode(line[1]);
    var path := PathField(line);
    var pathTo: Option<String> := None;
    var parts := SplitOnce(path, Arrow);
    if parts.Some? {
      path, pathTo := parts.value.0, Some(parts.value.1);
    }
    rec := StatusRecord(x, y, path, pathTo);
  }

  /** `git_status()` over the lines of `git status --porcelain`: one record per line, in order;
      a line shorter than two characters raises, reported here as the first such line. */
  method GitStatus(lines: seq<String>) returns (r: Result<seq<StatusRecord>>)
    ensures r.Ok? <==> forall i :: 0 <= i < |lines| ==> |lines[i]| >= 2
    ensures r.Ok? ==> |r.value| == |lines| && forall i :: 0 <= i < |lines| ==> r.value[i] == RecordOf(lines[i])
    ensures r.Err? ==> r.error.StatusLineTooShort? && r.error.line < |lines| && |lines[r.error.line]| < 2
    ensures r.Err? && r.error.StatusLineTooShort? ==> forall k :: 0 <= k < r.error.line ==> |lines[k]| >= 2
  {
    var ret: seq<StatusRecord> := [];
    var i := 0;
    while i < |lines|
      invariant 0 <= i <= |lines| && |ret| == i
      invariant forall k :: 0 <= k < i ==> |lines[k]| >= 2 && ret[k] == RecordOf(lines[k])
    {
      if |lines[i]| < 2 {
        return Err(StatusLineTooShort(i));
      }
      var rec := ParseStatusLine(lines[i]);
      ret := ret + [rec];
      i := i + 1;
    }
    r := Ok(ret);
  }

  /** The path text after the two codes is the record's path, or its path, the arrow and the
      destination, split at the first arrow. */
  lemma RecordPaths(line: String)
    requires |line| >= 2
    ensures var rec := RecordOf(line);
      && (rec.pathTo.None? ==> rec.path == PathField(line) && !Contains(PathField(line), Arrow))
      && (rec.pathTo.Some? ==> rec.path + Arrow + rec.pathTo.value == PathField(line))
      && (rec.pathTo.Some? ==> forall j :: 0 <= j < |rec.path| ==> !OccursAt(PathField(line), Arrow, j))
  {
  }

  /** The codes are the first two characters, blank when they are whitespace. */
  lemma RecordCodes(line: String)
    requires |line| >= 2
    ensures RecordOf(line).x == (if IsSpace(line[0]) then [] else [line[0]])
    ensures RecordOf(line).y == (if IsSpace(line[1]) then [] else [line[1]])
  {
  }

  /** How git writes a record in porcelain v1: each code or a space, a space, then the path(s). */
  function Porcelain(rec: StatusRecord): String
    requires |rec.x| <= 1 && |rec.y| <= 1
  {
    (if rec.x == [] then " " else rec.x) + (if rec.y == [] then " " else rec.y) + " " + rec.path
      + (match rec.pathTo case None => [] case Some(to) => Arrow + to)
  }

  /** A code is what `git_status` can produce for a column: empty, or one non-whitespace character. */
  predicate IsCode(code: String) {
    code == [] || (|code| == 1 && !IsSpace(code[0]))
  }

  /** Reading back a porcelain line gives the record, as long as the source path is arrow-free. */
  lemma {:induction false} PorcelainRoundTrip(rec: StatusRecord)
    requires IsCode(rec.x) && IsCode(rec.y)
    requires ArrowFree(rec.path)
    ensures |Porcelain(rec)| >= 2 && RecordOf(Porcelain(rec)) == rec
  {
    var line := Porcelain(rec);
    var cx := if rec.x == [] then " " else rec.x;
    var cy := if rec.y == [] then " " else rec.y;
    var tail := match rec.pathTo case None => [] case Some(to) => Arrow + to;
    assert [cx[0]] == cx && [cy[0]] == cy;
    assert line == [cx[0], cy[0], ' '] + (rec.path + tail);
    LineFields(cx[0], cy[0], rec.path + tail);
    assert StatusCode(cx[0]) == rec.x;
    assert StatusCode(cy[0]) == rec.y;
    PathRoundTrip(rec.path, rec.pathTo);
  }

  lemma LineFields(cx: char, cy: char, rest: String)
    ensures var line := [cx, cy, ' '] + rest;
      |line| >= 2 && line[0] == cx && line[1] == cy && PathField(line) == rest
  {
    var line := [cx, cy, ' '] + rest;
    assert line[3..] == rest;
  }

  /** The path part of a porcelain line splits back into the path and the destination. */
  lemma PathRoundTrip(path: String, pathTo: Option<String>)
    requires ArrowFree(path)
    ensures var field := path + (match pathTo case None => [] case Some(to) => Arrow + to);
      SplitOnce(field, Arrow) == (match pathTo case None => None case Some(to) => Some((path, to)))
  {
    match pathTo
    case None =>
      assert path + [] == path;
      assert !Contains(path, Arrow);
    case Some(to) =>
      forall j | 0 <= j < |path|
        ensures !OccursAt(path + Arrow + to, Arrow, j)
      {
        NoEarlyArrow(path, to, j);
      }
      assert path + (Arrow + to) == path + Arrow + to;
      SplitOnceAt(path, Arrow, to);
  }

  /** A path can be told apart from its destination when it holds no " -> " and does not end in " ->". */
  predicate ArrowFree(path: String) {
    !Contains(path, Arrow) && !(|path| >= 3 && path[|path| - 3..] == " ->")
  }

  /** No arrow starts inside an arrow-free path placed before `" -> " + to`. */
  lemma NoEarlyArrow(path: String, to: String, j: nat)
    requires ArrowFree(path) && j < |path|
    ensures !OccursAt(path + Arrow + to, Arrow, j)
  {
    var s := path + Arrow + to;
    if j + 4 <= |path| {
      assert s[j..j + 4] == path[j..j + 4];
      assert !OccursAt(path, Arrow, j);
    } else if j + 4 <= |s| {
      var d := |path| - j;
      if d == 1 {
        assert s[j..j + 4][1] == ' ';
      } else if d == 2 {
        assert s[j..j + 4][2] == ' ';
      } else {
        assert j == |path| - 3;
        assert s[j..j + 3] == path[j..] by {
          forall k | 0 <= k < 3 ensures s[j..j + 3][k] == path[j..][k] {
            assert s[j + k] == path[j + k];
          }
        }
        assert s[j..j + 4][..3] == s[j..j + 3];
      }
    }
  }

  /** The ambiguity git-ls.py itself flags: an untracked file named ".bash -> rc" reads back as a
      rename of ".bash" to "rc". */
  lemma ArrowInFileNameIsMisread()
    ensures var rec := StatusRecord("?", "?", ".bash -> rc", None);
      RecordOf(Porcelain(rec)) == StatusRecord("?", "?", ".bash", Some("rc"))
  {
    var line := Porcelain(StatusRecord("?", "?", ".bash -> rc", None));
    assert line == "?? .bash -> rc";
    assert PathField(line) == ".bash" + Arrow + "rc";
    forall j | 0 <= j < 5
      ensures !OccursAt(".bash" + Arrow + "rc", Arrow, j)
    {
      assert (".bash" + Arrow + "rc")[j..j + 4][0] != Arrow[0];
    }
    SplitOnceAt(".bash", Arrow, "rc");
  }
}
