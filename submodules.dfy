/** `git_submodules` of git-ls.py: the path-to-url table read from `.gitmodules`. */
module Submodules {
  import opened Base
  import opened Text

  /** The dict `git_submodules` returns. Its keys are `path` values, so `None` can be a key. */
  type Table = map<Option<String>, Option<String>>

  /** The loop's state: the table so far and the pending `path` and `url` of the current section. */
  datatype Pending = Pending(table: Table, path: Option<String>, url: Option<String>)

  /** `line.split("=", 1)[1].strip()`, None where the line has no '=' and the indexing raises. */
  function ValueOf(line: String): Option<String> {
    match SplitOnce(line, "=")
    case None => None
    case Some((_, value)) => Some(Strip(value))
  }

  /** The effect of one line (lines 80-87), None where the line raises. */
  function Step(p: Pending, line: String): Option<Pending> {
    if StartsWith(line, "[") then Some(Pending(p.table[p.path := p.url], None, None))
    else if StartsWith(line, "\tpath") then
      match ValueOf(line)
      case None => None
      case Some(v) => Some(p.(path := Some(v)))
    else if StartsWith(line, "\turl") then
      match ValueOf(line)
      case None => None
      case Some(v) => Some(p.(url := Some(v)))
    else Some(p)
  }

  /** The state after the lines, or the index of the first line that raises. */
  function Scan(lines: seq<String>): Result<Pending>
  {
    if lines == [] then Ok(Pending(map[], None, None))
    else match Scan(lines[..|lines| - 1])
      case Err(e) => Err(e)
      case Ok(p) =>
        match Step(p, lines[|lines| - 1])
        case None => Err(SubmoduleLineMalformed(|lines| - 1))
        case Some(q) => Ok(q)
  }

  /** Python's truth value of an optional string: present and non-empty. */
  predicate Truthy(s: Option<String>) {
    s.Some? && s.value != []
  }

  /** Lines 88-89: the last section's pair is added only when its path is non-empty. */
  function Finish(p: Pending): Table {
    if Truthy(p.path) then p.table[p.path := p.url] else p.table
  }

  /** Lines 80-87 for one line: the new table and pending pair, None where the line raises. */
  method ReadLine(ret: Table, path: Option<String>, url: Option<String>, line: String) returns (next: Option<Pending>)
    ensures next == Step(Pending(ret, path, url), line)
  {
    if StartsWith(line, "[") {
      return Some(Pending(ret[path := url], None, None));
    } else if StartsWith(line, "\tpath") {
      var parts := SplitOnce(line, "=");
      if parts.None? {
        return None;
      }
      return Some(Pending(ret, Some(Strip(parts.value.1)), url));
    } else if StartsWith(line, "\turl") {
      var parts := SplitOnce(line, "=");
      if parts.None? {
        return None;
      }
      return Some(Pending(ret, path, Some(Strip(parts.value.1))));
    }
    return Some(Pending(ret, path, url));
  }

  /** `git_submodules(fn)`: `file` is None when `fn` is not a file, else the lines `readlines()`
      returns. */
  method GitSubmodules(file: Option<seq<String>>) returns (r: Result<Table>)
    ensures file.None? ==> r == Ok(map[])
    ensures file.Some? ==> r == (match Scan(file.value) case Err(e) => Err(e) case Ok(p) => Ok(Finish(p)))
  {
    var ret: Table := map[];
    if file.None? {
      return Ok(ret);
    }
    var lines := file.value;
    var path: Option<String> := None;
    var url: Option<String> := None;
    var i := 0;
    while i < |lines|
      invariant 0 <= i <= |lines|
      invariant Scan(lines[..i]) == Ok(Pending(ret, path, url))
    {
      assert lines[..i + 1][..i] == lines[..i];
      var next := ReadLine(ret, path, url, lines[i]);
      if next.None? {
        ScanErrorStays(lines, i + 1);
        assert lines[..|lines|] == lines;
        return Err(SubmoduleLineMalformed(i));
      }
      ret, path, url := next.value.table, next.value.path, next.value.url;
      i := i + 1;
    }
    assert lines[..i] == lines;
    if Truthy(path) {
      ret := ret[path := url];
    }
    r := Ok(ret);
  }

  /** Once a line raises, the scan of any longer prefix reports that line. */
  lemma {:induction false} ScanErrorStays(lines: seq<String>, n: nat)
    requires 0 < n <= |lines| && Scan(lines[..n]).Err?
    ensures Scan(lines) == Scan(lines[..n])
    decreases |lines| - n
  {
    if n < |lines| {
      assert lines[..n + 1][..n] == lines[..n];
      ScanErrorStays(lines, n + 1);
    } else {
      assert lines[..n] == lines;
    }
  }

  /** One `[submodule "name"]` section as `git submodule add` writes it. */
  datatype Section = Section(name: String, path: String, url: String)

  function SectionLines(s: Section): seq<String> {
    ["[submodule \"" + s.name + "\"]\n", "\tpath = " + s.path + "\n", "\turl = " + s.url + "\n"]
  }

  function FileLines(sections: seq<Section>): seq<String> {
    if sections == [] then [] else FileLines(sections[..|sections| - 1]) + SectionLines(sections[|sections| - 1])
  }

  /** The path-to-url table the sections describe: a later section for the same path wins. */
  function Described(sections: seq<Section>): Table {
    if sections == [] then map[]
    else
      var s := sections[|sections| - 1];
      Described(sections[..|sections| - 1])[Some(s.path) := Some(s.url)]
  }

  /** The last section for a path decides its url. */
  lemma {:induction false} DescribedUrl(sections: seq<Section>, k: nat)
    requires k < |sections|
    requires forall j :: k < j < |sections| ==> sections[j].path != sections[k].path
    ensures Some(sections[k].path) in Described(sections)
    ensures Described(sections)[Some(sections[k].path)] == Some(sections[k].url)
  {
    var init := sections[..|sections| - 1];
    if k < |sections| - 1 {
      assert forall j :: k < j < |init| ==> init[j] == sections[j];
      DescribedUrl(init, k);
    }
  }

  /** A path no section names is not described. */
  lemma {:induction false} NotDescribed(sections: seq<Section>, path: String)
    requires forall j :: 0 <= j < |sections| ==> sections[j].path != path
    ensures Some(path) !in Described(sections)
  {
    if sections != [] {
      var init := sections[..|sections| - 1];
      assert forall j :: 0 <= j < |init| ==> init[j] == sections[j];
      NotDescribed(init, path);
    }
  }

  /** A value `strip()` gives back unchanged. */
  predicate Stripped(s: String) {
    s == [] || (!IsSpace(s[0]) && !IsSpace(s[|s| - 1]))
  }

  /** A section whose values read back unchanged. */
  predicate Plain(s: Section) {
    Stripped(s.path) && Stripped(s.url)
  }

  /** A plain section with a non-empty path, which the loader keeps. */
  predicate WellFormed(s: Section) {
    Plain(s) && s.path != []
  }

  /** A value line `key = value` yields `value` when `key` has no '='. */
  lemma ValueOfLine(key: String, value: String)
    requires '=' !in key && Stripped(value)
    ensures ValueOf(key + " = " + value + "\n") == Some(value)
  {
    var line := key + " = " + value + "\n";
    assert line == (key + " ") + "=" + (" " + value + "\n");
    assert '=' !in key + " ";
    NoCharOccurrence(key + " ", '=', " " + value + "\n");
    SplitOnceAt(key + " ", "=", " " + value + "\n");
    StripPadded(" ", value, "\n");
  }

  /** Scanning one more line applies `Step` to the state so far. */
  lemma ScanAppend(lines: seq<String>, line: String, p: Pending)
    requires Scan(lines) == Ok(p) && Step(p, line).Some?
    ensures Scan(lines + [line]) == Ok(Step(p, line).value)
  {
    assert (lines + [line])[..|lines|] == lines;
  }

  /** A header line stores the pending pair under its path and clears both. */
  lemma StepHeader(s: Section, p: Pending)
    ensures Step(p, SectionLines(s)[0]) == Some(Pending(p.table[p.path := p.url], None, None))
  {
    assert SectionLines(s)[0][..1] == "[";
  }

  /** A well-formed path line sets the pending path. */
  lemma StepPath(s: Section, p: Pending)
    requires Plain(s)
    ensures Step(p, SectionLines(s)[1]) == Some(p.(path := Some(s.path)))
  {
    var line := SectionLines(s)[1];
    assert line[..1] == "\t" && line[..5] == "\tpath";
    assert line == "\tpath" + " = " + s.path + "\n";
    ValueOfLine("\tpath", s.path);
  }

  /** A well-formed url line sets the pending url. */
  lemma StepUrl(s: Section, p: Pending)
    requires Plain(s)
    ensures Step(p, SectionLines(s)[2]) == Some(p.(url := Some(s.url)))
  {
    var line := SectionLines(s)[2];
    assert !StartsWith(line, "[") by {
      assert line[..1] == "\t";
    }
    assert !StartsWith(line, "\tpath") by {
      assert line[..5][1] == 'u';
    }
    assert StartsWith(line, "\turl") by {
      assert line[..4] == "\turl";
    }
    assert line == "\turl" + " = " + s.url + "\n";
    ValueOfLine("\turl", s.url);
  }

  /** Reading one well-formed section after any state stores the pending pair and leaves the
      section's pair pending. */
  lemma {:induction false} ScanSection(lines: seq<String>, s: Section, p: Pending)
    requires Plain(s) && Scan(lines) == Ok(p)
    ensures Scan(lines + SectionLines(s)) == Ok(Pending(p.table[p.path := p.url], Some(s.path), Some(s.url)))
  {
    var ls := SectionLines(s);
    var p1 := Pending(p.table[p.path := p.url], None, None);
    var p2 := p1.(path := Some(s.path));
    StepHeader(s, p);
    ScanAppend(lines, ls[0], p);
    StepPath(s, p1);
    ScanAppend(lines + [ls[0]], ls[1], p1);
    StepUrl(s, p2);
    ScanAppend(lines + [ls[0]] + [ls[1]], ls[2], p2);
    ThreeLines(lines, ls);
  }

  lemma ThreeLines(lines: seq<String>, ls: seq<String>)
    requires |ls| == 3
    ensures lines + [ls[0]] + [ls[1]] + [ls[2]] == lines + ls
  {
    assert ls == [ls[0], ls[1], ls[2]];
  }

  /** A `.gitmodules` made of well-formed sections loads as the table the sections describe, plus
      the entry `None: None` the first header stores (line 81 runs before any path is seen). */
  lemma {:induction false} LoadSections(sections: seq<Section>)
    requires sections != []
    requires forall k :: 0 <= k < |sections| ==> WellFormed(sections[k])
    ensures Scan(FileLines(sections)).Ok?
    ensures Finish(Scan(FileLines(sections)).value) == map[None := None] + Described(sections)
  {
    var n := |sections|;
    var last := sections[n - 1];
    var init := sections[..n - 1];
    assert FileLines(sections) == FileLines(init) + SectionLines(last);
    if init == [] {
      assert FileLines(init) == [];
      ScanSection([], last, Pending(map[], None, None));
      assert Described(sections) == map[][Some(last.path) := Some(last.url)];
    } else {
      assert forall k :: 0 <= k < |init| ==> WellFormed(init[k]) by {
        forall k | 0 <= k < |init| ensures WellFormed(init[k]) {
          assert init[k] == sections[k];
        }
      }
      LoadSections(init);
      var p := Scan(FileLines(init)).value;
      PendingOfSections(init);
      ScanSection(FileLines(init), last, p);
      var stored := p.table[p.path := p.url];
      assert stored == Finish(p);
      assert Finish(Pending(stored, Some(last.path), Some(last.url))) == stored[Some(last.path) := Some(last.url)];
      UpdateAfterUnion(map[None := None], Described(init), Some(last.path), Some(last.url));
    }
  }

  lemma UpdateAfterUnion(m: Table, d: Table, k: Option<String>, v: Option<String>)
    ensures (m + d)[k := v] == m + d[k := v]
  {
  }

  /** After well-formed sections the last section's pair is pending. */
  lemma {:induction false} PendingOfSections(sections: seq<Section>)
    requires sections != []
    requires forall k :: 0 <= k < |sections| ==> WellFormed(sections[k])
    ensures Scan(FileLines(sections)).Ok?
    ensures var p := Scan(FileLines(sections)).value;
      p.path == Some(sections[|sections| - 1].path) && p.url == Some(sections[|sections| - 1].url)
  {
    var n := |sections|;
    var init := sections[..n - 1];
    assert FileLines(sections) == FileLines(init) + SectionLines(sections[n - 1]);
    if init == [] {
      assert FileLines(init) == [];
      ScanSection([], sections[n - 1], Pending(map[], None, None));
    } else {
      assert forall k :: 0 <= k < |init| ==> WellFormed(init[k]) by {
        forall k | 0 <= k < |init| ensures WellFormed(init[k]) {
          assert init[k] == sections[k];
        }
      }
      PendingOfSections(init);
      ScanSection(FileLines(init), sections[n - 1], Scan(FileLines(init)).value);
    }
  }

  /** A section whose path is empty is dropped at the end of the file, while a header still
      stores the pending pair under whatever path is pending, `None` included. */
  lemma EmptyLastPathDropped(s: Section)
    requires Plain(s) && s.path == []
    ensures Scan(SectionLines(s)).Ok? && Finish(Scan(SectionLines(s)).value) == map[None := None]
  {
    ScanSection([], s, Pending(map[], None, None));
    assert [] + SectionLines(s) == SectionLines(s);
  }
}
