/** The loop of `main` in git-ls.py (lines 166-300): every name of the tree and of the working
    directory, reconciled with the status records, becomes at most one element of `output_lines`. */
module Listing {
  import opened Base
  import opened Text
  import opened StatusFeed
  import opened TreeFeed
  import opened Submodules
  import opened FileMode
  import opened Reconcile
  import opened Ordering
  import opened Render

  /** The working directory as `main` sees it: `os.listdir('.')`, the names `os.path.isdir`
      accepts, and `os.lstat(name).st_mode` for the names `lstat` succeeds on. */
  datatype WorkTree = WorkTree(listing: seq<String>, dirs: set<String>, modes: map<String, nat>)

  /** What `main` has gathered before line 166: the status records, `ls_tree_dic`, the submodule
      table, and the working directory. */
  datatype Context = Context(status: seq<StatusRecord>, index: map<String, TreeEntry>, subs: Table, work: WorkTree)

  /** The lists the loop builds: `files`, `directories` and `output_lines`. */
  datatype Progress = Progress(files: seq<String>, directories: seq<String>, lines: seq<Line>)

  const Start: Progress := Progress([], [], [])

  /** `os.path.isdir(file_path)` (line 175). */
  predicate IsDir(ctx: Context, name: String) {
    name in ctx.work.dirs
  }

  /** `file_status` or `subdir_status`: the records that concern the name. */
  function Matches(ctx: Context, name: String): seq<StatusRecord> {
    if IsDir(ctx, name) then DirMatches(ctx.status, name) else FileMatches(ctx.status, name)
  }

  /** Lines 184-191 and 219-224: a name no record concerns and the tree does not hold is left out,
      unless the tree is empty. */
  predicate Ignored(ctx: Context, name: String) {
    Matches(ctx, name) == [] && name !in ctx.index && ctx.index != map[]
  }

  /** Lines 180-181 and 207-208: a file already in `files`, a directory already in `directories`. */
  predicate Seen(ctx: Context, p: Progress, name: String) {
    if IsDir(ctx, name) then name in p.directories else name in p.files
  }

  /** The codes, rename partners and untracked mark the loop settles on for a name it shows. */
  function Decide(ctx: Context, name: String): Decision {
    var ms := Matches(ctx, name);
    var init := if ms == [] && name !in ctx.index then Blank.(x := "?", y := "?") else Blank;
    if IsDir(ctx, name) then DirFold(init, ms) else FileFold(init, ms, name)
  }

  /** What showing a name appends to `files`: the file and its truthy rename partners (lines
      200-204), or every path recorded below the directory (line 232). */
  function Recorded(ctx: Context, name: String, d: Decision): seq<String> {
    if IsDir(ctx, name) then Paths(Matches(ctx, name))
    else
      [name] + (if Truthy(d.pathFrom) then [d.pathFrom.value] else [])
      + (if Truthy(d.pathTo) then [d.pathTo.value] else [])
  }

  function LiveModeOf(work: WorkTree, name: String): Option<nat> {
    if name in work.modes then Some(work.modes[name]) else None
  }

  /** The element of `output_lines` for a name that is shown, or the error of line 282. */
  function Entry(ctx: Context, name: String): Result<Line> {
    match GitModeOf(ctx.index, name)
    case Err(e) => Err(e)
    case Ok(g) =>
      Ok(LineOf(Decide(ctx, name), name, IsDir(ctx, name), g, LiveModeOf(ctx.work, name), SubmoduleOf(ctx.subs, name)))
  }

  /** One pass of the loop. */
  function Step(ctx: Context, p: Progress, name: String): Result<Progress> {
    if Seen(ctx, p, name) || Ignored(ctx, name) then Ok(p)
    else match Entry(ctx, name)
      case Err(e) => Err(e)
      case Ok(line) =>
        Ok(Progress(p.files + Recorded(ctx, name, Decide(ctx, name)),
                    if IsDir(ctx, name) then p.directories + [name] else p.directories,
                    p.lines + [line]))
  }

  /** The lists after visiting the names in order, or the first error. */
  function Run(ctx: Context, names: seq<String>): Result<Progress> {
    if names == [] then Ok(Start)
    else match Run(ctx, names[..|names| - 1])
      case Err(e) => Err(e)
      case Ok(p) => Step(ctx, p, names[|names| - 1])
  }

  /** Lines 176-204 for a name that is not a directory: whether it is shown, what is decided
      about it, and the new `files`. */
  method VisitFile(ctx: Context, p: Progress, name: String) returns (show: bool, d: Decision, files: seq<String>)
    requires !IsDir(ctx, name)
    ensures show <==> !Seen(ctx, p, name) && !Ignored(ctx, name)
    ensures show ==> d == Decide(ctx, name) && files == p.files + Recorded(ctx, name, d)
  {
    files := p.files;
    d := Blank;
    if name in files {
      return false, d, files;
    }
    var fileStatus := FileMatches(ctx.status, name);
    if fileStatus == [] && name !in ctx.index {
      if ctx.index == map[] {
        d := d.(x := "?", y := "?");
      } else {
        return false, d, files;
      }
    }
    d := MatchFile(fileStatus, name, d);
    files := files + [name];
    if Truthy(d.pathFrom) {
      files := files + [d.pathFrom.value];
    }
    if Truthy(d.pathTo) {
      files := files + [d.pathTo.value];
    }
    show := true;
  }

  /** Lines 205-232 for a directory: whether it is shown, what is decided about it, and the new
      `files`. */
  method VisitDirectory(ctx: Context, p: Progress, name: String) returns (show: bool, d: Decision, files: seq<String>)
    requires IsDir(ctx, name)
    ensures show <==> !Seen(ctx, p, name) && !Ignored(ctx, name)
    ensures show ==> d == Decide(ctx, name) && files == p.files + Recorded(ctx, name, d)
  {
    files := p.files;
    d := Blank;
    if name in p.directories {
      return false, d, files;
    }
    var subdirStatus := DirMatches(ctx.status, name);
    if subdirStatus == [] && name !in ctx.index {
      if ctx.index == map[] {
        d := d.(x := "?", y := "?");
      } else {
        return false, d, files;
      }
    }
    var paths;
    d, paths := SummarizeDirectory(subdirStatus, d);
    files := files + paths;
    show := true;
  }

  /** Lines 235-297: the element of `output_lines` for a name that is shown. */
  method MakeLine(ctx: Context, name: String, d: Decision) returns (r: Result<Line>)
    requires d == Decide(ctx, name)
    ensures r == Entry(ctx, name)
  {
    var isDirectory := name in ctx.work.dirs;
    var submodule: Option<String> := None;
    if Some(name) in ctx.subs {
      submodule := ctx.subs[Some(name)];
    }
    var gitMode: Option<nat> := None;
    if name in ctx.index {
      gitMode := ParseOctal(ctx.index[name].mode);
      if gitMode.None? {
        return Err(ModeNotOctal(name));
      }
    }
    var curMode: Option<nat> := None;
    if name in ctx.work.modes {
      curMode := Some(ctx.work.modes[name]);
    }
    var fileMode := GetFileMode(gitMode, curMode);
    r := Ok(Line(isDirectory, ColorPriority(d.x, d.y).1, name, fileMode + Tail(d, name, isDirectory, submodule)));
  }

  /** One pass of the loop of lines 173-300 for `file_name`. */
  method Visit(ctx: Context, p: Progress, name: String) returns (r: Result<Progress>)
    ensures r == Step(ctx, p, name)
  {
    var isDirectory := name in ctx.work.dirs;
    var show, d, files;
    var directories := p.directories;
    if !isDirectory {
      show, d, files := VisitFile(ctx, p, name);
    } else {
      show, d, files := VisitDirectory(ctx, p, name);
      directories := directories + [name];
    }
    if !show {
      return Ok(p);
    }
    var line := MakeLine(ctx, name, d);
    if line.Err? {
      return Err(line.error);
    }
    r := Ok(Progress(files, directories, p.lines + [line.value]));
  }

  /** Once a name fails, every longer run reports that failure. */
  lemma {:induction false} RunErrorStays(ctx: Context, names: seq<String>, n: nat)
    requires 0 < n <= |names| && Run(ctx, names[..n]).Err?
    ensures Run(ctx, names) == Run(ctx, names[..n])
    decreases |names| - n
  {
    if n < |names| {
      assert names[..n + 1][..n] == names[..n];
      RunErrorStays(ctx, names, n + 1);
    } else {
      assert names[..n] == names;
    }
  }

  /** The loop of lines 173-300 over `ls_tree_files + local_files`: `output_lines`, or the first
      error. */
  method ListEntries(ctx: Context, names: seq<String>) returns (r: Result<seq<Line>>)
    ensures r == (match Run(ctx, names) case Err(e) => Err(e) case Ok(p) => Ok(p.lines))
  {
    var p := Start;
    var i := 0;
    while i < |names|
      invariant 0 <= i <= |names|
      invariant Run(ctx, names[..i]) == Ok(p)
    {
      assert names[..i + 1][..i] == names[..i];
      var next := Visit(ctx, p, names[i]);
      if next.Err? {
        RunErrorStays(ctx, names, i + 1);
        return Err(next.error);
      }
      p := next.value;
      i := i + 1;
    }
    assert names[..i] == names;
    r := Ok(p.lines);
  }

  /** A name the loop has shown is remembered: a directory in `directories`, and everything it
      recorded in `files` (for a file, the file itself and its rename partners). */
  predicate Accounted(ctx: Context, p: Progress, name: String) {
    (IsDir(ctx, name) ==> name in p.directories)
    && forall f :: f in Recorded(ctx, name, Decide(ctx, name)) ==> f in p.files
  }

  /** What the loop keeps true of its lists: every line shown is accounted for, and no two lines
      carry the same name. */
  predicate Consistent(ctx: Context, p: Progress) {
    && (forall k :: 0 <= k < |p.lines| ==> Accounted(ctx, p, p.lines[k].name))
    && (forall i, j :: 0 <= i < j < |p.lines| ==> p.lines[i].name != p.lines[j].name)
  }

  lemma EntryName(ctx: Context, name: String)
    requires Entry(ctx, name).Ok?
    ensures Entry(ctx, name).value.name == name
  {
  }

  /** Every line of a directory or file already shown is accounted for. */
  lemma AccountedShown(ctx: Context, p: Progress, name: String)
    requires Accounted(ctx, p, name)
    ensures Seen(ctx, p, name)
  {
    if !IsDir(ctx, name) {
      assert name in Recorded(ctx, name, Decide(ctx, name));
    }
  }

  /** One pass of the loop keeps `Consistent`; the lists only grow, and at most one line is
      added, which is the name's `Entry`. */
  lemma StepConsistent(ctx: Context, p: Progress, name: String)
    requires Consistent(ctx, p) && Step(ctx, p, name).Ok?
    ensures var q := Step(ctx, p, name).value;
      && Consistent(ctx, q)
      && p.files <= q.files && p.directories <= q.directories
      && q.lines == (if Seen(ctx, p, name) || Ignored(ctx, name) then p.lines else p.lines + [Entry(ctx, name).value])
      && (Seen(ctx, p, name) || Ignored(ctx, name) || Accounted(ctx, q, name))
  {
    var q := Step(ctx, p, name).value;
    if Seen(ctx, p, name) || Ignored(ctx, name) {
      assert q == p;
    } else {
      var line := Entry(ctx, name).value;
      EntryName(ctx, name);
      assert q.lines == p.lines + [line];
      forall k | 0 <= k < |q.lines| ensures Accounted(ctx, q, q.lines[k].name) {
        if k < |p.lines| {
          assert q.lines[k] == p.lines[k];
        }
      }
      forall i, j | 0 <= i < j < |q.lines| ensures q.lines[i].name != q.lines[j].name {
        if j == |p.lines| {
          assert q.lines[i] == p.lines[i];
          AccountedShown(ctx, p, p.lines[i].name);
        } else {
          assert q.lines[i] == p.lines[i] && q.lines[j] == p.lines[j];
        }
      }
    }
  }

  /** Growing lists forget nothing the loop has seen. */
  lemma SeenStays(ctx: Context, p: Progress, q: Progress, name: String)
    requires p.files <= q.files && p.directories <= q.directories && Seen(ctx, p, name)
    ensures Seen(ctx, q, name)
  {
    if IsDir(ctx, name) {
      var k :| 0 <= k < |p.directories| && p.directories[k] == name;
      assert q.directories[k] == name;
    } else {
      var k :| 0 <= k < |p.files| && p.files[k] == name;
      assert q.files[k] == name;
    }
  }

  lemma RunPrefix(ctx: Context, names: seq<String>)
    requires names != [] && Run(ctx, names).Ok?
    ensures Run(ctx, names[..|names| - 1]).Ok?
    ensures Run(ctx, names) == Step(ctx, Run(ctx, names[..|names| - 1]).value, names[|names| - 1])
  {
  }

  /** After the loop over `names` the lists are consistent: no name is shown twice. */
  lemma {:induction false} RunConsistent(ctx: Context, names: seq<String>)
    requires Run(ctx, names).Ok?
    ensures Consistent(ctx, Run(ctx, names).value)
  {
    if names != [] {
      RunPrefix(ctx, names);
      RunConsistent(ctx, names[..|names| - 1]);
      StepConsistent(ctx, Run(ctx, names[..|names| - 1]).value, names[|names| - 1]);
    }
  }

  /** A line that stands for a name of `names` that is not ignored: that name's `Entry`. */
  predicate StandsFor(ctx: Context, names: seq<String>, l: Line) {
    l.name in names && !Ignored(ctx, l.name) && Entry(ctx, l.name) == Ok(l)
  }

  /** Each line is the `Entry` of a name of `names` that is not ignored. */
  lemma {:induction false} RunLine(ctx: Context, names: seq<String>, k: nat)
    requires Run(ctx, names).Ok? && k < |Run(ctx, names).value.lines|
    ensures var l := Run(ctx, names).value.lines[k];
      l.name in names && !Ignored(ctx, l.name) && Entry(ctx, l.name) == Ok(l)
  {
    assert names != [];
    var prev, last := names[..|names| - 1], names[|names| - 1];
    RunPrefix(ctx, names);
    var p := Run(ctx, prev).value;
    if k < |p.lines| {
      RunLine(ctx, prev, k);
    }
    SplitLast(names);
    StepLine(ctx, p, prev, last, k);
  }

  lemma SplitLast(names: seq<String>)
    requires names != []
    ensures names == names[..|names| - 1] + [names[|names| - 1]]
  {
  }

  /** A pass keeps every line's `StandsFor` and adds lines that have it. */
  lemma StepLine(ctx: Context, p: Progress, prev: seq<String>, name: String, k: nat)
    requires Step(ctx, p, name).Ok? && k < |Step(ctx, p, name).value.lines|
    requires k < |p.lines| ==> StandsFor(ctx, prev, p.lines[k])
    ensures StandsFor(ctx, prev + [name], Step(ctx, p, name).value.lines[k])
  {
    var q := Step(ctx, p, name).value;
    LinesGrow(ctx, p, name);
    LinesStep(ctx, p, name);
    if k < |p.lines| {
      assert q.lines[k] == p.lines[k];
      assert p.lines[k].name in prev + [name];
    } else {
      assert q.lines[k] == Entry(ctx, name).value;
    }
  }

  /** One pass keeps the lines already there. */
  lemma LinesGrow(ctx: Context, p: Progress, name: String)
    requires Step(ctx, p, name).Ok?
    ensures p.lines <= Step(ctx, p, name).value.lines
  {
  }

  /** One pass adds no line, or the `Entry` of the name visited, which is then not ignored. */
  lemma LinesStep(ctx: Context, p: Progress, name: String)
    requires Step(ctx, p, name).Ok?
    ensures var q := Step(ctx, p, name).value;
      || q.lines == p.lines
      || (q.lines == p.lines + [Entry(ctx, name).value] && !Ignored(ctx, name)
          && Entry(ctx, name).value.name == name && Entry(ctx, name) == Ok(Entry(ctx, name).value))
  {
    if !Seen(ctx, p, name) && !Ignored(ctx, name) {
      EntryName(ctx, name);
    }
  }

  /** Every name of `names` is ignored or remembered: a directory shown, or a file in `files`
      (shown, a rename partner, or a path below a directory shown). */
  lemma {:induction false} RunCovers(ctx: Context, names: seq<String>)
    requires Run(ctx, names).Ok?
    ensures var p := Run(ctx, names).value;
      forall n :: n in names ==> Ignored(ctx, n) || Seen(ctx, p, n)
  {
    if names != [] {
      var prev, last := names[..|names| - 1], names[|names| - 1];
      RunPrefix(ctx, names);
      RunCovers(ctx, prev);
      RunConsistent(ctx, prev);
      var p := Run(ctx, prev).value;
      SplitLast(names);
      forall n | n in names && !Ignored(ctx, n)
        ensures Seen(ctx, Run(ctx, names).value, n)
      {
        if n != last {
          assert n in prev;
        }
        StepCovers(ctx, p, last, n);
      }
    }
  }

  /** After a pass over `name` it is ignored or seen, and every name seen before stays seen. */
  lemma StepCovers(ctx: Context, p: Progress, name: String, n: String)
    requires Consistent(ctx, p) && Step(ctx, p, name).Ok?
    requires n == name || Seen(ctx, p, n)
    ensures Ignored(ctx, n) || Seen(ctx, Step(ctx, p, name).value, n)
  {
    var q := Step(ctx, p, name).value;
    StepConsistent(ctx, p, name);
    if Seen(ctx, p, n) {
      SeenStays(ctx, p, q, n);
    } else if !Ignored(ctx, n) {
      AccountedShown(ctx, q, n);
    }
  }

  /** Visiting more names only appends lines, and never for a name already seen. */
  lemma {:induction false} RunExtends(ctx: Context, names: seq<String>, more: seq<String>)
    requires Run(ctx, names + more).Ok?
    ensures Run(ctx, names).Ok?
    ensures var p, q := Run(ctx, names).value, Run(ctx, names + more).value;
      && p.lines <= q.lines && p.files <= q.files && p.directories <= q.directories
      && forall j :: |p.lines| <= j < |q.lines| ==> !Seen(ctx, p, q.lines[j].name)
    decreases |more|
  {
    if more != [] {
      var m := more[..|more| - 1];
      SplitLastOfJoin(names, more);
      RunPrefix(ctx, names + more);
      RunExtends(ctx, names, m);
      var p, r, q := Run(ctx, names).value, Run(ctx, names + m).value, Run(ctx, names + more).value;
      var last := more[|more| - 1];
      forall j | |p.lines| <= j < |q.lines| ensures !Seen(ctx, p, q.lines[j].name) {
        if j < |r.lines| {
          assert q.lines[j] == r.lines[j];
        } else {
          EntryName(ctx, last);
          if Seen(ctx, p, last) {
            SeenStays(ctx, p, r, last);
          }
        }
      }
    } else {
      assert names + more == names;
    }
  }

  lemma SplitLastOfJoin(names: seq<String>, more: seq<String>)
    requires more != []
    ensures (names + more)[..|names + more| - 1] == names + more[..|more| - 1]
    ensures (names + more)[|names + more| - 1] == more[|more| - 1]
  {
  }

  /** Lines 200-204 and 180-181: once a file is shown, the other half of its rename is never shown
      afterwards. */
  lemma RenamePartnerNotShownAgain(ctx: Context, names: seq<String>, more: seq<String>, k: nat)
    requires Run(ctx, names + more).Ok?
    requires Run(ctx, names).Ok? && k < |Run(ctx, names).value.lines|
    requires var name := Run(ctx, names).value.lines[k].name;
      !IsDir(ctx, name) && Truthy(Decide(ctx, name).pathTo) && !IsDir(ctx, Decide(ctx, name).pathTo.value)
    ensures var p, q := Run(ctx, names).value, Run(ctx, names + more).value;
      forall j :: |p.lines| <= j < |q.lines| ==> q.lines[j].name != Decide(ctx, p.lines[k].name).pathTo.value
  {
    var p := Run(ctx, names).value;
    var name := p.lines[k].name;
    var partner := Decide(ctx, name).pathTo.value;
    RunConsistent(ctx, names);
    assert partner in Recorded(ctx, name, Decide(ctx, name));
    assert Seen(ctx, p, partner);
    RunExtends(ctx, names, more);
  }

  /** Lines 200-202 and 180-181: once a renamed file is shown, the source it was renamed from is
      never shown afterwards. */
  lemma RenameSourceNotShownAgain(ctx: Context, names: seq<String>, more: seq<String>, k: nat)
    requires Run(ctx, names + more).Ok?
    requires Run(ctx, names).Ok? && k < |Run(ctx, names).value.lines|
    requires var name := Run(ctx, names).value.lines[k].name;
      !IsDir(ctx, name) && Truthy(Decide(ctx, name).pathFrom) && !IsDir(ctx, Decide(ctx, name).pathFrom.value)
    ensures var p, q := Run(ctx, names).value, Run(ctx, names + more).value;
      forall j :: |p.lines| <= j < |q.lines| ==> q.lines[j].name != Decide(ctx, p.lines[k].name).pathFrom.value
  {
    var p := Run(ctx, names).value;
    var name := p.lines[k].name;
    var partner := Decide(ctx, name).pathFrom.value;
    RunConsistent(ctx, names);
    assert partner in Recorded(ctx, name, Decide(ctx, name));
    assert Seen(ctx, p, partner);
    RunExtends(ctx, names, more);
  }

  /** No name occurs twice, as in the result of `os.listdir`. */
  predicate Distinct(names: seq<String>) {
    forall i, j :: 0 <= i < j < |names| ==> names[i] != names[j]
  }

  lemma DistinctInit(names: seq<String>)
    requires Distinct(names) && names != []
    ensures Distinct(names[..|names| - 1]) && names[|names| - 1] !in names[..|names| - 1]
    ensures names == names[..|names| - 1] + [names[|names| - 1]]
  {
  }

  /** The lists show every name of `names`, one line each and in order, and remember nothing else. */
  predicate ShowsAll(p: Progress, names: seq<String>) {
    && |p.lines| == |names|
    && (forall k :: 0 <= k < |names| ==> p.lines[k].name == names[k])
    && (forall f :: f in p.files ==> f in names)
    && (forall n :: n in p.directories ==> n in names)
  }

  /** Outside a work tree there are no status records and the tree is empty: every name of a
      listing without repeats gets a line, in order. */
  lemma {:induction false} OutsideWorkTree(ctx: Context, names: seq<String>)
    requires ctx.status == [] && ctx.index == map[]
    requires Distinct(names)
    ensures Run(ctx, names).Ok? && ShowsAll(Run(ctx, names).value, names)
  {
    if names != [] {
      var prev, last := names[..|names| - 1], names[|names| - 1];
      DistinctInit(names);
      OutsideWorkTree(ctx, prev);
      OutsideStep(ctx, Run(ctx, prev).value, prev, last);
      RunPrefix(ctx, names);
    }
  }

  /** Outside a work tree, a name not met before gets a line and records only itself. */
  lemma OutsideStep(ctx: Context, p: Progress, prev: seq<String>, name: String)
    requires ctx.status == [] && ctx.index == map[]
    requires ShowsAll(p, prev) && name !in prev
    ensures Step(ctx, p, name).Ok? && ShowsAll(Step(ctx, p, name).value, prev + [name])
  {
    UntrackedEverywhere(ctx, name);
    EntryName(ctx, name);
    assert !Seen(ctx, p, name);
    var q := Step(ctx, p, name).value;
    assert q.files == p.files + (if IsDir(ctx, name) then [] else [name]);
    assert q.directories == p.directories + (if IsDir(ctx, name) then [name] else []);
    assert q.lines == p.lines + [Entry(ctx, name).value];
    forall k | 0 <= k < |prev| + 1 ensures q.lines[k].name == (prev + [name])[k] {
      if k < |prev| {
        assert q.lines[k] == p.lines[k];
      }
    }
  }

  /** Outside a work tree every name of the listing is shown as untracked: "??", priority -1. */
  lemma OutsideWorkTreeUntracked(ctx: Context, names: seq<String>)
    requires ctx.status == [] && ctx.index == map[]
    requires Distinct(names)
    ensures Run(ctx, names).Ok?
    ensures var p := Run(ctx, names).value;
      && |p.lines| == |names|
      && forall k :: 0 <= k < |names| ==>
           && p.lines[k].name == names[k] && p.lines[k].priority == -1
           && Decide(ctx, names[k]) == Blank.(x := "?", y := "?")
  {
    OutsideWorkTree(ctx, names);
    var p := Run(ctx, names).value;
    assert |p.lines| == |names| && forall k :: 0 <= k < |names| ==> p.lines[k].name == names[k];
    forall k | 0 <= k < |names|
      ensures p.lines[k].priority == -1 && Decide(ctx, names[k]) == Blank.(x := "?", y := "?")
    {
      RunLine(ctx, names, k);
      UntrackedEverywhere(ctx, names[k]);
    }
  }

  /** With no status records and an empty tree, a name is decided "??" and records only itself. */
  lemma UntrackedEverywhere(ctx: Context, name: String)
    requires ctx.status == [] && ctx.index == map[]
    ensures Matches(ctx, name) == [] && !Ignored(ctx, name)
    ensures Decide(ctx, name) == Blank.(x := "?", y := "?")
    ensures Recorded(ctx, name, Decide(ctx, name)) == (if IsDir(ctx, name) then [] else [name])
    ensures Entry(ctx, name).Ok? && Entry(ctx, name).value.priority == -1
  {
    assert |Matches(ctx, name)| <= |ctx.status|;
  }
}
