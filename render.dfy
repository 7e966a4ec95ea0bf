/** How `main` of git-ls.py turns what it decided about one name into an element of
    `output_lines` (lines 235-300). */
module Render {
  import opened Base
  import opened Text
  import opened Ansi
  import opened FileMode
  import opened TreeFeed
  import opened Submodules
  import opened StatusFeed
  import opened Reconcile
  import opened Ordering

  /** The colour and the priority of lines 263-277. */
  function ColorPriority(x: String, y: String): (cp: (nat, int))
    ensures x == "?" && y == "?" ==> cp == (31, -1)
    ensures !(x == "?" && y == "?") ==>
      && (cp == (35, 2) <==> x != [] && y != [])
      && (cp == (32, 3) <==> x != [] && y == [])
      && (cp == (31, 1) <==> x == [] && y != [])
      && (cp == (0, 0) <==> x == [] && y == [])
  {
    if x == "?" && y == "?" then (31, -1)
    else if x != [] && y != [] then (35, 2)
    else if x != [] then (32, 3)
    else if y != [] then (31, 1)
    else (0, 0)
  }

  /** The print order the comment of line 262 announces: staged, staged and unstaged, unstaged,
      unchanged, untracked, for codes `git status` writes (anything but a blank or '?'). */
  lemma PriorityRanks(staged: String, unstaged: String)
    requires staged != [] && staged != "?" && unstaged != [] && unstaged != "?"
    ensures ColorPriority(staged, []).1 > ColorPriority(staged, unstaged).1
    ensures ColorPriority(staged, unstaged).1 > ColorPriority([], unstaged).1
    ensures ColorPriority([], unstaged).1 > ColorPriority([], []).1
    ensures ColorPriority([], []).1 > ColorPriority("?", "?").1
  {
  }

  /** Lines 292-295: a blank code is shown as a space. */
  function Shown(code: String): (s: String)
    ensures s != []
  {
    if code == [] then " " else code
  }

  /** Lines 245-254: the name, with its rename destination or source. */
  function OutputText(name: String, pathFrom: Option<String>, pathTo: Option<String>): (r: String)
    ensures StartsWith(r, name)
    ensures r == name <==> !Truthy(pathTo) && !Truthy(pathFrom)
  {
    if Truthy(pathTo) then name + " -> " + pathTo.value
    else if Truthy(pathFrom) then name + " <- " + pathFrom.value
    else name
  }

  /** Lines 246 and 256-259: a bold '*' for untracked content, then the submodule's url in green. */
  function Extra(untracked: bool, submodule: Option<String>): (r: String)
    ensures r == [] <==> !untracked && !Truthy(submodule)
  {
    (if untracked then Colorize("*", 0, true, 0) else [])
    + (if Truthy(submodule) then " @ " + Colorize(submodule.value, 32, false, 0) else [])
  }

  /** Line 235-236: `submodules[file_name]` when the name is a key of the table. */
  function SubmoduleOf(subs: Table, name: String): (r: Option<String>)
    ensures Some(name) !in subs ==> r == None
    ensures Some(name) in subs ==> r == subs[Some(name)]
  {
    if Some(name) in subs then subs[Some(name)] else None
  }

  /** Lines 235-236 on the table loaded from well-formed sections: a name gets the url of the last
      section for it. */
  lemma SubmoduleUrl(sections: seq<Section>, k: nat)
    requires forall i :: 0 <= i < |sections| ==> WellFormed(sections[i])
    requires k < |sections|
    requires forall j :: k < j < |sections| ==> sections[j].path != sections[k].path
    ensures Scan(FileLines(sections)).Ok?
    ensures SubmoduleOf(Finish(Scan(FileLines(sections)).value), sections[k].path) == Some(sections[k].url)
  {
    LoadSections(sections);
    DescribedUrl(sections, k);
  }

  /** Lines 235-236 on the table loaded from well-formed sections: a name no section is for has no
      submodule. */
  lemma NoSubmodule(sections: seq<Section>, name: String)
    requires sections != []
    requires forall i :: 0 <= i < |sections| ==> WellFormed(sections[i])
    requires forall j :: 0 <= j < |sections| ==> sections[j].path != name
    ensures Scan(FileLines(sections)).Ok?
    ensures SubmoduleOf(Finish(Scan(FileLines(sections)).value), name) == None
  {
    LoadSections(sections);
    NotDescribed(sections, name);
    var table := Finish(Scan(FileLines(sections)).value);
    assert table == map[None := None] + Described(sections);
    assert Some(name) !in table;
  }

  /** A reader can split the `->` form back into the name and its rename destination. */
  lemma OutputTextRoundTrip(name: String, pathFrom: Option<String>, pathTo: Option<String>)
    requires ArrowFree(name) && Truthy(pathTo)
    ensures SplitOnce(OutputText(name, pathFrom, pathTo), Arrow) == Some((name, pathTo.value))
  {
    PathRoundTrip(name, pathTo);
  }

  /** Lines 279-282: git's mode for a name of the tree as a number, `None` for a name outside the
      tree, and the error `int(..., 8)` raises for a mode that is not octal. */
  function GitModeOf(index: map<String, TreeEntry>, name: String): (r: Result<Option<nat>>)
    ensures r.Err? <==> name in index && ParseOctal(index[name].mode).None?
    ensures r.Ok? && r.value.Some? ==> name in index && Some(r.value.value) == ParseOctal(index[name].mode)
    ensures r == Ok(None) <==> name !in index
  {
    if name !in index then Ok(None)
    else match ParseOctal(index[name].mode)
      case None => Err(ModeNotOctal(name))
      case Some(m) => Ok(Some(m))
  }

  /** `" {x}{y} {output}{extra}"`: everything of the template of lines 291-297 after the mode column. */
  function Tail(d: Decision, name: String, isDir: bool, submodule: Option<String>): (r: String)
    ensures StartsWith(r, " " + Shown(d.x) + Shown(d.y) + " ")
  {
    var (color, _) := ColorPriority(d.x, d.y);
    " " + Shown(d.x) + Shown(d.y) + " " + Colorize(OutputText(name, d.pathFrom, d.pathTo), color, isDir, 0)
      + Extra(d.untracked, submodule)
  }

  /** The element of `output_lines` for one name (line 300): `template.format(...)` of lines
      291-297, sorted by whether the name is a directory, then by its priority, then by the name. */
  function LineOf(d: Decision, name: String, isDir: bool, gitMode: Option<nat>, curMode: Option<nat>, submodule: Option<String>): (l: Line)
    ensures l.isDir == isDir && l.name == name && l.priority == ColorPriority(d.x, d.y).1
    ensures StartsWith(l.text, ModeString(gitMode, curMode))
  {
    Line(isDir, ColorPriority(d.x, d.y).1, name, ModeString(gitMode, curMode) + Tail(d, name, isDir, submodule))
  }

  /** What a terminal shows after the mode column: the two codes, the name with its rename partner,
      a '*' for untracked content and the submodule's url. */
  function ShownTail(d: Decision, name: String, submodule: Option<String>): String {
    " " + Shown(d.x) + Shown(d.y) + " " + OutputText(name, d.pathFrom, d.pathTo)
      + (if d.untracked then "*" else [])
      + (if Truthy(submodule) then " @ " + submodule.value else [])
  }

  /** What the terminal shows of the extra part: the '*' and the submodule's url, uncoloured. */
  lemma ExtraShows(untracked: bool, submodule: Option<String>)
    requires submodule.Some? ==> Esc !in submodule.value
    ensures Visible(Extra(untracked, submodule))
      == (if untracked then "*" else []) + (if Truthy(submodule) then " @ " + submodule.value else [])
  {
    var url := if Truthy(submodule) then " @ " + Colorize(submodule.value, 32, false, 0) else [];
    var shownUrl := if Truthy(submodule) then " @ " + submodule.value else [];
    assert Visible(url) == shownUrl by {
      if Truthy(submodule) {
        assert url == " @ " + (Colorize(submodule.value, 32, false, 0) + []);
        VisiblePlain(" @ ", Colorize(submodule.value, 32, false, 0) + []);
        ColorizeIsInvisible(submodule.value, 32, false, 0, []);
      }
    }
    if untracked {
      ColorizeIsInvisible("*", 0, true, 0, url);
    } else {
      assert Extra(untracked, submodule) == url;
    }
  }

  /** Plain text, a coloured part and what follows show as the plain text, the uncoloured part and
      what follows shows. */
  lemma ColoredPartShows(codes: String, output: String, color: nat, bold: bool, extra: String)
    requires Esc !in codes && Esc !in output
    ensures Visible(codes + Colorize(output, color, bold, 0) + extra) == codes + output + Visible(extra)
  {
    var colored := Colorize(output, color, bold, 0);
    assert codes + colored + extra == codes + (colored + extra);
    VisiblePlain(codes, colored + extra);
    ColorizeIsInvisible(output, color, bold, 0, extra);
  }

  lemma CodesArePlain(x: String, y: String)
    requires Esc !in x && Esc !in y
    ensures Esc !in " " + Shown(x) + Shown(y) + " "
  {
    assert Shown(x) == x || Shown(x) == " ";
    assert Shown(y) == y || Shown(y) == " ";
  }

  /** Colours add nothing visible after the mode column. */
  lemma TailShows(d: Decision, name: String, isDir: bool, submodule: Option<String>)
    requires Esc !in d.x && Esc !in d.y && Esc !in OutputText(name, d.pathFrom, d.pathTo)
    requires submodule.Some? ==> Esc !in submodule.value
    ensures Visible(Tail(d, name, isDir, submodule)) == ShownTail(d, name, submodule)
  {
    var codes := " " + Shown(d.x) + Shown(d.y) + " ";
    var output := OutputText(name, d.pathFrom, d.pathTo);
    var star := if d.untracked then "*" else [];
    var url := if Truthy(submodule) then " @ " + submodule.value else [];
    CodesArePlain(d.x, d.y);
    ColoredPartShows(codes, output, ColorPriority(d.x, d.y).0, isDir, Extra(d.untracked, submodule));
    ExtraShows(d.untracked, submodule);
    assert codes + output + (star + url) == codes + output + star + url;
  }

  /** What the terminal shows of a line: the ten characters of the mode column, then the two
      codes, the name with its rename partner, a '*' for untracked content and the submodule's url. */
  lemma LineShows(d: Decision, name: String, isDir: bool, gitMode: Option<nat>, curMode: Option<nat>, submodule: Option<String>)
    requires Esc !in d.x && Esc !in d.y && Esc !in OutputText(name, d.pathFrom, d.pathTo)
    requires submodule.Some? ==> Esc !in submodule.value
    ensures Visible(LineOf(d, name, isDir, gitMode, curMode, submodule).text)
      == [TypeChar(gitMode, LiveMode(curMode))] + Perms(LiveMode(curMode)) + ShownTail(d, name, submodule)
  {
    ModeShown(gitMode, curMode, Tail(d, name, isDir, submodule));
    TailShows(d, name, isDir, submodule);
  }
}
