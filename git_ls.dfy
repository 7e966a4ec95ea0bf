/** `main` of git-ls.py from the feeds onwards (lines 149-302): gather the status records, the
    tree and the submodule table, visit every name, sort the lines, and print their texts. */
module GitLs {
  import opened Base
  import opened Text
  import opened StatusFeed
  import opened TreeFeed
  import opened Submodules
  import opened Ordering
  import opened Listing

  /** What the `git` calls of lines 157-164 give inside a work tree: the lines of
      `git status --porcelain`, of `git ls-tree`, and of `.gitmodules` when it is a file. */
  datatype Feeds = Feeds(status: seq<String>, tree: seq<String>, gitmodules: Option<seq<String>>)

  predicate StatusParses(lines: seq<String>) {
    forall i :: 0 <= i < |lines| ==> |lines[i]| >= 2
  }

  predicate TreeParses(lines: seq<String>) {
    forall i :: 0 <= i < |lines| ==> EntryOf(lines[i]).Some?
  }

  /** The records `git_status` returns for status lines that all parse. */
  function Records(lines: seq<String>): seq<StatusRecord>
    requires StatusParses(lines)
  {
    seq(|lines|, i requires 0 <= i < |lines| => RecordOf(lines[i]))
  }

  /** The entries `git_ls_tree` returns for tree lines that all parse. */
  function Entries(lines: seq<String>): seq<TreeEntry>
    requires TreeParses(lines)
  {
    seq(|lines|, i requires 0 <= i < |lines| => EntryOf(lines[i]).value)
  }

  /** Lines 303-304: the texts of the lines, in order. */
  function Texts(lines: seq<Line>): (ts: seq<String>)
    ensures |ts| == |lines| && forall k :: 0 <= k < |lines| ==> ts[k] == lines[k].text
  {
    if lines == [] then [] else Texts(lines[..|lines| - 1]) + [lines[|lines| - 1].text]
  }

  /** What is printed once the context is gathered: the texts of the sorted lines of the loop over
      `names`, or the loop's error. */
  function Outcome(ctx: Context, names: seq<String>): Result<seq<String>> {
    match Run(ctx, names)
    case Err(e) => Err(e)
    case Ok(p) => Ok(Texts(SortLines(p.lines)))
  }

  /** Lines 149-302. `feeds` is None outside a work tree (line 154); `work` is the directory
      being listed. */
  method GitLsMain(feeds: Option<Feeds>, work: WorkTree) returns (r: Result<seq<String>>)
    ensures feeds.None? ==> r == Outcome(Context([], map[], map[], work), work.listing)
    ensures feeds.Some? && !StatusParses(feeds.value.status) ==> r.Err? && r.error.StatusLineTooShort?
    ensures feeds.Some? && StatusParses(feeds.value.status) && !TreeParses(feeds.value.tree) ==>
      r.Err? && r.error.TreeLineMalformed?
    ensures feeds.Some? && StatusParses(feeds.value.status) && TreeParses(feeds.value.tree) ==>
      var f := feeds.value;
      var tree := Entries(f.tree);
      var subs := if f.gitmodules.None? then Ok(map[])
        else match Scan(f.gitmodules.value) case Err(e) => Err(e) case Ok(p) => Ok(Finish(p));
      match subs
      case Err(e) => r == Err(e)
      case Ok(table) =>
        r == Outcome(Context(Records(f.status), TreeIndex(tree), table, work), TreeNames(tree) + work.listing)
  {
    var status: seq<StatusRecord> := [];
    var index: map<String, TreeEntry> := map[];
    var treeFiles: seq<String> := [];
    var submodules: Table := map[];
    if feeds.Some? {
      var st := GitStatus(feeds.value.status);
      if st.Err? {
        return Err(st.error);
      }
      status := st.value;
      assert status == Records(feeds.value.status);
      var tr := GitLsTree(feeds.value.tree);
      if tr.Err? {
        return Err(tr.error);
      }
      assert tr.value == Entries(feeds.value.tree);
      treeFiles, index := IndexTree(tr.value);
      var sm := GitSubmodules(feeds.value.gitmodules);
      if sm.Err? {
        return Err(sm.error);
      }
      submodules := sm.value;
    } else {
      assert treeFiles + work.listing == work.listing;
    }
    var ctx := Context(status, index, submodules, work);
    var lines := ListEntries(ctx, treeFiles + work.listing);
    if lines.Err? {
      return Err(lines.error);
    }
    r := Ok(Texts(SortLines(lines.value)));
  }

  /** Outside a work tree every entry of a directory listing without repeats gives exactly one
      printed line. */
  lemma OutsideWorkTreePrintsAll(work: WorkTree)
    requires Distinct(work.listing)
    ensures var ctx := Context([], map[], map[], work);
      && Outcome(ctx, work.listing).Ok?
      && |Outcome(ctx, work.listing).value| == |work.listing|
  {
    var ctx := Context([], map[], map[], work);
    OutsideWorkTree(ctx, work.listing);
    var lines := Run(ctx, work.listing).value.lines;
    assert |multiset(SortLines(lines))| == |multiset(lines)|;
  }
}
