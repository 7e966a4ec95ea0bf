/** `git_ls_tree` of git-ls.py and the tree index `main` builds from it (lines 158-161). */
module TreeFeed {
  import opened Base
  import opened Text

  /** One `git ls-tree` row: `mode type object\tname`. */
  datatype TreeEntry = TreeEntry(mode: String, kind: String, obj: String, name: String)

  /** The entry for one row, or None when `line.split("\t", 1)` or the three-way unpacking of
      `tmp.split(" ")` would raise. */
  function EntryOf(line: String): Option<TreeEntry> {
    match SplitOnce(line, "\t")
    case None => None
    case Some((header, name)) =>
      var fields := SplitAll(header, ' ');
      if |fields| == 3 then Some(TreeEntry(fields[0], fields[1], fields[2], name)) else None
  }

  /** Lines 64-66 for one row: split off the name at the first tab, then unpack the header. */
  method ParseRow(line: String) returns (e: Option<TreeEntry>)
    ensures e == EntryOf(line)
  {
    var parts := SplitOnce(line, "\t");
    if parts.None? {
      return None;
    }
    var (tmp, fileName) := parts.value;
    var fields := SplitAll(tmp, ' ');
    if |fields| != 3 {
      return None;
    }
    e := Some(TreeEntry(fields[0], fields[1], fields[2], fileName));
  }

  /** `git_ls_tree(...)` over the rows of `git ls-tree`: one entry per row, in order; the first
      malformed row raises. */
  method GitLsTree(lines: seq<String>) returns (r: Result<seq<TreeEntry>>)
    ensures r.Ok? <==> forall i :: 0 <= i < |lines| ==> EntryOf(lines[i]).Some?
    ensures r.Ok? ==> |r.value| == |lines| && forall i :: 0 <= i < |lines| ==> Some(r.value[i]) == EntryOf(lines[i])
    ensures r.Err? ==> r.error.TreeLineMalformed? && r.error.line < |lines| && EntryOf(lines[r.error.line]).None?
    ensures r.Err? && r.error.TreeLineMalformed? ==> forall k :: 0 <= k < r.error.line ==> EntryOf(lines[k]).Some?
  {
    var ret: seq<TreeEntry> := [];
    var i := 0;
    while i < |lines|
      invariant 0 <= i <= |lines| && |ret| == i
      invariant forall k :: 0 <= k < i ==> Some(ret[k]) == EntryOf(lines[k])
    {
      var entry := ParseRow(lines[i]);
      if entry.None? {
        return Err(TreeLineMalformed(i));
      }
      ret := ret + [entry.value];
      i := i + 1;
    }
    r := Ok(ret);
  }

  /** How git prints an entry. */
  function Row(e: TreeEntry): String {
    e.mode + " " + e.kind + " " + e.obj + "\t" + e.name
  }

  /** A header field as git prints it: no space and no tab. */
  predicate IsField(s: String) {
    ' ' !in s && '\t' !in s
  }

  /** Every row that parses is exactly the row of the entry it parses to. */
  lemma RowOfEntry(line: String)
    requires EntryOf(line).Some?
    ensures Row(EntryOf(line).value) == line
  {
    var (header, name) := SplitOnce(line, "\t").value;
    var fields := SplitAll(header, ' ');
    assert Join(fields, ' ') == header;
    assert Join(fields[2..], ' ') == fields[2];
    assert Join(fields[1..], ' ') == fields[1] + " " + fields[2];
  }

  /** Reading back the row of an entry whose header fields hold no space or tab gives the entry. */
  lemma {:induction false} EntryOfRow(e: TreeEntry)
    requires IsField(e.mode) && IsField(e.kind) && IsField(e.obj)
    ensures EntryOf(Row(e)) == Some(e)
  {
    var header := e.mode + " " + e.kind + " " + e.obj;
    var fields := [e.mode, e.kind, e.obj];
    assert Join(fields, ' ') == header by {
      assert Join(fields[2..], ' ') == e.obj;
      assert Join(fields[1..], ' ') == e.kind + " " + e.obj;
    }
    SplitJoin(fields, ' ');
    HeaderTabFree(e.mode, e.kind, e.obj);
    NoCharOccurrence(header, '\t', e.name);
    assert Row(e) == header + "\t" + e.name;
    SplitOnceAt(header, "\t", e.name);
  }

  lemma HeaderTabFree(mode: String, kind: String, obj: String)
    requires IsField(mode) && IsField(kind) && IsField(obj)
    ensures '\t' !in mode + " " + kind + " " + obj
  {
    assert '\t' !in mode + " ";
    assert '\t' !in mode + " " + kind + " ";
  }

  predicate IsOctalDigit(ch: char) {
    '0' <= ch <= '7'
  }

  /** `int(s, 8)` for a string of octal digits; None where Python raises ValueError. */
  function ParseOctal(s: String): (r: Option<nat>)
    ensures r.Some? <==> s != [] && forall k :: 0 <= k < |s| ==> IsOctalDigit(s[k])
  {
    if s == [] || !IsOctalDigit(s[|s| - 1]) then None
    else if |s| == 1 then Some((s[0] - '0') as nat)
    else match ParseOctal(s[..|s| - 1])
      case None => None
      case Some(v) => Some(v * 8 + (s[|s| - 1] - '0') as nat)
  }

  /** The octal digits of `n`, most significant first, as git prints a mode. */
  function Octal(n: nat): (s: String)
    ensures s != [] && forall k :: 0 <= k < |s| ==> IsOctalDigit(s[k])
  {
    if n < 8 then [('0' as int + n) as char]
    else Octal(n / 8) + [('0' as int + n % 8) as char]
  }

  /** Parsing the octal digits of a number gives the number back. */
  lemma {:induction false} OctalRoundTrip(n: nat)
    ensures ParseOctal(Octal(n)) == Some(n)
  {
    if n >= 8 {
      var s := Octal(n);
      assert s[..|s| - 1] == Octal(n / 8);
      OctalRoundTrip(n / 8);
    }
  }

  /** A run of `k` zero digits. */
  function Zeros(k: nat): String {
    seq(k, _ => '0')
  }

  /** A leading zero does not change what `int(s, 8)` reads. */
  lemma {:induction false} LeadingZeroIgnored(s: String)
    requires s != []
    ensures ParseOctal("0" + s) == ParseOctal(s)
  {
    var t := "0" + s;
    if |s| == 1 {
      assert t[..1] == "0";
    } else {
      assert t[..|t| - 1] == "0" + s[..|s| - 1];
      LeadingZeroIgnored(s[..|s| - 1]);
    }
  }

  /** The octal digits of `n` after any number of zeros read as `n`. */
  lemma {:induction false} LeadingZerosIgnored(z: nat, n: nat)
    ensures ParseOctal(Zeros(z) + Octal(n)) == Some(n)
  {
    if z == 0 {
      assert Zeros(0) + Octal(n) == Octal(n);
      OctalRoundTrip(n);
    } else {
      assert Zeros(z) + Octal(n) == "0" + (Zeros(z - 1) + Octal(n));
      LeadingZerosIgnored(z - 1, n);
      LeadingZeroIgnored(Zeros(z - 1) + Octal(n));
    }
  }

  /** One more octal digit after the digits of a positive `u`. */
  lemma OctalStep(u: nat, d: nat)
    requires 0 < u && d < 8
    ensures Octal(u * 8 + d) == Octal(u) + [('0' as int + d) as char]
  {
    var v := u * 8 + d;
    assert v / 8 == u && v % 8 == d;
  }

  /** Appending digit `c` to a zero-padded form of `u` gives a zero-padded form of `u * 8 + c`. */
  lemma PaddedStep(init: String, c: char, u: nat)
    requires IsOctalDigit(c)
    requires |Octal(u)| <= |init| && init == Zeros(|init| - |Octal(u)|) + Octal(u)
    ensures |Octal(u * 8 + (c - '0') as nat)| <= |init| + 1
    ensures init + [c] == Zeros(|init| + 1 - |Octal(u * 8 + (c - '0') as nat)|) + Octal(u * 8 + (c - '0') as nat)
  {
    var d := (c - '0') as nat;
    assert ('0' as int + d) as char == c;
    if u == 0 {
      assert init == Zeros(|init|);
      assert Octal(d) == [c];
      assert init + [c] == Zeros(|init|) + [c];
    } else {
      OctalStep(u, d);
      assert init + [c] == Zeros(|init| - |Octal(u)|) + (Octal(u) + [c]);
    }
  }

  /** The only strings `int(s, 8)` reads as `n` are the octal digits of `n` after some zeros. */
  lemma {:induction false} OctalCanonical(s: String)
    requires ParseOctal(s).Some?
    ensures |Octal(ParseOctal(s).value)| <= |s|
    ensures s == Zeros(|s| - |Octal(ParseOctal(s).value)|) + Octal(ParseOctal(s).value)
  {
    var c := s[|s| - 1];
    if |s| == 1 {
      var d := (c - '0') as nat;
      assert ('0' as int + d) as char == c;
      assert s == Zeros(0) + Octal(d);
    } else {
      var init := s[..|s| - 1];
      OctalCanonical(init);
      PaddedStep(init, c, ParseOctal(init).value);
      assert s == init + [c];
    }
  }

  /** `ls_tree_files`: the names in listing order. */
  function TreeNames(tree: seq<TreeEntry>): (names: seq<String>)
    ensures |names| == |tree| && forall i :: 0 <= i < |tree| ==> names[i] == tree[i].name
  {
    if tree == [] then [] else TreeNames(tree[..|tree| - 1]) + [tree[|tree| - 1].name]
  }

  /** `ls_tree_dic`: each name mapped to its entry, later rows overwriting earlier ones. */
  function TreeIndex(tree: seq<TreeEntry>): map<String, TreeEntry> {
    if tree == [] then map[]
    else
      var last := tree[|tree| - 1];
      TreeIndex(tree[..|tree| - 1])[last.name := last]
  }

  /** The loop of lines 159-161 that builds `ls_tree_files` and `ls_tree_dic`. */
  method IndexTree(tree: seq<TreeEntry>) returns (names: seq<String>, index: map<String, TreeEntry>)
    ensures names == TreeNames(tree)
    ensures index == TreeIndex(tree)
  {
    names, index := [], map[];
    var i := 0;
    while i < |tree|
      invariant 0 <= i <= |tree|
      invariant names == TreeNames(tree[..i]) && index == TreeIndex(tree[..i])
    {
      assert tree[..i + 1][..i] == tree[..i];
      names := names + [tree[i].name];
      index := index[tree[i].name := tree[i]];
      i := i + 1;
    }
    assert tree[..i] == tree;
  }

  /** Each name is mapped to a row of that name. */
  lemma {:induction false} TreeIndexNamed(tree: seq<TreeEntry>)
    ensures forall n :: n in TreeIndex(tree) ==> TreeIndex(tree)[n].name == n
  {
    if tree != [] {
      TreeIndexNamed(tree[..|tree| - 1]);
    }
  }

  /** The index holds exactly the listed names. */
  lemma {:induction false} TreeIndexKeys(tree: seq<TreeEntry>)
    ensures forall n :: n in TreeIndex(tree) <==> exists i :: 0 <= i < |tree| && tree[i].name == n
  {
    if tree != [] {
      var init := tree[..|tree| - 1];
      TreeIndexKeys(init);
      assert forall i :: 0 <= i < |init| ==> init[i] == tree[i];
    }
  }

  /** The row a name in the index maps to: the last row of that name. */
  lemma {:induction false} LastRowOf(tree: seq<TreeEntry>, n: String) returns (i: nat)
    requires n in TreeIndex(tree)
    ensures i < |tree| && tree[i].name == n && tree[i] == TreeIndex(tree)[n]
    ensures forall j :: i < j < |tree| ==> tree[j].name != n
  {
    var init := tree[..|tree| - 1];
    if n == tree[|tree| - 1].name {
      i := |tree| - 1;
    } else {
      i := LastRowOf(init, n);
      assert tree[i] == init[i];
    }
  }

  /** The index holds exactly the listed names, and each name maps to its last row. */
  lemma TreeIndexLastWins(tree: seq<TreeEntry>)
    ensures forall n :: n in TreeIndex(tree) <==> exists i :: 0 <= i < |tree| && tree[i].name == n
    ensures forall n :: n in TreeIndex(tree) ==> TreeIndex(tree)[n].name == n
    ensures forall n :: n in TreeIndex(tree) ==>
              exists i ::
                && 0 <= i < |tree| && tree[i].name == n && tree[i] == TreeIndex(tree)[n]
                && forall j :: i < j < |tree| ==> tree[j].name != n
  {
    TreeIndexKeys(tree);
    TreeIndexNamed(tree);
    forall n | n in TreeIndex(tree)
      ensures exists i ::
                && 0 <= i < |tree| && tree[i].name == n && tree[i] == TreeIndex(tree)[n]
                && forall j :: i < j < |tree| ==> tree[j].name != n
    {
      var i := LastRowOf(tree, n);
    }
  }
}
