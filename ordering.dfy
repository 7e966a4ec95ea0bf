/** The order in which `main` of git-ls.py prints its lines (lines 299-302): `output_lines.sort()`
    over pairs `((-int(is_directory), -priority, file_name), output_line)`. */
module Ordering {
  import opened Text

  /** One element of `output_lines`: the parts of the sort key and the line to print. */
  datatype Line = Line(isDir: bool, priority: int, name: String, text: String)

  /** `-int(is_directory)` */
  function DirRank(l: Line): int {
    if l.isDir then -1 else 0
  }

  /** Python's tuple order on `((DirRank, -priority, name), text)`. */
  predicate Less(a: Line, b: Line) {
    || DirRank(a) < DirRank(b)
    || (DirRank(a) == DirRank(b) && -a.priority < -b.priority)
    || (DirRank(a) == DirRank(b) && a.priority == b.priority && StrLess(a.name, b.name))
    || (DirRank(a) == DirRank(b) && a.priority == b.priority && a.name == b.name && StrLess(a.text, b.text))
  }

  predicate Le(a: Line, b: Line) {
    a == b || Less(a, b)
  }

  lemma LessIrreflexive(a: Line)
    ensures !Less(a, a)
  {
    StrLessIrreflexive(a.name);
    StrLessIrreflexive(a.text);
  }

  lemma LessAsymmetric(a: Line, b: Line)
    requires Less(a, b)
    ensures !Less(b, a)
  {
    if StrLess(a.name, b.name) {
      StrLessAsymmetric(a.name, b.name);
    }
    if StrLess(a.text, b.text) {
      StrLessAsymmetric(a.text, b.text);
    }
    if a.name == b.name {
      StrLessIrreflexive(a.name);
    }
  }

  lemma LessTransitive(a: Line, b: Line, c: Line)
    requires Less(a, b) && Less(b, c)
    ensures Less(a, c)
  {
    if DirRank(a) == DirRank(b) == DirRank(c) && a.priority == b.priority == c.priority {
      if StrLess(a.name, b.name) && StrLess(b.name, c.name) {
        StrLessTransitive(a.name, b.name, c.name);
      } else if a.name == b.name == c.name {
        StrLessTransitive(a.text, b.text, c.text);
      }
    }
  }

  /** Two different lines are always ordered one way or the other. */
  lemma LessTotal(a: Line, b: Line)
    requires a != b
    ensures Less(a, b) || Less(b, a)
  {
    if DirRank(a) == DirRank(b) && a.priority == b.priority {
      if a.name != b.name {
        StrLessTotal(a.name, b.name);
      } else {
        assert a.text != b.text;
        StrLessTotal(a.text, b.text);
      }
    }
  }

  lemma LeTransitive(a: Line, b: Line, c: Line)
    requires Le(a, b) && Le(b, c)
    ensures Le(a, c)
  {
    if a != b && b != c {
      LessTransitive(a, b, c);
    }
  }

  lemma LeAntisymmetric(a: Line, b: Line)
    requires Le(a, b) && Le(b, a)
    ensures a == b
  {
    if a != b {
      LessAsymmetric(a, b);
    }
  }

  predicate Sorted(s: seq<Line>) {
    forall i, j :: 0 <= i < j < |s| ==> Le(s[i], s[j])
  }

  /** Inserting a line into a sorted list. */
  function Insert(l: Line, s: seq<Line>): (r: seq<Line>)
    requires Sorted(s)
    ensures Sorted(r) && multiset(r) == multiset(s) + multiset{l}
  {
    if s == [] then [l]
    else if Le(l, s[0]) then
      InsertFront(l, s);
      [l] + s
    else
      var rest := Insert(l, s[1..]);
      InsertBehind(l, s, rest);
      [s[0]] + rest
  }

  lemma InsertFront(l: Line, s: seq<Line>)
    requires Sorted(s) && s != [] && Le(l, s[0])
    ensures Sorted([l] + s)
  {
    forall j | 0 < j < |s| ensures Le(l, s[j]) {
      LeTransitive(l, s[0], s[j]);
    }
  }

  lemma InsertBehind(l: Line, s: seq<Line>, rest: seq<Line>)
    requires Sorted(s) && s != [] && !Le(l, s[0])
    requires Sorted(rest) && multiset(rest) == multiset(s[1..]) + multiset{l}
    ensures Sorted([s[0]] + rest)
    ensures multiset([s[0]] + rest) == multiset(s) + multiset{l}
  {
    LessTotal(l, s[0]);
    assert s == [s[0]] + s[1..];
    forall k | 0 <= k < |rest| ensures Le(s[0], rest[k]) {
      assert rest[k] in multiset(rest);
      if rest[k] != l {
        assert rest[k] in multiset(s[1..]);
        var m :| 0 <= m < |s[1..]| && s[1..][m] == rest[k];
        assert s[m + 1] == rest[k];
      }
    }
  }

  /** `output_lines.sort()`: the lines in ascending order, none added and none lost. */
  function SortLines(s: seq<Line>): (r: seq<Line>)
    ensures Sorted(r) && multiset(r) == multiset(s)
  {
    if s == [] then []
    else
      assert s == s[..|s| - 1] + [s[|s| - 1]];
      Insert(s[|s| - 1], SortLines(s[..|s| - 1]))
  }

  lemma SortedTail(a: seq<Line>)
    requires Sorted(a) && a != []
    ensures Sorted(a[1..])
  {
    forall i, j | 0 <= i < j < |a[1..]| ensures Le(a[1..][i], a[1..][j]) {
      assert a[1..][i] == a[i + 1] && a[1..][j] == a[j + 1];
    }
  }

  /** The first line of a sorted list precedes every line of the list. */
  lemma HeadIsLeast(a: seq<Line>, l: Line)
    requires Sorted(a) && l in multiset(a)
    ensures Le(a[0], l)
  {
    var i :| 0 <= i < |a| && a[i] == l;
    if i > 0 {
      assert Le(a[0], a[i]);
    }
  }

  lemma SameTail(a: seq<Line>, b: seq<Line>)
    requires a != [] && b != [] && a[0] == b[0] && multiset(a) == multiset(b)
    ensures multiset(a[1..]) == multiset(b[1..])
  {
    assert a == [a[0]] + a[1..] && b == [b[0]] + b[1..];
    assert multiset(a) == multiset{a[0]} + multiset(a[1..]);
    assert multiset(b) == multiset{a[0]} + multiset(b[1..]);
    assert multiset(a[1..]) == multiset(a) - multiset{a[0]};
    assert multiset(b[1..]) == multiset(b) - multiset{a[0]};
  }

  /** Two sorted arrangements of the same lines are the same list: the printed order does not
      depend on how the sort is carried out. */
  lemma {:induction false} SortedUnique(a: seq<Line>, b: seq<Line>)
    requires Sorted(a) && Sorted(b) && multiset(a) == multiset(b)
    ensures a == b
  {
    assert |multiset(a)| == |a| && |multiset(b)| == |b|;
    if a != [] {
      assert a[0] in multiset(b) && b[0] in multiset(a);
      HeadIsLeast(a, b[0]);
      HeadIsLeast(b, a[0]);
      LeAntisymmetric(a[0], b[0]);
      SameTail(a, b);
      SortedTail(a);
      SortedTail(b);
      SortedUnique(a[1..], b[1..]);
      assert a == [a[0]] + a[1..] && b == [b[0]] + b[1..];
    }
  }

  /** In a sorted list directories come first, then lines of higher priority, then names in
      byte order. */
  lemma PrintOrder(s: seq<Line>, i: nat, j: nat)
    requires Sorted(s) && i < j < |s|
    ensures s[j].isDir ==> s[i].isDir
    ensures s[i].isDir == s[j].isDir ==> s[i].priority >= s[j].priority
    ensures s[i].isDir == s[j].isDir && s[i].priority == s[j].priority ==>
      s[i].name == s[j].name || StrLess(s[i].name, s[j].name)
  {
    assert Le(s[i], s[j]);
  }
}
