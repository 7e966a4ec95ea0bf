/** `get_file_mode` of git-ls.py: the `ls`-style type and permission column, with the permission
    bits that differ from git's recorded mode shown in bold red. */
module FileMode {
  import opened Base
  import opened Text
  import opened Ansi

  /** 0o160000, git's mode for a gitlink (a submodule). */
  const GitlinkMode: nat := 0xE000

  /** The nine permission flags in the order they are printed: S_IRUSR, S_IWUSR, S_IXUSR,
      S_IRGRP, ..., S_IXOTH (0o400 down to 0o1). */
  const Flags: seq<nat> := [0x100, 0x80, 0x40, 0x20, 0x10, 0x8, 0x4, 0x2, 0x1]
  /** The number of permission cells. */
  const PermCount: nat := 9
  const Letters: String := "rwxrwxrwx"

  /** `bool(mode & flag)` for a one-bit flag. */
  predicate HasFlag(mode: nat, flag: nat)
    requires flag > 0
  {
    (mode / flag) % 2 == 1
  }

  /** `stat.S_IFMT(mode) >> 12`: the file-type nibble, bits 12 to 15 of the mode. */
  function FormatBits(mode: nat): (f: nat)
    ensures f < 16
    ensures (mode / 0x10000) * 0x10000 + f * 0x1000 + mode % 0x1000 == mode
  {
    var q := mode / 0x1000;
    assert mode == q * 0x1000 + mode % 0x1000;
    assert q == (q / 16) * 16 + q % 16;
    assert mode / 0x10000 == q / 16;
    q % 16
  }

  /** The type character (lines 112-127): 'g' for a gitlink whatever the live mode, otherwise
      from the live mode's S_IFMT, '-' for a regular file or no mode. */
  function TypeChar(gitMode: Option<nat>, cur: nat): (t: char)
    ensures gitMode == Some(GitlinkMode) ==> t == 'g'
    ensures gitMode != Some(GitlinkMode) && cur == 0 ==> t == '-'
    ensures t in "gslbcpd-"
  {
    if gitMode == Some(GitlinkMode) then 'g'
    else if FormatBits(cur) == 0xC then 's'       // S_IFSOCK 0o140000
    else if FormatBits(cur) == 0xA then 'l'       // S_IFLNK  0o120000
    else if FormatBits(cur) == 0x6 then 'b'       // S_IFBLK  0o060000
    else if FormatBits(cur) == 0x2 then 'c'       // S_IFCHR  0o020000
    else if FormatBits(cur) == 0x1 then 'p'       // S_IFIFO  0o010000
    else if FormatBits(cur) == 0x4 then 'd'       // S_IFDIR  0o040000
    else '-'
  }

  /** The permission character `ls` shows for flag `k` of the live mode. */
  function PermChar(cur: nat, k: nat): (ch: char)
    requires k < 9
    ensures ch == '-' || ch == Letters[k]
  {
    if HasFlag(cur, Flags[k]) then Letters[k] else '-'
  }

  /** The nine permission characters of the live mode, without highlighting. */
  function Perms(cur: nat): (s: String)
    ensures |s| == 9 && forall k :: 0 <= k < 9 ==> s[k] == PermChar(cur, k)
  {
    [PermChar(cur, 0), PermChar(cur, 1), PermChar(cur, 2), PermChar(cur, 3), PermChar(cur, 4),
     PermChar(cur, 5), PermChar(cur, 6), PermChar(cur, 7), PermChar(cur, 8)]
  }

  /** Flag `k` is highlighted: the type is '-', git's mode is known, there is a live mode, and the
      two modes disagree on the flag. */
  predicate Highlighted(gitMode: Option<nat>, cur: nat, k: nat)
    requires k < 9
  {
    && TypeChar(gitMode, cur) == '-'
    && gitMode.Some?
    && cur != 0
    && HasFlag(gitMode.value, Flags[k]) != HasFlag(cur, Flags[k])
  }

  /** The nested `s(flag, flag_char, ignore_git)` of lines 99-110 for flag `k`. */
  function Cell(gitMode: Option<nat>, cur: nat, ignoreGit: bool, k: nat): String
    requires k < 9
  {
    if cur == 0 then "-"
    else
      var ch := if HasFlag(cur, Flags[k]) then Letters[k] else '-';
      if gitMode.Some? && !ignoreGit && HasFlag(gitMode.value, Flags[k]) != HasFlag(cur, Flags[k])
      then Colorize([ch], 31, true, 0)
      else [ch]
  }

  /** The first `n` cells, in printing order. */
  function Cells(gitMode: Option<nat>, cur: nat, ignoreGit: bool, n: nat): String
    requires n <= 9
  {
    if n == 0 then [] else Cells(gitMode, cur, ignoreGit, n - 1) + Cell(gitMode, cur, ignoreGit, n - 1)
  }

  /** `None` stands for a missing `st_mode`, which line 97 turns into 0. */
  function LiveMode(curMode: Option<nat>): nat {
    if curMode.None? then 0 else curMode.value
  }

  /** What `get_file_mode(git_mode, cur_mode)` returns. */
  function ModeString(gitMode: Option<nat>, curMode: Option<nat>): String {
    var cur := LiveMode(curMode);
    var t := TypeChar(gitMode, cur);
    [t] + Cells(gitMode, cur, t != '-', PermCount)
  }

  /** `get_file_mode(git_mode, cur_mode)`: the type character, then the nested loops over
      USR/GRP/OTH and r/w/x appending one cell each. */
  method GetFileMode(gitMode: Option<nat>, curMode: Option<nat>) returns (ret: String)
    ensures ret == ModeString(gitMode, curMode)
  {
    var cur := if curMode.None? then 0 else curMode.value;
    var fileType := '-';
    if gitMode == Some(GitlinkMode) {
      fileType := 'g';
    } else if FormatBits(cur) == 0xC {
      fileType := 's';
    } else if FormatBits(cur) == 0xA {
      fileType := 'l';
    } else if FormatBits(cur) == 0x6 {
      fileType := 'b';
    } else if FormatBits(cur) == 0x2 {
      fileType := 'c';
    } else if FormatBits(cur) == 0x1 {
      fileType := 'p';
    } else if FormatBits(cur) == 0x4 {
      fileType := 'd';
    }
    assert fileType == TypeChar(gitMode, cur);
    ret := [fileType];
    var ignoreGit := fileType != '-';
    var target := 0;
    while target < 3
      invariant 0 <= target <= 3
      invariant ret == [fileType] + Cells(gitMode, cur, ignoreGit, 3 * target)
    {
      var mode := 0;
      while mode < 3
        invariant 0 <= mode <= 3
        invariant ret == [fileType] + Cells(gitMode, cur, ignoreGit, 3 * target + mode)
      {
        var k := 3 * target + mode;
        AppendCell(fileType, gitMode, cur, ignoreGit, k);
        ret := ret + Cell(gitMode, cur, ignoreGit, k);
        mode := mode + 1;
      }
      target := target + 1;
    }
    assert 3 * target == PermCount;
  }

  lemma AppendCell(fileType: char, gitMode: Option<nat>, cur: nat, ignoreGit: bool, k: nat)
    requires k < 9
    ensures [fileType] + Cells(gitMode, cur, ignoreGit, k + 1)
      == [fileType] + Cells(gitMode, cur, ignoreGit, k) + Cell(gitMode, cur, ignoreGit, k)
  {
    var before, cell := Cells(gitMode, cur, ignoreGit, k), Cell(gitMode, cur, ignoreGit, k);
    assert Cells(gitMode, cur, ignoreGit, k + 1) == before + cell;
    assert [fileType] + (before + cell) == [fileType] + before + cell;
  }

  /** A cell shows the permission character; it is coloured exactly when the flag is highlighted. */
  lemma CellShape(gitMode: Option<nat>, cur: nat, k: nat)
    requires k < 9
    ensures var t := TypeChar(gitMode, cur);
      Cell(gitMode, cur, t != '-', k) ==
        if Highlighted(gitMode, cur, k) then Colorize([PermChar(cur, k)], 31, true, 0) else [PermChar(cur, k)]
  {
    if cur == 0 {
      assert !HasFlag(cur, Flags[k]);
    }
  }

  /** What the terminal shows of one cell is its permission character. */
  lemma CellShown(gitMode: Option<nat>, cur: nat, k: nat, rest: String)
    requires k < 9
    ensures var t := TypeChar(gitMode, cur);
      Visible(Cell(gitMode, cur, t != '-', k) + rest) == [PermChar(cur, k)] + Visible(rest)
  {
    CellShape(gitMode, cur, k);
    if Highlighted(gitMode, cur, k) {
      ColorizeIsInvisible([PermChar(cur, k)], 31, true, 0, rest);
    } else {
      VisibleKeepsPlain(PermChar(cur, k), rest);
    }
  }

  lemma CellsRegroup(gitMode: Option<nat>, cur: nat, ignoreGit: bool, k: nat, rest: String)
    requires k < 9
    ensures Cells(gitMode, cur, ignoreGit, k + 1) + rest
      == Cells(gitMode, cur, ignoreGit, k) + (Cell(gitMode, cur, ignoreGit, k) + rest)
  {
  }

  /** What the terminal shows of the first `n` cells is the first `n` permission characters. */
  lemma {:induction false} CellsShown(gitMode: Option<nat>, cur: nat, n: nat, rest: String)
    requires n <= 9
    ensures var t := TypeChar(gitMode, cur);
      Visible(Cells(gitMode, cur, t != '-', n) + rest) == Perms(cur)[..n] + Visible(rest)
  {
    var t := TypeChar(gitMode, cur);
    if n == 0 {
      assert Cells(gitMode, cur, t != '-', 0) + rest == rest;
    } else {
      var cell := Cell(gitMode, cur, t != '-', n - 1);
      CellsRegroup(gitMode, cur, t != '-', n - 1, rest);
      CellsShown(gitMode, cur, n - 1, cell + rest);
      CellShown(gitMode, cur, n - 1, rest);
      ShownStep(Cells(gitMode, cur, t != '-', n - 1), cell, rest, Perms(cur)[..n - 1], PermChar(cur, n - 1));
      PermsPrefix(cur, n);
    }
  }

  lemma ShownStep(prev: String, cell: String, rest: String, shownPrev: String, ch: char)
    requires Visible(prev + (cell + rest)) == shownPrev + Visible(cell + rest)
    requires Visible(cell + rest) == [ch] + Visible(rest)
    ensures Visible(prev + (cell + rest)) == (shownPrev + [ch]) + Visible(rest)
  {
  }

  lemma PermsPrefix(cur: nat, n: nat)
    requires 0 < n <= 9
    ensures Perms(cur)[..n] == Perms(cur)[..n - 1] + [PermChar(cur, n - 1)]
  {
  }

  /** The column shows the type, then r/w/x or '-' for each of the nine flags of the live mode in
      USR, GRP, OTH order; whatever follows it is shown after them. */
  lemma ModeShown(gitMode: Option<nat>, curMode: Option<nat>, rest: String)
    ensures Visible(ModeString(gitMode, curMode) + rest)
      == [TypeChar(gitMode, LiveMode(curMode))] + Perms(LiveMode(curMode)) + Visible(rest)
  {
    var cur := LiveMode(curMode);
    var t := TypeChar(gitMode, cur);
    CellsShown(gitMode, cur, 9, rest);
    assert Perms(cur)[..9] == Perms(cur);
    TypeThenCells(t, Cells(gitMode, cur, t != '-', PermCount), rest, Perms(cur));
  }

  lemma TypeThenCells(t: char, cells: String, rest: String, shown: String)
    requires t != Esc && Visible(cells + rest) == shown + Visible(rest)
    ensures Visible([t] + cells + rest) == [t] + shown + Visible(rest)
  {
    assert [t] + cells + rest == [t] + (cells + rest);
    VisibleKeepsPlain(t, cells + rest);
  }

  /** The column always takes ten characters on the terminal. */
  lemma ModeWidth(gitMode: Option<nat>, curMode: Option<nat>)
    ensures |Visible(ModeString(gitMode, curMode))| == 10
  {
    ModeShown(gitMode, curMode, []);
    assert ModeString(gitMode, curMode) + [] == ModeString(gitMode, curMode);
  }

  /** One cell holds an escape sequence exactly when its flag is highlighted, and is the plain
      character otherwise. */
  lemma CellMarked(gitMode: Option<nat>, cur: nat, k: nat)
    requires k < 9
    ensures var cell := Cell(gitMode, cur, TypeChar(gitMode, cur) != '-', k);
      && (Esc in cell <==> Highlighted(gitMode, cur, k))
      && (!Highlighted(gitMode, cur, k) ==> cell == [PermChar(cur, k)])
  {
    CellShape(gitMode, cur, k);
    if Highlighted(gitMode, cur, k) {
      assert Colorize([PermChar(cur, k)], 31, true, 0)[0] == Esc;
    }
  }

  /** The first `n` cells hold an escape sequence exactly when one of their flags is highlighted,
      and are the plain characters otherwise. */
  lemma {:induction false} CellsMarked(gitMode: Option<nat>, cur: nat, n: nat)
    requires n <= 9
    ensures var cells := Cells(gitMode, cur, TypeChar(gitMode, cur) != '-', n);
      && (Esc in cells <==> exists k :: 0 <= k < n && Highlighted(gitMode, cur, k))
      && ((forall k :: 0 <= k < n ==> !Highlighted(gitMode, cur, k)) ==> cells == Perms(cur)[..n])
  {
    var t := TypeChar(gitMode, cur);
    if n > 0 {
      CellsMarked(gitMode, cur, n - 1);
      CellMarked(gitMode, cur, n - 1);
      var prev := Cells(gitMode, cur, t != '-', n - 1);
      var cell := Cell(gitMode, cur, t != '-', n - 1);
      assert Cells(gitMode, cur, t != '-', n) == prev + cell;
      EscInConcat(prev, cell);
      PermsPrefix(cur, n);
    }
  }

  lemma EscInConcat(a: String, b: String)
    ensures Esc in a + b <==> Esc in a || Esc in b
  {
  }

  /** No highlighted flag: the column is exactly the ten plain characters; some highlighted flag:
      it carries an escape sequence. */
  lemma ModeHighlights(gitMode: Option<nat>, curMode: Option<nat>)
    ensures var cur := LiveMode(curMode);
      && ((forall k :: 0 <= k < 9 ==> !Highlighted(gitMode, cur, k)) ==>
            ModeString(gitMode, curMode) == [TypeChar(gitMode, cur)] + Perms(cur))
      && (Esc in ModeString(gitMode, curMode) <==> exists k :: 0 <= k < 9 && Highlighted(gitMode, cur, k))
  {
    var cur := LiveMode(curMode);
    CellsMarked(gitMode, cur, 9);
    assert Perms(cur)[..9] == Perms(cur);
    var t := TypeChar(gitMode, cur);
    var cells := Cells(gitMode, cur, t != '-', PermCount);
    assert Esc in [t] + cells <==> Esc in cells;
  }

  /** A gitlink shows 'g' and is never highlighted. */
  lemma GitlinkColumn(curMode: Option<nat>)
    ensures ModeString(Some(GitlinkMode), curMode) == ['g'] + Perms(LiveMode(curMode))
  {
    ModeHighlights(Some(GitlinkMode), curMode);
  }

  /** Without a live mode every permission shows '-', and the type is 'g' or '-'. */
  lemma NoLiveMode(gitMode: Option<nat>, curMode: Option<nat>)
    requires curMode.None? || curMode == Some(0)
    ensures ModeString(gitMode, curMode) == [if gitMode == Some(GitlinkMode) then 'g' else '-'] + "---------"
  {
    ModeHighlights(gitMode, curMode);
    assert Perms(0) == "---------";
  }
}
