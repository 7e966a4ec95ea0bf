# git-ls in Dafny

A model of `git-ls.py`, a Python 2 script that prints an `ls`-style listing of a directory in which
every entry carries its git status. Each printed line has four parts:

- a ten-character mode column, with the permission bits that differ from git's recorded mode in bold red;
- the two status codes;
- the name, with its rename partner;
- a `*` for untracked content, and the url of a submodule.

Lines are sorted with directories first, then by priority (staged, staged and unstaged, unstaged,
unchanged, untracked), then by name.

What the script reads from git and from the file system comes into the model as plain values:

- the lines of `git status --porcelain` and of `git ls-tree`;
- the lines of `.gitmodules`, or `None` when it is not a file;
- a `WorkTree`: the directory listing, the set of names that are directories, and the `st_mode` of
  each name `lstat` succeeds on.

Wherever the script raises an exception, the model returns `Err` with a `Failure` naming the line or
the name at fault.

Modules, one per part of the script:

- `Base`: `Option`, `Result`, and the failures.
- `Text`: the Python 2 string operations the script uses. These are `strip`, `startswith`, `in`,
  `split(sep, 1)`, `split(sep)`, `join`, `str` of a number, and byte-string order.
- `Ansi`: `c`, the SGR colouring, together with `Visible`, what a terminal shows of a string.
- `StatusFeed`, `TreeFeed`, `Submodules`: `git_status`, `git_ls_tree` with the tree index built in
  `main`, and `git_submodules`. Each is a method with the script's loop, proved equal to a function
  of its input. Round-trip lemmas state what the parsers recover from what git writes.
- `FileMode`: `get_file_mode` as the same nested loops, proved equal to `ModeString`. Lemmas state
  what the column shows and when it is highlighted.
- `Reconcile`: the records matched to a file or a directory, the file loop, and the directory
  summary.
- `Render`: colour, priority and the text of one output line.
- `Ordering`: the sort key and `output_lines.sort()`.
- `Listing`: one pass of the main loop (`Visit`, specified by `Step`), the whole loop
  (`ListEntries`, specified by `Run`), and what the loop guarantees.
- `GitLs`: `main` from the feeds to the printed lines.

Where the script behaves in ways a reader might not expect, the model follows the code:

- A directory's summary column depends on the order of its records. A staged file then a modified
  file give `*M`, and the other order gives `MM` (`Reconcile.DirSummaryDependsOnOrder`). A blank code
  met after a set one turns the column into `*`.
- A directory's worktree column is compared with each record's index code (line 230). Two records
  `MM` and `AM` therefore give `**` (`Reconcile.WorktreeColumnComparedWithIndexCode`).
- Outside a work tree there are no records and the tree map is empty. Every name of the listing is
  then shown as untracked (`??`), not skipped (`Listing.OutsideWorkTreeUntracked`).
- The first `[` header of `.gitmodules` stores the pair `None: None` in the table
  (`Submodules.LoadSections`).

## Model

| member | source | states |
|---|---|---|
| Ansi.SgrCodes | git-ls.py:11-17 | one parameter per attribute asked for, in the order 1 (bold), the colour, the background; none exactly when nothing is asked for |
| Ansi.JoinCodes | git-ls.py:22 | the joined parameters are digits and `;`, non-empty for a non-empty list |
| Ansi.JoinCodesRoundTrip | git-ls.py:22 | splitting the joined parameters at `;` and reading each piece as a decimal number gives back the codes, in order |
| Ansi.Colorize | git-ls.py:10-23 | `msg` unchanged iff no bold, colour or background; otherwise `ESC [` first and `msg` followed by the reset sequence last |
| Ansi.ColorizeCodes | git-ls.py:19-23 | when an attribute is asked for, the output is `ESC [`, parameters that read back as exactly the codes for bold, colour and background, `m`, `msg` and the reset sequence |
| Ansi.ColorizeIsInvisible | git-ls.py:20-24 | a terminal shows a coloured `msg` (without ESC) exactly as `msg` |
| Ansi.VisibleSkipsSgr | git-ls.py:24 | a complete `ESC [ params m` sequence is not shown |
| Ansi.VisiblePlain | git-ls.py:24 | text without ESC is shown as it is |
| Text.Strip | git-ls.py:45-46 | the result is no longer than the input and neither starts nor ends with whitespace |
| Text.StripInfix | git-ls.py:45-46 | the result is the infix of the input left after removing whitespace at both ends |
| Text.StripPadded | git-ls.py:85-87 | `strip` of a value padded with whitespace is the value |
| Text.SplitOnce | git-ls.py:52 | None iff the separator does not occur; otherwise the halves joined by the separator give the input, and the first half holds no occurrence |
| Text.SplitOnceAt | git-ls.py:52 | a separator placed after text without one is where the split happens |
| Text.SplitAll | git-ls.py:65 | the pieces joined by the separator give the input, and none holds the separator |
| Text.SplitJoin | git-ls.py:65 | splitting the join of separator-free pieces gives the pieces back |
| Text.StrLessTransitive | git-ls.py:302 | byte-string order is transitive |
| Text.StrLessTotal | git-ls.py:302 | byte-string order is total on different strings |
| Text.StrLessAsymmetric | git-ls.py:302 | byte-string order is asymmetric |
| Text.Decimal | git-ls.py:22 | `str(i)` is a non-empty string of digits, with a leading `0` only for zero itself |
| Text.DecimalRoundTrip | git-ls.py:22 | reading the digits of `str(n)` back gives `n` |
| StatusFeed.StatusCodeIsStrip | git-ls.py:45-46 | a column code is `strip` of the character: empty for whitespace |
| StatusFeed.ParseStatusLine | git-ls.py:44-53 | the record read from one line is `RecordOf` the line |
| StatusFeed.GitStatus | git-ls.py:40-55 | succeeds iff every line has two characters; then one record per line, in order; otherwise fails at the first short line |
| StatusFeed.RecordPaths | git-ls.py:47-52 | the path is `line[3:]`, or the parts before and after the first `" -> "` |
| StatusFeed.RecordCodes | git-ls.py:45-46 | the codes are the first two characters, blank when whitespace |
| StatusFeed.PorcelainRoundTrip | git-ls.py:44-53 | reading back the porcelain line of a record gives the record, for an arrow-free path |
| StatusFeed.PathRoundTrip | git-ls.py:50-52 | the path part of a porcelain line splits back into path and destination |
| StatusFeed.ArrowInFileNameIsMisread | git-ls.py:50-52 | the untracked file `.bash -> rc` reads back as a rename of `.bash` to `rc` |
| TreeFeed.ParseRow | git-ls.py:64-67 | the entry read from one row is `EntryOf` the row |
| TreeFeed.GitLsTree | git-ls.py:58-69 | succeeds iff every row parses; then one entry per row, in order; otherwise fails at the first malformed row |
| TreeFeed.RowOfEntry | git-ls.py:63-67 | a row that parses is the row of its entry |
| TreeFeed.EntryOfRow | git-ls.py:63-67 | reading back the row of an entry with space- and tab-free fields gives the entry |
| TreeFeed.ParseOctal | git-ls.py:282 | `ParseOctal(s)` succeeds iff `s` is a non-empty string of octal digits, the only form git writes |
| TreeFeed.OctalRoundTrip | git-ls.py:282 | parsing the octal digits of a number gives the number |
| TreeFeed.LeadingZerosIgnored | git-ls.py:282 | the octal digits of `n` after any number of zeros parse as `n` |
| TreeFeed.OctalCanonical | git-ls.py:282 | a string that parses as `n` is some zeros followed by the octal digits of `n`: together with `LeadingZerosIgnored`, these are exactly the strings `int(s, 8)` reads as `n` |
| TreeFeed.TreeNames | git-ls.py:159-160 | `ls_tree_files` is the names of the entries, in order |
| TreeFeed.IndexTree | git-ls.py:159-161 | the loop builds `ls_tree_files` and `ls_tree_dic` as `TreeNames` and `TreeIndex` |
| TreeFeed.TreeIndexLastWins | git-ls.py:159-161 | `ls_tree_dic` holds exactly the listed names; each maps to a row of that name, the last one |
| Submodules.ReadLine | git-ls.py:80-87 | one line's effect on the table and the pending pair is `Step` |
| Submodules.GitSubmodules | git-ls.py:72-90 | an empty table for a missing file; otherwise the scan of the lines with the last pair added when its path is truthy, or the first line that raises |
| Submodules.ScanErrorStays | git-ls.py:79-87 | once a line raises, the whole file reports that line |
| Submodules.ValueOfLine | git-ls.py:85-87 | a `key = value` line yields the value |
| Submodules.StepHeader | git-ls.py:80-83 | a header stores the pending pair under its path, `None` included, and clears both |
| Submodules.StepPath | git-ls.py:84-85 | a path line sets the pending path, overwriting an earlier one |
| Submodules.StepUrl | git-ls.py:86-87 | a url line sets the pending url, overwriting an earlier one |
| Submodules.ScanSection | git-ls.py:79-87 | a section stores the previous pair and leaves its own pair pending |
| Submodules.LoadSections | git-ls.py:72-90 | well-formed sections load as the table they describe, later paths winning, plus `None: None` |
| Submodules.PendingOfSections | git-ls.py:79-87 | after well-formed sections the last section's pair is pending |
| Submodules.EmptyLastPathDropped | git-ls.py:88-89 | a final section with an empty path is not stored |
| FileMode.FormatBits | git-ls.py:116-127 | `S_IFMT(mode) >> 12`: the nibble in bits 12-15, so the mode is its higher bits, this nibble and its low twelve bits; the `S_IS*` tests compare this nibble |
| FileMode.TypeChar | git-ls.py:112-127 | 'g' for git's gitlink mode whatever the live mode; '-' with no live mode otherwise; always one of `gslbcpd-` |
| FileMode.PermChar | git-ls.py:103-105 | a permission character is its letter or '-' |
| FileMode.Perms | git-ls.py:131-134 | nine characters, flag by flag in USR, GRP, OTH and r, w, x order |
| FileMode.GetFileMode | git-ls.py:93-136 | the nested loops build `ModeString` |
| FileMode.CellShape | git-ls.py:99-110 | a cell is its permission character, wrapped in bold red exactly when the flag is highlighted |
| FileMode.CellShown | git-ls.py:99-110 | a terminal shows a cell as its permission character |
| FileMode.CellsShown | git-ls.py:131-134 | a terminal shows the first n cells as the first n permission characters |
| FileMode.ModeShown | git-ls.py:93-136 | a terminal shows the column as the type character, then the nine permission characters |
| FileMode.ModeWidth | git-ls.py:93-136 | the column always shows ten characters |
| FileMode.CellMarked | git-ls.py:106-109 | a cell holds an escape iff its flag is highlighted: type '-', git's mode known, a live mode, and the bit differs |
| FileMode.CellsMarked | git-ls.py:131-134 | the first n cells hold an escape iff one of their flags is highlighted |
| FileMode.ModeHighlights | git-ls.py:93-136 | with no highlighted flag, the column is the plain ten characters; it holds an escape iff some flag is highlighted |
| FileMode.GitlinkColumn | git-ls.py:113-115 | a gitlink shows 'g' and its permissions unhighlighted |
| FileMode.NoLiveMode | git-ls.py:96-103 | with no live mode, all nine permissions are '-' and the type is 'g' or '-' |
| Reconcile.FileMatches | git-ls.py:182 | exactly the records whose path or destination is the name |
| Reconcile.FileMatchesSplit | git-ls.py:182 | the matches of a concatenation are the matches of each part, so they keep the order of `status` |
| Reconcile.DirMatches | git-ls.py:210-218 | exactly the records whose path or destination is the directory or below it |
| Reconcile.DirMatchesSplit | git-ls.py:217-218 | the records of a concatenation below a directory are those of each part, in the order of `status` |
| Reconcile.MatchFile | git-ls.py:192-199 | the loop over a file's records computes `FileFold` |
| Reconcile.FileCodes | git-ls.py:192-199 | the last record's codes win; untracked iff some record is `??` |
| Reconcile.FileCodesFromStatus | git-ls.py:182-199 | a file shows the codes of the last record of `status` that mentions it |
| Reconcile.FileRenameSource | git-ls.py:192-197 | the rename source is unchanged unless a tracked record renames something to the file; then it is the path of the last such record |
| Reconcile.FileRenameTarget | git-ls.py:192-199 | the rename destination is unchanged unless a tracked record has the file as path and does not rename to it; then it is the destination of the last such record, possibly `None` |
| Reconcile.Paths | git-ls.py:232 | the paths appended to `files` are the records' paths, in order |
| Reconcile.SummarizeDirectory | git-ls.py:225-232 | the loop over a directory's records computes `DirFold` and the paths |
| Reconcile.FirstSet | git-ls.py:229 | the first non-blank code, with only blanks before it |
| Reconcile.SettleStep | git-ls.py:229 | one more code changes the settled column as one pass of line 229 does |
| Reconcile.DirColumnX | git-ls.py:225-229 | the index column is blank, the first set code if all later ones equal it, or '*' |
| Reconcile.SettleAgainstStep | git-ls.py:230 | one more record changes the settled worktree column as one pass of line 230 does |
| Reconcile.DirColumnY | git-ls.py:225-230 | the worktree column is blank, the first set worktree code if every later record's index code equals it, or '*' |
| Reconcile.DirUntracked | git-ls.py:225-227 | a directory is marked untracked iff one of its records is `??` |
| Reconcile.DirColumnsAgree | git-ls.py:229-230 | when every tracked record has equal codes, both columns agree |
| Reconcile.WorktreeColumnComparedWithIndexCode | git-ls.py:230 | `MM` then `AM` give a worktree column of '*' although both are `M` |
| Reconcile.DirSummaryDependsOnOrder | git-ls.py:229-230 | staged then modified give `*M`; the other order gives `MM` |
| Render.ColorPriority | git-ls.py:263-277 | untracked: colour 31, priority -1; otherwise magenta 35 and 2 iff both codes, green 32 and 3 iff only the index code, red 31 and 1 iff only the worktree code, 0 and 0 iff neither |
| Render.PriorityRanks | git-ls.py:262-277 | staged-only outranks staged and unstaged, which outranks unstaged, then unchanged, then untracked |
| Render.Shown | git-ls.py:292-295 | a shown code is never empty |
| Render.GitModeOf | git-ls.py:279-282 | None outside the tree; the octal mode for a tree name; an error iff the tree's mode is not octal |
| Render.OutputText | git-ls.py:245-254 | starts with the name, and is the name alone iff there is no rename partner |
| Render.OutputTextRoundTrip | git-ls.py:249-251 | for a name without an arrow, splitting at the first ` -> ` gives back the name and the destination |
| Render.Extra | git-ls.py:246-259 | empty iff the name has no untracked content and no submodule url |
| Render.SubmoduleOf | git-ls.py:235-236 | the url the table holds for the name, no submodule when the name is not a key |
| Render.SubmoduleUrl | git-ls.py:235-236 | on a table loaded from well-formed sections, a name gets the url of its last section |
| Render.NoSubmodule | git-ls.py:235-236 | on a table loaded from well-formed sections, a name no section is for has no submodule |
| Render.Tail | git-ls.py:291-297 | the part after the mode column starts with a space, the two codes with a blank shown as a space, and a space |
| Render.LineOf | git-ls.py:288-300 | the line is sorted as a directory or not, by the priority of its codes and by its name, and its text starts with the mode column |
| Render.ExtraShows | git-ls.py:256-259 | a terminal shows the extra part as `*` and ` @ url` |
| Render.TailShows | git-ls.py:245-297 | a terminal shows the part after the mode column as the codes, the name with its partner, `*` and the url |
| Render.LineShows | git-ls.py:288-297 | a terminal shows a line as type, permissions, codes, name with partner, `*` and url |
| Ordering.LessIrreflexive | git-ls.py:299-302 | no line sorts before itself |
| Ordering.LessTransitive | git-ls.py:299-302 | the sort order is transitive |
| Ordering.LessTotal | git-ls.py:299-302 | two different lines are always ordered |
| Ordering.LeAntisymmetric | git-ls.py:299-302 | lines ordered both ways are equal |
| Ordering.Insert | git-ls.py:302 | inserting into a sorted list keeps it sorted and adds exactly the line |
| Ordering.SortLines | git-ls.py:302 | `sort()` gives a sorted permutation |
| Ordering.SortedUnique | git-ls.py:302 | two sorted permutations of the same lines are equal, so the printed order does not depend on the sort algorithm |
| Ordering.PrintOrder | git-ls.py:299-302 | directories first, then higher priority, then names in byte order |
| Listing.VisitFile | git-ls.py:176-204 | a file is shown iff not in `files` and not ignored; its decision and the names it adds to `files` |
| Listing.VisitDirectory | git-ls.py:205-233 | a directory is shown iff not in `directories` and not ignored; its summary and the paths it adds to `files` |
| Listing.MakeLine | git-ls.py:235-300 | the line for a shown name is its `Entry` |
| Listing.Visit | git-ls.py:173-300 | one pass of the loop is `Step` |
| Listing.ListEntries | git-ls.py:166-300 | the loop gives the lines of `Run`, or its first error |
| Listing.RunErrorStays | git-ls.py:173-300 | once a name fails, the whole loop reports that failure |
| Listing.StepConsistent | git-ls.py:180-208 | a pass keeps no name shown twice, only grows the lists, and adds the name's `Entry` unless it was seen or ignored |
| Listing.RunConsistent | git-ls.py:173-233 | after the loop no name has two lines, and every shown name is remembered |
| Listing.RunLine | git-ls.py:173-300 | every line is the `Entry` of a listed name that is not ignored |
| Listing.RunCovers | git-ls.py:180-233 | every listed name is ignored or remembered after the loop |
| Listing.RunExtends | git-ls.py:173-300 | more names only append lines, never for a name already remembered |
| Listing.RenamePartnerNotShownAgain | git-ls.py:200-204 | once a file with a rename destination is shown, the destination gets no later line |
| Listing.RenameSourceNotShownAgain | git-ls.py:200-202 | once a file with a rename source is shown, the source gets no later line |
| Listing.OutsideWorkTree | git-ls.py:184-191 | with no records and an empty tree, every name of a repeat-free listing gets one line, in order |
| Listing.OutsideWorkTreeUntracked | git-ls.py:265-267 | every such line is decided as `??` and has priority -1 |
| Listing.UntrackedEverywhere | git-ls.py:219-224 | with no records and an empty tree, a name is not ignored, is decided as `??`, records only itself and gets a line of priority -1 |
| GitLs.Texts | git-ls.py:303-304 | one text per line, in order |
| GitLs.GitLsMain | git-ls.py:149-302 | outside a work tree, the listing's outcome; inside, the parse errors, then the outcome over `ls_tree_files + local_files` |
| GitLs.OutsideWorkTreePrintsAll | git-ls.py:154-173 | outside a work tree, a repeat-free listing prints one line per name |

## Left out

- The `git` and `gits` subprocess calls and the `rev-parse` probes (lines 27-37, 154-164) are inputs: the work-tree test is whether `Feeds` are given.
- `os.chdir`, `os.listdir`, `os.path.isdir`, `os.lstat` and the `isfile`/`file()` read of `.gitmodules` are inputs: the `WorkTree` value and the optional lines.
- `argparse`, the `chdir` error message and `print` (lines 140-147, 303-304) are left out; the model returns the texts to print.
- `splitlines()` and `readlines()` are not modelled: the feeds are already lists of lines (those of `readlines()` keep their `\n`, which `strip` removes).
- The prefix of `rev-parse --show-prefix` is fixed to "" (listing at the repository root), so `normpath` and `relpath` leave names unchanged; a listing below the root is not modelled.
- TreeFeed.ParseOctal: `int(s, 8)` also accepts surrounding whitespace, a sign and a `0o` prefix (and underscores in later Python versions); the model accepts only plain octal digits, which is what `git ls-tree` writes.
- `stat.S_IS*` are modelled as comparisons of the S_IFMT nibble; `S_ISREG` needs no case.
- `output_lines.sort()` is modelled as an insertion sort on values, not as Python's in-place timsort; `Ordering.SortedUnique` shows the result does not depend on the algorithm.
- Python 2 `str` is a byte string; the model uses `seq<char>` and compares characters by code.
- GitLs.GitLsMain: for a failing feed it states which kind of error is returned, and leaves the line number to `StatusFeed.GitStatus` and `TreeFeed.GitLsTree`.
