# cntr in Dafny

`cntr` walks one or more directory trees and counts, per source-file
category (C, C++, C/C++ headers, CMake, Makefile, Kconfig), how many files
there are, their size in bytes, their lines, and how many of those lines
are empty. This project models its engine (`cntr.c`) and its command-line
layer (`main.c`) and proves what they compute.

- `wrappers.dfy`: `Option`.
- `libc.dfy` (module `LibC`): the C library behaviour the code depends on.
  This covers `isspace`, the NUL-terminated view of a buffer and `strstr`.
  It also covers the chunks successive `getline` calls return (`Lines`),
  including an unterminated last line.
- `cntr_spec.dfy` (module `CntrSpec`): the meaning of `cntr.c` as
  functions over values.
  - The category table.
  - The per-category counters `FileTypeStat`, with their invariant
    `Consistent`: empty + actual == total, and no comment lines.
  - The line scan and the suffix classifier.
  - The recursive walk, written `WalkListing`/`WalkEntries`/`WalkEntry`.
  - The list of files the walk reaches, written `FilesOfListing`, with
    their paths and the names they were reached through. The walk is proved
    to classify exactly these files, in order. The list is checked in both
    directions against `Locates`, a description of the tree alone.
    Soundness: every listed file is a file entry the tree holds at the end
    of its trail, with that content (`VisitedIsLocated`), and is reached
    through names the walk does not skip (`FilesOfListingReached`).
    Completeness: every file the tree holds behind such names, through
    directories that open, is listed (`LocatedIsVisited`).
- `cntr.dfy` (module `Cntr`): the imperative code.
  - `is_excluded` and `line_is_empty` are loops.
  - `g_filestats` is the array field of the class `FileStats`.
  - `init`, `stat_file_lines`, `stat_file` and `run` are its constructor
    and methods.
  - Each method is proved to leave the array equal to the corresponding
    `CntrSpec` function of its old contents.
- `cli.dfy` (module `Cli`): `comma_separated_to_list` is a two-pass
  method over an array. Its specification `Split` has a round trip with
  `Join`. The argv loop of `main` is a method proved equal to the
  decision function `ParseArgv`. `Execute` puts the scan, `init` and
  `run` together.

The filesystem is an input. A root or directory is either `Unopenable`
(`opendir` fails) or a sequence of entries in `readdir` order. An entry is
one of:

- `Dir(name, listing)`;
- `Unknown(name)`, for `DT_UNKNOWN`;
- `File(name, content)`, where `content` is `None` when `fopen` fails.

`Execute` receives the directory tree as a function from path to listing.

Classification follows the code, not the looser reading "the path ends
with the suffix". A suffix credits a category only when its FIRST
occurrence in the path (`strstr`) ends at the path's end. So
`./a.cfg/x.c` is not C source (`DirectoryNameHidesSuffix`), and
`SuffixCreditedIff` states the exact rule. The code does not stop at the
first matching category. With the shipped table, however, no suffix is a
suffix of another, so a path is counted at most once, by at most one
category (`CreditedOnce`). The duplicate counting across categories that
trying every category without stopping would allow never happens with
this table.

## Model

| member | source | states |
|---|---|---|
| LibC.CStr | cntr.c:84 | what a C string loop sees of a buffer is the longest NUL-free prefix: a prefix, NUL-free, stopped by a NUL or the end |
| LibC.StrStr | cntr.c:136 | `strstr` returns the first index where the needle occurs, and none exactly when it occurs nowhere |
| LibC.NextLine | cntr.c:108 | one `getline` chunk is a non-empty prefix holding '\n' only as its last character, ending with '\n' unless it is all that is left |
| LibC.ConcatLines | cntr.c:108-117 | the `getline` chunks read back to back give the whole file content |
| LibC.LinesShape | cntr.c:108 | every chunk is non-empty, holds '\n' only last, and all but the last end with '\n' |
| LibC.LinesCount | cntr.c:108-110 | the number of lines read is the number of '\n' plus one for an unterminated last line |
| LibC.IsSpace | cntr.c:86 | `isspace` in the "C" locale: space, '\t', '\n', '\v', '\f' and '\r' and nothing else |
| LibC.Lines | cntr.c:108 | the successive `getline` chunks of a file, in order, until the content is used up; its properties are stated by `ConcatLines`, `LinesShape` and `LinesCount` |
| LibC.CountAppend | main.c:27-28 | helper, used for ',' (main.c:27-28) and for '\n' (cntr.c:108, `LinesCount`): the count of a concatenation is the sum of the counts |
| CntrSpec.FILE_TYPES | cntr.c:18-24 | the six categories in table order with their suffixes, the NULL padding dropped |
| CntrSpec.AddLine | cntr.c:110-116 | one iteration of the `getline` loop: one more total line, one more empty or actual line as `line_is_empty` says, and the chunk's length added to the size |
| CntrSpec.ScanLinesEffect | cntr.c:108-117 | reading lines adds their number to the total, the empty ones to the empty count, the others to the actual count and their lengths to the size, and leaves the file and comment counts alone |
| CntrSpec.StatLinesEffect | cntr.c:95-124 | an unopenable file changes nothing; an opened one adds its line count to total and to empty + actual, and its exact byte length to the size; file and comment counts unchanged |
| CntrSpec.StatLinesConsistent | cntr.c:110-114 | reading a file keeps empty + actual == total and comment lines at zero |
| CntrSpec.StatLinesExample | cntr.c:108-117 | "a\n\nb" reads as three lines, one empty and two actual, four bytes |
| CntrSpec.SuffixCredited | cntr.c:136-141 | the test of one suffix: `strstr` finds it and that first occurrence ends at the path's end |
| CntrSpec.SuffixCreditedIff | cntr.c:136-141 | a suffix credits a path iff the path ends with it and it occurs nowhere earlier in the path |
| CntrSpec.CreditedIsSuffix | cntr.c:136-141 | a credited suffix is a true suffix of the path |
| CntrSpec.DirectoryNameHidesSuffix | cntr.c:136-141 | `./a.cfg/x.c` ends with ".c" but is not credited by it |
| CntrSpec.ClassifyExamplesCxx | cntr.c:18-24 | `x.cc` is C++ source and ".c" does not credit it |
| CntrSpec.ClassifyExamplesHeader | cntr.c:18-24 | `x.hpp` is a header, through ".hpp" and not ".h" |
| CntrSpec.ClassifyExamplesBackup | cntr.c:134-141 | `foo.cpp.bak` belongs to no category |
| CntrSpec.ClassifyExamplesCMake | cntr.c:22 | `./CMakeLists.txt` is a CMake file: a whole file name works as a suffix |
| CntrSpec.Classify | cntr.c:128-148 | the category it names has a crediting suffix; when it names none, no category has one |
| CntrSpec.TableSuffixFreeWithin | cntr.c:18-24 | within each category no suffix is a suffix of another |
| CntrSpec.TableSuffixFreeAcross | cntr.c:18-24 | no suffix of one category is a suffix of a suffix of another |
| CntrSpec.TwoCreditedNest | cntr.c:136-141 | two suffixes crediting the same path are suffixes of one another |
| CntrSpec.CreditsAtMostOne | cntr.c:132-146 | in a suffix-free list, at most one suffix credits a path |
| CntrSpec.CreditedOnce | cntr.c:128-148 | with the table, a path gets at most one credit per category and credits in at most one category |
| CntrSpec.CreditCategoryOnce | cntr.c:132-146 | trying a category's suffixes leaves its counters alone without a credit and applies one file credit with exactly one |
| CntrSpec.FileCredit | cntr.c:143-145 | a matched file: the file count goes up by one, then the file's lines are read into the same counters |
| CntrSpec.FileCreditEffect | cntr.c:143-145 | a matched file adds 1 to the file count before its lines are read; an unreadable one adds that 1 and nothing else; consistency kept |
| CntrSpec.StatFileSpecClassified | cntr.c:126-149 | classifying a file changes only the category `Classify` picks, by one file credit; an unclaimed path changes nothing |
| CntrSpec.StatFileSpecConsistent | cntr.c:126-149 | classifying a file keeps every category consistent |
| CntrSpec.ChildPath | cntr.c:203-208 | a child path is the parent, one '/', then the entry name |
| CntrSpec.WalkSkips | cntr.c:197-220 | ".", "..", excluded names and unknown-type entries leave the counters unchanged, whatever lies below them |
| CntrSpec.UnopenableRootSkipped | cntr.c:186-191 | a root that cannot be opened is passed over and the roots after it are still walked |
| CntrSpec.WalkListingIsStatAll | cntr.c:193-227 | walking a directory classifies, in order, exactly the files `FilesOfListing` lists |
| CntrSpec.WalkEntriesIsStatAll | cntr.c:193-227 | the same for a run of entries |
| CntrSpec.WalkEntryIsStatAll | cntr.c:197-224 | the same for one entry |
| CntrSpec.RunIsStatAll | cntr.c:181-233 | running over several roots classifies each root's files in turn |
| CntrSpec.StatAllAppend | cntr.c:193-227 | classifying two runs of files one after the other is classifying their concatenation |
| CntrSpec.FilesOfListingReached | cntr.c:197-208 | every reached file's path is the directory followed by '/'-joined names, none of them ".", ".." or excluded: an excluded name prunes its subtree |
| CntrSpec.FilesOfEntriesReached | cntr.c:197-208 | the same for a run of entries |
| CntrSpec.FilesOfEntryReached | cntr.c:197-208 | the same for one entry |
| CntrSpec.LocatedIsVisited | cntr.c:193-224 | every file a directory holds behind names that are not ".", ".." or excluded, through directories that open, is among the files the walk classifies, with its path built from those names |
| CntrSpec.EntryLocatedIsVisited | cntr.c:197-224 | the same for the files below one entry |
| CntrSpec.EntriesContain | cntr.c:193-227 | a file visited through one entry of a directory is visited in the directory |
| CntrSpec.LocatedInRun | cntr.c:183-230 | every such file below any of the roots is among the files a run classifies |
| CntrSpec.VisitedIsLocated | cntr.c:193-224 | every file the walk classifies below a directory is a file entry of the tree, reached through the names of its trail, with the content the tree gives it |
| CntrSpec.VisitIsLocated | cntr.c:193-224 | the same for one classified file |
| CntrSpec.EntriesVisitIsLocated | cntr.c:193-227 | a file classified in a directory comes from one of its entries, which locates it |
| CntrSpec.EntryVisitIsLocated | cntr.c:197-224 | a file classified below one entry is located by that entry: a regular file is the entry itself, a directory holds it further down |
| CntrSpec.RunVisitIsLocated | cntr.c:183-230 | every file a run classifies is a file entry below one of the roots, with the path the run built from that root and the names on the way |
| CntrSpec.StatAllConsistent | cntr.c:126-149 | classifying any files keeps every category consistent |
| CntrSpec.RunConsistent | cntr.c:181-233 | a whole run keeps empty + actual == total and zero comment lines in every category |
| CntrSpec.StatAllTotalFiles | cntr.c:143-144 | the file counts grow by the number of classified files that some category claims |
| CntrSpec.RunTotalFiles | cntr.c:181-233 | a run counts each reached file once if a category claims it, and not at all otherwise |
| Cntr.IsExcluded | cntr.c:40-49 | true iff the name equals one of the exclusions exactly |
| Cntr.LineIsEmpty | cntr.c:82-93 | true iff every character before the first NUL is whitespace |
| Cntr.FileStats.Init | cntr.c:171-179 | a fresh array of one zeroed counter record per category |
| Cntr.FileStats.StatFileLines | cntr.c:95-124 | returns 1 for an unopenable file and 0 otherwise; only slot `i` changes, to the line scan of the file |
| Cntr.FileStats.StatCategory | cntr.c:132-147 | the suffix loop of one category leaves the array as `CreditCategory` says |
| Cntr.FileStats.StatFile | cntr.c:126-149 | leaves the array equal to `StatFileSpec` of its old contents, keeping it consistent |
| Cntr.FileStats.RunDir | cntr.c:193-227 | walking one directory leaves the array equal to `WalkListing` of its old contents |
| Cntr.FileStats.Run | cntr.c:181-233 | returns 0 and leaves the array equal to `RunSpec` of its old contents |
| Cli.SplitCount | main.c:25-28 | there is one piece more than there are commas |
| Cli.SplitPiecesCommaFree | main.c:39-49 | no piece contains a comma |
| Cli.JoinSplit | main.c:39-60 | joining the pieces with "," gives back the argument exactly |
| Cli.SplitJoin | main.c:39-60 | splitting comma-free pieces joined by "," gives back the pieces, in order |
| Cli.SplitExamples | main.c:39-49 | "" gives one empty piece; leading, doubled and trailing commas give empty pieces |
| Cli.CountPieces | main.c:24-28 | the first pass counts 1 plus the commas |
| Cli.CommaSeparatedToList | main.c:22-63 | the list is `Split(arg)`, its pieces are filled left to right without `pathidx` passing `pathcnt`, and `*count_out` is 1 plus the commas |
| Cli.ParseFrom | main.c:79-116 | the scan of the arguments still to come: "--help" exits 0; "--path"/"--exclude" replace their list with the split value, or exit 1 when no value follows; anything else exits 1; the end of the arguments leads to a run |
| Cli.ParseArgs | main.c:65-116 | the argv loop returns exactly `ParseArgv(argv)` |
| Cli.ParseRendered | main.c:86-109 | well-formed options are consumed pair by pair, values taken as they are, the last list of each kind winning |
| Cli.ArgvRun | main.c:79-116 | well-formed options lead to a run with the last path and exclusion lists |
| Cli.ArgvHelp | main.c:81-85 | "--help" reached by the scan exits with 0, whatever follows |
| Cli.ArgvMissingValue | main.c:88-105 | "--path" or "--exclude" as the last argument exits with 1 |
| Cli.ArgvUnknown | main.c:110-115 | an unrecognised argument reached by the scan exits with 1 |
| Cli.ParseScanRendered | main.c:79-116 | a scan that ends in a run consumed nothing but flag/value pairs |
| Cli.ParseExitCodes | main.c:67-115 | the scan exits with 0 or 1 only |
| Cli.Execute | main.c:65-120 | the exit code is that of the scan; on a run the table is `RunSpec` from zeroed counters over the given roots and exclusions, and every category is consistent with zero comment lines |

## Left out

- `do_loading_animation` (cntr.c:151-169) is not modelled. It reads the clock and writes to the terminal.
- `bytes_to_human_readable` (cntr.c:51-80) is not modelled. It is floating-point formatting used only for display.
- `dump` is not modelled; it prints the table. `Execute` returns the counters that `dump` would print.
- `usage`, `badarg` and every `printf` diagnostic are not modelled.
- Memory management is not modelled: `malloc`, `free`, `exit(2)` on allocation failure and `destroy`. Neither are the leaks of `fullpath` on the unknown-type path and of earlier lists on repeated options.
- The `size_t` counters are unbounded `nat`s, so wrap-around on overflow is not modelled.
- The filesystem is an input, not real system calls. Directory listings come from a tree, `readdir` order is the order of its entries, and file contents are strings with `None` for an unopenable file. Each `char` of a file's content and of a path stands for one byte, so `|content|` is the byte count `total_size` adds and `IsSpace` is `isspace` over bytes in the "C" locale. Paths are assumed free of NUL characters. Line contents may contain NUL, and `LineIsEmpty` stops at the first one, as the code does.
- `stat_file` has no return statement. The model treats it as returning nothing.
- `Cntr.FileStats.StatCategory` is the inner suffix loop of `stat_file`, written as a method of its own. `Cli.CountPieces` is the first pass of `comma_separated_to_list`, also written as a method of its own.
- Cli.CommaSeparatedToList: the invariant that `start` is one past the previous comma is not stated on its own. It is implied by the stated invariant that the filled pieces followed by `Split` of the rest make up `Split(arg)`.
- `cntr.h` only declares prototypes.
