/**
 * main.c: splitting a comma-separated option value into a list, and the
 * left-to-right scan of argv that decides between an early exit code and
 * a run over the given paths and exclusions.
 */
module Cli {
  import opened LibC
  import opened CntrSpec
  import opened Cntr

  // ---------------------------------------------------------------------
  // comma_separated_to_list

  /** The pieces of `arg` between commas, left to right; empty pieces included. */
  function Split(arg: string): (pieces: seq<string>)
    ensures pieces != []
    decreases |arg|
  {
    if arg == [] then [""]
    else if arg[0] == ',' then [""] + Split(arg[1..])
    else
      var rest := Split(arg[1..]);
      [[arg[0]] + rest[0]] + rest[1..]
  }

  /** One piece more than there are commas. */
  lemma {:induction false} SplitCount(arg: string)
    ensures |Split(arg)| == 1 + Count(arg, ',')
    decreases |arg|
  {
    if arg != [] {
      SplitCount(arg[1..]);
    }
  }

  /** No piece holds a comma. */
  lemma {:induction false} SplitPiecesCommaFree(arg: string)
    ensures forall k :: 0 <= k < |Split(arg)| ==> ',' !in Split(arg)[k]
    decreases |arg|
  {
    if arg != [] {
      SplitPiecesCommaFree(arg[1..]);
      var rest := Split(arg[1..]);
      if arg[0] != ',' {
        assert forall k :: 1 <= k < |Split(arg)| ==> Split(arg)[k] == rest[k];
      }
    }
  }

  /** The pieces put back together with a comma between each two. */
  function Join(pieces: seq<string>): string
    requires pieces != []
    decreases |pieces|
  {
    if |pieces| == 1 then pieces[0] else pieces[0] + "," + Join(pieces[1..])
  }

  /** Joining the pieces with "," gives back the argument exactly. */
  lemma {:induction false} JoinSplit(arg: string)
    ensures Join(Split(arg)) == arg
    decreases |arg|
  {
    if arg != [] {
      var rest := Split(arg[1..]);
      JoinSplit(arg[1..]);
      if arg[0] == ',' {
        assert arg == [','] + arg[1..];
      } else {
        var first := [arg[0]] + rest[0];
        assert Split(arg) == [first] + rest[1..];
        assert arg == [arg[0]] + arg[1..];
        if |rest| == 1 {
          assert Join(Split(arg)) == first;
        } else {
          assert Join(rest) == rest[0] + "," + Join(rest[1..]);
          assert Join(Split(arg)) == first + "," + Join(rest[1..]);
          assert first + "," + Join(rest[1..]) == [arg[0]] + Join(rest);
        }
      }
    }
  }

  /** Splitting comma-free pieces joined by "," gives back the pieces. */
  lemma {:induction false} SplitJoin(pieces: seq<string>)
    requires pieces != []
    requires forall k :: 0 <= k < |pieces| ==> ',' !in pieces[k]
    ensures Split(Join(pieces)) == pieces
    decreases |pieces|
  {
    if |pieces| == 1 {
      SplitCommaFree(pieces[0]);
    } else {
      SplitJoin(pieces[1..]);
      SplitAtComma(pieces[0], Join(pieces[1..]));
    }
  }

  /** A comma-free argument is one piece. */
  lemma {:induction false} SplitCommaFree(s: string)
    requires ',' !in s
    ensures Split(s) == [s]
    decreases |s|
  {
    if s != [] {
      SplitCommaFree(s[1..]);
      assert s == [s[0]] + s[1..];
    }
  }

  /** The first comma ends the first piece. */
  lemma {:induction false} SplitAtComma(head: string, tail: string)
    requires ',' !in head
    ensures Split(head + "," + tail) == [head] + Split(tail)
    decreases |head|
  {
    var s := head + "," + tail;
    if head == [] {
      assert s == [','] + tail;
    } else {
      assert s[1..] == head[1..] + "," + tail;
      SplitAtComma(head[1..], tail);
      assert head == [head[0]] + head[1..];
    }
  }

  /** The pieces still to come once the cursor stands at `start`; none past the end. */
  function Remaining(arg: string, start: nat): seq<string> {
    if start <= |arg| then Split(arg[start..]) else []
  }

  /** The cursor moves from the start of one piece to one past the comma or end that closes it. */
  lemma RemainingStep(arg: string, start: nat, i: nat)
    requires start <= i <= |arg|
    requires ',' !in arg[start..i]
    requires i == |arg| || arg[i] == ','
    ensures Remaining(arg, start) == [arg[start..i]] + Remaining(arg, i + 1)
  {
    if i == |arg| {
      assert arg[start..i] == arg[start..];
      SplitCommaFree(arg[start..]);
    } else {
      SplitPieceAt(arg, start, i);
    }
  }

  lemma CountPrefix(s: string, i: nat, c: char)
    requires i < |s|
    ensures Count(s[..i + 1], c) == Count(s[..i], c) + (if s[i] == c then 1 else 0)
  {
    assert s[..i + 1] == s[..i] + [s[i]];
    CountAppend(s[..i], [s[i]], c);
  }

  lemma CommaFreeExtend(arg: string, start: nat, i: nat)
    requires start <= i < |arg| && ',' !in arg[start..i] && arg[i] != ','
    ensures ',' !in arg[start..i + 1]
  {
    assert arg[start..i + 1] == arg[start..i] + [arg[i]];
  }

  lemma CloseStep(arg: string, start: nat, i: nat, got: seq<string>, pieces: seq<string>)
    requires start <= i <= |arg| && ',' !in arg[start..i]
    requires i == |arg| || arg[i] == ','
    requires got + Remaining(arg, start) == pieces
    ensures |got| < |pieces|
    ensures (got + [arg[start..i]]) + Remaining(arg, i + 1) == pieces
  {
    RemainingStep(arg, start, i);
    MovePiece(got, arg[start..i], Remaining(arg, i + 1), pieces);
  }

  /** Moving the next piece from the remaining ones onto those already copied. */
  lemma MovePiece(got: seq<string>, piece: string, rest: seq<string>, pieces: seq<string>)
    requires got + ([piece] + rest) == pieces
    ensures |got| < |pieces|
    ensures (got + [piece]) + rest == pieces
  {
    assert (got + [piece]) + rest == got + ([piece] + rest);
  }

  /** A comma at `i` with none between `start` and `i` closes the piece `arg[start..i]`. */
  lemma SplitPieceAt(arg: string, start: nat, i: nat)
    requires start <= i < |arg| && arg[i] == ',' && ',' !in arg[start..i]
    ensures Split(arg[start..]) == [arg[start..i]] + Split(arg[i + 1..])
  {
    assert arg[start..] == arg[start..i] + "," + arg[i + 1..];
    SplitAtComma(arg[start..i], arg[i + 1..]);
  }

  /** An empty argument gives one empty piece; leading, doubled and trailing commas give empty pieces. */
  lemma SplitExamples()
    ensures Split("") == [""]
    ensures Split(",a,,b,") == ["", "a", "", "b", ""]
  {
    var pieces := ["", "a", "", "b", ""];
    assert Join(pieces) == ",a,,b,";
    SplitJoin(pieces);
  }

  /** The first pass of `comma_separated_to_list`: one piece, plus one for every comma. */
  method CountPieces(arg: string) returns (pathcnt: nat)
    ensures pathcnt == 1 + Count(arg, ',')
  {
    pathcnt := 1;
    for i := 0 to |arg|
      invariant pathcnt == 1 + Count(arg[..i], ',')
    {
      CountPrefix(arg, i, ',');
      if arg[i] == ',' {
        pathcnt := pathcnt + 1;
      }
    }
    assert arg[..|arg|] == arg;
  }

  /**
   * `comma_separated_to_list`: counts the commas to size the list, then
   * copies out each piece when it meets a comma or the end of `arg`.
   * `count` is the `*count_out` it leaves behind.
   */
  method CommaSeparatedToList(arg: string) returns (list: seq<string>, count: nat)
    ensures list == Split(arg)
    ensures count == |list| == 1 + Count(arg, ',')
  {
    var len := |arg|;
    var pathcnt := CountPieces(arg);
    ghost var pieces := Split(arg);
    SplitCount(arg);
    var slots := new string[pathcnt];
    ghost var got: seq<string> := [];
    var pathidx := 0;
    var start := 0;
    var size := 0;
    count := 0;
    for i := 0 to len + 1
      invariant slots.Length == |pieces|
      invariant pathidx == count == |got| <= |pieces|
      invariant slots[..pathidx] == got
      invariant start + size == i
      invariant start <= len ==> i <= len && ',' !in arg[start..i]
      invariant i == len + 1 ==> start == len + 1
      invariant got + Remaining(arg, start) == pieces
    {
      if i == len || arg[i] == ',' {
        CloseStep(arg, start, i, got, pieces);
        var piece := arg[start..start + size];
        slots[pathidx] := piece;
        got := got + [piece];
        pathidx := pathidx + 1;
        start := start + size + 1;
        size := 0;
        count := count + 1;
      } else {
        CommaFreeExtend(arg, start, i);
        size := size + 1;
      }
    }
    assert Remaining(arg, start) == [];
    list := slots[..pathidx];
  }

  // ---------------------------------------------------------------------
  // The argv loop of main

  /** How `main` ends its argument scan: an exit code now, or a run over paths and exclusions. */
  datatype Outcome = Exit(code: int) | Scan(paths: seq<string>, excludes: seq<string>)

  /** The status `main` returns: a successful run ends with 0. */
  function ExitCode(outcome: Outcome): int {
    match outcome
    case Exit(code) => code
    case Scan(_, _) => 0
  }

  /**
   * The scan of the arguments still to come, with the lists chosen so far:
   * "--help" exits with 0, "--path" and "--exclude" take the next argument
   * as their list (exiting with 1 when there is none), anything else exits
   * with 1.
   */
  function ParseFrom(args: seq<string>, paths: seq<string>, excludes: seq<string>): Outcome
    decreases |args|
  {
    if args == [] then Scan(paths, excludes)
    else if args[0] == "--help" then Exit(0)
    else if args[0] == "--path" then
      if |args| == 1 then Exit(1) else ParseFrom(args[2..], Split(args[1]), excludes)
    else if args[0] == "--exclude" then
      if |args| == 1 then Exit(1) else ParseFrom(args[2..], paths, Split(args[1]))
    else Exit(1)
  }

  /**
   * `main` up to the scan: with no argument besides the program name it
   * exits with 1; an empty argv skips the loop altogether.
   */
  function ParseArgv(argv: seq<string>): Outcome {
    if |argv| == 1 then Exit(1)
    else if argv == [] then Scan([], [])
    else ParseFrom(argv[1..], [], [])
  }

  /** The argv loop of `main`: `i` walks argv and steps over each consumed option value. */
  method ParseArgs(argv: seq<string>) returns (outcome: Outcome)
    ensures outcome == ParseArgv(argv)
  {
    if |argv| == 1 {
      return Exit(1);
    }
    var paths: seq<string> := [];
    var exclude: seq<string> := [];
    var i := 1;
    while i < |argv|
      invariant 1 <= i && (argv != [] ==> i <= |argv|)
      invariant argv == [] ==> paths == [] && exclude == []
      invariant argv != [] ==> ParseFrom(argv[i..], paths, exclude) == ParseArgv(argv)
    {
      if argv[i] == "--help" {
        return Exit(0);
      } else if argv[i] == "--path" {
        if i == |argv| - 1 {
          return Exit(1);
        }
        var count;
        paths, count := CommaSeparatedToList(argv[i + 1]);
        assert argv[i..][2..] == argv[i + 2..];
        i := i + 1;
      } else if argv[i] == "--exclude" {
        if i == |argv| - 1 {
          return Exit(1);
        }
        var count;
        exclude, count := CommaSeparatedToList(argv[i + 1]);
        assert argv[i..][2..] == argv[i + 2..];
        i := i + 1;
      } else {
        return Exit(1);
      }
      i := i + 1;
    }
    assert argv != [] ==> argv[i..] == [];
    return Scan(paths, exclude);
  }

  /** One option as it can appear on the command line, with its value. */
  datatype Opt = PathOpt(value: string) | ExcludeOpt(value: string)

  /** The arguments that spell out `opts`, each flag followed by its value. */
  function Render(opts: seq<Opt>): seq<string> {
    if opts == [] then []
    else [if opts[0].PathOpt? then "--path" else "--exclude", opts[0].value] + Render(opts[1..])
  }

  /** The path list after `opts`: the last "--path" wins; without one, `paths` stays. */
  function LastPaths(opts: seq<Opt>, paths: seq<string>): seq<string> {
    if opts == [] then paths
    else LastPaths(opts[1..], if opts[0].PathOpt? then Split(opts[0].value) else paths)
  }

  /** The exclusion list after `opts`: the last "--exclude" wins; without one, `excludes` stays. */
  function LastExcludes(opts: seq<Opt>, excludes: seq<string>): seq<string> {
    if opts == [] then excludes
    else LastExcludes(opts[1..], if opts[0].ExcludeOpt? then Split(opts[0].value) else excludes)
  }

  /**
   * Well-formed options are consumed pair by pair, each value taken as is
   * (even one that reads "--help"), and each repeated option replaces the
   * earlier list; the scan then carries on with what follows.
   */
  lemma {:induction false} ParseRendered(opts: seq<Opt>, rest: seq<string>, paths: seq<string>, excludes: seq<string>)
    ensures ParseFrom(Render(opts) + rest, paths, excludes) ==
            ParseFrom(rest, LastPaths(opts, paths), LastExcludes(opts, excludes))
    decreases opts
  {
    if opts == [] {
      assert Render(opts) + rest == rest;
    } else {
      var args := Render(opts) + rest;
      assert args[2..] == Render(opts[1..]) + rest;
      if opts[0].PathOpt? {
        ParseRendered(opts[1..], rest, Split(opts[0].value), excludes);
      } else {
        ParseRendered(opts[1..], rest, paths, Split(opts[0].value));
      }
    }
  }

  /** A command line of well-formed options runs with the last lists given. */
  lemma ArgvRun(prog: string, opts: seq<Opt>)
    requires opts != []
    ensures ParseArgv([prog] + Render(opts)) == Scan(LastPaths(opts, []), LastExcludes(opts, []))
  {
    assert ([prog] + Render(opts))[1..] == Render(opts) + [];
    ParseRendered(opts, [], [], []);
  }

  /** "--help" reached by the scan exits with 0, whatever follows it. */
  lemma ArgvHelp(prog: string, opts: seq<Opt>, rest: seq<string>)
    ensures ParseArgv([prog] + Render(opts) + ["--help"] + rest) == Exit(0)
  {
    assert ([prog] + Render(opts) + ["--help"] + rest)[1..] == Render(opts) + (["--help"] + rest);
    ParseRendered(opts, ["--help"] + rest, [], []);
  }

  /** "--path" or "--exclude" as the last argument exits with 1. */
  lemma ArgvMissingValue(prog: string, opts: seq<Opt>, flag: string)
    requires flag == "--path" || flag == "--exclude"
    ensures ParseArgv([prog] + Render(opts) + [flag]) == Exit(1)
  {
    assert ([prog] + Render(opts) + [flag])[1..] == Render(opts) + [flag];
    ParseRendered(opts, [flag], [], []);
  }

  /** An argument the scan reaches that is not one of the three options exits with 1. */
  lemma ArgvUnknown(prog: string, opts: seq<Opt>, arg: string, rest: seq<string>)
    requires arg != "--help" && arg != "--path" && arg != "--exclude"
    ensures ParseArgv([prog] + Render(opts) + [arg] + rest) == Exit(1)
  {
    assert ([prog] + Render(opts) + [arg] + rest)[1..] == Render(opts) + ([arg] + rest);
    ParseRendered(opts, [arg] + rest, [], []);
  }

  /** A scan that ends in a run consumed nothing but well-formed options. */
  lemma {:induction false} ParseScanRendered(args: seq<string>, paths: seq<string>, excludes: seq<string>)
    requires ParseFrom(args, paths, excludes).Scan?
    ensures exists opts :: Render(opts) == args
    decreases |args|
  {
    if args == [] {
      assert Render([]) == args;
    } else {
      ParseScanStep(args, paths, excludes);
      var opt := if args[0] == "--path" then PathOpt(args[1]) else ExcludeOpt(args[1]);
      if args[0] == "--path" {
        ParseScanRendered(args[2..], Split(args[1]), excludes);
      } else {
        ParseScanRendered(args[2..], paths, Split(args[1]));
      }
      var opts :| Render(opts) == args[2..];
      assert Render([opt] + opts) == [args[0], args[1]] + args[2..] by {
        assert ([opt] + opts)[1..] == opts;
      }
      assert args == [args[0], args[1]] + args[2..];
    }
  }

  /** A scan that ends in a run consumes a flag and its value at every step. */
  lemma ParseScanStep(args: seq<string>, paths: seq<string>, excludes: seq<string>)
    requires args != [] && ParseFrom(args, paths, excludes).Scan?
    ensures |args| >= 2 && (args[0] == "--path" || args[0] == "--exclude")
    ensures args[0] == "--path" ==> ParseFrom(args[2..], Split(args[1]), excludes).Scan?
    ensures args[0] != "--path" ==> ParseFrom(args[2..], paths, Split(args[1])).Scan?
  {
  }

  /** The exit codes the scan can end with are 0 and 1 only. */
  lemma {:induction false} ParseExitCodes(args: seq<string>, paths: seq<string>, excludes: seq<string>)
    ensures ParseFrom(args, paths, excludes).Exit? ==> ParseFrom(args, paths, excludes).code in {0, 1}
    decreases |args|
  {
    if |args| >= 2 {
      if args[0] == "--path" {
        ParseExitCodes(args[2..], Split(args[1]), excludes);
      } else if args[0] == "--exclude" {
        ParseExitCodes(args[2..], paths, Split(args[1]));
      }
    }
  }

  // ---------------------------------------------------------------------
  // main after the scan

  /** The roots `run` is given: each listed path with what `opendir` finds there in `fs`. */
  function Roots(paths: seq<string>, fs: string -> Listing): (roots: seq<Root>)
    ensures |roots| == |paths|
    ensures forall i :: 0 <= i < |paths| ==> roots[i].path == paths[i] && roots[i].listing == fs(paths[i])
  {
    seq(|paths|, i requires 0 <= i < |paths| => Root(paths[i], fs(paths[i])))
  }

  /**
   * `main`: the argument scan, then on a run `init` and `run` over the
   * paths with the exclusions. `stats` is the table `dump` prints; it is
   * empty when `main` exits during the scan.
   */
  method Execute(argv: seq<string>, fs: string -> Listing) returns (code: int, stats: seq<FileTypeStat>)
    ensures code == ExitCode(ParseArgv(argv)) && code in {0, 1}
    ensures ParseArgv(argv).Exit? ==> stats == []
    ensures ParseArgv(argv).Scan? ==>
              stats == RunSpec(seq(|FILE_TYPES|, _ => ZERO), Roots(ParseArgv(argv).paths, fs), ParseArgv(argv).excludes)
    ensures AllConsistent(stats)
  {
    var outcome := ParseArgs(argv);
    if outcome.Exit? {
      if |argv| >= 2 {
        ParseExitCodes(argv[1..], [], []);
      }
      return outcome.code, [];
    }
    var table := new FileStats.Init();
    var _ := table.Run(Roots(outcome.paths, fs), outcome.excludes);
    return 0, table.stats[..];
  }
}
