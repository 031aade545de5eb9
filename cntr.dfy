/**
 * cntr.c as the program runs it: the per-category counters live in one
 * array that `init` zeroes and that `stat_file_lines`, `stat_file` and
 * `run` update in place. Each method is proved to leave the array equal to
 * the corresponding CntrSpec function of its old contents.
 */
module Cntr {
  import opened Wrappers
  import opened LibC
  import opened CntrSpec

  /** `is_excluded`: compares the entry name with each exclusion in turn, by exact equality. */
  method IsExcluded(name: string, excludes: seq<string>) returns (excluded: bool)
    ensures excluded <==> Excluded(name, excludes)
  {
    var i := 0;
    while i < |excludes|
      invariant 0 <= i <= |excludes|
      invariant forall j :: 0 <= j < i ==> excludes[j] != name
    {
      if excludes[i] == name {
        return true;
      }
      i := i + 1;
    }
    return false;
  }

  /** `line_is_empty`: scans up to the first NUL and fails on the first non-whitespace character. */
  method LineIsEmpty(line: string) returns (empty: bool)
    ensures empty <==> EmptyLine(line)
  {
    var k := 0;
    while k < |line| && line[k] != '\0'
      invariant 0 <= k <= |line| && k <= |CStr(line)|
      invariant CStr(line[k..]) == CStr(line)[k..]
      invariant forall j :: 0 <= j < k ==> IsSpace(line[j])
    {
      assert line[k..][1..] == line[k + 1..];
      assert CStr(line)[k] == line[k];
      if !IsSpace(line[k]) {
        return false;
      }
      k := k + 1;
    }
    assert CStr(line[k..]) == [];
    return true;
  }

  /** The counters of every category: `g_filestats`. */
  class FileStats {
    var stats: array<FileTypeStat>

    /** One slot per category, and every slot consistent. */
    ghost predicate Valid()
      reads this, stats
    {
      stats.Length == |FILE_TYPES| && AllConsistent(stats[..])
    }

    /** `init`: one zeroed slot per category. */
    constructor Init()
      ensures Valid() && fresh(stats)
      ensures stats[..] == seq(|FILE_TYPES|, _ => ZERO)
    {
      stats := new FileTypeStat[|FILE_TYPES|](_ => ZERO);
    }

    /**
     * `stat_file_lines` on the counters of category `i`: returns 1 and
     * changes nothing when the file cannot be opened; otherwise reads it
     * chunk by chunk and returns 0.
     */
    method StatFileLines(i: nat, file: Option<string>) returns (rc: int)
      requires Valid() && i < stats.Length
      modifies stats
      ensures Valid()
      ensures rc == if file.None? then 1 else 0
      ensures stats[..] == old(stats[..])[i := StatLines(old(stats[i]), file)]
    {
      if file.None? {
        return 1;
      }
      var content := file.value;
      ghost var start := stats[i];
      var rest := content;
      while rest != []
        invariant ScanLines(stats[i], Lines(rest)) == ScanLines(start, Lines(content))
        invariant forall j :: 0 <= j < stats.Length && j != i ==> stats[j] == old(stats[j])
        invariant Consistent(stats[i])
        decreases |rest|
      {
        var line := NextLine(rest);
        assert Lines(rest) == [line] + Lines(rest[|line|..]);
        ghost var was := stats[i];
        var fts := stats[i];
        fts := fts.(totalLines := fts.totalLines + 1);
        var empty := LineIsEmpty(line);
        if empty {
          fts := fts.(emptyLines := fts.emptyLines + 1);
        } else {
          fts := fts.(actualLines := fts.actualLines + 1);
        }
        fts := fts.(totalSize := fts.totalSize + |line|);
        assert fts == AddLine(was, line);
        stats[i] := fts;
        rest := rest[|line|..];
      }
      assert Lines(rest) == [];
      assert stats[..] == old(stats[..])[i := stats[i]];
      return 0;
    }

    /**
     * `stat_file`: tries every suffix of every category on the path; each
     * suffix whose first occurrence ends the path adds one file to its
     * category and then reads the file's lines into it.
     */
    method StatFile(path: string, file: Option<string>)
      requires Valid()
      modifies stats
      ensures Valid()
      ensures stats[..] == StatFileSpec(old(stats[..]), path, file)
    {
      ghost var before := stats[..];
      ghost var target := StatFileSpec(before, path, file);
      var i := 0;
      while i < |FILE_TYPES|
        invariant 0 <= i <= |FILE_TYPES| && Valid()
        invariant forall j :: 0 <= j < i ==> stats[j] == target[j]
        invariant forall j :: i <= j < |FILE_TYPES| ==> stats[j] == before[j]
      {
        assert target[i] == CreditCategory(before[i], FILE_TYPES[i].ext, path, file);
        StatCategory(i, path, file);
        i := i + 1;
      }
      assert stats[..] == target;
    }

    /** The inner loop of `stat_file`: every suffix of category `i` tried on the path in turn. */
    method StatCategory(i: nat, path: string, file: Option<string>)
      requires Valid() && i < |FILE_TYPES|
      modifies stats
      ensures Valid()
      ensures stats[..] == old(stats[..])[i := CreditCategory(old(stats[i]), FILE_TYPES[i].ext, path, file)]
    {
      var exts := FILE_TYPES[i].ext;
      ghost var goal := CreditCategory(stats[i], exts, path, file);
      var k := 0;
      while k < |exts|
        invariant 0 <= k <= |exts| && Valid()
        invariant CreditCategory(stats[i], exts[k..], path, file) == goal
        invariant forall j :: 0 <= j < stats.Length && j != i ==> stats[j] == old(stats[j])
      {
        assert exts[k..][1..] == exts[k + 1..];
        var ext := exts[k];
        var start := StrStr(path, ext);
        if start.Some? && start.value + |ext| == |path| {
          ghost var was := stats[i];
          stats[i] := stats[i].(fileCount := stats[i].fileCount + 1);
          assert AllConsistent(stats[..]);
          var _ := StatFileLines(i, file);
          assert stats[i] == FileCredit(was, file);
        }
        k := k + 1;
      }
      assert exts[k..] == [];
      assert stats[..] == old(stats[..])[i := goal];
    }

    /**
     * `run`: walks each root in turn, in the order given; a root that
     * cannot be opened as a directory is passed over and the later roots
     * are still walked. Always returns 0.
     */
    method Run(roots: seq<Root>, excludes: seq<string>) returns (rc: int)
      requires Valid()
      modifies stats
      ensures Valid() && rc == 0
      ensures stats[..] == RunSpec(old(stats[..]), roots, excludes)
    {
      var i := 0;
      while i < |roots|
        invariant 0 <= i <= |roots|
        invariant Valid()
        invariant RunSpec(stats[..], roots[i..], excludes) == RunSpec(old(stats[..]), roots, excludes)
      {
        assert roots[i..][1..] == roots[i + 1..];
        RunDir(roots[i].path, roots[i].listing, excludes);
        i := i + 1;
      }
      return 0;
    }

    /**
     * What `run` does with one directory, for a root and for the recursive
     * call on a subdirectory alike: passes over ".", ".." and excluded
     * names, builds `path/name`, descends into directories, ignores
     * entries of unknown type and classifies everything else.
     */
    method RunDir(path: string, listing: Listing, excludes: seq<string>)
      requires Valid()
      modifies stats
      ensures Valid()
      ensures stats[..] == WalkListing(old(stats[..]), path, listing, excludes)
      decreases listing
    {
      if listing.Unopenable? {
        return;
      }
      var entries := listing.entries;
      var j := 0;
      while j < |entries|
        invariant 0 <= j <= |entries|
        invariant Valid()
        invariant WalkEntries(stats[..], path, entries[j..], excludes) == WalkListing(old(stats[..]), path, listing, excludes)
      {
        assert entries[j..][1..] == entries[j + 1..];
        var ent := entries[j];
        if ent.name == "." || ent.name == ".." {
          j := j + 1;
          continue;
        }
        var excluded := IsExcluded(ent.name, excludes);
        if excluded {
          j := j + 1;
          continue;
        }
        var fullpath := path + "/" + ent.name;
        match ent {
          case Dir(_, sub) => RunDir(fullpath, sub, excludes);
          case Unknown(_) =>
          case File(_, file) => StatFile(fullpath, file);
        }
        j := j + 1;
      }
    }
  }
}
