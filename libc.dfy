/**
 * The parts of the C library that cntr.c and main.c rely on, stated over
 * Dafny strings: `isspace` in the "C" locale, the NUL-terminated view of a
 * buffer, `strstr`, and the chunks `getline` hands back one call at a time.
 */
module LibC {
  import opened Wrappers

  /** `isspace` in the "C" locale: space, \t, \n, \v, \f and \r. */
  predicate IsSpace(c: char) {
    c == ' ' || c == '\t' || c == '\n' || c == '\U{000B}' || c == '\U{000C}' || c == '\r'
  }

  /** What a C string function sees of a buffer: everything before the first NUL. */
  function CStr(s: string): (r: string)
    ensures r <= s
    ensures '\0' !in r
    ensures |r| < |s| ==> s[|r|] == '\0'
  {
    if s == [] || s[0] == '\0' then [] else [s[0]] + CStr(s[1..])
  }

  /** `needle` starts at index `i` of `hay`. */
  predicate OccursAt(hay: string, needle: string, i: nat) {
    i + |needle| <= |hay| && hay[i..i + |needle|] == needle
  }

  /** `strstr`: the index of the first occurrence of `needle` in `hay`, if any. */
  function StrStr(hay: string, needle: string): (r: Option<nat>)
    ensures r.Some? ==> OccursAt(hay, needle, r.value)
    ensures r.Some? ==> forall j :: 0 <= j < r.value ==> !OccursAt(hay, needle, j)
    ensures r.None? ==> forall j :: 0 <= j <= |hay| ==> !OccursAt(hay, needle, j)
  {
    StrStrFrom(hay, needle, 0)
  }

  function StrStrFrom(hay: string, needle: string, i: nat): (r: Option<nat>)
    requires i <= |hay|
    ensures r.Some? ==> i <= r.value && OccursAt(hay, needle, r.value)
    ensures r.Some? ==> forall j :: i <= j < r.value ==> !OccursAt(hay, needle, j)
    ensures r.None? ==> forall j :: i <= j <= |hay| ==> !OccursAt(hay, needle, j)
    decreases |hay| - i
  {
    if OccursAt(hay, needle, i) then Some(i)
    else if i == |hay| then None
    else StrStrFrom(hay, needle, i + 1)
  }

  /** The chunk one `getline` call returns: up to and including the first '\n', or the rest. */
  function NextLine(s: string): (line: string)
    requires s != []
    ensures line != [] && line <= s
    ensures forall k :: 0 <= k < |line| - 1 ==> line[k] != '\n'
    ensures line[|line| - 1] == '\n' || line == s
  {
    if s[0] == '\n' || |s| == 1 then s[..1] else [s[0]] + NextLine(s[1..])
  }

  /** Every chunk `getline` returns for a file holding `s`, in order; a last line without '\n' counts. */
  function Lines(s: string): (lines: seq<string>)
    decreases |s|
  {
    if s == [] then [] else
      var line := NextLine(s);
      [line] + Lines(s[|line|..])
  }

  function Concat(lines: seq<string>): string {
    if lines == [] then [] else lines[0] + Concat(lines[1..])
  }

  /** Reading the chunks back to back gives the whole file. */
  lemma {:induction false} ConcatLines(s: string)
    ensures Concat(Lines(s)) == s
    decreases |s|
  {
    if s != [] {
      var line := NextLine(s);
      ConcatLines(s[|line|..]);
      assert s == line + s[|line|..];
    }
  }

  /**
   * Each chunk is non-empty and holds a '\n' only as its last character;
   * every chunk but the last ends with '\n'.
   */
  lemma {:induction false} LinesShape(s: string)
    ensures forall k :: 0 <= k < |Lines(s)| ==> Lines(s)[k] != []
    ensures forall k, j :: 0 <= k < |Lines(s)| && 0 <= j < |Lines(s)[k]| - 1 ==> Lines(s)[k][j] != '\n'
    ensures forall k :: 0 <= k < |Lines(s)| - 1 ==> Lines(s)[k][|Lines(s)[k]| - 1] == '\n'
    decreases |s|
  {
    if s != [] {
      var line := NextLine(s);
      LinesShape(s[|line|..]);
      assert Lines(s) == [line] + Lines(s[|line|..]);
      if |Lines(s)| > 1 {
        assert s[|line|..] != [];
        assert line != s;
      }
    }
  }

  /** The number of chunks is the number of '\n' plus one for an unterminated tail. */
  lemma {:induction false} LinesCount(s: string)
    ensures |Lines(s)| == Count(s, '\n') + Tail(s)
    decreases |s|
  {
    if s != [] {
      var line := NextLine(s);
      var rest := s[|line|..];
      assert Lines(s) == [line] + Lines(rest);
      LinesCount(rest);
      assert s == line + rest;
      LinesCountStep(line, rest);
    }
  }

  /** 1 when `s` ends in a line without '\n', else 0. */
  function Tail(s: string): nat {
    if s != [] && s[|s| - 1] != '\n' then 1 else 0
  }

  lemma LinesCountStep(line: string, rest: string)
    requires line != []
    requires forall k :: 0 <= k < |line| - 1 ==> line[k] != '\n'
    requires line[|line| - 1] == '\n' || rest == []
    ensures Count(line + rest, '\n') + Tail(line + rest) == 1 + Count(rest, '\n') + Tail(rest)
  {
    CountAppend(line, rest, '\n');
    CountLine(line);
    if rest != [] {
      assert (line + rest)[|line + rest| - 1] == rest[|rest| - 1];
    } else {
      assert line + rest == line;
    }
  }

  lemma {:induction false} CountLine(line: string)
    requires line != []
    requires forall k :: 0 <= k < |line| - 1 ==> line[k] != '\n'
    ensures Count(line, '\n') == if line[|line| - 1] == '\n' then 1 else 0
  {
    if |line| > 1 {
      assert line == [line[0]] + line[1..];
      CountAppend([line[0]], line[1..], '\n');
      CountLine(line[1..]);
    }
  }

  /** The number of occurrences of `c` in `s`. */
  function Count(s: string, c: char): nat {
    if s == [] then 0 else (if s[0] == c then 1 else 0) + Count(s[1..], c)
  }

  lemma {:induction false} CountAppend(a: string, b: string, c: char)
    ensures Count(a + b, c) == Count(a, c) + Count(b, c)
  {
    if a != [] {
      assert (a + b)[1..] == a[1..] + b;
      CountAppend(a[1..], b, c);
    } else {
      assert a + b == b;
    }
  }
}
