/** Relative paths by their segments, and what lies in a directory. */
module Paths {
  import opened Text

  function Segments(path: string): seq<string> {
    var i := IndexOf(path, '/');
    if i == |path| then [path] else [path[..i]] + Segments(path[i + 1..])
  }

  /** The segments with slashes between them are the path, and none holds a slash. */
  lemma {:induction false} SegmentsMean(path: string)
    ensures Segments(path) != [] && JoinBy(Segments(path), '/') == path
    ensures forall s :: s in Segments(path) ==> '/' !in s
    decreases |path|
  {
    var i := IndexOf(path, '/');
    if i < |path| {
      SegmentsMean(path[i + 1..]);
      assert Segments(path)[1..] == Segments(path[i + 1..]);
      assert path == path[..i] + "/" + path[i + 1..];
    } else {
      assert path[..i] == path;
    }
  }

  /** The path is the directory or lies below it, segment by segment. */
  predicate Inside(path: string, dir: string) { Segments(dir) <= Segments(path) }

  lemma SegmentsCons(first: string, rest: string)
    requires '/' !in first
    ensures Segments(first + "/" + rest) == [first] + Segments(rest) && Segments(first) == [first]
  {
    var path := first + "/" + rest;
    assert path[..|first|] == first && path[|first|] == '/';
    IndexOfUnique(path, '/', |first|);
    assert path[|first| + 1..] == rest;
    assert first[..|first|] == first;
    IndexOfUnique(first, '/', |first|);
  }

  lemma CutAt(dir: string, i: nat, rest: string)
    requires i < |dir| && dir[i] == '/'
    ensures dir[..i] + "/" + dir[i + 1..] == dir
    ensures dir[..i] + "/" + (dir[i + 1..] + "/" + rest) == dir + "/" + rest
  {}

  lemma Regroup(a: string, b: seq<string>, c: seq<string>)
    ensures [a] + (b + c) == [a] + b + c
  {}

  lemma {:induction false} SegmentsBelow(dir: string, rest: string)
    ensures Segments(dir + "/" + rest) == Segments(dir) + Segments(rest)
    decreases |dir|
  {
    hide Segments;
    var i := IndexOf(dir, '/');
    if i < |dir| {
      var first, below := dir[..i], dir[i + 1..];
      CutAt(dir, i, rest);
      SegmentsCons(first, below + "/" + rest);
      SegmentsCons(first, below);
      SegmentsBelow(below, rest);
      Regroup(first, Segments(below), Segments(rest));
    } else {
      assert dir[..i] == dir;
      SegmentsCons(dir, rest);
    }
  }

  lemma InsideMeans(path: string, dir: string)
    ensures Inside(path, dir) <==> path == dir || HasPrefix(path, dir + "/")
  {
    hide Segments;
    if HasPrefix(path, dir + "/") {
      assert path == dir + "/" + path[|dir| + 1..];
      SegmentsBelow(dir, path[|dir| + 1..]);
    }
    if Inside(path, dir) { InsidePrefix(path, dir); }
  }

  lemma InsidePrefix(path: string, dir: string)
    requires Inside(path, dir)
    ensures path == dir || HasPrefix(path, dir + "/")
  {
    hide Segments;
    SegmentsMean(path);
    SegmentsMean(dir);
    var more := Segments(path)[|Segments(dir)|..];
    assert Segments(path) == Segments(dir) + more;
    if more == [] {
      assert Segments(dir) + [] == Segments(dir);
    } else {
      JoinByAppend(Segments(dir), more, '/');
      assert path == dir + "/" + JoinBy(more, '/');
    }
  }

  lemma {:induction false} SegmentsJoined(segs: seq<string>)
    requires segs != [] && forall s :: s in segs ==> '/' !in s
    ensures Segments(JoinBy(segs, '/')) == segs
  {
    if |segs| == 1 {
      SegmentsCons(segs[0], "");
    } else {
      SegmentsJoined(segs[1..]);
      SegmentsCons(segs[0], JoinBy(segs[1..], '/'));
    }
  }

  // ---- filepath.Clean of a relative path ----

  /** One segment more: empty ones and dots go, and two dots take the one before with them. */
  function Stacked(stack: seq<string>, s: string): seq<string> {
    if s == "" || s == "." then stack
    else if s == ".." && stack != [] && stack[|stack| - 1] != ".." then stack[..|stack| - 1]
    else stack + [s]
  }

  function CleanSegments(segs: seq<string>, stack: seq<string>): seq<string>
    decreases |segs|
  {
    if segs == [] then stack else CleanSegments(segs[1..], Stacked(stack, segs[0]))
  }

  function Clean(path: string): string {
    var left := CleanSegments(Segments(path), []);
    if left == [] then "." else JoinBy(left, '/')
  }

  /** What cleaning leaves has no empty segment. */
  lemma {:induction false} CleanLeaves(segs: seq<string>, stack: seq<string>)
    requires forall i :: 0 <= i < |stack| ==> stack[i] != "" && '/' !in stack[i]
    requires forall i :: 0 <= i < |segs| ==> '/' !in segs[i]
    ensures forall s :: s in CleanSegments(segs, stack) ==> s != "" && '/' !in s
    decreases |segs|
  {
    if segs != [] { CleanLeaves(segs[1..], Stacked(stack, segs[0])); }
  }

  lemma {:induction false} CleanKeeps(segs: seq<string>, stack: seq<string>)
    requires forall i :: 0 <= i < |segs| ==> segs[i] != "" && segs[i][0] != '.'
    ensures CleanSegments(segs, stack) == stack + segs
    decreases |segs|
  {
    if segs == [] {
      assert stack + segs == stack;
    } else {
      CleanKeeps(segs[1..], stack + [segs[0]]);
      assert stack + [segs[0]] + segs[1..] == stack + segs;
    }
  }
}
