/** Texts up to blanks: when the guard takes a field it protects for unchanged
    (normalizeBlob of internal/policy/enrich.go). */
module Blobs {
  import opened Text

  // ---- What counts as the same text ----

  predicate LineBlanks(s: string) { forall c :: c in s ==> c in " \t\r" }

  /** The same line up to blanks at its end. */
  ghost predicate SameLine(x: string, y: string) {
    exists i, j :: 0 <= i <= |x| && 0 <= j <= |y| && x[..i] == y[..j] && LineBlanks(x[i..]) && LineBlanks(y[j..])
  }

  /** The same lines in the same order, blank ones not counted. */
  ghost predicate SameText(a: seq<string>, b: seq<string>)
    decreases |a| + |b|
  {
    if a != [] && AllSpace(a[0]) then SameText(a[1..], b)
    else if b != [] && AllSpace(b[0]) then SameText(a, b[1..])
    else if a == [] || b == [] then a == b
    else SameLine(a[0], b[0]) && SameText(a[1..], b[1..])
  }

  // ---- How the guard compares ----

  /** `strings.TrimRight(l, " \t\r")`. */
  function TrimLineEnd(l: string): string {
    if l != "" && l[|l| - 1] in " \t\r" then TrimLineEnd(l[..|l| - 1]) else l
  }

  function KeptLines(lines: seq<string>): seq<string> {
    if lines == [] then []
    else (if Trim(lines[0]) == "" then [] else [TrimLineEnd(lines[0])]) + KeptLines(lines[1..])
  }

  /** A field's text up to blank lines and blanks at line ends. */
  function NormalizeBlob(s: string): string {
    Join(KeptLines(Split(s)))
  }

  method NormalizeBlobLoop(s: string) returns (r: string)
    ensures r == NormalizeBlob(s)
  {
    var lines := Split(s);
    var kept: seq<string> := [];
    assert lines[..0] == [];
    for i := 0 to |lines|
      invariant kept == KeptLines(lines[..i])
    {
      KeptSnoc(lines[..i], lines[i]);
      assert lines[..i + 1] == lines[..i] + [lines[i]];
      if Trim(lines[i]) == "" { continue; }
      kept := kept + [TrimLineEnd(lines[i])];
    }
    assert lines[..|lines|] == lines;
    return Join(kept);
  }

  lemma {:induction false} KeptAppend(a: seq<string>, b: seq<string>)
    ensures KeptLines(a + b) == KeptLines(a) + KeptLines(b)
  {
    if a == [] {
      assert a + b == b;
    } else {
      assert (a + b)[1..] == a[1..] + b;
      KeptAppend(a[1..], b);
    }
  }

  lemma KeptSnoc(a: seq<string>, l: string)
    ensures KeptLines(a + [l]) == KeptLines(a) + if Trim(l) == "" then [] else [TrimLineEnd(l)]
  {
    KeptAppend(a, [l]);
    assert [l][1..] == [];
  }

  // ---- What trimming leaves ----

  lemma {:induction false} TrimLeftParts(s: string) returns (n: nat)
    ensures n <= |s| && TrimLeft(s) == s[n..] && AllSpace(s[..n])
  {
    n := 0;
    if s != "" && IsSpace(s[0]) {
      var m := TrimLeftParts(s[1..]);
      n := m + 1;
      assert s[..n] == [s[0]] + s[1..][..m];
    }
  }

  lemma {:induction false} TrimRightParts(s: string) returns (n: nat)
    ensures n <= |s| && TrimRight(s) == s[..n] && AllSpace(s[n..])
  {
    n := |s|;
    if s != "" && IsSpace(s[|s| - 1]) {
      var m := TrimRightParts(s[..|s| - 1]);
      n := m;
      assert s[n..] == s[..|s| - 1][n..] + [s[|s| - 1]];
    }
  }

  /** Trimming cuts white space off both ends and nothing else. */
  lemma TrimParts(s: string) returns (i: nat, j: nat)
    ensures i <= j <= |s| && Trim(s) == s[i..j] && AllSpace(s[..i]) && AllSpace(s[j..])
  {
    i := TrimLeftParts(s);
    var n := TrimRightParts(s[i..]);
    j := i + n;
    assert s[i..][..n] == s[i..j] && s[i..][n..] == s[j..];
  }

  /** A line is dropped exactly when it is all white space. */
  lemma BlankLine(l: string)
    ensures Trim(l) == "" <==> AllSpace(l)
  {
    var i, j := TrimParts(l);
    if Trim(l) == "" {
      assert l == l[..i] + l[j..];
    } else {
      assert l[i] in l && Trim(l)[0] == l[i];
    }
  }

  lemma {:induction false} LineEndParts(l: string) returns (n: nat)
    ensures n <= |l| && TrimLineEnd(l) == l[..n] && LineBlanks(l[n..])
    ensures n > 0 ==> l[n - 1] !in " \t\r"
  {
    n := |l|;
    if l != "" && l[|l| - 1] in " \t\r" {
      var m := LineEndParts(l[..|l| - 1]);
      n := m;
      assert l[n..] == l[..|l| - 1][n..] + [l[|l| - 1]];
    }
  }

  lemma {:induction false} LineEndCut(l: string, n: nat)
    requires n <= |l| && LineBlanks(l[n..])
    ensures TrimLineEnd(l) == TrimLineEnd(l[..n])
    decreases |l|
  {
    if n < |l| {
      assert l[n..][|l| - 1 - n] == l[|l| - 1];
      var m := l[..|l| - 1];
      assert m[n..] == l[n..][..|l| - 1 - n];
      assert m[..n] == l[..n];
      LineEndCut(m, n);
    } else {
      assert l[..n] == l;
    }
  }

  lemma SameLineIff(x: string, y: string)
    ensures SameLine(x, y) <==> TrimLineEnd(x) == TrimLineEnd(y)
  {
    if SameLine(x, y) {
      var i, j :| 0 <= i <= |x| && 0 <= j <= |y| && x[..i] == y[..j] && LineBlanks(x[i..]) && LineBlanks(y[j..]);
      LineEndCut(x, i);
      LineEndCut(y, j);
    }
    var n := LineEndParts(x);
    var m := LineEndParts(y);
    assert TrimLineEnd(x) == TrimLineEnd(y) ==> x[..n] == y[..m];
  }

  // ---- The comparison decides sameness ----

  lemma {:induction false} KeptSame(a: seq<string>, b: seq<string>)
    ensures SameText(a, b) <==> KeptLines(a) == KeptLines(b)
    decreases |a| + |b|
  {
    hide AllSpace, SameLine, TrimLineEnd, Trim;
    if a != [] { BlankLine(a[0]); }
    if b != [] { BlankLine(b[0]); }
    if a != [] && AllSpace(a[0]) {
      KeptSame(a[1..], b);
    } else if b != [] && AllSpace(b[0]) {
      KeptSame(a, b[1..]);
    } else if a != [] && b != [] {
      SameLineIff(a[0], b[0]);
      KeptSame(a[1..], b[1..]);
      var x, y := KeptLines(a), KeptLines(b);
      assert x[0] == TrimLineEnd(a[0]) && x[1..] == KeptLines(a[1..]);
      assert y[0] == TrimLineEnd(b[0]) && y[1..] == KeptLines(b[1..]);
    }
  }

  lemma {:induction false} KeptShape(lines: seq<string>)
    requires AllLineFree(lines)
    ensures AllLineFree(KeptLines(lines)) && "" !in KeptLines(lines)
  {
    if lines != [] {
      KeptShape(lines[1..]);
      BlankLine(lines[0]);
      var n := LineEndParts(lines[0]);
      assert lines[0] in lines;
      if TrimLineEnd(lines[0]) == "" { assert AllSpace(lines[0]) by { assert lines[0][n..] == lines[0]; } }
    }
  }

  lemma JoinSame(a: seq<string>, b: seq<string>)
    requires AllLineFree(a) && AllLineFree(b) && "" !in a && "" !in b
    ensures Join(a) == Join(b) <==> a == b
  {
    if a != [] {
      SplitJoin(a);
      assert a[0] in a && Join(a) != "";
    }
    if b != [] {
      SplitJoin(b);
      assert b[0] in b && Join(b) != "";
    }
  }

  /** Two fields compare equal if and only if they have the same lines up to blank
      lines and blanks at line ends. */
  lemma NormalizedSame(x: string, y: string)
    ensures NormalizeBlob(x) == NormalizeBlob(y) <==> SameText(Split(x), Split(y))
  {
    hide SameText, KeptLines, Join;
    KeptSame(Split(x), Split(y));
    KeptShape(Split(x));
    KeptShape(Split(y));
    JoinSame(KeptLines(Split(x)), KeptLines(Split(y)));
  }

  /** A text with no blank line and no blank at a line end is its own normal form. */
  lemma OwnNormalForm(s: string)
    requires forall l :: l in Split(s) ==> !AllSpace(l) && l[|l| - 1] !in " \t\r"
    ensures NormalizeBlob(s) == s
  {
    KeptAll(Split(s));
    JoinSplit(s);
  }

  lemma {:induction false} KeptAll(lines: seq<string>)
    requires forall l :: l in lines ==> !AllSpace(l) && l[|l| - 1] !in " \t\r"
    ensures KeptLines(lines) == lines
  {
    if lines != [] {
      assert lines[0] in lines;
      BlankLine(lines[0]);
      KeptAll(lines[1..]);
    }
  }

  /** A blank line put between lines changes nothing. */
  lemma BlankIgnored(a: seq<string>, blank: string, b: seq<string>)
    requires AllSpace(blank)
    ensures KeptLines(a + [blank] + b) == KeptLines(a + b)
  {
    hide *;
    BlankLine(blank);
    KeptSnoc(a, blank);
    KeptAppend(a + [blank], b);
    KeptAppend(a, b);
  }

  /** Nor do blanks put at a line's end. */
  lemma PadIgnored(a: seq<string>, l: string, pad: string, b: seq<string>)
    requires LineBlanks(pad)
    ensures KeptLines(a + [l + pad] + b) == KeptLines(a + [l] + b)
  {
    assert (l + pad)[|l|..] == pad && (l + pad)[..|l|] == l;
    LineEndCut(l + pad, |l|);
    TrimCut(l + pad, |l|);
    hide *;
    KeptSnoc(a, l);
    KeptSnoc(a, l + pad);
    KeptAppend(a + [l], b);
    KeptAppend(a + [l + pad], b);
  }

  lemma {:induction false} TrimCut(s: string, n: nat)
    requires n <= |s| && LineBlanks(s[n..])
    ensures Trim(s) == Trim(s[..n])
    decreases |s|
  {
    if n < |s| {
      var m, c := s[..|s| - 1], s[|s| - 1];
      assert s == m + [c];
      assert c in s[n..] by { assert s[n..][|s| - 1 - n] == c; }
      assert IsSpace(c);
      TrimSnocSpace(m, c);
      assert m[n..] == s[n..][..|s| - 1 - n];
      assert m[..n] == s[..n];
      TrimCut(m, n);
    } else {
      assert s[..n] == s;
    }
  }

  /** One-line fields are the same when both are blank or their lines are the same,
      and then their values agree up to outer blanks. */
  lemma OneLineSame(x: string, y: string)
    requires LineFree(x) && LineFree(y)
    ensures SameText(Split(x), Split(y)) <==>
      (if AllSpace(x) || AllSpace(y) then AllSpace(x) && AllSpace(y) else SameLine(x, y))
    ensures SameText(Split(x), Split(y)) ==> Trim(x) == Trim(y)
  {
    SplitOne(x);
    SplitOne(y);
    KeptSame([x], [y]);
    KeptOne(x);
    KeptOne(y);
    BlankLine(x);
    BlankLine(y);
    SameLineIff(x, y);
    var n := LineEndParts(x);
    var m := LineEndParts(y);
    TrimCut(x, n);
    TrimCut(y, m);
    hide *;
  }

  lemma KeptOne(l: string)
    ensures KeptLines([l]) == if Trim(l) == "" then [] else [TrimLineEnd(l)]
  {
    KeptSnoc([], l);
    assert [] + [l] == [l];
  }
}
