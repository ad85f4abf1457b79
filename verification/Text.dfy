/** The few operations of Go's `strings` package the note code relies on, over
    texts of Unicode characters, with the laws the other modules need. */
module Text {

  datatype Option<+T> = None | Some(value: T)

  predicate Distinct<T(==)>(s: seq<T>) {
    forall i, j :: 0 <= i < j < |s| ==> s[i] != s[j]
  }

  // ---- White space ----

  /** The characters `strings.TrimSpace` removes: Unicode's White_Space property. */
  predicate IsSpace(c: char) {
    || '\t' <= c <= '\r'
    || c == ' '
    || c == '\U{0085}' || c == '\U{00A0}' || c == '\U{1680}'
    || '\U{2000}' <= c <= '\U{200A}'
    || c == '\U{2028}' || c == '\U{2029}' || c == '\U{202F}' || c == '\U{205F}' || c == '\U{3000}'
  }

  predicate AllSpace(s: string) { forall c :: c in s ==> IsSpace(c) }

  function TrimLeft(s: string): (r: string)
    ensures |r| <= |s|
    ensures r == "" || !IsSpace(r[0])
  {
    if s != "" && IsSpace(s[0]) then TrimLeft(s[1..]) else s
  }

  function TrimRight(s: string): (r: string)
    ensures |r| <= |s|
    ensures r == "" || !IsSpace(r[|r| - 1])
    ensures s != "" && !IsSpace(s[0]) ==> r != "" && r[0] == s[0]
  {
    if s != "" && IsSpace(s[|s| - 1]) then TrimRight(s[..|s| - 1]) else s
  }

  function Trim(s: string): (r: string)
    ensures r == "" || (!IsSpace(r[0]) && !IsSpace(r[|r| - 1]))
    ensures |r| <= |s|
  {
    TrimRight(TrimLeft(s))
  }

  /** A text that trimming leaves alone. */
  predicate Solid(s: string) {
    s == "" || (!IsSpace(s[0]) && !IsSpace(s[|s| - 1]))
  }

  lemma TrimLeftCons(c: char, s: string)
    ensures IsSpace(c) ==> TrimLeft([c] + s) == TrimLeft(s)
    ensures !IsSpace(c) ==> TrimLeft([c] + s) == [c] + s
  {
    assert ([c] + s)[1..] == s;
  }

  lemma {:induction false} TrimLeftSnoc(s: string, c: char)
    ensures TrimLeft(s) != "" ==> TrimLeft(s + [c]) == TrimLeft(s) + [c]
    ensures TrimLeft(s) == "" && IsSpace(c) ==> TrimLeft(s + [c]) == ""
    ensures TrimLeft(s) == "" && !IsSpace(c) ==> TrimLeft(s + [c]) == [c]
  {
    if s == "" {
      assert s + [c] == [c] + "";
      TrimLeftCons(c, "");
    } else if IsSpace(s[0]) {
      assert (s + [c])[1..] == s[1..] + [c];
      TrimLeftSnoc(s[1..], c);
    }
  }

  lemma TrimRightSnoc(s: string, c: char)
    ensures IsSpace(c) ==> TrimRight(s + [c]) == TrimRight(s)
    ensures !IsSpace(c) ==> TrimRight(s + [c]) == s + [c]
  {
    assert (s + [c])[..|s|] == s;
  }

  /** A visible character keeps everything before it from being trimmed at the end. */
  lemma {:induction false} TrimRightKeeps(a: string, b: string)
    requires a != "" && !IsSpace(a[|a| - 1])
    ensures a <= TrimRight(a + b)
    decreases |b|
  {
    if b == "" {
      assert a + b == a;
    } else {
      assert (a + b)[..|a + b| - 1] == a + b[..|b| - 1];
      TrimRightKeeps(a, b[..|b| - 1]);
    }
  }

  lemma TrimConsSpace(c: char, s: string)
    requires IsSpace(c)
    ensures Trim([c] + s) == Trim(s)
  {
    TrimLeftCons(c, s);
  }

  lemma TrimSnocSpace(s: string, c: char)
    requires IsSpace(c)
    ensures Trim(s + [c]) == Trim(s)
  {
    TrimLeftSnoc(s, c);
    TrimRightSnoc(TrimLeft(s), c);
  }

  lemma TrimSolid(s: string)
    requires Solid(s)
    ensures Trim(s) == s
  {}

  lemma TrimIdempotent(s: string)
    ensures Solid(Trim(s)) && Trim(Trim(s)) == Trim(s)
  {
    TrimSolid(Trim(s));
  }

  /** The values, trimmed, without the empty ones. */
  function NonEmpty(values: seq<string>): (r: seq<string>)
    ensures forall v :: v in r ==> v != "" && Solid(v)
  {
    if values == [] then []
    else
      var v := Trim(values[0]);
      (if v != "" then [v] else []) + NonEmpty(values[1..])
  }

  predicate Rising(at: seq<nat>) { forall i, j :: 0 <= i < j < |at| ==> at[i] < at[j] }

  lemma {:induction false} NonEmptySnoc(values: seq<string>, v: string)
    ensures NonEmpty(values + [v]) == NonEmpty(values) + if Trim(v) != "" then [Trim(v)] else []
  {
    if values == [] {
      assert [v][1..] == [] && values + [v] == [v];
    } else {
      assert (values + [v])[1..] == values[1..] + [v];
      NonEmptySnoc(values[1..], v);
    }
  }

  /** The values kept are exactly those with something visible, in their order. */
  lemma {:induction false} NonEmptyMeans(values: seq<string>) returns (at: seq<nat>)
    ensures Rising(at) && |at| == |NonEmpty(values)|
    ensures forall i :: i in at <==> 0 <= i < |values| && Trim(values[i]) != ""
    ensures forall k :: 0 <= k < |at| ==> at[k] < |values| && NonEmpty(values)[k] == Trim(values[at[k]])
  {
    at := [];
    if values != [] {
      var n := |values| - 1;
      var front, v := values[..n], values[n];
      assert values == front + [v];
      NonEmptySnoc(front, v);
      var before := NonEmptyMeans(front);
      hide Trim, NonEmpty, Rising;
      assert forall k :: 0 <= k < |before| ==> before[k] in before;
      assert forall i :: 0 <= i < n ==> front[i] == values[i];
      at := before;
      if Trim(v) != "" {
        RisingMore(before, n);
        at := before + [n];
      }
    }
  }

  lemma RisingMore(at: seq<nat>, n: nat)
    requires Rising(at) && forall m :: 0 <= m < |at| ==> at[m] < n
    ensures Rising(at + [n])
  {}

  // ---- Prefixes and positions ----

  predicate HasPrefix(s: string, p: string) { p <= s }

  predicate HasSuffix(s: string, p: string) {
    |p| <= |s| && s[|s| - |p|..] == p
  }

  function TrimPrefix(s: string, p: string): (r: string)
    ensures |r| <= |s|
  {
    if HasPrefix(s, p) then s[|p|..] else s
  }

  /** Position of the first `c`, or the length of the text when there is none. */
  function IndexOf(s: string, c: char): (i: nat)
    ensures i <= |s|
    ensures i < |s| ==> s[i] == c
    ensures c !in s[..i]
  {
    if s == "" then 0
    else if s[0] == c then 0
    else
      var i := IndexOf(s[1..], c);
      assert s[..i + 1] == [s[0]] + s[1..][..i];
      i + 1
  }

  lemma IndexOfUnique(s: string, c: char, i: nat)
    requires i <= |s| && c !in s[..i] && (i < |s| ==> s[i] == c)
    ensures IndexOf(s, c) == i
  {
    var j := IndexOf(s, c);
    NotInPrefix(s, c, i);
    NotInPrefix(s, c, j);
  }

  lemma NotInPrefix(s: string, c: char, i: nat)
    requires i <= |s| && c !in s[..i]
    ensures forall k :: 0 <= k < i ==> s[k] != c
  {
    forall k | 0 <= k < i ensures s[k] != c { assert s[..i][k] == s[k]; }
  }

  /** `strings.Contains(s, p)`. */
  predicate Contains(s: string, p: string) {
    exists i :: 0 <= i <= |s| && HasPrefix(s[i..], p)
  }

  /** One text stands somewhere in another. */
  lemma ContainsMeans(s: string, p: string)
    ensures Contains(s, p) <==> exists a, b :: s == a + p + b
  {
    if Contains(s, p) {
      var i :| 0 <= i <= |s| && HasPrefix(s[i..], p);
      assert s == s[..i] + p + s[i..][|p|..];
    }
    if a, b :| s == a + p + b {
      assert s[|a|..] == p + b;
      assert 0 <= |a| <= |s| && HasPrefix(s[|a|..], p);
    }
  }

  /** The parts with a separator between any two. */
  function JoinBy(parts: seq<string>, sep: char): string {
    if |parts| == 0 then ""
    else if |parts| == 1 then parts[0]
    else parts[0] + [sep] + JoinBy(parts[1..], sep)
  }

  lemma {:induction false} JoinByAppend(a: seq<string>, b: seq<string>, sep: char)
    requires a != [] && b != []
    ensures JoinBy(a + b, sep) == JoinBy(a, sep) + [sep] + JoinBy(b, sep)
  {
    if |a| == 1 {
      assert (a + b)[1..] == b;
    } else {
      JoinByAppend(a[1..], b, sep);
      assert (a + b)[1..] == a[1..] + b;
    }
  }

  /** A natural number in decimal. */
  function Decimal(n: nat): string {
    if n < 10 then [('0' as int + n) as char] else Decimal(n / 10) + [('0' as int + n % 10) as char]
  }

  /** The number a text of decimal digits stands for. */
  function NumberOf(s: string): int {
    if s == "" then 0 else 10 * NumberOf(s[..|s| - 1]) + (s[|s| - 1] as int - '0' as int)
  }

  lemma {:induction false} NumberOfDecimal(n: nat)
    ensures NumberOf(Decimal(n)) == n
  {
    if n >= 10 {
      NumberOfDecimal(n / 10);
      assert Decimal(n)[..|Decimal(n)| - 1] == Decimal(n / 10);
    } else {
      assert Decimal(n)[..0] == "";
    }
  }

  // ---- Lines ----

  /** `strings.Split(s, "\n")`. */
  function Split(s: string): (r: seq<string>)
    ensures |r| >= 1
    ensures forall l :: l in r ==> '\n' !in l
  {
    if s == "" then [""]
    else
      var rest := Split(s[1..]);
      if s[0] == '\n' then [""] + rest else [[s[0]] + rest[0]] + rest[1..]
  }

  /** `strings.Join(lines, "\n")`. */
  function Join(lines: seq<string>): string {
    if |lines| == 0 then ""
    else if |lines| == 1 then lines[0]
    else lines[0] + "\n" + Join(lines[1..])
  }

  /** Every line followed by a line break. */
  function Unlines(lines: seq<string>): string {
    if lines == [] then "" else lines[0] + "\n" + Unlines(lines[1..])
  }

  predicate LineFree(s: string) { '\n' !in s }

  predicate AllLineFree(lines: seq<string>) { forall l :: l in lines ==> LineFree(l) }

  lemma {:induction false} SplitLine(l: string, rest: string)
    requires LineFree(l)
    ensures Split(l + "\n" + rest) == [l] + Split(rest)
  {
    if l == "" {
      assert (l + "\n" + rest)[1..] == rest;
    } else {
      var s := l + "\n" + rest;
      assert s[0] == l[0] && l[0] in l;
      assert s[1..] == l[1..] + "\n" + rest;
      SplitLine(l[1..], rest);
      assert [l[0]] + l[1..] == l;
    }
  }

  lemma {:induction false} SplitOne(l: string)
    requires LineFree(l)
    ensures Split(l) == [l]
  {
    if l != "" {
      assert l[0] in l;
      SplitOne(l[1..]);
      assert [l[0]] + l[1..] == l;
    }
  }

  lemma {:induction false} SplitUnlines(lines: seq<string>, rest: string)
    requires AllLineFree(lines)
    ensures Split(Unlines(lines) + rest) == lines + Split(rest)
  {
    if lines == [] {
      assert Unlines(lines) + rest == rest;
    } else {
      assert Unlines(lines) + rest == lines[0] + "\n" + (Unlines(lines[1..]) + rest);
      SplitLine(lines[0], Unlines(lines[1..]) + rest);
      SplitUnlines(lines[1..], rest);
    }
  }

  lemma {:induction false} SplitJoin(lines: seq<string>)
    requires AllLineFree(lines) && lines != []
    ensures Split(Join(lines)) == lines
  {
    if |lines| == 1 {
      SplitOne(lines[0]);
    } else {
      SplitLine(lines[0], Join(lines[1..]));
      SplitJoin(lines[1..]);
    }
  }

  lemma {:induction false} UnlinesAppend(a: seq<string>, b: seq<string>)
    ensures Unlines(a + b) == Unlines(a) + Unlines(b)
  {
    if a == [] {
      assert a + b == b;
    } else {
      assert (a + b)[1..] == a[1..] + b;
      UnlinesAppend(a[1..], b);
    }
  }

  lemma UnlinesOne(l: string)
    ensures Unlines([l]) == l + "\n"
  {
    assert [l][1..] == [];
  }

  /** A text ending in a line break is the lines before its last, empty piece. */
  lemma {:induction false} SplitTerminated(s: string)
    requires s != "" && s[|s| - 1] == '\n'
    ensures var r := Split(s);
      |r| >= 2 && r[|r| - 1] == "" && Unlines(r[..|r| - 1]) == s
  {
    if |s| == 1 {
      SplitBreak();
      assert s == "\n";
    } else {
      SplitTerminated(s[1..]);
      SplitPush(s);
      UnlinesPush(s[0], Split(s[1..]));
      assert s == [s[0]] + s[1..];
      hide Split, Unlines;
    }
  }

  lemma SplitBreak()
    ensures Split("\n") == ["", ""] && Unlines(["", ""][..1]) == "\n"
  {
    assert "\n"[1..] == "";
    assert ["", ""][..1] == [""];
    UnlinesOne("");
  }

  lemma SplitPush(s: string)
    requires s != ""
    ensures Split(s) == if s[0] == '\n' then [""] + Split(s[1..]) else [[s[0]] + Split(s[1..])[0]] + Split(s[1..])[1..]
  {}

  lemma JoinPush(c: char, rest: seq<string>)
    requires rest != []
    ensures Join(if c == '\n' then [""] + rest else [[c] + rest[0]] + rest[1..]) == [c] + Join(rest)
  {
    if c == '\n' {
      assert ([""] + rest)[1..] == rest;
      assert "" + "\n" + Join(rest) == [c] + Join(rest);
    } else if |rest| > 1 {
      assert ([[c] + rest[0]] + rest[1..])[1..] == rest[1..];
      assert [c] + rest[0] + "\n" + Join(rest[1..]) == [c] + (rest[0] + "\n" + Join(rest[1..]));
    }
  }

  lemma {:induction false} JoinSplit(s: string)
    ensures Join(Split(s)) == s
  {
    if s != "" {
      JoinSplit(s[1..]);
      SplitPush(s);
      JoinPush(s[0], Split(s[1..]));
      assert s == [s[0]] + s[1..];
      hide *;
    }
  }

  lemma UnlinesPush(c: char, rest: seq<string>)
    requires |rest| >= 2
    ensures var r := if c == '\n' then [""] + rest else [[c] + rest[0]] + rest[1..];
      |r| >= 2 && r[|r| - 1] == rest[|rest| - 1] && Unlines(r[..|r| - 1]) == [c] + Unlines(rest[..|rest| - 1])
  {
    var front := rest[..|rest| - 1];
    var r := if c == '\n' then [""] + rest else [[c] + rest[0]] + rest[1..];
    assert front[0] == rest[0] && front == [rest[0]] + front[1..];
    if c == '\n' {
      assert r[..|r| - 1] == [""] + front && ([""] + front)[1..] == front;
    } else {
      assert r[..|r| - 1] == [[c] + rest[0]] + front[1..];
      assert ([[c] + rest[0]] + front[1..])[1..] == front[1..];
    }
  }

  // ---- Line endings ----

  /** `strings.ReplaceAll(s, "\r\n", "\n")`. */
  function NormalizeNewlines(s: string): string {
    if |s| < 2 then s
    else if s[0] == '\r' && s[1] == '\n' then "\n" + NormalizeNewlines(s[2..])
    else [s[0]] + NormalizeNewlines(s[1..])
  }

  predicate EndsInReturn(l: string) { l != "" && l[|l| - 1] == '\r' }

  predicate NoReturns(lines: seq<string>) { forall l :: l in lines ==> !EndsInReturn(l) }

  lemma {:induction false} NormalizeLine(l: string, rest: string)
    requires LineFree(l) && !EndsInReturn(l)
    ensures NormalizeNewlines(l + "\n" + rest) == l + "\n" + NormalizeNewlines(rest)
  {
    if l == "" {
      NormalizeHead('\n', rest);
      assert l + "\n" + rest == ['\n'] + rest;
    } else {
      var tail := l[1..] + "\n" + rest;
      assert l + "\n" + rest == [l[0]] + tail;
      assert l[0] == '\r' ==> tail[0] != '\n' by {
        if |l| > 1 { assert tail[0] == l[1] && l[1] in l; }
      }
      NormalizeHead(l[0], tail);
      NormalizeLine(l[1..], rest);
    }
  }

  lemma NormalizeHead(c: char, s: string)
    requires c == '\r' ==> s == "" || s[0] != '\n'
    ensures NormalizeNewlines([c] + s) == [c] + NormalizeNewlines(s)
  {
    assert ([c] + s)[1..] == s;
  }

  lemma {:induction false} NormalizeUnlines(lines: seq<string>, rest: string)
    requires AllLineFree(lines) && NoReturns(lines)
    ensures NormalizeNewlines(Unlines(lines) + rest) == Unlines(lines) + NormalizeNewlines(rest)
  {
    if lines == [] {
      assert Unlines(lines) + rest == rest;
    } else {
      assert Unlines(lines) + rest == lines[0] + "\n" + (Unlines(lines[1..]) + rest);
      NormalizeLine(lines[0], Unlines(lines[1..]) + rest);
      NormalizeUnlines(lines[1..], rest);
    }
  }
}
