/** Fenced code blocks: the fence chosen by markdownFence in internal/core/ingest.go,
    and how sections 2.1 and 4.5 of CommonMark 0.31.2 read such blocks back. */
module Fences {
  import opened Text

  // ---- Runs of backticks ----

  /** `n` of `c` in a row from position `i`. */
  predicate RunAt(s: string, c: char, i: nat, n: nat) {
    i + n <= |s| && forall k :: i <= k < i + n ==> s[k] == c
  }

  predicate HasRun(s: string, n: nat) {
    exists i :: 0 <= i <= |s| && RunAt(s, '`', i, n)
  }

  lemma LongerRun(s: string, m: nat, n: nat)
    requires m <= n && HasRun(s, n)
    ensures HasRun(s, m)
  {
    var i :| 0 <= i <= |s| && RunAt(s, '`', i, n);
    assert RunAt(s, '`', i, m);
  }

  /** The shortest fence of at least three that the text does not hold. */
  function FenceLen(s: string): (n: nat)
    ensures n >= 3 && !HasRun(s, n) && (n > 3 ==> HasRun(s, n - 1))
  {
    FenceFrom(s, 3)
  }

  function FenceFrom(s: string, n: nat): (r: nat)
    requires n >= 3 && (n > 3 ==> HasRun(s, n - 1))
    ensures r >= n && !HasRun(s, r) && (r > 3 ==> HasRun(s, r - 1))
    decreases |s| + 1 - n
  {
    if HasRun(s, n) then FenceFrom(s, n + 1) else n
  }

  function Ticks(n: nat): (r: string)
    ensures |r| == n && forall c :: c in r ==> c == '`'
  {
    if n == 0 then "" else "`" + Ticks(n - 1)
  }

  lemma FenceLenUnique(s: string, n: nat)
    requires n >= 3 && !HasRun(s, n) && (n > 3 ==> HasRun(s, n - 1))
    ensures n == FenceLen(s)
  {
    var m := FenceLen(s);
    if m < n { LongerRun(s, m, n - 1); }
    if n < m { LongerRun(s, n, m - 1); }
  }

  /** The run at the end of a text. */
  predicate EndsIn(s: string, n: nat) {
    n <= |s| && (forall k :: |s| - n <= k < |s| ==> s[k] == '`') && (n < |s| ==> s[|s| - n - 1] != '`')
  }

  /** A run of a longer text that ends before its last character. */
  lemma RunInFront(s: string, c: char, i: nat, n: nat)
    requires RunAt(s + [c], '`', i, n) && i + n <= |s|
    ensures HasRun(s, n)
  {
    var t := s + [c];
    assert forall k :: 0 <= k < |s| ==> s[k] == t[k];
    assert RunAt(s, '`', i, n);
  }

  /** A run that takes in the last character is no longer than what ends there. */
  lemma RunAtEnd(s: string, c: char, current: nat, i: nat, n: nat)
    requires EndsIn(s, current) && RunAt(s + [c], '`', i, n) && i <= |s| < i + n
    ensures c == '`' && n <= current + 1
  {
    var t := s + [c];
    assert t[|s|] == c;
    assert forall k :: 0 <= k < |s| ==> t[k] == s[k];
    assert current < |s| ==> t[|s| - current - 1] != '`';
  }

  lemma RunSnoc(s: string, c: char, current: nat, n: nat)
    requires EndsIn(s, current) && n > 0
    ensures c == '`' ==> EndsIn(s + [c], current + 1)
    ensures c != '`' ==> EndsIn(s + [c], 0)
    ensures HasRun(s + [c], n) <==> HasRun(s, n) || (c == '`' && current + 1 >= n)
  {
    var t := s + [c];
    if HasRun(s, n) {
      var i :| 0 <= i <= |s| && RunAt(s, '`', i, n);
      assert RunAt(t, '`', i, n);
    }
    if c == '`' && current + 1 >= n { assert RunAt(t, '`', |t| - n, n); }
    if HasRun(t, n) {
      var i :| 0 <= i <= |t| && RunAt(t, '`', i, n);
      if i + n <= |s| {
        RunInFront(s, c, i, n);
      } else {
        RunAtEnd(s, c, current, i, n);
      }
    }
  }

  method MarkdownFence(text: string) returns (fence: string)
    ensures fence == Ticks(FenceLen(text))
  {
    var longest, current := 2, 0;
    hide HasRun;
    NoRun();
    for i := 0 to |text|
      invariant longest >= 2 && EndsIn(text[..i], current) && current <= longest
      invariant !HasRun(text[..i], longest + 1) && (longest > 2 ==> HasRun(text[..i], longest))
    {
      assert text[..i + 1] == text[..i] + [text[i]];
      RunSnoc(text[..i], text[i], current, longest + 1);
      if longest > 2 { RunSnoc(text[..i], text[i], current, longest); }
      RunSnoc(text[..i], text[i], current, current + 1);
      RunSnoc(text[..i], text[i], current, current + 2);
      if HasRun(text[..i], longest + 2) { LongerRun(text[..i], longest + 1, longest + 2); }
      if text[i] == '`' {
        current := current + 1;
        if current > longest { longest := current; }
        continue;
      }
      current := 0;
    }
    assert text[..|text|] == text;
    FenceLenUnique(text, longest + 1);
    fence := Ticks(longest + 1);
  }

  lemma NoRun()
    ensures !HasRun("", 3)
  {}

  // ---- Lines (section 2.1) ----

  /** The length of the first line, its ending included. */
  function LineLen(s: string): (n: nat)
    ensures n <= |s| && (s != "" ==> n > 0)
  {
    if s == "" then 0
    else if s[0] == '\n' then 1
    else if s[0] == '\r' then (if |s| > 1 && s[1] == '\n' then 2 else 1)
    else 1 + LineLen(s[1..])
  }

  function MdLines(s: string): seq<string> {
    if s == "" then [] else [s[..LineLen(s)]] + MdLines(s[LineLen(s)..])
  }

  function Concat(lines: seq<string>): string {
    if lines == [] then "" else lines[0] + Concat(lines[1..])
  }

  /** Lines put together again are the text. */
  lemma {:induction false} ConcatLines(s: string)
    ensures Concat(MdLines(s)) == s
    decreases |s|
  {
    if s != "" { ConcatLines(s[LineLen(s)..]); }
  }

  predicate Terminated(s: string) { s == "" || s[|s| - 1] == '\n' }

  lemma {:induction false} LineLenAppend(a: string, b: string)
    requires a != "" && Terminated(a)
    ensures LineLen(a + b) == LineLen(a)
  {
    if a[0] != '\n' && a[0] != '\r' {
      assert (a + b)[1..] == a[1..] + b;
      LineLenAppend(a[1..], b);
    }
  }

  /** Complete lines in front do not change the lines behind. */
  lemma {:induction false} MdLinesAppend(a: string, b: string)
    requires Terminated(a)
    ensures MdLines(a + b) == MdLines(a) + MdLines(b)
    decreases |a|
  {
    if a == "" {
      assert a + b == b;
    } else {
      LineLenAppend(a, b);
      var n := LineLen(a);
      assert (a + b)[..n] == a[..n] && (a + b)[n..] == a[n..] + b;
      MdLinesAppend(a[n..], b);
      hide LineLen, Terminated;
      assert MdLines(a) == [a[..n]] + MdLines(a[n..]);
      assert MdLines(a + b) == [a[..n]] + MdLines(a[n..] + b);
      hide MdLines;
      assert [a[..n]] + MdLines(a[n..]) + MdLines(b) == [a[..n]] + (MdLines(a[n..]) + MdLines(b));
    }
  }

  predicate OneLine(s: string) { forall i :: 0 <= i < |s| ==> s[i] != '\n' && s[i] != '\r' }

  lemma {:induction false} LineLenOne(l: string)
    requires OneLine(l)
    ensures LineLen(l + "\n") == |l| + 1
  {
    if l != "" {
      assert (l + "\n")[1..] == l[1..] + "\n";
      LineLenOne(l[1..]);
    }
  }

  lemma MdLinesOne(l: string)
    requires OneLine(l)
    ensures MdLines(l + "\n") == [l + "\n"]
  {
    LineLenOne(l);
    var s := l + "\n";
    assert s[..|l| + 1] == s && s[|l| + 1..] == "";
  }

  // ---- Fences (section 4.5) ----

  datatype Fence = Fence(mark: char, len: nat, indent: nat)

  function CountOf(s: string, c: char): (n: nat)
    ensures n <= |s| && RunAt(s, c, 0, n) && (n < |s| ==> s[n] != c)
  {
    if s == "" || s[0] != c then 0 else 1 + CountOf(s[1..], c)
  }

  /** A line without its ending. */
  function Bare(line: string): string {
    if line != "" && (line[|line| - 1] == '\n' || line[|line| - 1] == '\r') then Bare(line[..|line| - 1]) else line
  }

  /** Up to three spaces, at least three backticks or tildes, and an info string, which
      after backticks holds none. */
  function Opening(line: string): Option<Fence> {
    var l := Bare(line);
    var indent := CountOf(l, ' ');
    if indent > 3 || indent == |l| then None
    else
      var c := l[indent];
      var n := CountOf(l[indent..], c);
      if (c == '`' && n >= 3 && '`' !in l[indent + n..]) || (c == '~' && n >= 3)
      then Some(Fence(c, n, indent)) else None
  }

  /** Up to three spaces, at least as many of the fence's characters, then only blanks. */
  predicate Closing(line: string, f: Fence) {
    var l := Bare(line);
    var indent := CountOf(l, ' ');
    indent <= 3
    && var n := CountOf(l[indent..], f.mark);
      n >= f.len && forall k :: indent + n <= k < |l| ==> l[k] == ' ' || l[k] == '\t'
  }

  /** A content line loses as much indentation as the opening fence had. */
  function Dedent(line: string, k: nat): string {
    if k > 0 && line != "" && line[0] == ' ' then Dedent(line[1..], k - 1) else line
  }

  /** The contents of the fenced blocks; a block still open at the end ends there. */
  function Contents(lines: seq<string>, open: Option<Fence>, acc: string): seq<string>
    decreases |lines|
  {
    if lines == [] then (if open.Some? then [acc] else [])
    else if open.None? then Contents(lines[1..], Opening(lines[0]), "")
    else if Closing(lines[0], open.value) then [acc] + Contents(lines[1..], None, "")
    else Contents(lines[1..], open, acc + Dedent(lines[0], open.value.indent))
  }

  function CodeBlocks(doc: string): seq<string> { Contents(MdLines(doc), None, "") }

  // ---- What is written is read back ----

  predicate NoOpening(lines: seq<string>) { forall l :: l in lines ==> Opening(l) == None }

  lemma {:induction false} SkipPlain(a: seq<string>, b: seq<string>)
    requires NoOpening(a)
    ensures Contents(a + b, None, "") == Contents(b, None, "")
  {
    hide Opening, Closing;
    if a == [] {
      assert a + b == b;
    } else {
      assert a[0] in a && forall l :: l in a[1..] ==> l in a;
      assert (a + b)[1..] == a[1..] + b;
      SkipPlain(a[1..], b);
    }
  }

  lemma {:induction false} TakeContent(a: seq<string>, b: seq<string>, f: Fence, acc: string)
    requires f.indent == 0 && forall l :: l in a ==> !Closing(l, f)
    ensures Contents(a + b, Some(f), acc) == Contents(b, Some(f), acc + Concat(a))
    decreases |a|
  {
    hide Opening, Closing;
    if a == [] {
      assert a + b == b && acc + "" == acc;
    } else {
      assert a[0] in a && forall l :: l in a[1..] ==> l in a;
      assert (a + b)[1..] == a[1..] + b && (a + b)[0] == a[0];
      TakeContent(a[1..], b, f, acc + a[0]);
      assert acc + a[0] + Concat(a[1..]) == acc + Concat(a);
      assert Dedent(a[0], 0) == a[0];
      assert Contents(a + b, Some(f), acc) == Contents(a[1..] + b, Some(f), acc + a[0]);
    }
  }

  lemma {:induction false} BareEnd(l: string)
    requires l == "" || (l[|l| - 1] != '\n' && l[|l| - 1] != '\r')
    ensures Bare(l + "\n") == l && Bare(l) == l
  {
    assert (l + "\n")[..|l|] == l;
  }

  lemma {:induction false} BarePrefix(line: string)
    ensures Bare(line) <= line
    decreases |line|
  {
    if line != "" { BarePrefix(line[..|line| - 1]); }
  }

  /** A closing line holds the whole run. */
  lemma ClosingHasRun(line: string, f: Fence)
    requires Closing(line, f) && f.mark == '`'
    ensures HasRun(line, f.len)
  {
    BarePrefix(line);
    var l := Bare(line);
    var i := CountOf(l, ' ');
    var n := CountOf(l[i..], '`');
    assert forall k :: i <= k < i + n ==> l[k] == l[i..][k - i];
    assert RunAt(line, '`', i, f.len);
  }

  /** So does the text its line comes from. */
  lemma {:induction false} LineRun(s: string, line: string, n: nat)
    requires line in MdLines(s) && HasRun(line, n)
    ensures HasRun(s, n)
    decreases |s|
  {
    var m := LineLen(s);
    if line == s[..m] {
      var i :| 0 <= i <= |line| && RunAt(line, '`', i, n);
      assert RunAt(s, '`', i, n);
    } else {
      LineRun(s[m..], line, n);
      var i :| 0 <= i <= |s[m..]| && RunAt(s[m..], '`', i, n);
      assert forall k :: i + m <= k < i + m + n ==> s[k] == s[m..][k - m];
      assert RunAt(s, '`', i + m, n);
    }
  }

  lemma NoRunTerminated(s: string, n: nat)
    requires !HasRun(s, n) && n > 0
    ensures !HasRun(s + "\n", n)
  {
    if HasRun(s + "\n", n) {
      var i :| 0 <= i <= |s + "\n"| && RunAt(s + "\n", '`', i, n);
      assert (s + "\n")[|s|] == '\n';
      assert s + "\n" == s + ['\n'];
      RunInFront(s, '\n', i, n);
    }
  }

  lemma {:induction false} CountTicks(n: nat, rest: string)
    requires rest == "" || rest[0] != '`'
    ensures CountOf(Ticks(n) + rest, '`') == n
  {
    if n == 0 {
      assert Ticks(0) + rest == rest;
    } else {
      assert (Ticks(n) + rest)[1..] == Ticks(n - 1) + rest;
      CountTicks(n - 1, rest);
    }
  }

  lemma OpeningTicks(n: nat)
    requires n >= 3
    ensures Opening(Ticks(n) + "text\n") == Some(Fence('`', n, 0))
  {
    var l := Ticks(n) + "text";
    assert l[|l| - 1] == 't' && l + "\n" == Ticks(n) + "text\n";
    BareEnd(l);
    CountTicks(n, "text");
    assert l[0] == Ticks(n)[0] && Ticks(n)[0] in Ticks(n);
    assert l[0..] == l && l[n..] == "text";
  }

  lemma ClosingTicks(n: nat)
    requires n >= 3
    ensures Closing(Ticks(n) + "\n", Fence('`', n, 0))
  {
    var l := Ticks(n);
    assert l[|l| - 1] in l && l[0] in l;
    BareEnd(l);
    CountTicks(n, "");
    assert l + "" == l && l[0..] == l;
  }

  /** A text in the fence chosen for it, after lines that open nothing: it is read back
      whole, and reading goes on behind it. */
  lemma FencedReadBack(pre: seq<string>, text: string, rest: seq<string>)
    requires NoOpening(pre)
    ensures var n := FenceLen(text);
      Contents(pre + [Ticks(n) + "text\n"] + MdLines(text + "\n") + [Ticks(n) + "\n"] + rest, None, "")
      == [text + "\n"] + Contents(rest, None, "")
  {
    var n := FenceLen(text);
    var f := Fence('`', n, 0);
    var body, close := MdLines(text + "\n"), Ticks(n) + "\n";
    var open := Ticks(n) + "text\n";
    OpeningTicks(n);
    ClosingTicks(n);
    NoRunTerminated(text, n);
    forall l | l in body ensures !Closing(l, f) {
      if Closing(l, f) {
        ClosingHasRun(l, f);
        LineRun(text + "\n", l, n);
      }
    }
    ConcatLines(text + "\n");
    hide Opening, Closing, MdLines, HasRun, FenceLen, Ticks;
    var tail := [close] + rest;
    assert pre + [open] + body + [close] + rest == pre + ([open] + (body + tail));
    SkipPlain(pre, [open] + (body + tail));
    assert ([open] + (body + tail))[1..] == body + tail && tail[1..] == rest;
    TakeContent(body, tail, f, "");
    assert "" + Concat(body) == Concat(body);
  }
}
