/** Capture buckets: one note grown by appends under a hash guard (internal/core/ingest.go
    and OrganizeCaptureBucket of internal/core/plans.go). */
module Buckets {
  import opened Text
  import opened Fences
  import EnrichGuard

  // ---- The printed form ----

  /** What the header of a bucket note says. Every part is one line. */
  datatype Header = Header(title: string, source: string, quotedKey: string, created: string, bucketId: string,
                           jobId: string) {
    predicate Valid() {
      OneLine(title) && OneLine(source) && OneLine(quotedKey) && OneLine(created) && OneLine(bucketId) && OneLine(jobId)
    }
  }

  datatype Entry = Entry(text: string, source: string, stamp: string) {
    predicate Valid() { OneLine(source) && OneLine(stamp) && text != "" && Solid(text) }
  }

  /** The frontmatter lines up to the closing fence. */
  function FrontLines(h: Header, updated: string): seq<string> {
    ["---", "title: \"" + h.title + "\"", "status: inbox", "source: " + h.source, "source_key: " + h.quotedKey,
     "created: " + h.created, "updated: " + updated, "openwhisker_bucket_id: " + h.bucketId,
     "openwhisker_job_id: " + h.jobId, "---"]
  }

  function HeadText(h: Header): string { "\n# " + h.title + "\n" }

  function BlockIntro(n: nat, e: Entry): seq<string> {
    ["", "## 输入 " + Decimal(n), "", "- 类型：text", "- 时间：" + e.stamp, "- 来源：" + e.source, ""]
  }

  /** One captured text, in a fence it does not break. */
  function Block(n: nat, e: Entry): string {
    var fence := Ticks(FenceLen(e.text));
    Unlines(BlockIntro(n, e)) + fence + "text\n" + e.text + "\n" + fence + "\n"
  }

  /** Blocks 1, 2, … in order. */
  function Blocks(entries: seq<Entry>): string {
    if entries == [] then ""
    else Blocks(entries[..|entries| - 1]) + Block(|entries|, entries[|entries| - 1])
  }

  function BucketFile(h: Header, updated: string, entries: seq<Entry>): string {
    Unlines(FrontLines(h, updated)) + (HeadText(h) + Blocks(entries))
  }

  method RenderBlock(n: nat, e: Entry) returns (r: string)
    ensures r == Block(n, e)
  {
    hide FenceLen, Ticks;
    var fence := MarkdownFence(e.text);
    r := Unlines(BlockIntro(n, e)) + fence + "text\n" + e.text + "\n" + fence + "\n";
  }

  // ---- Refreshing the header ----

  predicate UpdatedLine(l: string) { HasPrefix(Trim(l), "updated:") }

  /** The first line from `i` on, before `end`, that holds the time of the last change. */
  function FindUpdated(lines: seq<string>, i: nat, end: nat): (r: Option<nat>)
    requires i <= end <= |lines|
    ensures r.Some? ==> i <= r.value < end
    decreases end - i
  {
    if i == end then None else if UpdatedLine(lines[i]) then Some(i) else FindUpdated(lines, i + 1, end)
  }

  function RewriteUpdated(content: string, stamp: string): string {
    var lines := Split(content);
    if Trim(lines[0]) != "---" then content
    else
      var closing := EnrichGuard.ClosingFence(lines, 1);
      if closing.None? then content
      else
        var at := FindUpdated(lines, 1, closing.value);
        if at.Some? then Join(lines[at.value := "updated: " + stamp])
        else Join(lines[..closing.value] + ["updated: " + stamp] + lines[closing.value..])
  }

  method RewriteRawBucketUpdated(content: string, stamp: string) returns (r: string)
    ensures r == RewriteUpdated(content, stamp)
  {
    hide Trim;
    var lines := Split(content);
    if Trim(lines[0]) != "---" { return content; }
    var closing := 1;
    while closing < |lines| && Trim(lines[closing]) != "---"
      invariant 1 <= closing <= |lines|
      invariant EnrichGuard.ClosingFence(lines, 1) == EnrichGuard.ClosingFence(lines, closing)
    {
      closing := closing + 1;
    }
    if closing == |lines| { return content; }
    var i := 1;
    while i < closing
      invariant 1 <= i <= closing && FindUpdated(lines, 1, closing) == FindUpdated(lines, i, closing)
    {
      if UpdatedLine(lines[i]) { return Join(lines[i := "updated: " + stamp]); }
      i := i + 1;
    }
    return Join(lines[..closing] + ["updated: " + stamp] + lines[closing..]);
  }

  lemma {:induction false} JoinAfter(lines: seq<string>, rest: string)
    ensures Join(lines + Split(rest)) == Unlines(lines) + rest
  {
    if lines == [] {
      JoinSplit(rest);
      assert lines + Split(rest) == Split(rest);
      assert Unlines(lines) + rest == rest;
    } else {
      JoinAfter(lines[1..], rest);
      hide Split;
      assert (lines + Split(rest))[1..] == lines[1..] + Split(rest);
      assert lines[0] + "\n" + (Unlines(lines[1..]) + rest) == lines[0] + "\n" + Unlines(lines[1..]) + rest;
    }
  }

  lemma NotFence(l: string)
    requires l != "" && 'a' <= l[0] <= 'z'
    ensures Trim(l) != "---" && Trim(l) != "" && Trim(l)[0] == l[0]
  {}

  lemma OneLinePair(a: string, b: string)
    requires OneLine(a) && OneLine(b)
    ensures OneLine(a + b) && LineFree(a + b)
  {}

  lemma FrontOneLine(h: Header, updated: string)
    requires h.Valid() && OneLine(updated)
    ensures forall l :: l in FrontLines(h, updated) ==> OneLine(l) && LineFree(l)
  {
    TitleOneLine(h);
    OneLinePair("---", "");
    OneLinePair("status: inbox", "");
    OneLinePair("source: ", h.source);
    OneLinePair("source_key: ", h.quotedKey);
    OneLinePair("created: ", h.created);
    OneLinePair("updated: ", updated);
    OneLinePair("openwhisker_bucket_id: ", h.bucketId);
    OneLinePair("openwhisker_job_id: ", h.jobId);
    assert "---" + "" == "---" && "status: inbox" + "" == "status: inbox";
    hide OneLine, LineFree;
  }

  lemma TitleOneLine(h: Header)
    requires h.Valid()
    ensures OneLine("title: \"" + h.title + "\"") && LineFree("title: \"" + h.title + "\"")
  {
    OneLinePair("title: \"", h.title);
    OneLinePair("title: \"" + h.title, "\"");
  }

  lemma FrontInitials(h: Header, updated: string)
    ensures forall k :: 1 <= k < 9 ==> FrontLines(h, updated)[k] != "" && 'a' <= FrontLines(h, updated)[k][0] <= 'z'
    ensures forall k :: 1 <= k < 6 ==> FrontLines(h, updated)[k][0] != 'u'
    ensures FrontLines(h, updated)[6] == "updated: " + updated
  {
    var ls := FrontLines(h, updated);
    assert ls[1][0] == 't' && ls[2][0] == 's' && ls[3][0] == 's' && ls[4][0] == 's' && ls[5][0] == 'c'
      && ls[6][0] == 'u'
      && ls[7][0] == 'o' && ls[8][0] == 'o';
  }

  lemma FindsUpdated(lines: seq<string>, i: nat)
    requires 1 <= i <= 6 && |lines| >= 9 && UpdatedLine(lines[6])
    requires forall k :: 1 <= k < 6 ==> !UpdatedLine(lines[k])
    ensures FindUpdated(lines, i, 9) == Some(6)
    decreases 6 - i
  {
    hide UpdatedLine;
    if i < 6 { FindsUpdated(lines, i + 1); }
  }

  lemma {:induction false} FenceAfter(lines: seq<string>, i: nat)
    requires 1 <= i <= 9 && |lines| >= 10 && Trim(lines[9]) == "---"
    requires forall k :: 1 <= k < 9 ==> Trim(lines[k]) != "---"
    ensures EnrichGuard.ClosingFence(lines, i) == Some(9)
    decreases 9 - i
  {
    hide Trim;
    if i < 9 { FenceAfter(lines, i + 1); }
  }

  /** Refreshing changes the one line and nothing else, whatever was captured. */
  lemma RewriteRefreshes(h: Header, updated: string, entries: seq<Entry>, stamp: string)
    requires h.Valid() && OneLine(updated)
    ensures RewriteUpdated(BucketFile(h, updated, entries), stamp) == BucketFile(h, stamp, entries)
  {
    var front, rest := FrontLines(h, updated), HeadText(h) + Blocks(entries);
    FrontOneLine(h, updated);
    assert front[6 := "updated: " + stamp] == FrontLines(h, stamp);
    assert BucketFile(h, updated, entries) == Unlines(front) + rest;
    assert BucketFile(h, stamp, entries) == Unlines(FrontLines(h, stamp)) + rest;
    assert |front| == 10;
    hide *;
    SplitUnlines(front, rest);
    var lines := front + Split(rest);
    FrontShape(h, updated, lines);
    UpdateInFront(front, Split(rest), "updated: " + stamp);
    JoinAfter(FrontLines(h, stamp), rest);
    RewriteFound(Unlines(front) + rest, stamp);
  }

  lemma UpdateInFront(a: seq<string>, b: seq<string>, l: string)
    requires |a| == 10
    ensures (a + b)[6 := l] == a[6 := l] + b
  {}

  lemma RewriteFound(content: string, stamp: string)
    requires var lines := Split(content);
      Trim(lines[0]) == "---" && EnrichGuard.ClosingFence(lines, 1) == Some(9) && FindUpdated(lines, 1, 9) == Some(6)
    ensures RewriteUpdated(content, stamp) == Join(Split(content)[6 := "updated: " + stamp])
  {}

  lemma FrontShape(h: Header, updated: string, lines: seq<string>)
    requires h.Valid() && OneLine(updated) && FrontLines(h, updated) <= lines
    ensures |lines| >= 10
    ensures Trim(lines[0]) == "---" && EnrichGuard.ClosingFence(lines, 1) == Some(9)
    ensures FindUpdated(lines, 1, 9) == Some(6)
  {
    var front := FrontLines(h, updated);
    FrontInitials(h, updated);
    TrimSolid("---");
    UpdatedRead(updated);
    assert |front| == 10 && front[0] == "---" && front[9] == "---";
    hide *;
    assert forall k :: 0 <= k < 10 ==> lines[k] == front[k];
    LettersShape(lines);
  }

  lemma LettersShape(lines: seq<string>)
    requires |lines| >= 10 && Trim(lines[9]) == "---" && UpdatedLine(lines[6])
    requires forall k :: 1 <= k < 9 ==> lines[k] != "" && 'a' <= lines[k][0] <= 'z'
    requires forall k :: 1 <= k < 6 ==> lines[k][0] != 'u'
    ensures EnrichGuard.ClosingFence(lines, 1) == Some(9) && FindUpdated(lines, 1, 9) == Some(6)
  {
    hide *;
    forall k | 1 <= k < 9 ensures Trim(lines[k]) != "---" { NotFence(lines[k]); }
    forall k | 1 <= k < 6 ensures !UpdatedLine(lines[k]) { NotUpdated(lines[k]); }
    FenceAfter(lines, 1);
    FindsUpdated(lines, 1);
  }

  lemma NotUpdated(l: string)
    requires l != "" && 'a' <= l[0] <= 'z' && l[0] != 'u'
    ensures !UpdatedLine(l)
  {
    NotFence(l);
    hide Trim;
    assert "updated:"[0] == 'u';
  }

  lemma UpdatedRead(updated: string)
    ensures UpdatedLine("updated: " + updated)
  {
    var l := "updated: " + updated;
    assert l[0] == 'u' && TrimLeft(l) == l;
    assert l == "updated:" + (" " + updated);
    TrimRightKeeps("updated:", " " + updated);
  }

  // ---- Reading the captured texts ----

  function WithBreaks(lines: seq<string>): seq<string> {
    if lines == [] then [] else [lines[0] + "\n"] + WithBreaks(lines[1..])
  }

  lemma {:induction false} LinesOf(lines: seq<string>, rest: string)
    requires forall l :: l in lines ==> OneLine(l)
    ensures MdLines(Unlines(lines) + rest) == WithBreaks(lines) + MdLines(rest)
  {
    hide OneLine, MdLines;
    if lines == [] {
      assert Unlines(lines) + rest == rest;
      assert [] + MdLines(rest) == MdLines(rest);
    } else {
      assert lines[0] in lines && forall l :: l in lines[1..] ==> l in lines;
      LinesOf(lines[1..], rest);
      LineMore(lines[0], Unlines(lines[1..]), WithBreaks(lines[1..]), rest);
    }
  }

  lemma LineMore(l: string, body: string, breaks: seq<string>, rest: string)
    requires OneLine(l) && MdLines(body + rest) == breaks + MdLines(rest)
    ensures MdLines(l + "\n" + body + rest) == [l + "\n"] + breaks + MdLines(rest)
  {
    hide MdLines;
    LineThen(l, body + rest);
    assert l + "\n" + body + rest == (l + "\n") + (body + rest);
  }

  /** A line that starts no fence. */
  predicate Plain(l: string) { OneLine(l) && (l == "" || (l[0] != ' ' && l[0] != '`' && l[0] != '~')) }

  lemma PlainOpensNothing(l: string)
    requires Plain(l)
    ensures Opening(l + "\n") == None
  {
    BareEnd(l);
    assert l != "" ==> CountOf(l, ' ') == 0;
  }

  lemma {:induction false} PlainLines(lines: seq<string>)
    requires forall l :: l in lines ==> Plain(l)
    ensures NoOpening(WithBreaks(lines))
  {
    hide Opening, Plain;
    if lines != [] {
      assert lines[0] in lines && forall l :: l in lines[1..] ==> l in lines;
      PlainOpensNothing(lines[0]);
      PlainLines(lines[1..]);
    }
  }

  lemma {:induction false} DecimalPlain(n: nat)
    ensures Decimal(n) != "" && forall i :: 0 <= i < |Decimal(n)| ==> '0' <= Decimal(n)[i] <= '9'
  {
    if n >= 10 { DecimalPlain(n / 10); }
  }

  lemma IntroPlain(n: nat, e: Entry)
    requires e.Valid()
    ensures forall l :: l in BlockIntro(n, e) ==> Plain(l) && OneLine(l)
  {
    DecimalPlain(n);
    OneLinePair("## 输入 ", Decimal(n));
    OneLinePair("- 时间：", e.stamp);
    OneLinePair("- 来源：", e.source);
    hide Decimal;
    assert Plain("") && Plain("- 类型：text");
    assert Plain("## 输入 " + Decimal(n)) && Plain("- 时间：" + e.stamp) && Plain("- 来源：" + e.source);
    hide Plain, OneLine;
    forall l | l in BlockIntro(n, e) ensures OneLine(l) { PlainIsOneLine(l); }
  }

  lemma PlainIsOneLine(l: string)
    requires Plain(l)
    ensures OneLine(l)
  {}

  lemma FencePlain(n: nat)
    ensures OneLine(Ticks(n) + "text") && OneLine(Ticks(n))
  {
    var t := Ticks(n);
    forall i | 0 <= i < |t| ensures t[i] != '\n' && t[i] != '\r' { assert t[i] in t; }
  }

  lemma BlockLinesAre(n: nat, e: Entry, rest: string)
    requires e.Valid()
    ensures var k := FenceLen(e.text);
      MdLines(Block(n, e) + rest) ==
        WithBreaks(BlockIntro(n, e)) + [Ticks(k) + "text\n"] + MdLines(e.text + "\n") + [Ticks(k) + "\n"]
          + MdLines(rest)
  {
    var t := Ticks(FenceLen(e.text));
    FencePlain(FenceLen(e.text));
    IntroPlain(n, e);
    var intro := BlockIntro(n, e);
    assert Block(n, e) == Unlines(intro) + t + "text\n" + e.text + "\n" + t + "\n";
    hide *;
    var last := (t + "\n") + rest;
    var body := (e.text + "\n") + last;
    var open := (t + "text" + "\n") + body;
    BlockText(Unlines(intro), t, e.text, rest);
    LinesOf(intro, open);
    LineThen(t + "text", body);
    TextThen(e.text, last);
    LineThen(t, rest);
    Regrouped(WithBreaks(intro), t + "text" + "\n", MdLines(e.text + "\n"), t + "\n", MdLines(rest));
  }

  lemma BlockText(intro: string, t: string, text: string, rest: string)
    ensures intro + t + "text\n" + text + "\n" + t + "\n" + rest
      == intro + ((t + "text" + "\n") + ((text + "\n") + ((t + "\n") + rest)))
    ensures t + "text" + "\n" == t + "text\n"
  {
    var a, b := (text + "\n") + ((t + "\n") + rest), t + "text\n";
    assert "text\n" == "text" + "\n";
    assert t + "text" + "\n" == b;
    assert text + "\n" + t + "\n" + rest == a;
    assert intro + t + "text\n" + text + "\n" + t + "\n" + rest == intro + b + (text + "\n" + t + "\n" + rest);
  }

  lemma Regrouped<T>(a: seq<T>, b: T, c: seq<T>, d: T, e: seq<T>)
    ensures a + ([b] + (c + ([d] + e))) == a + [b] + c + [d] + e
  {}

  lemma LineThen(l: string, rest: string)
    requires OneLine(l)
    ensures MdLines((l + "\n") + rest) == [l + "\n"] + MdLines(rest)
  {
    MdLinesAppend(l + "\n", rest);
    MdLinesOne(l);
  }

  lemma TextThen(text: string, rest: string)
    ensures MdLines((text + "\n") + rest) == MdLines(text + "\n") + MdLines(rest)
  {
    MdLinesAppend(text + "\n", rest);
  }

  function Texts(entries: seq<Entry>): seq<string> {
    if entries == [] then [] else Texts(entries[..|entries| - 1]) + [entries[|entries| - 1].text + "\n"]
  }

  predicate AllValid(entries: seq<Entry>) { forall e :: e in entries ==> e.Valid() }

  lemma {:induction false} BlocksReadBack(entries: seq<Entry>, rest: string)
    requires AllValid(entries)
    ensures Contents(MdLines(Blocks(entries) + rest), None, "") == Texts(entries) + Contents(MdLines(rest), None, "")
    decreases |entries|
  {
    hide Entry.Valid, Contents, MdLines, Block, Ticks, FenceLen, BlockIntro;
    if entries == [] {
      assert Blocks(entries) + rest == rest;
      assert [] + Contents(MdLines(rest), None, "") == Contents(MdLines(rest), None, "");
    } else {
      var n := |entries|;
      var front, e := entries[..n - 1], entries[n - 1];
      assert e in entries && forall x :: x in front ==> x in entries;
      assert Blocks(entries) + rest == Blocks(front) + (Block(n, e) + rest);
      BlocksReadBack(front, Block(n, e) + rest);
      BlockLinesAre(n, e, rest);
      IntroPlain(n, e);
      PlainLines(BlockIntro(n, e));
      FencedReadBack(WithBreaks(BlockIntro(n, e)), e.text, MdLines(rest));
      assert Texts(front) + ([e.text + "\n"] + Contents(MdLines(rest), None, "")) ==
        Texts(entries) + Contents(MdLines(rest), None, "");
    }
  }

  /** Reading the fenced blocks of a bucket note gives exactly the captured texts, in
      order. */
  lemma TextsRecovered(h: Header, updated: string, entries: seq<Entry>)
    requires h.Valid() && OneLine(updated) && AllValid(entries)
    ensures CodeBlocks(BucketFile(h, updated, entries)) == Texts(entries)
  {
    var front := FrontLines(h, updated);
    FrontPlain(h, updated);
    HeadPlain(h);
    BlocksReadBack(entries, "");
    assert Blocks(entries) + "" == Blocks(entries);
    assert MdLines("") == [] && Contents([], None, "") == [];
    assert Texts(entries) + [] == Texts(entries);
    var head := ["", "# " + h.title];
    assert Unlines(head) == HeadText(h) by { assert head[1..] == ["# " + h.title]; UnlinesOne("# " + h.title); }
    assert BucketFile(h, updated, entries) == Unlines(front) + (Unlines(head) + Blocks(entries));
    hide *;
    LinesOf(front, Unlines(head) + Blocks(entries));
    LinesOf(head, Blocks(entries));
    PlainLines(front);
    PlainLines(head);
    SkipPlain(WithBreaks(front), WithBreaks(head) + MdLines(Blocks(entries)));
    SkipPlain(WithBreaks(head), MdLines(Blocks(entries)));
    CodeBlocksAre(BucketFile(h, updated, entries));
  }

  lemma CodeBlocksAre(doc: string)
    ensures CodeBlocks(doc) == Contents(MdLines(doc), None, "")
  {}

  lemma FrontPlain(h: Header, updated: string)
    requires h.Valid() && OneLine(updated)
    ensures forall l :: l in FrontLines(h, updated) ==> Plain(l) && OneLine(l)
  {
    FrontOneLine(h, updated);
    FrontInitials(h, updated);
    var front := FrontLines(h, updated);
    assert |front| == 10 && front[0] == "---" && front[9] == "---";
    hide FrontLines, Header.Valid, OneLine;
    forall l | l in front ensures Plain(l) {
      var k :| 0 <= k < |front| && front[k] == l;
      assert k == 0 || k == 9 || 1 <= k < 9;
    }
  }

  lemma HeadPlain(h: Header)
    requires h.Valid()
    ensures forall l :: l in ["", "# " + h.title] ==> Plain(l) && OneLine(l)
  {
    OneLinePair("# ", h.title);
  }
}
