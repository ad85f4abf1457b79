/** The guard: internal/policy/enrich.go over internal/markdown's boundary rule. */
module EnrichGuard {
  import opened Text
  import opened Blobs
  import opened Frontmatter
  import opened Plans

  // ---- Splitting a note ----

  /** The first line from `i` on that trims to the fence. */
  function ClosingFence(lines: seq<string>, i: nat): (r: Option<nat>)
    requires i <= |lines|
    ensures r.Some? ==> i <= r.value < |lines| && Trim(lines[r.value]) == "---"
    ensures forall k :: i <= k < (if r.Some? then r.value else |lines|) ==> Trim(lines[k]) != "---"
    decreases |lines| - i
  {
    if i == |lines| then None
    else if Trim(lines[i]) == "---" then Some(i)
    else ClosingFence(lines, i + 1)
  }

  datatype Split2 = Split2(block: string, body: string)

  function SplitFrontmatter(content: string): Option<Split2> {
    var text := TrimPrefix(NormalizeNewlines(content), "\U{FEFF}");
    if !HasPrefix(text, "---\n") then None
    else
      var lines := Split(text);
      var fence := ClosingFence(lines, 1);
      if fence.None? then None
      else Some(Split2(Join(lines[1..fence.value]), Join(lines[fence.value + 1..])))
  }

  /** Line `k` is the first closing fence, and the note's two parts lie on its two sides. */
  predicate FencedAt(lines: seq<string>, k: nat, parts: Split2) {
    && 1 <= k < |lines| && Trim(lines[k]) == "---"
    && (forall m :: 1 <= m < k ==> Trim(lines[m]) != "---")
    && (if k == 1 then parts.block == "" else Split(parts.block) == lines[1..k])
    && (if k + 1 == |lines| then parts.body == "" else Split(parts.body) == lines[k + 1..])
  }

  /** A note has frontmatter when its first line is a fence and a later line trims to
      one; the block is the lines between, the body the lines behind. */
  lemma SplitMeans(content: string)
    ensures var text := TrimPrefix(NormalizeNewlines(content), "\U{FEFF}");
      var lines, r := Split(text), SplitFrontmatter(content);
      && (r.Some? <==> HasPrefix(text, "---\n") && exists k :: 1 <= k < |lines| && Trim(lines[k]) == "---")
      && (r.Some? ==> exists k :: FencedAt(lines, k, r.value))
  {
    var text := TrimPrefix(NormalizeNewlines(content), "\U{FEFF}");
    var lines := Split(text);
    if HasPrefix(text, "---\n") {
      var fence := ClosingFence(lines, 1);
      if fence.Some? {
        var k := fence.value;
        if k > 1 { SplitJoin(lines[1..k]); }
        if k + 1 < |lines| { SplitJoin(lines[k + 1..]); }
        assert FencedAt(lines, k, SplitFrontmatter(content).value);
      }
    }
  }

  // ---- Fields ----

  function TrimBreaks(s: string): string {
    if s != "" && s[|s| - 1] == '\n' then TrimBreaks(s[..|s| - 1]) else s
  }

  /** A field's text: the rest of its key line and the lines under it. */
  function Blob(s: Section): string {
    TrimBreaks(RestOf(s.head) + "\n" + Unlines(s.tail))
  }

  function PutField(m: map<string, string>, s: Section): map<string, string> {
    if s.Key() == "" then m else m[s.Key() := Blob(s)]
  }

  function PutFields(m: map<string, string>, secs: seq<Section>): map<string, string>
    decreases |secs|
  {
    if secs == [] then m else PutFields(PutField(m, secs[0]), secs[1..])
  }

  function Fields(block: string): map<string, string> {
    if block == "" then map[] else PutFields(map[], Parse(Split(block)).sections)
  }

  /** What the scan makes of the lines from here, the field `key` being open with
      the text `buf` so far. */
  function Scan(out: map<string, string>, key: string, buf: string, lines: seq<string>): map<string, string> {
    var o := Parse(lines);
    PutFields(if key == "" then out else out[key := TrimBreaks(buf + Unlines(o.preamble))], o.sections)
  }

  lemma ScanKey(out: map<string, string>, key: string, buf: string, lines: seq<string>)
    requires lines != [] && TopKey(lines[0])
    ensures Scan(out, key, buf, lines) ==
      Scan(if key == "" then out else out[key := TrimBreaks(buf)], KeyOf(lines[0]), RestOf(lines[0]) + "\n", lines[1..])
  {
    hide TopKey, Blob, KeyOf, RestOf, TrimBreaks;
    var o := Parse(lines[1..]);
    var s := Section(lines[0], o.preamble);
    assert Parse(lines).sections == [s] + o.sections;
    assert ([s] + o.sections)[1..] == o.sections;
    assert buf + "" == buf;
    BlobOf(s);
  }

  lemma BlobOf(s: Section)
    ensures Blob(s) == TrimBreaks(RestOf(s.head) + "\n" + Unlines(s.tail))
  {}

  lemma ScanLine(out: map<string, string>, key: string, buf: string, lines: seq<string>)
    requires lines != [] && !TopKey(lines[0])
    ensures Scan(out, key, buf, lines) ==
      Scan(out, key, if key == "" then buf else buf + lines[0] + "\n", lines[1..])
  {
    hide TopKey, TrimBreaks, PutFields;
    var o := Parse(lines[1..]);
    assert Parse(lines) == Outline([lines[0]] + o.preamble, o.sections);
    assert ([lines[0]] + o.preamble)[1..] == o.preamble;
    assert buf + (lines[0] + "\n" + Unlines(o.preamble)) == buf + lines[0] + "\n" + Unlines(o.preamble);
  }

  method SplitFrontmatterFields(fm: string) returns (out: map<string, string>)
    ensures out == Fields(fm)
  {
    out := map[];
    if fm == "" { return; }
    var lines := Split(fm);
    var currentKey := "";
    var buf := "";
    ghost var all := Fields(fm);
    assert all == Scan(map[], "", "", lines);
    assert lines[0..] == lines;
    hide *;
    for i := 0 to |lines|
      invariant Scan(out, currentKey, buf, lines[i..]) == all
    {
      var line := lines[i];
      assert lines[i..][1..] == lines[i + 1..];
      if TopKey(line) {
        ScanKey(out, currentKey, buf, lines[i..]);
        if currentKey != "" { out := out[currentKey := TrimBreaks(buf)]; }
        currentKey := KeyOf(line);
        buf := RestOf(line) + "\n";
        continue;
      }
      ScanLine(out, currentKey, buf, lines[i..]);
      if currentKey != "" {
        buf := buf + line + "\n";
      }
    }
    assert lines[|lines|..] == [];
    ScanEnd(out, currentKey, buf);
    if currentKey != "" { out := out[currentKey := TrimBreaks(buf)]; }
  }

  lemma ScanEnd(out: map<string, string>, key: string, buf: string)
    ensures Scan(out, key, buf, []) == if key == "" then out else out[key := TrimBreaks(buf)]
  {
    assert buf + "" == buf;
  }

  // ---- Fields by their lines ----

  /** The last line of the key is line `i`, and line `j` is the next key line or the end. */
  predicate FieldSpan(lines: seq<string>, key: string, i: nat, j: nat) {
    && i < j <= |lines|
    && TopKey(lines[i]) && KeyOf(lines[i]) == key
    && (forall m :: i < m < j ==> !TopKey(lines[m]))
    && (j < |lines| ==> TopKey(lines[j]))
    && (forall m :: i < m < |lines| && TopKey(lines[m]) ==> KeyOf(lines[m]) != key)
  }

  ghost predicate HasField(lines: seq<string>, key: string) {
    exists i, j :: FieldSpan(lines, key, i, j)
  }

  function SpanLines(lines: seq<string>, i: nat, j: nat): seq<string>
    requires i < j <= |lines|
  {
    [RestOf(lines[i])] + lines[i + 1..j]
  }

  /** Both blocks have the field, with the same lines but for blanks, or neither has it. */
  ghost predicate SameField(b: seq<string>, a: seq<string>, key: string) {
    && (HasField(b, key) <==> HasField(a, key))
    && (forall i, j, p, q :: FieldSpan(b, key, i, j) && FieldSpan(a, key, p, q) ==>
          SameText(SpanLines(b, i, j), SpanLines(a, p, q)))
  }

  predicate NoKey(lines: seq<string>, key: string) {
    forall l :: l in lines && TopKey(l) ==> KeyOf(l) != key
  }

  lemma {:induction false} PutNone(m: map<string, string>, lines: seq<string>, key: string)
    requires key == "" || NoKey(lines, key)
    ensures var r := PutFields(m, Parse(lines).sections);
      (key in r <==> key in m) && (key in r ==> r[key] == m[key])
    decreases |lines|
  {
    hide TopKey, KeyOf, Blob;
    if lines != [] {
      assert lines[0] in lines;
      var o := Parse(lines[1..]);
      if TopKey(lines[0]) {
        var s := Section(lines[0], o.preamble);
        ParseKey(lines);
        assert ([s] + o.sections)[1..] == o.sections;
        PutNone(PutField(m, s), lines[1..], key);
      } else {
        PutNone(m, lines[1..], key);
      }
    }
  }

  lemma PreambleOf(lines: seq<string>, n: nat)
    requires n <= |lines| && NoKeys(lines[..n]) && (n < |lines| ==> TopKey(lines[n]))
    ensures Parse(lines).preamble == lines[..n]
  {
    hide TopKey;
    assert lines == lines[..n] + lines[n..];
    ParsePrepend(lines[..n], lines[n..]);
  }

  lemma {:induction false} PutSpan(m: map<string, string>, lines: seq<string>, key: string, i: nat, j: nat)
    requires key != "" && FieldSpan(lines, key, i, j)
    ensures var r := PutFields(m, Parse(lines).sections);
      key in r && r[key] == Blob(Section(lines[i], lines[i + 1..j]))
    decreases |lines|
  {
    hide TopKey, KeyOf, Blob;
    var rest, o := lines[1..], Parse(lines[1..]);
    if i == 0 {
      SpanHead(lines, key, j);
      PreambleOf(rest, j - 1);
      var s := Section(lines[0], o.preamble);
      ParseKey(lines);
      assert ([s] + o.sections)[1..] == o.sections;
      hide FieldSpan, NoKey;
      PutNone(PutField(m, s), rest, key);
    } else {
      SpanTail(lines, key, i, j);
      hide FieldSpan;
      if TopKey(lines[0]) {
        var s := Section(lines[0], o.preamble);
        ParseKey(lines);
        assert ([s] + o.sections)[1..] == o.sections;
        PutSpan(PutField(m, s), rest, key, i - 1, j - 1);
      } else {
        PutSpan(m, rest, key, i - 1, j - 1);
      }
    }
  }

  lemma SpanHead(lines: seq<string>, key: string, j: nat)
    requires FieldSpan(lines, key, 0, j)
    ensures var rest := lines[1..];
      && rest[..j - 1] == lines[1..j] && NoKeys(rest[..j - 1]) && (j - 1 < |rest| ==> TopKey(rest[j - 1]))
      && NoKey(rest, key)
  {
    hide TopKey, KeyOf;
    var rest := lines[1..];
    assert |rest[..j - 1]| == |lines[1..j]| && forall k :: 0 <= k < j - 1 ==> rest[..j - 1][k] == lines[1..j][k];
    forall l | l in rest[..j - 1] ensures !TopKey(l) {
      var k :| 0 <= k < j - 1 && rest[..j - 1][k] == l;
      assert l == lines[k + 1];
    }
    forall l | l in rest && TopKey(l) ensures KeyOf(l) != key {
      var k :| 0 <= k < |rest| && rest[k] == l;
      assert l == lines[k + 1];
    }
  }

  lemma SpanTail(lines: seq<string>, key: string, i: nat, j: nat)
    requires i > 0 && FieldSpan(lines, key, i, j)
    ensures FieldSpan(lines[1..], key, i - 1, j - 1) && lines[1..][i - 1] == lines[i]
    ensures lines[1..][i..j - 1] == lines[i + 1..j]
  {
    hide TopKey, KeyOf;
    var rest := lines[1..];
    forall m | i - 1 < m < |rest| ensures rest[m] == lines[m + 1] {}
  }

  lemma SpanExists(lines: seq<string>, key: string)
    requires !NoKey(lines, key)
    ensures HasField(lines, key)
  {
    hide TopKey, KeyOf;
    var i := |lines| - 1;
    while !(TopKey(lines[i]) && KeyOf(lines[i]) == key)
      invariant 0 <= i < |lines|
      invariant forall m :: i < m < |lines| && TopKey(lines[m]) ==> KeyOf(lines[m]) != key
      decreases i
    {
      if i == 0 {
        forall l | l in lines && TopKey(l) ensures KeyOf(l) != key {
          var k :| 0 <= k < |lines| && lines[k] == l;
        }
        assert false;
      }
      i := i - 1;
    }
    var j := i + 1;
    while j < |lines| && !TopKey(lines[j])
      invariant i < j <= |lines|
      invariant forall m :: i < m < j ==> !TopKey(lines[m])
    {
      j := j + 1;
    }
    assert FieldSpan(lines, key, i, j);
  }

  lemma FieldsEmpty()
    ensures Fields("") == PutFields(map[], Parse(Split("")).sections)
  {
    assert !TopKey("") && Split("") == [""];
    assert Parse([""][1..]) == Outline([], []);
    ParseBlank();
  }

  lemma ParseBlank()
    ensures Parse([""]).sections == []
  {
    assert [""][1..] == [];
  }

  /** Splitting into fields finds exactly the keys there are, each with its own lines. */
  lemma FieldsBySpan(block: string, key: string)
    ensures key in Fields(block) <==> key != "" && HasField(Split(block), key)
    ensures forall i, j :: key != "" && FieldSpan(Split(block), key, i, j) ==>
      key in Fields(block) && KeptLines(Split(Fields(block)[key])) == KeptLines(SpanLines(Split(block), i, j))
  {
    var lines := Split(block);
    FieldsEmpty();
    assert Fields(block) == PutFields(map[], Parse(lines).sections);
    hide Fields, PutFields, Parse, FieldSpan, KeptLines, Blob, SpanLines, Split;
    if key == "" || NoKey(lines, key) {
      PutNone(map[], lines, key);
      if HasField(lines, key) && key != "" {
        var i, j :| FieldSpan(lines, key, i, j);
        PutSpan(map[], lines, key, i, j);
      }
    } else {
      SpanExists(lines, key);
      var i, j :| FieldSpan(lines, key, i, j);
      PutSpan(map[], lines, key, i, j);
    }
    forall i, j | key != "" && FieldSpan(lines, key, i, j)
      ensures key in Fields(block) && KeptLines(Split(Fields(block)[key])) == KeptLines(SpanLines(lines, i, j))
    {
      PutSpan(map[], lines, key, i, j);
      SpanBlob(lines, key, i, j);
    }
  }

  lemma SpanBlob(lines: seq<string>, key: string, i: nat, j: nat)
    requires FieldSpan(lines, key, i, j) && AllLineFree(lines)
    ensures KeptLines(Split(Blob(Section(lines[i], lines[i + 1..j])))) == KeptLines(SpanLines(lines, i, j))
  {
    var all := SpanLines(lines, i, j);
    RestLineFree(lines[i]);
    forall l | l in lines[i + 1..j] ensures l in lines {
      var k :| i + 1 <= k < j && lines[k] == l;
    }
    assert all[0] == RestOf(lines[i]) && all[1..] == lines[i + 1..j];
    assert Unlines(all) + "" == RestOf(lines[i]) + "\n" + Unlines(lines[i + 1..j]);
    hide TopKey, KeyOf, RestOf, KeptLines, TrimBreaks, Split, Unlines;
    SplitUnlines(all, "");
    SplitOne("");
    KeptSnoc(all, "");
    assert Trim("") == "";
    TrimBreaksKept(Unlines(all) + "");
    BlobOf(Section(lines[i], lines[i + 1..j]));
  }

  lemma RestLineFree(line: string)
    requires LineFree(line)
    ensures LineFree(RestOf(line))
  {
    var colon := IndexOf(line, ':');
    if colon < |line| {
      var r := line[colon + 1..];
      assert forall c :: c in r ==> c in line;
    }
  }

  lemma {:induction false} TrimBreaksKept(s: string)
    ensures KeptLines(Split(TrimBreaks(s))) == KeptLines(Split(s))
    decreases |s|
  {
    hide KeptLines, Split;
    if s != "" && s[|s| - 1] == '\n' {
      var t := s[..|s| - 1];
      TrimBreaksKept(t);
      assert s == t + "\n";
      SplitSnocBreak(t);
      KeptSnoc(Split(t), "");
      assert Trim("") == "";
    }
  }

  lemma {:induction false} SplitSnocBreak(t: string)
    ensures Split(t + "\n") == Split(t) + [""]
  {
    if t == "" {
      SplitBreak();
      assert "" + "\n" == "\n";
      assert Split("") == [""];
    } else {
      assert (t + "\n")[0] == t[0] && (t + "\n")[1..] == t[1..] + "\n";
      SplitSnocBreak(t[1..]);
      SplitPush(t);
      SplitPush(t + "\n");
      hide Split;
      var r := Split(t[1..]);
      assert (r + [""])[0] == r[0] && (r + [""])[1..] == r[1..] + [""];
    }
  }

  // ---- Lists ----

  function ParseYAMLList(blob: string): seq<string> {
    var b := Trim(blob);
    if b == "" then []
    else if HasPrefix(b, "[") && IndexOf(b, ']') < |b| then FlowList(b[1..IndexOf(b, ']')])
    else Items(Split(b))
  }

  /** What is not a closed bracket list is read line by line, from the lines with a dash. */
  lemma DashLines(blob: string)
    requires var b := Trim(blob); !(HasPrefix(b, "[") && ']' in b)
    ensures forall v :: v in ParseYAMLList(blob) <==>
      exists l :: l in Split(Trim(blob)) && HasPrefix(Trim(l), "-") && v in Item(l)
  {
    var b := Trim(blob);
    assert ']' !in b ==> IndexOf(b, ']') == |b|;
    if b == "" {
      assert Split(b) == [""] && Trim("") == "";
    } else {
      ItemsMean(Split(b));
    }
  }

  lemma {:induction false} ItemsMean(lines: seq<string>)
    ensures forall v :: v in Items(lines) <==> exists l :: l in lines && HasPrefix(Trim(l), "-") && v in Item(l)
  {
    hide Trim, StripQuotes;
    if lines != [] {
      ItemsMean(lines[1..]);
      assert lines == [lines[0]] + lines[1..];
      forall v ensures v in Items(lines) <==> exists l :: l in lines && HasPrefix(Trim(l), "-") && v in Item(l) {
        if v in Item(lines[0]) { assert HasPrefix(Trim(lines[0]), "-"); }
      }
    }
  }

  predicate SetSubset(small: seq<string>, big: seq<string>) {
    forall v :: v in small ==> v in big
  }

  /** The values of `after` that are not in `before`, each once, in order. */
  function SetDiff(after: seq<string>, before: seq<string>): (r: seq<string>)
    ensures forall v :: v in r <==> v in after && v !in before
    ensures forall i, j :: 0 <= i < j < |r| ==> r[i] != r[j]
  {
    if after == [] then []
    else
      var v, r := after[|after| - 1], SetDiff(after[..|after| - 1], before);
      assert after == after[..|after| - 1] + [v];
      if v in before || v in r then r else r + [v]
  }

  method SetDiffLoop(after: seq<string>, before: seq<string>) returns (added: seq<string>)
    ensures added == SetDiff(after, before)
  {
    var beforeSet := set v | v in before;
    var seen := {};
    added := [];
    for i := 0 to |after|
      invariant added == SetDiff(after[..i], before)
      invariant seen == set v | v in added
    {
      var v := after[i];
      assert after[..i + 1][..i] == after[..i];
      if v in beforeSet || v in seen { continue; }
      seen := seen + {v};
      added := added + [v];
    }
    assert after[..|after|] == after;
  }

  method SetSubsetLoop(small: seq<string>, big: seq<string>) returns (ok: bool)
    ensures ok == SetSubset(small, big)
  {
    var bigSet := set v | v in big;
    for i := 0 to |small|
      invariant forall k :: 0 <= k < i ==> small[k] in big
    {
      if small[i] !in bigSet { return false; }
    }
    return true;
  }

  // ---- The field guard ----

  /** The controlled vocabulary, and Unicode lower-casing, character by character. */
  datatype Policy = Policy(known: set<string>, lower: char -> char) {
    function Lower(s: string): string {
      if s == "" then "" else [lower(s[0])] + Lower(s[1..])
    }
    predicate HasTag(tag: string) { Lower(Trim(tag)) != "" && Lower(Trim(tag)) in known }
  }

  predicate Under(tag: string, prefix: string) { HasPrefix(tag, prefix) && |tag| > |prefix| }

  /** What a run may add to `tags`. */
  predicate TagAllowed(tag: string, policy: Policy) {
    var clean := policy.Lower(Trim(tag));
    if Under(clean, "topic/") || Under(clean, "skill/") then policy.HasTag(clean)
    else clean == "status/needs-review" || Under(clean, "raw/")
  }

  function StripQuoteChars(s: string): string {
    StripQuoteEnd(StripQuoteStart(s))
  }

  function StripQuoteStart(s: string): string {
    if s != "" && (s[0] == '"' || s[0] == '\'') then StripQuoteStart(s[1..]) else s
  }

  function StripQuoteEnd(s: string): string {
    if s != "" && (s[|s| - 1] == '"' || s[|s| - 1] == '\'') then StripQuoteEnd(s[..|s| - 1]) else s
  }

  predicate LinkAllowed(item: string) {
    var t := StripQuoteChars(Trim(item));
    HasPrefix(t, "[[") && HasSuffix(t, "]]")
  }

  /** A tag a run may add, trimmed and lower-cased: the review tag, something under raw/, or
      something under topic/ or skill/ that is known. */
  ghost predicate TagText(t: string, policy: Policy) {
    || t == "status/needs-review"
    || (exists rest :: rest != "" && t == "raw/" + rest)
    || (policy.Lower(Trim(t)) in policy.known && policy.Lower(Trim(t)) != ""
        && exists rest :: rest != "" && (t == "topic/" + rest || t == "skill/" + rest))
  }

  lemma TagMeans(tag: string, policy: Policy)
    ensures TagAllowed(tag, policy) <==> TagText(policy.Lower(Trim(tag)), policy)
  {
    var t := policy.Lower(Trim(tag));
    UnderMeans(t, "topic/");
    UnderMeans(t, "skill/");
    UnderMeans(t, "raw/");
    if Under(t, "topic/") || Under(t, "skill/") {
      assert !Under(t, "raw/") && t != "status/needs-review" by { assert t[0] != 'r' && t[1] != 't'; }
    }
    hide Under, Trim, Policy.Lower;
  }

  lemma UnderMeans(t: string, prefix: string)
    ensures Under(t, prefix) <==> exists rest :: rest != "" && t == prefix + rest
  {
    if Under(t, prefix) { assert t == prefix + t[|prefix|..]; }
  }

  predicate QuoteChars(s: string) { forall c :: c in s ==> c == '"' || c == '\'' }

  predicate Bracketed(t: string) { |t| >= 4 && HasPrefix(t, "[[") && HasSuffix(t, "]]") }

  /** A wiki link, with quotes around it or without. */
  ghost predicate LinkText(item: string) {
    var s := Trim(item);
    exists i, j :: 0 <= i <= j <= |s| && QuoteChars(s[..i]) && QuoteChars(s[j..]) && Bracketed(s[i..j])
  }

  lemma {:induction false} StripStartParts(s: string) returns (n: nat)
    ensures n <= |s| && QuoteChars(s[..n]) && StripQuoteStart(s) == s[n..]
    ensures n < |s| ==> s[n] != '"' && s[n] != '\''
  {
    n := 0;
    if s != "" && (s[0] == '"' || s[0] == '\'') {
      var m := StripStartParts(s[1..]);
      n := m + 1;
      assert s[..n] == [s[0]] + s[1..][..m];
    }
  }

  lemma {:induction false} StripEndParts(s: string) returns (n: nat)
    ensures n <= |s| && QuoteChars(s[n..]) && StripQuoteEnd(s) == s[..n]
    ensures n > 0 ==> s[n - 1] != '"' && s[n - 1] != '\''
  {
    n := |s|;
    if s != "" && (s[|s| - 1] == '"' || s[|s| - 1] == '\'') {
      var m := StripEndParts(s[..|s| - 1]);
      n := m;
      assert s[n..] == s[..|s| - 1][n..] + [s[|s| - 1]];
    }
  }

  lemma {:induction false} StripStartCut(a: string, s: string)
    requires QuoteChars(a) && s != "" && s[0] != '"' && s[0] != '\''
    ensures StripQuoteStart(a + s) == s
  {
    if a == "" {
      assert a + s == s;
    } else {
      assert a[0] in a && (a + s)[1..] == a[1..] + s;
      assert forall c :: c in a[1..] ==> c in a;
      StripStartCut(a[1..], s);
    }
  }

  lemma {:induction false} StripEndCut(s: string, b: string)
    requires QuoteChars(b) && s != "" && s[|s| - 1] != '"' && s[|s| - 1] != '\''
    ensures StripQuoteEnd(s + b) == s
    decreases |b|
  {
    if b == "" {
      assert s + b == s;
    } else {
      assert b[|b| - 1] in b && (s + b)[..|s + b| - 1] == s + b[..|b| - 1];
      var rest := b[..|b| - 1];
      forall c | c in rest ensures c in b {
        var k :| 0 <= k < |rest| && rest[k] == c;
        assert b[k] == c;
      }
      StripEndCut(s, rest);
    }
  }

  /** The links a run may add are exactly the wiki links. */
  lemma LinkMeans(item: string)
    ensures LinkAllowed(item) <==> LinkText(item)
  {
    if LinkAllowed(item) { LinkTo(item); }
    hide LinkAllowed;
    if LinkText(item) { LinkFrom(item); }
  }

  lemma LinkTo(item: string)
    requires LinkAllowed(item)
    ensures LinkText(item)
  {
    var s := Trim(item);
    var i := StripStartParts(s);
    var n := StripEndParts(s[i..]);
    hide Trim, QuoteChars, StripQuoteStart, StripQuoteEnd;
    var t := s[i..i + n];
    assert s[i..][..n] == t && s[i..][n..] == s[i + n..];
    BracketsApart(t);
  }

  lemma BracketsApart(t: string)
    requires HasPrefix(t, "[[") && HasSuffix(t, "]]")
    ensures Bracketed(t)
  {
    assert t[0] == '[' && t[1] == '[';
    assert t[|t| - 2..][0] == ']' && t[|t| - 2..][1] == ']';
  }

  lemma LinkFrom(item: string)
    requires LinkText(item)
    ensures LinkAllowed(item)
  {
    var s := Trim(item);
    var i, j :| 0 <= i <= j <= |s| && QuoteChars(s[..i]) && QuoteChars(s[j..]) && Bracketed(s[i..j]);
    var t := s[i..j];
    hide Trim, QuoteChars;
    assert t[0] == '[' && t[|t| - 2..][1] == ']';
    assert s == s[..i] + s[i..] && s[i..] == t + s[j..] && s[i..][0] == t[0];
    StripStartCut(s[..i], s[i..]);
    StripEndCut(t, s[j..]);
  }

  const RELATED_APPEND_MAX: nat := 3

  predicate TagsAppend(before: seq<string>, after: seq<string>, policy: Policy) {
    && SetSubset(before, after)
    && forall v :: v in SetDiff(after, before) ==> TagAllowed(v, policy)
  }

  predicate RelatedAppend(before: seq<string>, after: seq<string>) {
    && SetSubset(before, after)
    && |SetDiff(after, before)| <= RELATED_APPEND_MAX
    && forall v :: v in SetDiff(after, before) ==> LinkAllowed(v)
  }

  /** No tag is lost, and each new one is one a run may add. */
  ghost predicate TagsMeant(before: seq<string>, after: seq<string>, policy: Policy) {
    && (forall t :: t in before ==> t in after)
    && (forall t :: t in after && t !in before ==> TagText(policy.Lower(Trim(t)), policy))
  }

  /** No link is lost, at most three are new, and each of them is a wiki link. */
  ghost predicate LinksMeant(before: seq<string>, after: seq<string>) {
    && (forall l :: l in before ==> l in after)
    && |SetDiff(after, before)| <= 3
    && (forall l :: l in after && l !in before ==> LinkText(l))
  }

  lemma TagsMean(before: seq<string>, after: seq<string>, policy: Policy)
    ensures TagsAppend(before, after, policy) <==> TagsMeant(before, after, policy)
  {
    forall t ensures TagAllowed(t, policy) <==> TagText(policy.Lower(Trim(t)), policy) { TagMeans(t, policy); }
    hide TagAllowed, TagText, Trim, Policy.Lower;
  }

  lemma LinksMean(before: seq<string>, after: seq<string>)
    ensures RelatedAppend(before, after) <==> LinksMeant(before, after)
  {
    forall l ensures LinkAllowed(l) <==> LinkText(l) { LinkMeans(l); }
    hide LinkAllowed, LinkText;
  }

  function FieldText(fields: map<string, string>, key: string): string {
    if key in fields then fields[key] else ""
  }

  predicate FieldKept(before: map<string, string>, after: map<string, string>, key: string, policy: Policy) {
    if key !in WRITABLE then
      key in before && key in after && NormalizeBlob(before[key]) == NormalizeBlob(after[key])
    else if key == "tags" then
      TagsAppend(ParseYAMLList(FieldText(before, key)), ParseYAMLList(FieldText(after, key)), policy)
    else if key == "related" then
      RelatedAppend(ParseYAMLList(FieldText(before, key)), ParseYAMLList(FieldText(after, key)))
    else true
  }

  predicate FieldsKept(before: map<string, string>, after: map<string, string>, policy: Policy) {
    forall k :: k in before.Keys + after.Keys ==> FieldKept(before, after, k, policy)
  }

  /** Every field a run may not write is on both sides or on neither, with the same
      lines but for blanks. */
  ghost predicate OthersSame(b: seq<string>, a: seq<string>) {
    forall k :: k != "" && k !in WRITABLE ==> SameField(b, a, k)
  }

  lemma KeySame(b: string, a: string, key: string, policy: Policy)
    requires key != "" && key !in WRITABLE
    ensures (key in Fields(b).Keys + Fields(a).Keys ==> FieldKept(Fields(b), Fields(a), key, policy))
      <==> SameField(Split(b), Split(a), key)
  {
    FieldsBySpan(b, key);
    FieldsBySpan(a, key);
    var bl, al := Split(b), Split(a);
    hide Fields, TopKey, KeyOf, SpanLines, Split, SameText, KeptLines, NormalizeBlob;
    forall i, j, p, q | FieldSpan(bl, key, i, j) && FieldSpan(al, key, p, q)
      ensures NormalizeBlob(Fields(b)[key]) == NormalizeBlob(Fields(a)[key])
        <==> SameText(SpanLines(bl, i, j), SpanLines(al, p, q))
    {
      NormalizedSame(Fields(b)[key], Fields(a)[key]);
      KeptSame(Split(Fields(b)[key]), Split(Fields(a)[key]));
      KeptSame(SpanLines(bl, i, j), SpanLines(al, p, q));
    }
  }

  /** Exactly that is what the guard asks of the fields a run may not write. */
  lemma OthersKept(b: string, a: string, policy: Policy)
    ensures OthersSame(Split(b), Split(a)) <==>
      forall k :: k in Fields(b).Keys + Fields(a).Keys && k !in WRITABLE ==> FieldKept(Fields(b), Fields(a), k, policy)
  {
    var keys := Fields(b).Keys + Fields(a).Keys;
    forall k | k !in WRITABLE
      ensures k == "" ==> k !in keys
      ensures k != "" ==>
        ((k in keys ==> FieldKept(Fields(b), Fields(a), k, policy)) <==> SameField(Split(b), Split(a), k))
    {
      if k == "" {
        FieldsBySpan(b, k);
        FieldsBySpan(a, k);
      } else {
        KeySame(b, a, k, policy);
      }
    }
    hide Fields, FieldKept, SameField, Split;
  }

  datatype GuardError =
    | WrongRisk | NeedsApproval | WrongOperation | WrongTarget | BadPath | BadHash | EmptyContent
    | NoFrontmatter | BodyChanged
    | FieldChanged(field: string) | EntryRemoved | TooManyLinks | BadLink(link: string) | BadTag(tag: string)

  datatype Verdict = Pass | Reject(error: GuardError)

  method ValidateTagsAppend(before: seq<string>, after: seq<string>, policy: Policy) returns (v: Verdict)
    ensures v.Pass? <==> TagsAppend(before, after, policy)
    ensures v.Pass? <==> TagsMeant(before, after, policy)
  {
    TagsMean(before, after, policy);
    hide TagAllowed, TagsMeant;
    var ok := SetSubsetLoop(before, after);
    if !ok { return Reject(EntryRemoved); }
    var added := SetDiffLoop(after, before);
    for i := 0 to |added|
      invariant forall k :: 0 <= k < i ==> TagAllowed(added[k], policy)
    {
      if !TagAllowed(added[i], policy) { return Reject(BadTag(added[i])); }
    }
    return Pass;
  }

  method ValidateRelatedAppend(before: seq<string>, after: seq<string>) returns (v: Verdict)
    ensures v.Pass? <==> RelatedAppend(before, after)
    ensures v.Pass? <==> LinksMeant(before, after)
  {
    LinksMean(before, after);
    hide LinkAllowed, LinksMeant;
    var ok := SetSubsetLoop(before, after);
    if !ok { return Reject(EntryRemoved); }
    var added := SetDiffLoop(after, before);
    if |added| > RELATED_APPEND_MAX { return Reject(TooManyLinks); }
    for i := 0 to |added|
      invariant forall k :: 0 <= k < i ==> LinkAllowed(added[k])
    {
      if !LinkAllowed(added[i]) { return Reject(BadLink(added[i])); }
    }
    return Pass;
  }

  method CheckField(before: map<string, string>, after: map<string, string>, key: string, policy: Policy)
      returns (v: Verdict)
    ensures v.Pass? <==> FieldKept(before, after, key, policy)
  {
    hide TagsAppend, RelatedAppend, ParseYAMLList, NormalizeBlob;
    if key !in WRITABLE {
      if key !in before || key !in after { return Reject(FieldChanged(key)); }
      var b := NormalizeBlobLoop(before[key]);
      var a := NormalizeBlobLoop(after[key]);
      if b != a { return Reject(FieldChanged(key)); }
      return Pass;
    }
    if key == "tags" {
      v := ValidateTagsAppend(ParseYAMLList(FieldText(before, key)), ParseYAMLList(FieldText(after, key)), policy);
    } else if key == "related" {
      v := ValidateRelatedAppend(ParseYAMLList(FieldText(before, key)), ParseYAMLList(FieldText(after, key)));
    } else {
      v := Pass;
    }
  }

  method CheckFieldGuard(beforeFM: string, afterFM: string, policy: Policy) returns (v: Verdict)
    ensures v.Pass? <==> FieldsKept(Fields(beforeFM), Fields(afterFM), policy)
    ensures v.Pass? ==> OthersSame(Split(beforeFM), Split(afterFM))
  {
    OthersKept(beforeFM, afterFM, policy);
    hide Fields, FieldKept;
    var before := SplitFrontmatterFields(beforeFM);
    var after := SplitFrontmatterFields(afterFM);
    var left := before.Keys + after.Keys;
    while left != {}
      invariant left <= before.Keys + after.Keys
      invariant forall k :: k in before.Keys + after.Keys - left ==> FieldKept(before, after, k, policy)
      decreases left
    {
      var k :| k in left;
      v := CheckField(before, after, k, policy);
      if v.Reject? { return; }
      left := left - {k};
    }
    return Pass;
  }

  // ---- The plan check ----

  /** The shape an enrich plan must have before its text is looked at. */
  predicate PlanShape(plan: Plan, target: string) {
    && plan.risk == Low && !plan.requiresApproval && |plan.ops| == 1
    && var op := plan.ops[0];
      && op.kind == RewriteNote && op.risk == Low && op.target == target
      && ValidVaultPath(op.target) && ValidDigest(op.beforeHash)
      && op.payload.Content? && Trim(op.payload.content) != ""
  }

  /** What the guard asks of the two texts. */
  predicate TextsKept(before: string, after: string, policy: Policy, hash: Hasher) {
    var b, a := SplitFrontmatter(before), SplitFrontmatter(after);
    && b.Some? && a.Some?
    && hash(b.value.body) == hash(a.value.body)
    && FieldsKept(Fields(b.value.block), Fields(a.value.block), policy)
  }

  predicate PlanAllowed(plan: Plan, target: string, before: string, policy: Policy, hash: Hasher) {
    PlanShape(plan, target) && TextsKept(before, plan.ops[0].payload.content, policy, hash)
  }

  /** Both notes have frontmatter, and the fields a run may not write are the same. */
  ghost predicate OthersUntouched(before: string, after: string) {
    && SplitFrontmatter(before).Some? && SplitFrontmatter(after).Some?
    && OthersSame(Split(SplitFrontmatter(before).value.block), Split(SplitFrontmatter(after).value.block))
  }

  method CheckEnrichPlan(plan: Plan, target: string, before: string, policy: Policy, hash: Hasher) returns (v: Verdict)
    ensures v.Pass? <==> PlanAllowed(plan, target, before, policy, hash)
    ensures v.Pass? ==> OthersUntouched(before, plan.ops[0].payload.content)
  {
    hide OthersSame, FieldsKept, Fields, SplitFrontmatter, ValidVaultPath, ValidDigest, Trim;
    if plan.risk != Low { return Reject(WrongRisk); }
    if plan.requiresApproval { return Reject(NeedsApproval); }
    if |plan.ops| != 1 { return Reject(WrongOperation); }
    var op := plan.ops[0];
    if op.kind != RewriteNote { return Reject(WrongOperation); }
    if op.risk != Low { return Reject(WrongRisk); }
    if op.target != target { return Reject(WrongTarget); }
    if !ValidVaultPath(op.target) { return Reject(BadPath); }
    if !ValidDigest(op.beforeHash) { return Reject(BadHash); }
    if !op.payload.Content? || Trim(op.payload.content) == "" { return Reject(EmptyContent); }
    var b := SplitFrontmatter(before);
    if b.None? { return Reject(NoFrontmatter); }
    var a := SplitFrontmatter(op.payload.content);
    if a.None? { return Reject(NoFrontmatter); }
    if hash(b.value.body) != hash(a.value.body) { return Reject(BodyChanged); }
    v := CheckFieldGuard(b.value.block, a.value.block, policy);
  }
}
