/** The renderer's boundary rule (findFrontmatterBounds in internal/enrich/render.go) reads
    a note the renderer wrote at the same place again. */
module NoteBoundary {
  import opened Text
  import opened Frontmatter
  import opened EnrichRender

  const FENCE_BREAK: string := "\n---"

  /** Lines of which none but perhaps the first starts like a fence. */
  predicate NoInnerFence(lines: seq<string>) {
    forall k :: 1 <= k < |lines| ==> !HasPrefix(lines[k], "---")
  }

  function Shifted(r: Option<nat>, n: nat): Option<nat> {
    if r.Some? then Some(r.value + n) else None
  }

  // ---- Finding the fence ----

  lemma NoBreakHere(s: string)
    requires s == "" || s[0] != '\n'
    ensures !HasPrefix(s, FENCE_BREAK)
  {
    assert FENCE_BREAK[0] == '\n';
  }

  lemma FindStep(c: char, s: string, p: string)
    requires !HasPrefix([c] + s, p)
    ensures FindText([c] + s, p) == Shifted(FindText(s, p), 1)
  {
    assert ([c] + s)[1..] == s;
    hide HasPrefix;
  }

  lemma {:induction false} FindSkipsLine(l: string, rest: string)
    requires LineFree(l)
    ensures FindText(l + rest, FENCE_BREAK) == Shifted(FindText(rest, FENCE_BREAK), |l|)
  {
    hide FindText, HasPrefix;
    if l == "" {
      assert l + rest == rest;
    } else {
      var more := l[1..] + rest;
      assert l + rest == [l[0]] + more && l[0] in l;
      NoBreakHere([l[0]] + more);
      FindStep(l[0], more, FENCE_BREAK);
      FindSkipsLine(l[1..], rest);
    }
  }

  lemma BreakHere(rest: string)
    ensures HasPrefix("\n" + rest, FENCE_BREAK) <==> HasPrefix(rest, "---")
  {
    var s := "\n" + rest;
    assert FENCE_BREAK == "\n" + "---" && s[1..] == rest && FENCE_BREAK[1..] == "---";
    if |rest| >= 3 {
      assert s[..4] == "\n" + rest[..3];
      assert rest[..3] == s[..4][1..];
    }
  }

  lemma FindAtBreak(rest: string)
    ensures FindText("\n" + rest, FENCE_BREAK) ==
      if HasPrefix(rest, "---") then Some(0) else Shifted(FindText(rest, FENCE_BREAK), 1)
  {
    BreakHere(rest);
    if HasPrefix(rest, "---") {
      assert FindText("\n" + rest, FENCE_BREAK) == Some(0);
    } else {
      assert "\n" + rest == ['\n'] + rest;
      FindStep('\n', rest, FENCE_BREAK);
    }
  }

  lemma LinePrefix(l: string, more: string)
    requires !HasPrefix(l, "---")
    ensures !HasPrefix(l + ("\n" + more), "---")
  {
    var s := l + ("\n" + more);
    if |l| >= 3 {
      assert s[..3] == l[..3];
    } else {
      assert s[|l|] == '\n' && "---"[|l|] == '-';
    }
  }

  /** The lines, each with its break, and the suffix behind them. */
  function Laid(lines: seq<string>, suffix: string): string {
    if lines == [] then suffix else lines[0] + ("\n" + Laid(lines[1..], suffix))
  }

  lemma {:induction false} LaidIs(lines: seq<string>, suffix: string)
    ensures Laid(lines, suffix) == Unlines(lines) + suffix
  {
    if lines != [] {
      LaidIs(lines[1..], suffix);
      Regroup4(lines[0], "\n", Unlines(lines[1..]), suffix);
    }
  }

  lemma Regroup4(a: string, b: string, c: string, d: string)
    ensures a + (b + (c + d)) == a + b + c + d
  {}

  lemma RestOfLines(lines: seq<string>)
    requires lines != [] && AllLineFree(lines) && NoInnerFence(lines)
    ensures AllLineFree(lines[1..]) && NoInnerFence(lines[1..]) && LineFree(lines[0])
    ensures |lines| > 1 ==> !HasPrefix(lines[1..][0], "---")
  {
    var rest := lines[1..];
    assert forall k :: 0 <= k < |rest| ==> rest[k] == lines[k + 1];
  }

  lemma FindOne(l: string, suffix: string)
    requires LineFree(l) && HasPrefix(suffix, "---")
    ensures FindText(l + ("\n" + suffix), FENCE_BREAK) == Some(|l|)
  {
    hide *;
    FindSkipsLine(l, "\n" + suffix);
    FindAtBreak(suffix);
    ShiftedOnce(FindText("\n" + suffix, FENCE_BREAK), |l|);
  }

  lemma FindMore(l: string, more: string, n: nat)
    requires LineFree(l) && !HasPrefix(more, "---") && FindText(more, FENCE_BREAK) == Some(n)
    ensures FindText(l + ("\n" + more), FENCE_BREAK) == Some(|l| + 1 + n)
  {
    hide *;
    FindSkipsLine(l, "\n" + more);
    FindAtBreak(more);
    ShiftedOnce(FindText("\n" + more, FENCE_BREAK), |l|);
    ShiftedOnce(FindText(more, FENCE_BREAK), 1);
  }

  lemma LaidFirst(lines: seq<string>, suffix: string)
    requires lines != []
    ensures Laid(lines, suffix) == lines[0] + ("\n" + Laid(lines[1..], suffix))
    ensures |Unlines(lines)| == |lines[0]| + 1 + |Unlines(lines[1..])|
  {
    UnlinesLength(lines);
    hide Unlines;
  }

  lemma UnlinesLength(lines: seq<string>)
    requires lines != []
    ensures |Unlines(lines)| == |lines[0]| + 1 + |Unlines(lines[1..])|
  {}

  lemma LaidNone(suffix: string)
    ensures Laid([], suffix) == suffix && |Unlines([])| == 0
  {}

  /** The first fence behind the lines is where they end. */
  lemma {:induction false} FindsSuffix(lines: seq<string>, suffix: string)
    requires lines != [] && AllLineFree(lines) && NoInnerFence(lines) && HasPrefix(suffix, "---")
    ensures |Unlines(lines)| > 0 && FindText(Laid(lines, suffix), FENCE_BREAK) == Some(|Unlines(lines)| - 1)
  {
    hide *;
    var rest := lines[1..];
    RestOfLines(lines);
    LaidFirst(lines, suffix);
    if rest == [] {
      LaidNone(suffix);
      FindOne(lines[0], suffix);
    } else {
      LaidFirst(rest, suffix);
      LinePrefix(rest[0], Laid(rest[1..], suffix));
      FindsSuffix(rest, suffix);
      FindMore(lines[0], Laid(rest, suffix), |Unlines(rest)| - 1);
    }
  }

  lemma ShiftedOnce(r: Option<nat>, n: nat)
    ensures Shifted(r, n) == if r.Some? then Some(r.value + n) else None
  {}

  // ---- Notes ----

  /** A note put together from such lines is split at the same place. */
  lemma NoteOfText(note: Note)
    requires note.lines != [] && AllLineFree(note.lines) && NoInnerFence(note.lines) && HasPrefix(note.suffix, "---")
    ensures NoteOf(note.Text()) == Some(note)
  {
    var block := Unlines(note.lines);
    FindsSuffix(note.lines, note.suffix);
    LaidIs(note.lines, note.suffix);
    LinesOnce(note.lines);
    TextParts(block, note.suffix);
    hide FindText, Unlines, Laid, AllLineFree, NoInnerFence, BlockLines;
    EndAt(note.Text(), block, note.suffix);
    hide BlockEndOf;
  }

  lemma TextParts(block: string, suffix: string)
    ensures var text := "---\n" + block + suffix;
      text[..4] == "---\n" && text[4..] == block + suffix && HasPrefix(text, "---\n")
  {}

  lemma EndAt(text: string, block: string, suffix: string)
    requires HasPrefix(text, "---\n") && text[4..] == block + suffix && |block| > 0
    requires FindText(block + suffix, FENCE_BREAK) == Some(|block| - 1)
    ensures BlockEndOf(text) == Some(4 + |block|)
    ensures text[4..4 + |block|] == block && text[4 + |block|..] == suffix
  {
    hide FindText;
    assert text[4..][..|block|] == block && text[4..][|block|..] == suffix;
  }

  lemma LinesOnce(lines: seq<string>)
    requires lines != [] && AllLineFree(lines)
    ensures Unlines(lines) != "" && Unlines(lines)[|Unlines(lines)| - 1] == '\n' && BlockLines(Unlines(lines)) == lines
  {
    UnlinesEnd(lines);
    SplitUnlines(lines, "");
    assert Unlines(lines) + "" == Unlines(lines) && Split("") == [""];
    assert (lines + [""])[..|lines|] == lines;
  }

  lemma {:induction false} UnlinesEnd(lines: seq<string>)
    requires lines != []
    ensures Unlines(lines) != "" && Unlines(lines)[|Unlines(lines)| - 1] == '\n'
  {
    if |lines| > 1 { UnlinesEnd(lines[1..]); }
  }

  // ---- What the renderer reads and writes ----

  lemma {:induction false} FoundFirst(s: string, p: string, i: nat)
    requires i <= |s| && HasPrefix(s[i..], p)
    ensures FindText(s, p).Some? && FindText(s, p).value <= i
  {
    if !HasPrefix(s, p) {
      assert s[0..] == s;
      assert s[i..] == s[1..][i - 1..];
      FoundFirst(s[1..], p, i - 1);
    } else {
      assert FindText(s, p) == Some(0);
    }
  }

  /** The lines of a note never start like a fence, but for the first. */
  lemma NoteInner(content: string)
    requires NoteOf(content).Some?
    ensures NoInnerFence(NoteOf(content).value.lines)
  {
    var note := NoteOf(content).value;
    var lines, text := note.lines, content[4..];
    BoundaryAt(content);
    hide NoteOf, FindText, Unlines;
    forall k | 1 <= k < |lines| ensures !HasPrefix(lines[k], "---") {
      if HasPrefix(lines[k], "---") { InnerFound(lines, k, note.suffix); }
    }
  }

  lemma BoundaryAt(content: string)
    requires NoteOf(content).Some?
    ensures BlockEndOf(content).Some? && FindText(content[4..], FENCE_BREAK).Some?
    ensures FindText(content[4..], FENCE_BREAK).value == BlockEndOf(content).value - 5
    ensures FindText(content[4..], FENCE_BREAK).value == |Unlines(NoteOf(content).value.lines)| - 1
    ensures content[4..] == Unlines(NoteOf(content).value.lines) + NoteOf(content).value.suffix
  {
    hide FindText, BlockLines;
    var note := NoteOf(content).value;
    assert content == "---\n" + Unlines(note.lines) + note.suffix;
    assert content[4..] == Unlines(note.lines) + note.suffix;
  }

  lemma InnerFound(lines: seq<string>, k: nat, suffix: string)
    requires 1 <= k < |lines| && HasPrefix(lines[k], "---")
    ensures var text := Unlines(lines) + suffix;
      FindText(text, FENCE_BREAK).Some? && FindText(text, FENCE_BREAK).value < |Unlines(lines)| - 1
  {
    var front, back := lines[..k], lines[k..];
    assert lines == front + back;
    UnlinesAppend(front, back);
    UnlinesEnd(front);
    LaidIs(back, suffix);
    assert back[0] == lines[k] && Laid(back, suffix) == back[0] + ("\n" + Laid(back[1..], suffix));
    var a, b := Unlines(front), Laid(back, suffix);
    var text := Unlines(lines) + suffix;
    hide Unlines, FindText, Laid;
    assert text == a + b;
    var i := |a| - 1;
    assert text[i..] == "\n" + b;
    assert HasPrefix(b, "---");
    BreakHere(b);
    FoundFirst(text, FENCE_BREAK, i);
  }

  /** A line that neither carries a break nor starts like a fence. */
  predicate Safe(l: string) { LineFree(l) && !HasPrefix(l, "---") }

  predicate AllSafe(lines: seq<string>) { forall l :: l in lines ==> Safe(l) }

  lemma {:induction false} EscapeFree(v: string)
    ensures '\n' !in Escape(v)
  {
    if v != "" {
      EscapeFree(v[1..]);
      assert '\n' !in EscapeChar(v[0]);
    }
  }

  lemma QuotedFree(v: string)
    ensures LineFree(QuoteIfNeeded(v))
  {
    EscapeFree(v);
    hide Contains;
  }

  lemma LedSafe(lead: string, text: string)
    requires lead != "" && lead[0] != '-' && LineFree(lead) && LineFree(text)
    ensures Safe(lead + text)
  {
    assert (lead + text)[0] == lead[0] && "---"[0] == '-';
  }

  lemma {:induction false} ItemLinesSafe(values: seq<string>)
    ensures AllSafe(ItemLines(values))
  {
    hide QuoteIfNeeded, Safe;
    if values != [] {
      ItemLinesSafe(values[1..]);
      QuotedFree(values[0]);
      LedSafe("  - ", QuoteIfNeeded(values[0]));
    }
  }

  lemma ListSectionSafe(key: string, values: seq<string>)
    requires key != "" && key[0] != '-' && LineFree(key)
    ensures AllSafe(ListSection(key, values).Lines())
  {
    ItemLinesSafe(values);
    LedSafe(key, ": []");
    LedSafe(key, ":");
    hide Safe, ItemLines;
  }

  lemma ScalarSectionSafe(key: string, value: string)
    requires key != "" && key[0] != '-' && LineFree(key)
    ensures AllSafe(ScalarSection(key, value).Lines())
  {
    QuotedFree(Trim(value));
    hide QuoteIfNeeded, Trim;
    assert LineFree(ScalarText(value)) && LineFree(key + ": ");
    assert (key + ": ")[0] == key[0];
    LedSafe(key + ": ", ScalarText(value));
    hide Safe, ScalarText;
  }

  lemma NamesSafe()
    ensures forall k :: k in PRIVATE_KEYS || k == "tags" || k == "related" ==> k != "" && k[0] != '-' && LineFree(k)
  {
    assert LineFree("openwhisker_route_suggestion") && LineFree("openwhisker_new_tag_candidates");
    assert LineFree("openwhisker_enriched_at") && LineFree("openwhisker_enrich_run_id")
      && LineFree("openwhisker_enrich_attempts");
    assert LineFree("tags") && LineFree("related");
    hide LineFree;
  }

  lemma RenderSectionSafe(s: Section, adds: Additions)
    requires adds.Valid() && AllSafe(s.Lines())
    ensures AllSafe(RenderSection(s, adds).Lines())
  {
    NamesSafe();
    hide Safe, LineFree, KeyOf, RestOf, ExistingEntries, MergeUnique, ListSection, ScalarSection;
    var existing := ExistingEntries(RestOf(s.head), s.tail);
    var n := BlockLen(s.tail);
    forall l | l in s.tail[..n] || l in s.tail[n..] || l == s.head ensures Safe(l) { assert l in s.Lines(); }
    ListSectionSafe("tags", MergeUnique(existing, adds.tags));
    ListSectionSafe("related", MergeUnique(existing, adds.related));
    if s.Key() in adds.fields { ScalarSectionSafe(s.Key(), adds.fields[s.Key()]); }
    var block := RenderBlock(s.head, s.tail, adds);
    assert AllSafe(block.Lines());
    hide RenderBlock;
    forall l | l in RenderSection(s, adds).Lines() ensures Safe(l) {
      assert l in block.Lines() || l in s.tail[n..];
    }
  }

  lemma {:induction false} FlattenSafe(secs: seq<Section>)
    requires forall s :: s in secs ==> AllSafe(s.Lines())
    ensures AllSafe(Flatten(secs))
  {
    hide Safe;
    if secs != [] {
      assert secs[0] in secs && forall s :: s in secs[1..] ==> s in secs;
      FlattenSafe(secs[1..]);
    }
  }

  lemma {:induction false} PrivateSafe(keys: seq<string>, written: set<string>, fields: map<string, string>)
    requires forall k :: k in keys ==> k in PRIVATE_KEYS
    ensures forall s :: s in PrivateSections(keys, written, fields) ==> AllSafe(s.Lines())
  {
    NamesSafe();
    hide AllSafe, ScalarSection, Trim, LineFree;
    if keys != [] {
      assert keys[0] in keys && forall k :: k in keys[1..] ==> k in keys;
      PrivateSafe(keys[1..], written, fields);
      if keys[0] in fields { ScalarSectionSafe(keys[0], fields[keys[0]]); }
    }
  }

  lemma AppendedSafe(written: set<string>, adds: Additions)
    ensures AllSafe(Flatten(Appended(written, adds)))
  {
    NamesSafe();
    ListSectionSafe("tags", adds.tags);
    ListSectionSafe("related", adds.related);
    PrivateSafe(PRIVATE_KEYS, written, adds.fields);
    hide AllSafe, ListSection, PrivateSections, LineFree;
    FlattenSafe(Appended(written, adds));
  }

  /** Sections whose lines, but perhaps the very first, are safe: that first line is a
      key line, so it is safe as well. */
  lemma {:induction false} SectionsSafe(secs: seq<Section>)
    requires WellFormedAll(secs) && AllLineFree(Flatten(secs)) && NoInnerFence(Flatten(secs))
    ensures forall s :: s in secs ==> AllSafe(s.Lines())
    decreases |secs|
  {
    if secs != [] {
      var s, rest := secs[0], secs[1..];
      var lines := Flatten(secs);
      assert s in secs && forall x :: x in rest ==> x in secs;
      assert lines == [s.head] + (s.tail + Flatten(rest)) && lines[0] == s.head;
      KeyLineSafe(s.head);
      LaterSafe(lines, s.head, s.tail, Flatten(rest));
      hide TopKey;
      SectionsSafe(rest);
      assert secs == [s] + rest;
    }
  }

  lemma KeyLineSafe(l: string)
    requires TopKey(l)
    ensures !HasPrefix(l, "---")
  {
    assert "---"[0] == '-';
  }

  lemma LaterSafe(lines: seq<string>, head: string, tail: seq<string>, more: seq<string>)
    requires lines == [head] + (tail + more) && AllLineFree(lines) && NoInnerFence(lines) && !HasPrefix(head, "---")
    ensures AllSafe([head] + tail) && AllLineFree(more) && NoInnerFence(more)
  {
    hide LineFree, HasPrefix;
    assert head == lines[0] && lines[0] in lines;
    forall l | l in tail ensures Safe(l) {
      var k :| 0 <= k < |tail| && tail[k] == l;
      assert lines[k + 1] == l;
    }
    forall k | 0 <= k < |more| ensures LineFree(more[k]) && !HasPrefix(more[k], "---") {
      assert lines[1 + |tail| + k] == more[k];
    }
  }

  lemma JoinedInner(a: seq<string>, b: seq<string>)
    requires AllLineFree(a) && NoInnerFence(a) && AllSafe(b)
    ensures AllLineFree(a + b) && NoInnerFence(a + b)
  {
    hide LineFree, HasPrefix;
    forall k | 0 <= k < |a + b| ensures LineFree((a + b)[k]) && (k >= 1 ==> !HasPrefix((a + b)[k], "---")) {
      if k < |a| {
        assert (a + b)[k] == a[k] && a[k] in a;
      } else {
        assert (a + b)[k] == b[k - |a|] && b[k - |a|] in b;
      }
    }
  }

  lemma FrontInner(a: seq<string>, b: seq<string>)
    requires AllLineFree(a + b) && NoInnerFence(a + b)
    ensures AllLineFree(a) && NoInnerFence(a) && AllLineFree(b) && NoInnerFence(b)
  {
    hide LineFree, HasPrefix;
    forall k | 0 <= k < |a| ensures LineFree(a[k]) && (k >= 1 ==> !HasPrefix(a[k], "---")) {
      assert (a + b)[k] == a[k];
    }
    forall k | 0 <= k < |b| ensures LineFree(b[k]) && (k >= 1 ==> !HasPrefix(b[k], "---")) {
      assert (a + b)[|a| + k] == b[k];
    }
  }

  lemma RenderedSafe(secs: seq<Section>, adds: Additions)
    requires adds.Valid() && forall s :: s in secs ==> AllSafe(s.Lines())
    ensures AllSafe(Flatten(RenderSections(secs, adds)))
  {
    hide AllSafe, RenderSection, Additions.Valid;
    var r := RenderSections(secs, adds);
    forall s | s in r ensures AllSafe(s.Lines()) {
      var i :| 0 <= i < |r| && r[i] == s;
      assert secs[i] in secs;
      RenderSectionSafe(secs[i], adds);
    }
    FlattenSafe(r);
  }

  /** Whatever is added, rendered lines keep their breaks and hold no new fence. */
  lemma RenderedInner(lines: seq<string>, adds: Additions)
    requires adds.Valid() && AllLineFree(lines) && NoInnerFence(lines)
    ensures AllLineFree(Rendered(lines, adds)) && NoInnerFence(Rendered(lines, adds))
  {
    var o := Parse(lines);
    ParseWellFormed(lines);
    ParseCoversLines(lines);
    assert o.Lines() == o.preamble + Flatten(o.sections) && WellFormedAll(o.sections);
    var secs, more := Flatten(RenderSections(o.sections, adds)), Flatten(Appended(Written(o.sections, adds), adds));
    assert Rendered(lines, adds) ==
      o.preamble + Flatten(RenderSections(o.sections, adds) + Appended(Written(o.sections, adds), adds));
    hide *;
    FrontInner(o.preamble, Flatten(o.sections));
    SectionsSafe(o.sections);
    RenderedSafe(o.sections, adds);
    AppendedSafe(Written(o.sections, adds), adds);
    FlattenAppend(RenderSections(o.sections, adds), Appended(Written(o.sections, adds), adds));
    JoinedInner(o.preamble, secs);
    JoinedInner(o.preamble + secs, more);
    Regroup(o.preamble, secs, more);
  }

  lemma Regroup<T>(a: seq<T>, b: seq<T>, c: seq<T>)
    ensures a + (b + c) == a + b + c
  {}

  /** Rendering keeps the boundary, for any note and any additions: the result is split
      again into the rendered lines and the same text from the closing fence on. */
  lemma RenderKeepsBoundary(content: string, adds: Additions)
    requires NoteOf(content).Some? && adds.Valid()
    ensures RenderNote(content, adds).Some?
    ensures var note := NoteOf(content).value;
      NoteOf(RenderNote(content, adds).value) == Some(note.(lines := Rendered(note.lines, adds)))
  {
    var note := NoteOf(content).value;
    NoteInner(content);
    RenderedInner(note.lines, adds);
    RenderedNonEmpty(note.lines, adds);
    hide NoteOf, Rendered, AllLineFree, NoInnerFence;
    NoteOfText(note.(lines := Rendered(note.lines, adds)));
  }

  lemma RenderedNonEmpty(lines: seq<string>, adds: Additions)
    requires lines != []
    ensures Rendered(lines, adds) != []
  {
    hide RenderSection, Appended, TopKey;
    ParseCoversLines(lines);
    var o := Parse(lines);
    if o.preamble == [] {
      assert o.sections != [];
      var r := RenderOutline(o, adds);
      assert Flatten(r.sections) != [];
    }
  }
}
