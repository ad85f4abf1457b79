/** The renderer and the guard agree: main results. */
module EnrichAgreement {
  import opened Text
  import opened Blobs
  import opened Frontmatter
  import opened Plans
  import opened EnrichRender
  import opened EnrichGuard
  import opened ListReading
  import NoteBoundary

  // ---- The two boundary rules ----

  /** The renderer closes the block at the first line starting with the fence,
      the guard at the first line trimming to it: they agree when no line inside
      trims to it and the closing line does. */
  predicate CleanBoundary(note: Note) {
    && (forall l :: l in note.lines ==> Trim(l) != "---")
    && NoReturns(note.lines)
    && Trim(Split(NormalizeNewlines(note.suffix))[0]) == "---"
  }

  function BodyOf(suffix: string): string { Join(Split(NormalizeNewlines(suffix))[1..]) }

  lemma GuardSplit(note: Note)
    requires AllLineFree(note.lines) && CleanBoundary(note)
    ensures SplitFrontmatter(note.Text()) == Some(Split2(Join(note.lines), BodyOf(note.suffix)))
  {
    var tail := NormalizeNewlines(note.suffix);
    var text := "---\n" + Unlines(note.lines) + tail;
    assert NormalizeNewlines(note.Text()) == text && Split(text) == ["---"] + note.lines + Split(tail) by {
      FencedText(note.lines, note.suffix);
    }
    assert text == "---\n" + (Unlines(note.lines) + tail);
    FenceHead(text, Unlines(note.lines) + tail);
    FirstFence(note.lines, Split(tail));
    hide Trim, NormalizeNewlines, Split, Unlines, ClosingFence, Join;
    var lines := ["---"] + note.lines + Split(tail);
    assert lines[1..|note.lines| + 1] == note.lines;
    assert lines[|note.lines| + 2..] == Split(tail)[1..];
  }

  lemma FencedText(lines: seq<string>, suffix: string)
    requires AllLineFree(lines) && NoReturns(lines)
    ensures var text := "---\n" + Unlines(lines) + NormalizeNewlines(suffix);
      NormalizeNewlines("---\n" + Unlines(lines) + suffix) == text
      && Split(text) == ["---"] + lines + Split(NormalizeNewlines(suffix))
  {
    FenceLine();
    hide EndsInReturn, LineFree, NormalizeNewlines, Split;
    var all := ["---"] + lines;
    var tail := NormalizeNewlines(suffix);
    assert all[1..] == lines;
    assert Unlines(all) == "---" + "\n" + Unlines(lines);
    assert Unlines(all) == "---\n" + Unlines(lines);
    NormalizeUnlines(all, suffix);
    SplitUnlines(all, tail);
  }

  lemma FenceLine()
    ensures LineFree("---") && !EndsInReturn("---")
  {}

  lemma FenceHead(text: string, more: string)
    requires text == "---\n" + more
    ensures TrimPrefix(text, "\U{FEFF}") == text && HasPrefix(text, "---\n")
  {
    assert text[0] == '-' && "\U{FEFF}"[0] != '-';
  }

  lemma {:induction false} FenceAt(all: seq<string>, i: nat, k: nat)
    requires i <= k < |all| && Trim(all[k]) == "---"
    requires forall j :: i <= j < k ==> Trim(all[j]) != "---"
    ensures ClosingFence(all, i) == Some(k)
    decreases k - i
  {
    hide Trim;
    if i < k { FenceAt(all, i + 1, k); }
  }

  lemma FirstFence(lines: seq<string>, rest: seq<string>)
    requires (forall l :: l in lines ==> Trim(l) != "---") && rest != [] && Trim(rest[0]) == "---"
    ensures ClosingFence(["---"] + lines + rest, 1) == Some(|lines| + 1)
  {
    hide *;
    var all := ["---"] + lines + rest;
    LineAfterFence("---", lines, rest);
    FenceAt(all, 1, |lines| + 1);
  }

  lemma LineAfterFence<T>(head: T, lines: seq<T>, rest: seq<T>)
    requires rest != []
    ensures var all := [head] + lines + rest;
      all[|lines| + 1] == rest[0] && forall k :: 1 <= k <= |lines| ==> all[k] in lines
  {
    var all := [head] + lines + rest;
    forall k | 1 <= k <= |lines| ensures all[k] in lines { assert all[k] == lines[k - 1]; }
  }

  lemma FieldsOfLines(lines: seq<string>)
    requires AllLineFree(lines) && lines != []
    ensures Fields(Join(lines)) == PutFields(map[], Parse(lines).sections)
  {
    SplitJoin(lines);
    if Join(lines) == "" {
      assert Split("") == [""];
      assert lines == [""];
      assert Parse([""][1..]).sections == [];
      assert Parse([""]).sections == [];
    }
  }

  // ---- Fields by their last section ----

  function LastWith(secs: seq<Section>, key: string): (r: Option<Section>)
    ensures r.Some? ==> r.value in secs && r.value.Key() == key
    ensures r.None? ==> forall s :: s in secs ==> s.Key() != key
  {
    if secs == [] then None
    else
      var r := LastWith(secs[1..], key);
      assert secs == [secs[0]] + secs[1..];
      if r.Some? then r else if secs[0].Key() == key then Some(secs[0]) else None
  }

  lemma {:induction false} PutFieldsLast(m: map<string, string>, secs: seq<Section>, key: string)
    requires key != ""
    ensures key in PutFields(m, secs) <==> key in m || LastWith(secs, key).Some?
    ensures LastWith(secs, key).Some? ==> PutFields(m, secs)[key] == Blob(LastWith(secs, key).value)
    ensures LastWith(secs, key).None? && key in m ==> PutFields(m, secs)[key] == m[key]
    decreases |secs|
  {
    hide Blob, KeyOf;
    if secs != [] {
      PutFieldsLast(PutField(m, secs[0]), secs[1..], key);
    }
  }

  lemma {:induction false} PutFieldsNamed(m: map<string, string>, secs: seq<Section>)
    requires "" !in m
    ensures "" !in PutFields(m, secs)
    decreases |secs|
  {
    hide Blob, KeyOf;
    if secs != [] { PutFieldsNamed(PutField(m, secs[0]), secs[1..]); }
  }

  lemma {:induction false} LastWithAppend(a: seq<Section>, b: seq<Section>, key: string)
    ensures LastWith(a + b, key) == if LastWith(b, key).Some? then LastWith(b, key) else LastWith(a, key)
  {
    hide KeyOf;
    if a == [] {
      assert a + b == b;
    } else {
      assert (a + b)[1..] == a[1..] + b;
      LastWithAppend(a[1..], b, key);
    }
  }

  // ---- Rendered sections ----

  /** Lower-case letters and underscores only. */
  predicate LowerName(k: string) {
    forall i :: 0 <= i < |k| ==> 'a' <= k[i] <= 'z' || k[i] == '_'
  }

  lemma LowerNamePlain(k: string)
    requires k != "" && LowerName(k)
    ensures PlainKey(k) && LineFree(k)
  {}

  lemma RunNames()
    ensures LowerName("openwhisker_enriched_at") && LowerName("openwhisker_enrich_run_id")
    ensures LowerName("openwhisker_enrich_attempts")
  {}

  lemma SuggestionNames()
    ensures LowerName("openwhisker_route_suggestion") && LowerName("openwhisker_new_tag_candidates")
  {}

  lemma PrivateKeysPlain()
    ensures forall k :: k in PRIVATE_KEYS ==> PlainKey(k) && LineFree(k) && k in WRITABLE && k[0] == 'o'
  {
    hide PlainKey;
    RunNames();
    SuggestionNames();
    hide LowerName;
    forall k | k in PRIVATE_KEYS ensures PlainKey(k) && LineFree(k) && k in WRITABLE && k[0] == 'o' {
      assert LowerName(k) && k != "" && k[0] == 'o';
      LowerNamePlain(k);
    }
  }

  lemma ListKeysPlain()
    ensures PlainKey("tags") && PlainKey("related") && LineFree("tags") && LineFree("related")
  {}

  lemma ListSectionKey(key: string, values: seq<string>)
    requires PlainKey(key)
    ensures TopKey(ListSection(key, values).head) && ListSection(key, values).Key() == key
  {
    HeadLine(key, "[]");
    assert key + ": " + "[]" == key + ": []";
  }

  lemma RenderSectionKey(s: Section, adds: Additions)
    requires adds.Valid() && s.WellFormed()
    ensures RenderSection(s, adds).Key() == s.Key() && TopKey(RenderSection(s, adds).head)
  {
    hide TopKey, KeyOf, RestOf, ExistingEntries, MergeUnique, BlockLen, PlainKey, ListSection, ScalarText, ItemLines;
    var existing := ExistingEntries(RestOf(s.head), s.tail);
    if s.Key() == "tags" {
      ListKeysPlain();
      ListSectionKey("tags", MergeUnique(existing, adds.tags));
    } else if s.Key() == "related" {
      ListKeysPlain();
      ListSectionKey("related", MergeUnique(existing, adds.related));
    } else if s.Key() in adds.fields {
      PrivateKeysPlain();
      HeadLine(s.Key(), ScalarText(adds.fields[s.Key()]));
    }
  }

  lemma UnmanagedSection(s: Section, adds: Additions)
    requires !Managed(s.Key(), adds)
    ensures RenderSection(s, adds) == s
  {
    hide TopKey, KeyOf, RestOf, ExistingEntries, MergeUnique;
    var n := BlockLen(s.tail);
    assert s.tail[..n] + s.tail[n..] == s.tail;
  }

  lemma {:induction false} LastRendered(secs: seq<Section>, adds: Additions, key: string)
    requires adds.Valid() && WellFormedAll(secs)
    ensures LastWith(RenderSections(secs, adds), key) ==
      match LastWith(secs, key) case None => None case Some(s) => Some(RenderSection(s, adds))
  {
    hide KeyOf, RenderSection, Section.WellFormed;
    if secs != [] {
      assert secs[0] in secs;
      RenderSectionKey(secs[0], adds);
      LastRendered(secs[1..], adds, key);
      assert RenderSections(secs, adds)[1..] == RenderSections(secs[1..], adds);
    }
  }

  lemma {:induction false} PrivateSectionsKeys(keys: seq<string>, written: set<string>, fields: map<string, string>)
    requires forall k :: k in keys ==> PlainKey(k)
    ensures forall s :: s in PrivateSections(keys, written, fields) ==>
      s.Key() in keys && TopKey(s.head) && s.tail == []
  {
    hide KeyOf, TopKey, PlainKey, ScalarText;
    if keys != [] {
      assert forall k :: k in keys[1..] ==> k in keys;
      PrivateSectionsKeys(keys[1..], written, fields);
      if keys[0] in fields {
        HeadLine(keys[0], ScalarText(fields[keys[0]]));
      }
    }
  }

  lemma LastOfThree(a: seq<Section>, b: seq<Section>, c: seq<Section>, key: string)
    requires |a| <= 1 && |b| <= 1
    requires key !in PRIVATE_KEYS && forall s :: s in c ==> s.Key() in PRIVATE_KEYS
    ensures LastWith(a + b + c, key) ==
      if b != [] && b[0].Key() == key then Some(b[0])
      else if a != [] && a[0].Key() == key then Some(a[0]) else None
  {
    hide KeyOf, LastWith;
    LastWithAppend(a + b, c, key);
    LastWithAppend(a, b, key);
    LastOfOne(a, key);
    LastOfOne(b, key);
    LastOfNone(c, key);
  }

  lemma AppendedParts(written: set<string>, adds: Additions)
    ensures var a, b, c := MissingList("tags", adds.tags, written), MissingList("related", adds.related, written),
                           PrivateSections(PRIVATE_KEYS, written, adds.fields);
      && Appended(written, adds) == a + b + c
      && (a != [] ==> a[0].Key() == "tags") && (b != [] ==> b[0].Key() == "related")
      && (forall s :: s in c ==> s.Key() in PRIVATE_KEYS)
  {
    PrivateKeysPlain();
    ListKeysPlain();
    ListSectionKey("tags", adds.tags);
    ListSectionKey("related", adds.related);
    PrivateSectionsKeys(PRIVATE_KEYS, written, adds.fields);
    hide KeyOf, TopKey, PlainKey, ListSection, PrivateSections;
  }

  /** Below the last section only writable keys are added, and of the two lists
      only a missing one. */
  lemma LastAppended(written: set<string>, adds: Additions, key: string)
    ensures key !in WRITABLE ==> LastWith(Appended(written, adds), key) == None
    ensures LastWith(Appended(written, adds), "tags") ==
      if "tags" !in written && adds.tags != [] then Some(ListSection("tags", adds.tags)) else None
    ensures LastWith(Appended(written, adds), "related") ==
      if "related" !in written && adds.related != [] then Some(ListSection("related", adds.related)) else None
  {
    AppendedParts(written, adds);
    LastOfNone([], key);
    hide KeyOf, ListSection, PrivateSections, LastWith, Appended;
    var a, b, c := MissingList("tags", adds.tags, written), MissingList("related", adds.related, written),
                   PrivateSections(PRIVATE_KEYS, written, adds.fields);
    LastOfThree(a, b, c, "tags");
    LastOfThree(a, b, c, "related");
    if key !in WRITABLE { LastOfThree(a, b, c, key); }
    assert "tags"[0] != "related"[0];
  }

  lemma LastOfOne(secs: seq<Section>, key: string)
    requires |secs| <= 1
    ensures LastWith(secs, key) == if secs != [] && secs[0].Key() == key then Some(secs[0]) else None
  {
    hide KeyOf;
    if secs != [] { assert secs[1..] == []; }
  }

  lemma LastOfNone(secs: seq<Section>, key: string)
    requires forall s :: s in secs ==> s.Key() in PRIVATE_KEYS
    ensures key !in PRIVATE_KEYS ==> LastWith(secs, key) == None
    ensures "tags" !in PRIVATE_KEYS && "related" !in PRIVATE_KEYS
  {
    var r := LastWith(secs, key);
    PrivateKeysPlain();
  }

  // ---- The rendered lines keep the note's shape ----

  /** Lines that neither carry a line break nor look like a fence to the guard. */
  predicate FenceFree(lines: seq<string>) {
    forall l :: l in lines ==> LineFree(l) && !EndsInReturn(l) && Trim(l) != "---"
  }

  /** A list section both sides read alike, with nothing list-like left below the
      part the renderer replaces. */
  predicate CleanList(s: Section) {
    && GuardEntries(s) == ExistingEntries(RestOf(s.head), s.tail)
    && AllReadable(GuardEntries(s))
    && Items(s.tail[BlockLen(s.tail)..]) == []
  }

  predicate CleanLists(secs: seq<Section>) {
    forall s :: s in secs && s.Key() in {"tags", "related"} ==> CleanList(s)
  }

  predicate CleanAdditions(adds: Additions) {
    adds.Valid() && AllReadable(adds.tags) && AllReadable(adds.related)
  }

  /** What every run adds: private fields, and entries that are trimmed and not empty. */
  predicate VisibleAdditions(adds: Additions) {
    adds.Valid() && AllVisible(adds.tags) && AllVisible(adds.related)
  }

  lemma CleanIsVisible(adds: Additions)
    requires CleanAdditions(adds)
    ensures VisibleAdditions(adds)
  {
    hide Readable, Visible;
    ReadableVisible(adds.tags);
    ReadableVisible(adds.related);
  }

  lemma VisibleTrimmed(values: seq<string>)
    requires AllVisible(values)
    ensures TrimAll(values) == values && "" !in values
  {
    hide Trim, Solid;
    forall i | 0 <= i < |values| ensures Trim(values[i]) == values[i] {
      assert values[i] in values;
      TrimSolid(values[i]);
    }
  }

  lemma MergedVisible(existing: seq<string>, additions: seq<string>)
    requires AllReadable(existing) && AllVisible(additions)
    ensures AllVisible(MergeUnique(existing, additions))
    ensures forall v :: v in MergeUnique(existing, additions) <==> v in existing || v in additions
  {
    ReadableVisible(existing);
    VisibleTrimmed(additions);
    assert "" !in existing;
    hide Readable, MergeUnique, Solid;
    MergeUniqueMeaning(existing, additions);
  }

  lemma MergedReadable(existing: seq<string>, additions: seq<string>)
    requires AllReadable(existing) && AllReadable(additions)
    ensures AllReadable(MergeUnique(existing, additions))
    ensures forall v :: v in MergeUnique(existing, additions) <==> v in existing || v in additions
  {
    ReadableVisible(additions);
    hide Readable, Visible, MergeUnique;
    MergedVisible(existing, additions);
  }

  lemma KeyedLine(key: string, more: string)
    requires PlainKey(key) && LineFree(key) && key[0] != '-'
    requires LineFree(more) && (more != "" ==> !EndsInReturn(more))
    ensures var l := key + ":" + more; LineFree(l) && !EndsInReturn(l) && Trim(l) != "---"
  {
    var l := key + ":" + more;
    assert l[0] == key[0];
    assert LineFree(":");
    assert Trim(l)[0] == l[0];
    if more != "" { assert l[|l| - 1] == more[|more| - 1]; }
  }

  lemma ListSectionFree(key: string, values: seq<string>)
    requires PlainKey(key) && LineFree(key) && AllVisible(values)
    ensures FenceFree(ListSection(key, values).Lines()) && NoKeys(ListSection(key, values).tail)
  {
    assert LineFree(" []") && !EndsInReturn(" []") && key + ":" + " []" == key + ": []" && key + ":" + "" == key + ":";
    assert key[0] != '-' && LineFree("");
    KeyedLine(key, " []");
    KeyedLine(key, "");
    ItemLinesFree(values);
    hide Trim;
  }

  lemma ScalarTextFree(value: string)
    ensures var text := ScalarText(value); text != "" && '\n' !in text && !EndsInReturn(text)
  {
    var v := Trim(value);
    hide Trim, NeedsQuote, QuoteIfNeeded;
    if v != "" { ItemTextSolid(v); }
  }

  lemma ScalarSectionFree(key: string, value: string)
    requires PlainKey(key) && LineFree(key)
    ensures FenceFree(ScalarSection(key, value).Lines())
  {
    ScalarTextFree(value);
    assert key[0] != '-';
    hide Trim, ScalarText, PlainKey;
    var text := ScalarText(value);
    var more := " " + text;
    assert more[|more| - 1] == text[|text| - 1] && '\n' !in " ";
    KeyedLine(key, more);
    assert key + ":" + more == key + ": " + text;
  }

  lemma RenderSectionFree(s: Section, adds: Additions)
    requires VisibleAdditions(adds) && s.WellFormed() && FenceFree(s.Lines())
    requires s.Key() in {"tags", "related"} ==> CleanList(s)
    ensures FenceFree(RenderSection(s, adds).Lines()) && RenderSection(s, adds).WellFormed()
  {
    RenderSectionKey(s, adds);
    hide TopKey, KeyOf, RestOf, ExistingEntries, MergeUnique, PlainKey, ListSection, ScalarText, GuardEntries, Readable,
      Visible, Trim, LineFree, EndsInReturn, Items;
    var existing := ExistingEntries(RestOf(s.head), s.tail);
    var rest := s.tail[BlockLen(s.tail)..];
    assert FenceFree(rest) && NoKeys(rest) by {
      forall l | l in rest ensures l in s.tail && l in s.Lines() {}
    }
    if s.Key() == "tags" {
      ListKeysPlain();
      MergedVisible(existing, adds.tags);
      ListSectionFree("tags", MergeUnique(existing, adds.tags));
      JoinFree(ListSection("tags", MergeUnique(existing, adds.tags)), rest);
    } else if s.Key() == "related" {
      ListKeysPlain();
      MergedVisible(existing, adds.related);
      ListSectionFree("related", MergeUnique(existing, adds.related));
      JoinFree(ListSection("related", MergeUnique(existing, adds.related)), rest);
    } else if s.Key() in adds.fields {
      PrivateKeysPlain();
      ScalarSectionFree(s.Key(), adds.fields[s.Key()]);
      JoinFree(ScalarSection(s.Key(), adds.fields[s.Key()]), rest);
    } else {
      UnmanagedSection(s, adds);
    }
  }

  lemma JoinFree(s: Section, rest: seq<string>)
    requires FenceFree(s.Lines()) && FenceFree(rest) && NoKeys(s.tail) && NoKeys(rest)
    ensures FenceFree(WithTail(s, rest).Lines()) && NoKeys(WithTail(s, rest).tail)
  {
    hide Trim, LineFree, EndsInReturn, TopKey;
    forall l | l in WithTail(s, rest).Lines() ensures l in s.Lines() || l in rest {}
  }

  lemma {:induction false} FlattenFree(secs: seq<Section>)
    ensures FenceFree(Flatten(secs)) <==> forall s :: s in secs ==> FenceFree(s.Lines())
  {
    hide FenceFree;
    if secs == [] {
      EmptyFree();
    } else {
      FlattenFree(secs[1..]);
      assert secs == [secs[0]] + secs[1..];
      AppendFree(secs[0].Lines(), Flatten(secs[1..]));
    }
  }

  lemma EmptyFree()
    ensures FenceFree([])
  {}

  lemma AppendFree(a: seq<string>, b: seq<string>)
    ensures FenceFree(a + b) <==> FenceFree(a) && FenceFree(b)
  {
    hide Trim, LineFree, EndsInReturn;
    forall l | l in a || l in b ensures l in a + b {}
  }

  lemma AppendedFree(written: set<string>, adds: Additions)
    requires VisibleAdditions(adds)
    ensures forall s :: s in Appended(written, adds) ==> FenceFree(s.Lines()) && s.WellFormed()
  {
    ListKeysPlain();
    PrivateKeysPlain();
    ListSectionFree("tags", adds.tags);
    ListSectionFree("related", adds.related);
    ListSectionKey("tags", adds.tags);
    ListSectionKey("related", adds.related);
    PrivateSectionsFree(PRIVATE_KEYS, written, adds.fields);
    hide TopKey, KeyOf, ListSection, PrivateSections, FenceFree, PlainKey;
  }

  lemma {:induction false} PrivateSectionsFree(keys: seq<string>, written: set<string>, fields: map<string, string>)
    requires forall k :: k in keys ==> PlainKey(k) && LineFree(k)
    ensures forall s :: s in PrivateSections(keys, written, fields) ==> FenceFree(s.Lines()) && s.WellFormed()
  {
    hide TopKey, PlainKey, ScalarText, FenceFree, Trim, LineFree;
    if keys != [] {
      assert forall k :: k in keys[1..] ==> k in keys;
      PrivateSectionsFree(keys[1..], written, fields);
      if keys[0] in fields {
        HeadLine(keys[0], ScalarText(fields[keys[0]]));
        ScalarSectionFree(keys[0], fields[keys[0]]);
      }
    }
  }

  /** The rendered lines are read back as the rendered outline. */
  lemma RenderedOutline(lines: seq<string>, adds: Additions)
    requires VisibleAdditions(adds) && FenceFree(lines) && CleanLists(Parse(lines).sections)
    ensures FenceFree(Rendered(lines, adds))
    ensures Parse(Rendered(lines, adds)) == RenderOutline(Parse(lines), adds)
  {
    var o := Parse(lines);
    ParseWellFormed(lines);
    ParseCoversLines(lines);
    AppendFree(o.preamble, Flatten(o.sections));
    FlattenFree(o.sections);
    hide FenceFree, TopKey, KeyOf, CleanList, Rendered, Appended, Written, RenderSection, Parse;
    var secs := RenderSections(o.sections, adds);
    forall s | s in secs ensures FenceFree(s.Lines()) && s.WellFormed() {
      var i :| 0 <= i < |secs| && secs[i] == s;
      assert o.sections[i] in o.sections;
      RenderSectionFree(o.sections[i], adds);
    }
    var more := Appended(Written(o.sections, adds), adds);
    AppendedFree(Written(o.sections, adds), adds);
    var r := RenderOutline(o, adds);
    assert r.sections == secs + more;
    FlattenFree(r.sections);
    AppendFree(r.preamble, Flatten(r.sections));
    ParseOfLines(r);
    RenderedIs(lines, adds);
  }

  lemma RenderedIs(lines: seq<string>, adds: Additions)
    ensures Rendered(lines, adds) == RenderOutline(Parse(lines), adds).Lines()
  {}

  // ---- Notes that both sides read alike ----

  lemma {:induction false} LeadingBlanks(l: string) returns (pre: string)
    requires TrimLeft(l) != ""
    ensures l == pre + TrimLeft(l) && TrimLeft(pre + [TrimLeft(l)[0]]) == [TrimLeft(l)[0]]
  {
    hide IsSpace;
    var head, tail := l[0], l[1..];
    assert l == [head] + tail;
    TrimLeftCons(head, tail);
    if IsSpace(head) {
      var more := LeadingBlanks(tail);
      pre := [head] + more;
      var c := TrimLeft(tail)[0];
      TrimLeftCons(head, more + [c]);
      assert pre + [c] == [head] + (more + [c]);
      hide TrimLeft;
      assert pre + TrimLeft(tail) == [head] + (more + TrimLeft(tail));
    } else {
      pre := "";
      TrimLeftCons(head, "");
      assert [head] + "" == [head] && "" + [head] == [head] && "" + l == l;
    }
  }

  lemma DashBlobHead(l: string, more: string)
    requires HasPrefix(Trim(l), "-")
    ensures !HasPrefix(Trim(TrimBreaks("" + "\n" + (l + "\n" + more))), "[")
  {
    var t := TrimLeft(l);
    assert t != "" && t[0] == '-';
    var pre := LeadingBlanks(l);
    var front := ['\n'] + pre;
    assert TrimLeft(front + ['-']) == ['-'] by {
      assert (front + ['-'])[1..] == pre + ['-'];
    }
    hide Trim, TrimBreaks, TrimLeft;
    var after := t[1..] + "\n" + more;
    DashText(pre, t, more);
    BlobHead(front, '-', after);
  }

  lemma DashText(pre: string, t: string, more: string)
    requires t != "" && t[0] == '-'
    ensures "" + "\n" + (pre + t + "\n" + more) == ['\n'] + pre + ['-'] + (t[1..] + "\n" + more)
  {
    assert t == ['-'] + t[1..];
  }

  /** A bare key over `- item` lines. */
  predicate PlainList(s: Section) {
    && RestOf(s.head) == ""
    && forall l :: l in s.tail ==> DashLine(l) && forall v :: v in Item(l) ==> Readable(v)
  }

  lemma {:induction false} DashLinesOnly(lines: seq<string>)
    requires forall l :: l in lines ==> DashLine(l) && forall v :: v in Item(l) ==> Readable(v)
    ensures LeadingItems(lines) == Items(lines) && BlockLen(lines) == |lines| && AllReadable(Items(lines))
  {
    hide Readable, Item, TopKey, Trim;
    if lines != [] {
      assert lines[0] in lines && forall l :: l in lines[1..] ==> l in lines;
      DashLinesOnly(lines[1..]);
      assert Trim("") == "";
      assert lines[0] != "";
    }
  }

  lemma PlainListIsClean(s: Section)
    requires PlainList(s) && FenceFree(s.Lines())
    ensures CleanList(s)
  {
    hide Readable, TopKey, RestOf, Item, Blob;
    DashLinesOnly(s.tail);
    assert AllLineFree(s.tail) && LineFree(s.head) by {
      forall l | l in s.tail ensures LineFree(l) { assert l in s.Lines(); }
      assert s.head in s.Lines();
    }
    assert !HasPrefix(Trim(Blob(s)), "[") by {
      BlobOf(s);
      if s.tail == [] {
        assert TrimBreaks("" + "\n" + "") == "";
      } else {
        assert s.tail[0] in s.tail;
        DashBlobHead(s.tail[0], Unlines(s.tail[1..]));
        assert Unlines(s.tail) == s.tail[0] + "\n" + Unlines(s.tail[1..]);
      }
    }
    BlockEntries(s);
    assert s.tail[|s.tail|..] == [];
  }

  /** A `[a, b]` list on the key line, with no dash line below its block. */
  lemma FlowListIsClean(s: Section)
    requires InlineFlow(RestOf(s.head)) && Items(s.tail[BlockLen(s.tail)..]) == []
    requires AllReadable(FlowList(RestOf(s.head)[1..IndexOf(RestOf(s.head), ']')]))
    ensures CleanList(s)
  {
    hide FlowList, RestOf, Blob;
    FlowEntries(s);
  }

  // ---- Fields before and after ----

  /** The entries the guard finds under a key. */
  function Entries(fields: map<string, string>, key: string): seq<string> {
    ParseYAMLList(FieldText(fields, key))
  }

  function FieldsOf(secs: seq<Section>): map<string, string> { PutFields(map[], secs) }

  lemma EntriesOf(secs: seq<Section>, key: string)
    requires key != ""
    ensures key in FieldsOf(secs) <==> LastWith(secs, key).Some?
    ensures Entries(FieldsOf(secs), key) ==
      match LastWith(secs, key) case None => [] case Some(s) => GuardEntries(s)
  {
    PutFieldsLast(map[], secs, key);
    hide PutFields, LastWith, Blob;
    assert ParseYAMLList("") == [];
  }

  /** What a list holds afterwards: merged in place, or just the additions. */
  function AfterList(present: bool, prior: seq<string>, additions: seq<string>): seq<string> {
    if present then MergeUnique(prior, additions) else additions
  }

  lemma ListAfter(s: Section, adds: Additions, key: string, additions: seq<string>)
    requires VisibleAdditions(adds) && CleanList(s) && FenceFree(s.Lines()) && s.Key() == key
    requires (key == "tags" && additions == adds.tags) || (key == "related" && additions == adds.related)
    ensures GuardEntries(RenderSection(s, adds)) == ReadBacks(MergeUnique(GuardEntries(s), additions))
  {
    ListKeysPlain();
    hide TopKey, KeyOf, RestOf, ExistingEntries, MergeUnique, PlainKey, ListSection, GuardEntries, ReadBacks, Readable,
      Visible, Trim, LineFree;
    var existing := ExistingEntries(RestOf(s.head), s.tail);
    var rest := s.tail[BlockLen(s.tail)..];
    assert AllLineFree(rest) by {
      forall l | l in rest ensures LineFree(l) { assert l in s.Lines(); }
    }
    var merged := MergeUnique(existing, additions);
    MergedVisible(existing, additions);
    EmittedEntries(key, merged, rest);
    assert "tags"[0] != "related"[0];
    assert RenderSection(s, adds) == WithTail(ListSection(key, merged), rest);
  }

  lemma EmittedAlone(key: string, values: seq<string>)
    requires PlainKey(key) && LineFree(key) && AllVisible(values)
    ensures GuardEntries(ListSection(key, values)) == ReadBacks(values)
  {
    hide GuardEntries, PlainKey, Visible, ReadBacks;
    var s := ListSection(key, values);
    assert WithTail(s, []) == s by { assert s.tail + [] == s.tail; }
    EmittedEntries(key, values, []);
    assert ReadBacks(values) + [] == ReadBacks(values);
  }

  lemma WrittenIff(secs: seq<Section>, adds: Additions, key: string)
    requires key == "tags" || key == "related"
    ensures key in Written(secs, adds) <==> LastWith(secs, key).Some?
  {
    hide KeyOf;
    var r := LastWith(secs, key);
    if r.Some? { assert r.value in secs && Managed(r.value.Key(), adds); }
  }

  /** The two lists as the guard reads them in the rendered note: entries that had to be
      quoted come with their escapes. */
  lemma EntriesAfter(o: Outline, adds: Additions, key: string, additions: seq<string>)
    requires o.WellFormed() && VisibleAdditions(adds) && CleanLists(o.sections)
    requires forall s :: s in o.sections ==> FenceFree(s.Lines())
    requires (key == "tags" && additions == adds.tags) || (key == "related" && additions == adds.related)
    ensures Entries(FieldsOf(RenderOutline(o, adds).sections), key) ==
      ReadBacks(AfterList(key in FieldsOf(o.sections), Entries(FieldsOf(o.sections), key), additions))
  {
    hide KeyOf, TopKey, CleanList, FenceFree, RenderSection, Appended, Written, MergeUnique, ListSection, GuardEntries,
      Entries, FieldsOf, LastWith, Readable, Visible, ReadBacks, PlainKey;
    var written := Written(o.sections, adds);
    var secs, more := RenderSections(o.sections, adds), Appended(written, adds);
    var all := RenderOutline(o, adds).sections;
    assert all == secs + more;
    ListKeysPlain();
    assert key != "";
    EntriesOf(o.sections, key);
    EntriesOf(all, key);
    LastWithAppend(secs, more, key);
    LastRendered(o.sections, adds, key);
    LastAppended(written, adds, key);
    WrittenIff(o.sections, adds, key);
    match LastWith(o.sections, key) {
      case Some(s) =>
        ListAfter(s, adds, key, additions);
      case None =>
        EmittedAlone(key, additions);
    }
  }

  lemma UnwritableAfter(o: Outline, adds: Additions, key: string)
    requires o.WellFormed() && adds.Valid() && key !in WRITABLE && key != ""
    ensures key in FieldsOf(RenderOutline(o, adds).sections) <==> key in FieldsOf(o.sections)
    ensures key in FieldsOf(o.sections) ==>
      FieldsOf(RenderOutline(o, adds).sections)[key] == FieldsOf(o.sections)[key]
  {
    hide KeyOf, TopKey, RenderSection, Appended, Written, MergeUnique, Blob;
    var written := Written(o.sections, adds);
    var secs, more := RenderSections(o.sections, adds), Appended(written, adds);
    var all := RenderOutline(o, adds).sections;
    assert all == secs + more;
    PutFieldsLast(map[], o.sections, key);
    PutFieldsLast(map[], all, key);
    hide PutFields, LastWith;
    LastWithAppend(secs, more, key);
    LastRendered(o.sections, adds, key);
    LastAppended(written, adds, key);
    var r := LastWith(o.sections, key);
    if r.Some? {
      PrivateKeysPlain();
      assert !Managed(key, adds);
      UnmanagedSection(r.value, adds);
    }
  }

  // ---- The main result ----

  /** A note the two sides split and read alike. */
  predicate CleanNote(note: Note) {
    CleanBoundary(note) && CleanLists(Parse(note.lines).sections)
  }

  /** What the guard asks of the additions themselves, as it reads them back. */
  predicate AdditionsAllowed(fields: map<string, string>, adds: Additions, policy: Policy) {
    var tags, related := Entries(fields, "tags"), Entries(fields, "related");
    && (forall t :: t in ReadBacks(adds.tags) && t !in tags ==> TagAllowed(t, policy))
    && (forall l :: l in ReadBacks(adds.related) && l !in related ==> LinkAllowed(l))
    && |SetDiff(ReadBacks(AfterList("related" in fields, related, adds.related)), related)| <= RELATED_APPEND_MAX
  }

  lemma AfterListMembers(present: bool, prior: seq<string>, additions: seq<string>)
    requires AllReadable(prior) && AllVisible(additions) && (!present ==> prior == [])
    ensures AllVisible(AfterList(present, prior, additions))
    ensures forall v :: v in AfterList(present, prior, additions) <==> v in prior || v in additions
  {
    hide Readable, Visible, MergeUnique;
    MergedVisible(prior, additions);
  }

  lemma {:induction false} ReadBacksMembers(values: seq<string>)
    ensures forall v :: v in values ==> ReadBack(v) in ReadBacks(values)
    ensures forall r :: r in ReadBacks(values) ==> exists v :: v in values && ReadBack(v) == r
  {
    hide ReadBack, ReadBacks;
    var rs := ReadBacks(values);
    forall v | v in values ensures ReadBack(v) in rs {
      var i :| 0 <= i < |values| && values[i] == v;
      assert rs[i] == ReadBack(v);
    }
    forall r | r in rs ensures exists v :: v in values && ReadBack(v) == r {
      var i :| 0 <= i < |rs| && rs[i] == r;
      assert values[i] in values && ReadBack(values[i]) == r;
    }
  }

  /** What is read afterwards: the old entries, and the additions as they are read back. */
  lemma AfterReadMembers(present: bool, prior: seq<string>, additions: seq<string>)
    requires AllReadable(prior) && AllVisible(additions) && (!present ==> prior == [])
    ensures forall r :: r in ReadBacks(AfterList(present, prior, additions)) <==>
      r in prior || r in ReadBacks(additions)
  {
    var after := AfterList(present, prior, additions);
    forall v | v in prior ensures ReadBack(v) == v { ReadableSame(v); }
    hide Readable, Visible, ReadBack, ReadBacks, AfterList;
    AfterListMembers(present, prior, additions);
    ReadBacksMembers(after);
    ReadBacksMembers(additions);
    forall r ensures r in ReadBacks(after) <==> r in prior || r in ReadBacks(additions) {
      if r in ReadBacks(after) {
        var v :| v in after && ReadBack(v) == r;
      }
      if r in ReadBacks(additions) {
        var v :| v in additions && ReadBack(v) == r;
        assert v in after;
      }
      if r in prior { assert r in after && ReadBack(r) == r; }
    }
  }

  lemma ReadableSame(v: string)
    requires Readable(v)
    ensures ReadBack(v) == v
  {
    hide NeedsQuote, Solid, Escape;
    ReadBackSame(v);
  }

  lemma {:induction false} AddNewShort(acc: seq<string>, values: seq<string>)
    ensures |AddNew(acc, values)| <= |acc| + |values|
    ensures |AddNew(acc, values)| == |acc| + |values| ==> AddNew(acc, values) == acc + values
    decreases |values|
  {
    if values == [] {
      assert acc + values == acc;
    } else if values[0] == "" || values[0] in acc {
      AddNewShort(acc, values[1..]);
    } else {
      AddNewShort(acc + [values[0]], values[1..]);
      assert acc + [values[0]] + values[1..] == acc + values;
    }
  }

  /** A missing list is written as it comes, so it equals its own merge only without repeats. */
  lemma MissingIsMerge(additions: seq<string>)
    requires AllVisible(additions)
    ensures ReadBacks(additions) == MergeUnique([], additions) <==> AllReadable(additions) && Distinct(additions)
  {
    VisibleTrimmed(additions);
    ReadBacksSame(additions);
    MergeUniqueMeaning([], additions);
    AddNewShort([], additions);
    assert AddNew([], []) == [];
    assert [] + additions == additions;
    hide AllVisible, AllReadable, ReadBacks, AddNew, Trim;
    if Distinct(additions) { AddNewDistinct([], additions); }
  }

  lemma PresentIsMerge(prior: seq<string>, additions: seq<string>)
    requires AllReadable(prior) && AllVisible(additions)
    ensures ReadBacks(MergeUnique(prior, additions)) == MergeUnique(prior, additions) <==> AllReadable(additions)
  {
    hide Readable, Visible, MergeUnique, ReadBacks;
    MergedVisible(prior, additions);
    ReadBacksSame(MergeUnique(prior, additions));
  }

  /** The exact condition for what is read afterwards to be the merged list: the additions
      survive being written, and below the last section, where they are written as they
      come, none is repeated. */
  lemma AfterListIsMerge(present: bool, prior: seq<string>, additions: seq<string>)
    requires AllReadable(prior) && AllVisible(additions) && (!present ==> prior == [])
    ensures ReadBacks(AfterList(present, prior, additions)) == MergeUnique(prior, additions)
      <==> AllReadable(additions) && (present || Distinct(additions))
  {
    hide AllReadable, AllVisible, MergeUnique, ReadBacks, Distinct;
    if present { PresentIsMerge(prior, additions); } else { MissingIsMerge(additions); }
  }

  lemma CleanEntries(secs: seq<Section>, key: string)
    requires CleanLists(secs) && (key == "tags" || key == "related")
    ensures AllReadable(Entries(FieldsOf(secs), key))
    ensures key !in FieldsOf(secs) ==> Entries(FieldsOf(secs), key) == []
  {
    hide KeyOf, GuardEntries, Readable, Entries, FieldsOf;
    EntriesOf(secs, key);
    var r := LastWith(secs, key);
    if r.Some? { assert CleanList(r.value); }
  }

  lemma UnwritableKept(o: Outline, adds: Additions, policy: Policy)
    requires o.WellFormed() && adds.Valid()
    ensures var before, after := FieldsOf(o.sections), FieldsOf(RenderOutline(o, adds).sections);
      && "" !in before && "" !in after
      && forall k :: k in before.Keys + after.Keys && k !in WRITABLE ==> FieldKept(before, after, k, policy)
  {
    var before, after := FieldsOf(o.sections), FieldsOf(RenderOutline(o, adds).sections);
    PutFieldsNamed(map[], o.sections);
    PutFieldsNamed(map[], RenderOutline(o, adds).sections);
    hide FieldsOf, TagsAppend, RelatedAppend, ParseYAMLList, NormalizeBlob, RenderOutline, Outline.WellFormed,
      Additions.Valid;
    forall k | k in before.Keys + after.Keys && k !in WRITABLE ensures FieldKept(before, after, k, policy) {
      UnwritableAfter(o, adds, k);
    }
  }

  lemma ListsDecide(before: map<string, string>, after: map<string, string>, policy: Policy)
    requires forall k :: k in before.Keys + after.Keys && k !in WRITABLE ==> FieldKept(before, after, k, policy)
    ensures FieldsKept(before, after, policy) <==>
      && ("tags" in before || "tags" in after ==> TagsAppend(Entries(before, "tags"), Entries(after, "tags"), policy))
      && ("related" in before || "related" in after ==>
        RelatedAppend(Entries(before, "related"), Entries(after, "related")))
  {
    hide TagsAppend, RelatedAppend, ParseYAMLList, NormalizeBlob, FieldText;
    assert "tags"[0] != "related"[0];
    assert "tags" in WRITABLE && "related" in WRITABLE;
    if FieldsKept(before, after, policy) {
      if "tags" in before.Keys + after.Keys { assert FieldKept(before, after, "tags", policy); }
      if "related" in before.Keys + after.Keys { assert FieldKept(before, after, "related", policy); }
    }
  }

  /** What the lists hold afterwards decides the guard's two list rules. */
  lemma EntriesDecide(before: map<string, string>, after: map<string, string>, adds: Additions, policy: Policy)
    requires forall k :: k in before.Keys + after.Keys && k !in WRITABLE ==> FieldKept(before, after, k, policy)
    requires forall v :: v in Entries(after, "tags") <==> v in Entries(before, "tags") || v in ReadBacks(adds.tags)
    requires forall v :: v in Entries(after, "related") <==>
      v in Entries(before, "related") || v in ReadBacks(adds.related)
    requires Entries(after, "related") ==
      ReadBacks(AfterList("related" in before, Entries(before, "related"), adds.related))
    ensures FieldsKept(before, after, policy) <==> AdditionsAllowed(before, adds, policy)
  {
    hide FieldsKept, FieldKept, AfterList, ReadBacks, TagAllowed, LinkAllowed, SetDiff, Entries;
    ListsDecide(before, after, policy);
    TagsDecide(before, after, adds, policy);
    LinksDecide(before, after, adds);
    hide TagsAppend, RelatedAppend;
  }

  lemma FieldsDecide(o: Outline, adds: Additions, policy: Policy)
    requires o.WellFormed() && VisibleAdditions(adds) && CleanLists(o.sections)
    requires forall s :: s in o.sections ==> FenceFree(s.Lines())
    ensures FieldsKept(FieldsOf(o.sections), FieldsOf(RenderOutline(o, adds).sections), policy)
      <==> AdditionsAllowed(FieldsOf(o.sections), adds, policy)
  {
    var before, after := FieldsOf(o.sections), FieldsOf(RenderOutline(o, adds).sections);
    assert adds.Valid() && AllVisible(adds.tags) && AllVisible(adds.related);
    hide *;
    UnwritableKept(o, adds, policy);
    EntriesAfter(o, adds, "tags", adds.tags);
    EntriesAfter(o, adds, "related", adds.related);
    CleanEntries(o.sections, "tags");
    CleanEntries(o.sections, "related");
    AfterReadMembers("tags" in before, Entries(before, "tags"), adds.tags);
    AfterReadMembers("related" in before, Entries(before, "related"), adds.related);
    EntriesDecide(before, after, adds, policy);
  }

  /** Nothing is ever lost, so only the new tags are in question. */
  lemma TagsDecide(before: map<string, string>, after: map<string, string>, adds: Additions, policy: Policy)
    requires forall v :: v in Entries(after, "tags") <==> v in Entries(before, "tags") || v in ReadBacks(adds.tags)
    ensures TagsAppend(Entries(before, "tags"), Entries(after, "tags"), policy)
      <==> forall t :: t in ReadBacks(adds.tags) && t !in Entries(before, "tags") ==> TagAllowed(t, policy)
    ensures "tags" !in before && "tags" !in after ==> adds.tags == []
  {
    hide TagAllowed, SetDiff, ReadBacks;
    if "tags" !in before && "tags" !in after && adds.tags != [] {
      assert ParseYAMLList("") == [];
      assert ReadBacks(adds.tags)[0] in ReadBacks(adds.tags);
    }
    hide Entries;
    var a, b := Entries(after, "tags"), Entries(before, "tags");
    forall t | t in ReadBacks(adds.tags) && t !in b ensures t in SetDiff(a, b) {}
  }

  lemma LinksDecide(before: map<string, string>, after: map<string, string>, adds: Additions)
    requires forall v :: v in Entries(after, "related") <==>
      v in Entries(before, "related") || v in ReadBacks(adds.related)
    ensures RelatedAppend(Entries(before, "related"), Entries(after, "related"))
      <==> (forall l :: l in ReadBacks(adds.related) && l !in Entries(before, "related") ==> LinkAllowed(l))
           && |SetDiff(Entries(after, "related"), Entries(before, "related"))| <= RELATED_APPEND_MAX
    ensures "related" !in before && "related" !in after ==>
      adds.related == [] && RelatedAppend(Entries(before, "related"), Entries(after, "related"))
  {
    hide LinkAllowed, ReadBacks;
    assert ParseYAMLList("") == [];
    if "related" !in before && "related" !in after && adds.related != [] {
      assert ReadBacks(adds.related)[0] in ReadBacks(adds.related);
    }
    assert SetDiff([], []) == [];
    hide SetDiff, ParseYAMLList;
    var a, b := Entries(after, "related"), Entries(before, "related");
    forall t | t in ReadBacks(adds.related) && t !in b ensures t in SetDiff(a, b) {}
  }

  /** On a note both sides read alike, for anything a run can add, the guard accepts the
      rendering exactly when the additions, as it reads them back, meet its rules; and the
      lists it then reads are the merged ones exactly when the additions survive being
      written and a missing list has no repeats. */
  lemma RendererMeetsGuard(before: string, adds: Additions, policy: Policy, hash: Hasher)
    requires NoteOf(before).Some? && CleanNote(NoteOf(before).value) && VisibleAdditions(adds)
    ensures var note := NoteOf(before).value;
      var fields := FieldsOf(Parse(note.lines).sections);
      var after := RenderNote(before, adds).value;
      && SplitFrontmatter(before).Some? && Fields(SplitFrontmatter(before).value.block) == fields
      && (TextsKept(before, after, policy, hash) <==> AdditionsAllowed(fields, adds, policy))
      && SplitFrontmatter(after).Some?
      && var newFields := Fields(SplitFrontmatter(after).value.block);
         && Entries(newFields, "tags") == ReadBacks(AfterList("tags" in fields, Entries(fields, "tags"), adds.tags))
         && Entries(newFields, "related") ==
           ReadBacks(AfterList("related" in fields, Entries(fields, "related"), adds.related))
         && (Entries(newFields, "tags") == MergeUnique(Entries(fields, "tags"), adds.tags)
             <==> AllReadable(adds.tags) && ("tags" in fields || Distinct(adds.tags)))
         && (Entries(newFields, "related") == MergeUnique(Entries(fields, "related"), adds.related)
             <==> AllReadable(adds.related) && ("related" in fields || Distinct(adds.related)))
  {
    var note := NoteOf(before).value;
    var lines := note.lines;
    var o := Parse(lines);
    assert FenceFree(lines);
    ParseWellFormed(lines);
    ParseCoversLines(lines);
    AppendFree(o.preamble, Flatten(o.sections));
    FlattenFree(o.sections);
    RenderedOutline(lines, adds);
    var rendered := Rendered(lines, adds);
    var out := note.(lines := rendered);
    assert rendered != [] by { NoteBoundary.RenderedNonEmpty(lines, adds); }
    assert CleanBoundary(out) && AllLineFree(rendered);
    assert AllVisible(adds.tags) && AllVisible(adds.related);
    hide NoteOf, CleanBoundary, CleanLists, VisibleAdditions, FenceFree, Parse, Rendered, RenderOutline, Fields,
      SplitFrontmatter, FieldsKept, AdditionsAllowed, Entries, AfterList, BodyOf, Outline.WellFormed, Note.Text;
    assert before == note.Text();
    GuardSplit(note);
    GuardSplit(out);
    FieldsOfLines(lines);
    FieldsOfLines(rendered);
    FieldsDecide(o, adds, policy);
    EntriesAfter(o, adds, "tags", adds.tags);
    EntriesAfter(o, adds, "related", adds.related);
    CleanEntries(o.sections, "tags");
    CleanEntries(o.sections, "related");
    hide AllReadable, AllVisible, MergeUnique, ReadBacks;
    AfterListIsMerge("tags" in FieldsOf(o.sections), Entries(FieldsOf(o.sections), "tags"), adds.tags);
    AfterListIsMerge("related" in FieldsOf(o.sections), Entries(FieldsOf(o.sections), "related"), adds.related);
  }

  // ---- Again and again ----

  /** What may stand below an emitted list: nothing, or lines from an empty one on. */
  predicate Below(rest: seq<string>) { rest == [] || rest[0] == "" }

  lemma BelowStops(rest: seq<string>)
    requires Below(rest)
    ensures LeadingItems(rest) == [] && BlockLen(rest) == 0
  {
    hide Item, TopKey;
    assert Trim("") == "";
  }

  lemma ItemLeads(line: string, v: string, lines: seq<string>)
    requires DashLine(line) && Item(line) == [v] && !TopKey(line) && line != ""
    ensures LeadingItems([line] + lines) == [v] + LeadingItems(lines)
    ensures BlockLen([line] + lines) == 1 + BlockLen(lines)
  {
    hide DashLine, Item, TopKey;
    var all := [line] + lines;
    assert all[0] == line && all[1..] == lines;
  }

  lemma {:induction false} LeadingOfItems(values: seq<string>, rest: seq<string>)
    requires AllReadable(values) && Below(rest)
    ensures LeadingItems(ItemLines(values) + rest) == values && BlockLen(ItemLines(values) + rest) == |values|
  {
    hide Readable, ItemLine, DashLine, TopKey, Item, LeadingItems, BlockLen, Below;
    if values == [] {
      assert ItemLines(values) + rest == rest;
      BelowStops(rest);
    } else {
      assert values[0] in values && forall v :: v in values[1..] ==> v in values;
      ItemIsDash(values[0]);
      LeadingOfItems(values[1..], rest);
      ItemLeads(ItemLine(values[0]), values[0], ItemLines(values[1..]) + rest);
      assert ItemLines(values) + rest == [ItemLine(values[0])] + (ItemLines(values[1..]) + rest);
      assert [values[0]] + values[1..] == values;
    }
  }

  lemma ItemIsDash(v: string)
    requires Readable(v)
    ensures DashLine(ItemLine(v)) && Item(ItemLine(v)) == [v] && !TopKey(ItemLine(v)) && ItemLine(v) != ""
  {
    ReadableItem(v);
    ItemTextSolid(v);
    var q := QuoteIfNeeded(v);
    ItemLineTrim(q);
    hide Trim, NeedsQuote, Item, Readable, Escape, Solid;
    assert ItemLine(v)[0] == ' ';
    assert ("- " + q)[..1] == "-";
  }

  /** The renderer reads back the list it wrote. */
  lemma EmittedReadsBack(key: string, values: seq<string>, rest: seq<string>)
    requires PlainKey(key) && AllReadable(values) && Below(rest)
    ensures var s := WithTail(ListSection(key, values), rest); ExistingEntries(RestOf(s.head), s.tail) == values
  {
    HeadLine(key, "[]");
    hide PlainKey, RestOf, LeadingItems, ItemLines, Below, Readable;
    if values == [] {
      assert key + ": " + "[]" == key + ": []";
      EmptyBrackets();
    } else {
      LeadingOfItems(values, rest);
    }
  }

  /** What the renderer writes is again a list both sides read alike. */
  lemma EmittedIsClean(key: string, values: seq<string>, rest: seq<string>)
    requires PlainKey(key) && LineFree(key) && AllReadable(values) && AllLineFree(rest) && Below(rest)
    requires Items(rest) == []
    ensures CleanList(WithTail(ListSection(key, values), rest))
  {
    var s := WithTail(ListSection(key, values), rest);
    hide GuardEntries, ExistingEntries, PlainKey, Readable, Visible, ReadBacks, RestOf, ItemLines, BlockLen,
      LeadingItems, Items, LineFree, Below;
    ReadableVisible(values);
    ReadBacksSame(values);
    EmittedEntries(key, values, rest);
    assert values + Items(rest) == values;
    EmittedReadsBack(key, values, rest);
    LeadingOfItems(values, rest);
    ItemLinesCount(values);
    assert s.tail == ItemLines(values) + rest by { if values == [] { assert ItemLines(values) + rest == rest; } }
    assert (ItemLines(values) + rest)[|values|..] == rest;
  }

  lemma {:induction false} ItemLinesCount(values: seq<string>)
    ensures |ItemLines(values)| == |values|
  {
    hide ItemLine;
    if values != [] { ItemLinesCount(values[1..]); }
  }

  lemma EmptyBrackets()
    ensures InlineFlow("[]") && FlowList("[]"[1..IndexOf("[]", ']')]) == []
  {
    IndexOfUnique("[]", ']', 1);
    assert "[]"[1..1] == "";
    assert FlowPieces("") == [];
  }

  lemma BelowBlock(tail: seq<string>)
    requires NoKeys(tail)
    ensures Below(tail[BlockLen(tail)..])
  {
    hide TopKey;
    var n := BlockLen(tail);
    if n < |tail| { assert tail[n] in tail; }
  }

  lemma RenderedListClean(s: Section, adds: Additions)
    requires CleanAdditions(adds) && s.WellFormed() && FenceFree(s.Lines()) && s.Key() in {"tags", "related"}
    requires CleanList(s)
    ensures CleanList(RenderSection(s, adds))
  {
    hide TopKey, KeyOf, RestOf, ExistingEntries, MergeUnique, PlainKey, ListSection, GuardEntries, Readable, Trim,
      Items, BlockLen;
    var existing := ExistingEntries(RestOf(s.head), s.tail);
    var rest := s.tail[BlockLen(s.tail)..];
    BelowBlock(s.tail);
    assert AllLineFree(rest) by {
      forall l | l in rest ensures LineFree(l) { assert l in s.tail && l in s.Lines(); }
    }
    ListKeysPlain();
    hide LineFree;
    assert "tags"[0] != "related"[0];
    if s.Key() == "tags" {
      MergedReadable(existing, adds.tags);
      EmittedIsClean("tags", MergeUnique(existing, adds.tags), rest);
    } else {
      MergedReadable(existing, adds.related);
      EmittedIsClean("related", MergeUnique(existing, adds.related), rest);
    }
  }

  lemma AppendedClean(written: set<string>, adds: Additions)
    requires CleanAdditions(adds)
    ensures CleanLists(Appended(written, adds))
  {
    AppendedParts(written, adds);
    ListKeysPlain();
    PrivateKeysPlain();
    assert Items([]) == [];
    EmittedIsClean("tags", adds.tags, []);
    EmittedIsClean("related", adds.related, []);
    WithNoTail(ListSection("tags", adds.tags));
    WithNoTail(ListSection("related", adds.related));
    hide CleanList, KeyOf, ListSection, PrivateSections, PlainKey, Readable;
    var a, b, c := MissingList("tags", adds.tags, written), MissingList("related", adds.related, written),
                   PrivateSections(PRIVATE_KEYS, written, adds.fields);
    assert "tags"[0] == 't' && "related"[0] == 'r';
    var all: seq<Section> := a + b + c;
    forall s: Section | s in all && s.Key() in {"tags", "related"} ensures CleanList(s) {
      assert s in a || s in b || s in c;
    }
  }

  lemma WithNoTail(s: Section)
    ensures WithTail(s, []) == s
  {
    assert s.tail + [] == s.tail;
  }

  /** The rendering of a note both sides read alike is such a note again, so the main
      result holds for the next run as well, and for every one after it. */
  lemma StaysClean(before: string, adds: Additions)
    requires NoteOf(before).Some? && CleanNote(NoteOf(before).value) && CleanAdditions(adds)
    ensures RenderNote(before, adds).Some?
    ensures var after := NoteOf(RenderNote(before, adds).value);
      after.Some? && after.value.suffix == NoteOf(before).value.suffix && CleanNote(after.value)
  {
    var note := NoteOf(before).value;
    var o := Parse(note.lines);
    CleanIsVisible(adds);
    NoteBoundary.RenderKeepsBoundary(before, adds);
    ParseWellFormed(note.lines);
    ParseCoversLines(note.lines);
    assert FenceFree(note.lines);
    AppendFree(o.preamble, Flatten(o.sections));
    FlattenFree(o.sections);
    RenderedOutline(note.lines, adds);
    var rendered := Rendered(note.lines, adds);
    assert Parse(rendered) == RenderOutline(o, adds) && FenceFree(rendered);
    var out := note.(lines := rendered);
    assert CleanBoundary(out);
    hide NoteOf, CleanBoundary, FenceFree, CleanList, CleanAdditions, Parse, Rendered, RenderSection, Appended, Written,
      KeyOf, Trim;
    var secs := RenderSections(o.sections, adds);
    forall s: Section | s in secs && s.Key() in {"tags", "related"} ensures CleanList(s) {
      var i :| 0 <= i < |secs| && secs[i] == s;
      assert o.sections[i] in o.sections;
      SectionStaysClean(o.sections[i], adds);
    }
    AppendedClean(Written(o.sections, adds), adds);
    assert CleanLists(secs + Appended(Written(o.sections, adds), adds));
  }

  lemma SectionStaysClean(s: Section, adds: Additions)
    requires CleanAdditions(adds) && s.WellFormed() && FenceFree(s.Lines())
    requires s.Key() in {"tags", "related"} ==> CleanList(s)
    ensures RenderSection(s, adds).Key() in {"tags", "related"} ==> CleanList(RenderSection(s, adds))
  {
    RenderSectionKey(s, adds);
    hide CleanList, FenceFree, Section.WellFormed, RenderSection, KeyOf;
    if s.Key() in {"tags", "related"} { RenderedListClean(s, adds); }
  }
}
