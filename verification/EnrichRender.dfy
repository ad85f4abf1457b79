/** The renderer: internal/enrich/render.go. Specification functions first, then
    the loops that compute them. */
module EnrichRender {
  import opened Text
  import opened Frontmatter

  /** What one enrich run adds to a note. */
  datatype Additions = Additions(tags: seq<string>, related: seq<string>, fields: map<string, string>) {
    /** The orchestrator only ever fills the five private keys. */
    predicate Valid() {
      forall k :: k in fields ==> k in PRIVATE_KEYS
    }
  }

  // ---- Quoting ----

  predicate NeedsQuote(v: string) {
    || v == ""
    || v[0] in "[{&*!|>'\"%@`?"
    || (v[0] == '-' && (|v| == 1 || v[1] == ' '))
    || Contains(v, ": ") || Contains(v, " #") || '\n' in v
  }

  function EscapeChar(c: char): string {
    match c
    case '"' => "\\\""
    case '\\' => "\\\\"
    case '\n' => "\\n"
    case '\r' => "\\r"
    case '\t' => "\\t"
    case _ => [c]
  }

  function Escape(v: string): string {
    if v == "" then "" else EscapeChar(v[0]) + Escape(v[1..])
  }

  function Quoted(v: string): string { "\"" + Escape(v) + "\"" }

  function QuoteIfNeeded(v: string): string {
    if NeedsQuote(v) then Quoted(v) else v
  }

  // ---- Merging ----

  /** Append the values that are neither empty nor already there, in order. */
  function AddNew(acc: seq<string>, values: seq<string>): seq<string>
    decreases |values|
  {
    if values == [] then acc
    else if values[0] == "" || values[0] in acc then AddNew(acc, values[1..])
    else AddNew(acc + [values[0]], values[1..])
  }

  function TrimAll(values: seq<string>): (r: seq<string>)
    ensures |r| == |values| && forall i :: 0 <= i < |r| ==> r[i] == Trim(values[i])
  {
    if values == [] then [] else [Trim(values[0])] + TrimAll(values[1..])
  }

  function MergeUnique(existing: seq<string>, additions: seq<string>): seq<string> {
    AddNew(AddNew([], existing), TrimAll(additions))
  }

  lemma {:induction false} AddNewMembers(acc: seq<string>, values: seq<string>)
    ensures acc <= AddNew(acc, values)
    ensures forall v :: v in AddNew(acc, values) <==> v in acc || (v in values && v != "")
    ensures Distinct(acc) ==> Distinct(AddNew(acc, values))
    decreases |values|
  {
    if values != [] {
      assert values == [values[0]] + values[1..];
      if values[0] == "" || values[0] in acc {
        AddNewMembers(acc, values[1..]);
      } else {
        AddNewMembers(acc + [values[0]], values[1..]);
      }
    }
  }

  lemma {:induction false} AddNewDistinct(acc: seq<string>, values: seq<string>)
    requires Distinct(acc + values) && "" !in values
    ensures AddNew(acc, values) == acc + values
    decreases |values|
  {
    if values == [] {
      assert acc + values == acc;
    } else {
      assert (acc + values)[|acc|] == values[0];
      assert values[0] !in acc by {
        forall i | 0 <= i < |acc| ensures acc[i] != values[0] {
          assert (acc + values)[i] == acc[i];
        }
      }
      assert acc + [values[0]] + values[1..] == acc + values;
      AddNewDistinct(acc + [values[0]], values[1..]);
    }
  }

  /** The merge is a list without repeats that starts with the old entries and
      holds exactly the old and the new ones. */
  lemma MergeUniqueMeaning(existing: seq<string>, additions: seq<string>)
    ensures var m := MergeUnique(existing, additions);
      && Distinct(m)
      && (forall v :: v in m <==> v != "" && (v in existing || v in TrimAll(additions)))
      && AddNew([], existing) <= m
  {
    AddNewMembers([], existing);
    AddNewMembers(AddNew([], existing), TrimAll(additions));
  }

  // ---- Reading the old list ----

  predicate DashLine(line: string) { !TopKey(line) && HasPrefix(Trim(line), "-") }

  /** The `- item` lines directly under the key, before any other line. */
  function LeadingItems(lines: seq<string>): seq<string> {
    if lines == [] || !DashLine(lines[0]) then [] else Item(lines[0]) + LeadingItems(lines[1..])
  }

  function InlineFlow(rest: string): bool {
    HasPrefix(rest, "[") && IndexOf(rest, ']') < |rest|
  }

  /** The entries under a key whose line ends in `rest`, given the lines after it. */
  function ExistingEntries(rest: string, after: seq<string>): seq<string> {
    if InlineFlow(rest) then FlowList(rest[1..IndexOf(rest, ']')])
    else if rest != "" then [StripQuotes(rest)]
    else LeadingItems(after)
  }

  // ---- Rendering one section ----

  /** How many lines after a key line the renderer takes as its block: up to the
      next key or empty line. */
  function BlockLen(lines: seq<string>): (n: nat)
    ensures n <= |lines|
    ensures forall k :: 0 <= k < n ==> !TopKey(lines[k]) && lines[k] != ""
    ensures n < |lines| ==> TopKey(lines[n]) || lines[n] == ""
  {
    if lines == [] || TopKey(lines[0]) || lines[0] == "" then 0
    else
      var n := BlockLen(lines[1..]);
      assert forall k :: 1 <= k < n + 1 ==> lines[k] == lines[1..][k - 1];
      n + 1
  }

  function ItemLine(v: string): string { "  - " + QuoteIfNeeded(v) }

  function ItemLines(values: seq<string>): seq<string> {
    if values == [] then [] else [ItemLine(values[0])] + ItemLines(values[1..])
  }

  function ListSection(key: string, values: seq<string>): Section {
    if values == [] then Section(key + ": []", []) else Section(key + ":", ItemLines(values))
  }

  function ScalarText(value: string): string {
    var v := Trim(value);
    if v == "" then "\"\"" else QuoteIfNeeded(v)
  }

  function ScalarSection(key: string, value: string): Section {
    Section(key + ": " + ScalarText(value), [])
  }

  function WithTail(s: Section, tail: seq<string>): Section {
    s.(tail := s.tail + tail)
  }

  predicate Managed(key: string, adds: Additions) {
    key == "tags" || key == "related" || key in adds.fields
  }

  /** What replaces a key line and its block, given all the lines after it. */
  function RenderBlock(head: string, after: seq<string>, adds: Additions): Section {
    var key := KeyOf(head);
    var existing := ExistingEntries(RestOf(head), after);
    if key == "tags" then ListSection("tags", MergeUnique(existing, adds.tags))
    else if key == "related" then ListSection("related", MergeUnique(existing, adds.related))
    else if key in adds.fields then ScalarSection(key, adds.fields[key])
    else Section(head, after[..BlockLen(after)])
  }

  /** The rest of the section, from its first empty line on, stays. */
  function RenderSection(s: Section, adds: Additions): Section {
    WithTail(RenderBlock(s.head, s.tail, adds), s.tail[BlockLen(s.tail)..])
  }

  function RenderSections(secs: seq<Section>, adds: Additions): (r: seq<Section>)
    ensures |r| == |secs| && forall i :: 0 <= i < |r| ==> r[i] == RenderSection(secs[i], adds)
  {
    if secs == [] then [] else [RenderSection(secs[0], adds)] + RenderSections(secs[1..], adds)
  }

  // ---- What is added below the last section ----

  function Written(secs: seq<Section>, adds: Additions): set<string> {
    set s | s in secs && Managed(s.Key(), adds) :: s.Key()
  }

  function PrivateSections(keys: seq<string>, written: set<string>, fields: map<string, string>): seq<Section> {
    if keys == [] then []
    else
      var rest := PrivateSections(keys[1..], written, fields);
      if keys[0] !in written && keys[0] in fields && Trim(fields[keys[0]]) != ""
      then [ScalarSection(keys[0], fields[keys[0]])] + rest
      else rest
  }

  function MissingList(key: string, items: seq<string>, written: set<string>): seq<Section> {
    if key !in written && items != [] then [ListSection(key, items)] else []
  }

  function Appended(written: set<string>, adds: Additions): seq<Section> {
    MissingList("tags", adds.tags, written) + MissingList("related", adds.related, written)
    + PrivateSections(PRIVATE_KEYS, written, adds.fields)
  }

  /** The rendered outline: the sections one by one, then the added ones. */
  function RenderOutline(o: Outline, adds: Additions): Outline {
    Outline(o.preamble, RenderSections(o.sections, adds) + Appended(Written(o.sections, adds), adds))
  }

  // ---- The loops ----

  lemma {:induction false} EscapeSnoc(s: string, c: char)
    ensures Escape(s + [c]) == Escape(s) + EscapeChar(c)
  {
    if s == "" {
      assert s + [c] == [c] && [c][1..] == "";
    } else {
      assert (s + [c])[1..] == s[1..] + [c];
      EscapeSnoc(s[1..], c);
    }
  }

  method JsonStringQuote(v: string) returns (b: string)
    ensures b == Quoted(v)
  {
    b := "\"";
    for i := 0 to |v|
      invariant b == "\"" + Escape(v[..i])
    {
      EscapeSnoc(v[..i], v[i]);
      assert v[..i + 1] == v[..i] + [v[i]];
      var text;
      match v[i] {
        case '"' => text := "\\\"";
        case '\\' => text := "\\\\";
        case '\n' => text := "\\n";
        case '\r' => text := "\\r";
        case '\t' => text := "\\t";
        case _ => text := [v[i]];
      }
      assert b + text == "\"" + (Escape(v[..i]) + text);
      b := b + text;
    }
    assert v[..|v|] == v;
    b := b + "\"";
  }

  method MergeUniqueLoop(existing: seq<string>, additions: seq<string>) returns (out: seq<string>)
    ensures out == MergeUnique(existing, additions)
  {
    var seen := {};
    out := [];
    for i := 0 to |existing|
      invariant seen == set v | v in out
      invariant AddNew(out, existing[i..]) == AddNew([], existing)
    {
      assert existing[i..][1..] == existing[i + 1..];
      var v := existing[i];
      if v == "" || v in seen { continue; }
      seen := seen + {v};
      out := out + [v];
    }
    var trimmed := TrimAll(additions);
    for i := 0 to |additions|
      invariant seen == set v | v in out
      invariant AddNew(out, trimmed[i..]) == MergeUnique(existing, additions)
    {
      assert trimmed[i..][1..] == trimmed[i + 1..];
      var v := Trim(additions[i]);
      if v == "" || v in seen { continue; }
      seen := seen + {v};
      out := out + [v];
    }
  }

  method ParseFlowList(inner: string) returns (out: seq<string>)
    ensures out == FlowList(inner)
  {
    out := [];
    var cur := "";
    var quote := '\0';
    ghost var pieces := [];
    for i := 0 to |inner|
      invariant FlowScan(inner[..i]) == FlowState(pieces, cur, quote)
      invariant out == FlowValues(pieces)
    {
      FlowScanSnoc(inner, i);
      var c := inner[i];
      if quote != '\0' {
        if c == quote { quote := '\0'; }
        cur := cur + [c];
        continue;
      }
      match c
      case '"' => quote := c; cur := cur + [c];
      case '\'' => quote := c; cur := cur + [c];
      case ',' =>
        FlowValuesSnoc(pieces, cur);
        var v := StripQuotes(Trim(cur));
        if v != "" { out := out + [v]; }
        pieces, cur := pieces + [cur], "";
      case _ => cur := cur + [c];
    }
    assert inner[..|inner|] == inner;
    if |cur| > 0 {
      FlowValuesSnoc(pieces, cur);
      var v := StripQuotes(Trim(cur));
      if v != "" { out := out + [v]; }
    }
  }

  /** The same list, read from position `j`. */
  function LeadingItemsAt(lines: seq<string>, j: nat): seq<string>
    requires j <= |lines|
    decreases |lines| - j
  {
    if j < |lines| && DashLine(lines[j]) then Item(lines[j]) + LeadingItemsAt(lines, j + 1) else []
  }

  lemma {:induction false} LeadingItemsFrom(lines: seq<string>, j: nat)
    requires j <= |lines|
    ensures LeadingItemsAt(lines, j) == LeadingItems(lines[j..])
    decreases |lines| - j
  {
    if j < |lines| {
      LeadingItemsFrom(lines, j + 1);
      assert lines[j..][1..] == lines[j + 1..];
    }
  }

  /** What is read so far, and what is left to read. */
  ghost predicate ReadSoFar(lines: seq<string>, start: nat, j: nat, out: seq<string>)
    requires start <= |lines| && j <= |lines|
  {
    LeadingItems(lines[start..]) == out + LeadingItemsAt(lines, j)
  }

  lemma ReadStep(lines: seq<string>, start: nat, j: nat, out: seq<string>)
    requires start <= j <= |lines| && ReadSoFar(lines, start, j, out)
    ensures j < |lines| && DashLine(lines[j]) ==> ReadSoFar(lines, start, j + 1, out + Item(lines[j]))
    ensures !(j < |lines| && DashLine(lines[j])) ==> out == LeadingItems(lines[start..])
  {
    hide DashLine, Item, LeadingItems;
    var rest := LeadingItemsAt(lines, j);
    if j < |lines| && DashLine(lines[j]) {
      assert rest == Item(lines[j]) + LeadingItemsAt(lines, j + 1);
    } else {
      assert rest == [];
    }
  }

  lemma ReadStart(lines: seq<string>, start: nat)
    requires start <= |lines|
    ensures ReadSoFar(lines, start, start, [])
  {
    LeadingItemsFrom(lines, start);
    hide LeadingItems, LeadingItemsAt;
    assert [] + LeadingItemsAt(lines, start) == LeadingItemsAt(lines, start);
  }

  method ReadDashLines(lines: seq<string>, start: nat) returns (out: seq<string>)
    requires start <= |lines|
    ensures out == LeadingItems(lines[start..])
  {
    hide *;
    out := [];
    ReadStart(lines, start);
    for j := start to |lines|
      invariant ReadSoFar(lines, start, j, out)
    {
      ReadStep(lines, start, j, out);
      if !DashLine(lines[j]) { return; }
      var item := DashItem(lines[j]);
      out := out + item;
    }
    ReadStep(lines, start, |lines|, out);
  }

  method DashItem(line: string) returns (item: seq<string>)
    requires DashLine(line)
    ensures item == Item(line)
  {
    var trim := Trim(line);
    var v := StripQuotes(Trim(trim[1..]));
    item := if v != "" then [v] else [];
  }

  method ReadListBlock(lines: seq<string>, start: nat) returns (out: seq<string>)
    requires start < |lines|
    ensures out == ExistingEntries(RestOf(lines[start]), lines[start + 1..])
  {
    var rest := RestOf(lines[start]);
    if HasPrefix(rest, "[") {
      var end := IndexOf(rest, ']');
      if end < |rest| {
        out := ParseFlowList(rest[1..end]);
        return;
      }
    }
    if rest != "" {
      return [StripQuotes(rest)];
    }
    out := ReadDashLines(lines, start + 1);
  }

  lemma {:induction false} ItemLinesSnoc(values: seq<string>, v: string)
    ensures ItemLines(values + [v]) == ItemLines(values) + [ItemLine(v)]
  {
    if values == [] {
      assert values + [v] == [v] && ItemLines([v][1..]) == [];
    } else {
      assert (values + [v])[1..] == values[1..] + [v];
      ItemLinesSnoc(values[1..], v);
    }
  }

  lemma EmitStep(head: string, values: seq<string>, v: string)
    ensures Unlines([head] + ItemLines(values + [v])) == Unlines([head] + ItemLines(values)) + (ItemLine(v) + "\n")
  {
    ItemLinesSnoc(values, v);
    assert [head] + (ItemLines(values) + [ItemLine(v)]) == ([head] + ItemLines(values)) + [ItemLine(v)];
    UnlinesAppend([head] + ItemLines(values), [ItemLine(v)]);
    UnlinesOne(ItemLine(v));
  }

  method EmitListBlock(out: string, key: string, items: seq<string>) returns (r: string)
    ensures r == out + Unlines(ListSection(key, items).Lines())
  {
    if |items| == 0 {
      UnlinesOne(key + ": []");
      assert [key + ": []"] + [] == [key + ": []"];
      return out + (key + ": []" + "\n");
    }
    var head := key + ":";
    UnlinesOne(head);
    assert [head] + ItemLines(items[..0]) == [head];
    var text := head + "\n";
    for i := 0 to |items|
      invariant text == Unlines([head] + ItemLines(items[..i]))
    {
      EmitStep(head, items[..i], items[i]);
      assert items[..i + 1] == items[..i] + [items[i]];
      var item := items[i];
      if NeedsQuote(items[i]) { item := JsonStringQuote(items[i]); }
      text := text + ("  - " + item + "\n");
    }
    assert items[..|items|] == items;
    r := out + text;
  }

  method EmitScalar(out: string, key: string, value: string) returns (r: string)
    ensures r == out + Unlines(ScalarSection(key, value).Lines())
  {
    UnlinesOne(key + ": " + ScalarText(value));
    var v := Trim(value);
    if v == "" { return out + (key + ": \"\"\n"); }
    if NeedsQuote(v) {
      var q := JsonStringQuote(v);
      return out + (key + ": " + q + "\n");
    }
    return out + (key + ": " + v + "\n");
  }

  // ---- Reading past the end of a section changes nothing ----

  lemma {:induction false} LeadingItemsPrefix(tail: seq<string>, more: seq<string>)
    requires more == [] || !DashLine(more[0])
    ensures LeadingItems(tail + more) == LeadingItems(tail)
  {
    if tail == [] {
      assert tail + more == more;
    } else {
      assert (tail + more)[1..] == tail[1..] + more;
      LeadingItemsPrefix(tail[1..], more);
    }
  }

  lemma {:induction false} BlockLenPrefix(tail: seq<string>, more: seq<string>)
    requires more == [] || TopKey(more[0]) || more[0] == ""
    ensures BlockLen(tail + more) == BlockLen(tail)
  {
    if tail == [] {
      assert tail + more == more;
    } else {
      assert (tail + more)[1..] == tail[1..] + more;
      BlockLenPrefix(tail[1..], more);
    }
  }

  lemma ExistingEntriesPrefix(rest: string, tail: seq<string>, more: seq<string>)
    requires more == [] || !DashLine(more[0])
    ensures ExistingEntries(rest, tail + more) == ExistingEntries(rest, tail)
  {
    LeadingItemsPrefix(tail, more);
  }

  lemma RenderBlockPrefix(head: string, tail: seq<string>, more: seq<string>, adds: Additions)
    requires more == [] || TopKey(more[0]) || more[0] == ""
    ensures RenderBlock(head, tail + more, adds) == RenderBlock(head, tail, adds)
  {
    ExistingEntriesPrefix(RestOf(head), tail, more);
    BlockLenPrefix(tail, more);
    var n := BlockLen(tail);
    assert (tail + more)[..n] == tail[..n];
  }

  /** What follows a key line is read the same whether the scan stops at the end
      of the section or runs on to the end of the block. */
  lemma AfterIsTail(lines: seq<string>, head: string, adds: Additions)
    ensures RenderBlock(head, lines, adds) == RenderBlock(head, Parse(lines).preamble, adds)
    ensures BlockLen(lines) == BlockLen(Parse(lines).preamble)
  {
    ParseCoversLines(lines);
    ParseWellFormed(lines);
    var o := Parse(lines);
    var more := Flatten(o.sections);
    if o.sections != [] { assert o.sections[0] in o.sections; }
    RenderBlockPrefix(head, o.preamble, more, adds);
    BlockLenPrefix(o.preamble, more);
  }

  // ---- The rendering of the lines from a position on ----

  function RenderLines(lines: seq<string>, adds: Additions): seq<string> {
    var o := Parse(lines);
    o.preamble + Flatten(RenderSections(o.sections, adds))
  }

  lemma RenderLinesPlain(lines: seq<string>, adds: Additions)
    requires lines != [] && !TopKey(lines[0])
    ensures RenderLines(lines, adds) == [lines[0]] + RenderLines(lines[1..], adds)
    ensures Written(Parse(lines).sections, adds) == Written(Parse(lines[1..]).sections, adds)
  {
    hide TopKey, RenderSections, Flatten, Written, Parse;
    var rest := Parse(lines[1..]);
    ParsePlain(lines);
    PrependOne(lines[0], rest.preamble, Flatten(RenderSections(rest.sections, adds)));
  }

  lemma ParsePlain(lines: seq<string>)
    requires lines != [] && !TopKey(lines[0])
    ensures Parse(lines) == Outline([lines[0]] + Parse(lines[1..]).preamble, Parse(lines[1..]).sections)
  {
    hide TopKey;
  }

  lemma PrependOne<T>(x: T, a: seq<T>, b: seq<T>)
    ensures [x] + a + b == [x] + (a + b)
  {}

  lemma RenderLinesBlock(lines: seq<string>, adds: Additions)
    requires lines != [] && TopKey(lines[0])
    ensures var n := BlockLen(lines[1..]);
      && RenderLines(lines, adds) == RenderBlock(lines[0], lines[1..], adds).Lines() + RenderLines(lines[1 + n..], adds)
      && Written(Parse(lines).sections, adds) ==
         (if Managed(KeyOf(lines[0]), adds) then {KeyOf(lines[0])} else {})
           + Written(Parse(lines[1 + n..]).sections, adds)
  {
    hide TopKey, KeyOf, Parse, RenderBlock, RenderSections, Flatten, Written, RenderSection;
    var n := BlockLen(lines[1..]);
    assert forall k :: 1 <= k < 1 + n ==> lines[k] == lines[1..][k - 1];
    ParseStep(lines, n);
    AfterIsTail(lines[1..], lines[0], adds);
    var s := Section(lines[0], Parse(lines[1..]).preamble);
    var rest := Parse(lines[1 + n..]);
    RenderFirst(s, n, rest.preamble, rest.sections, adds);
    WrittenCons(s, rest.sections, adds);
  }

  lemma RenderFirst(s: Section, n: nat, left: seq<string>, secs: seq<Section>, adds: Additions)
    requires n == BlockLen(s.tail) && s.tail[n..] == left
    ensures Flatten(RenderSections([s] + secs, adds)) ==
      RenderBlock(s.head, s.tail, adds).Lines() + (left + Flatten(RenderSections(secs, adds)))
  {
    RenderSectionsCons(s, secs, adds);
    FlattenFirst(RenderBlock(s.head, s.tail, adds), left, RenderSections(secs, adds));
  }

  lemma RenderSectionsCons(s: Section, secs: seq<Section>, adds: Additions)
    ensures RenderSections([s] + secs, adds) == [RenderSection(s, adds)] + RenderSections(secs, adds)
  {
    assert ([s] + secs)[1..] == secs;
  }

  lemma FlattenFirst(block: Section, left: seq<string>, secs: seq<Section>)
    ensures Flatten([WithTail(block, left)] + secs) == block.Lines() + (left + Flatten(secs))
  {
    FlattenCons(WithTail(block, left), secs);
    assert WithTail(block, left).Lines() == block.Lines() + left;
  }

  lemma FlattenCons(s: Section, secs: seq<Section>)
    ensures Flatten([s] + secs) == s.Lines() + Flatten(secs)
  {
    assert ([s] + secs)[1..] == secs;
  }

  lemma WrittenCons(s: Section, secs: seq<Section>, adds: Additions)
    ensures Written([s] + secs, adds) == (if Managed(s.Key(), adds) then {s.Key()} else {}) + Written(secs, adds)
  {
    var all := [s] + secs;
    forall k ensures k in Written(all, adds) <==> (Managed(s.Key(), adds) && k == s.Key()) || k in Written(secs, adds) {
      if k in Written(secs, adds) {
        var t :| t in secs && Managed(t.Key(), adds) && t.Key() == k;
        assert t in all;
      }
      if Managed(s.Key(), adds) && k == s.Key() { assert s in all; }
    }
  }

  // ---- The rendered block ----

  /** Rendering a frontmatter block, given as its lines. */
  function Rendered(lines: seq<string>, adds: Additions): seq<string> {
    RenderOutline(Parse(lines), adds).Lines()
  }

  lemma RenderedParts(lines: seq<string>, adds: Additions)
    ensures Rendered(lines, adds) ==
      RenderLines(lines, adds) + Flatten(Appended(Written(Parse(lines).sections, adds), adds))
  {
    var o := Parse(lines);
    FlattenAppend(RenderSections(o.sections, adds), Appended(Written(o.sections, adds), adds));
  }

  /** The renderer's progress: `done` lines are out, position `i` is next. */
  ghost predicate Progress(lines: seq<string>, adds: Additions, i: nat, out: string, done: seq<string>,
                           written: set<string>)
    requires i <= |lines|
  {
    && out == Unlines(done)
    && done + RenderLines(lines[i..], adds) == RenderLines(lines, adds)
    && written + Written(Parse(lines[i..]).sections, adds) == Written(Parse(lines).sections, adds)
  }

  lemma ProgressPlain(lines: seq<string>, adds: Additions, i: nat, out: string, done: seq<string>, written: set<string>)
    requires i < |lines| && !TopKey(lines[i])
    requires Progress(lines, adds, i, out, done, written)
    ensures Progress(lines, adds, i + 1, out + lines[i] + "\n", done + [lines[i]], written)
  {
    hide RenderLines, Parse, Written, TopKey;
    var rest := lines[i..];
    assert rest[1..] == lines[i + 1..];
    RenderLinesPlain(rest, adds);
    UnlinesAppend(done, [lines[i]]);
    UnlinesOne(lines[i]);
    assert done + ([lines[i]] + RenderLines(lines[i + 1..], adds)) ==
      done + [lines[i]] + RenderLines(lines[i + 1..], adds);
  }

  lemma ProgressBlock(lines: seq<string>, adds: Additions, i: nat, out: string, done: seq<string>, written: set<string>)
    requires i < |lines| && TopKey(lines[i])
    requires Progress(lines, adds, i, out, done, written)
    ensures var n := BlockLen(lines[i + 1..]);
      var block := RenderBlock(lines[i], lines[i + 1..], adds).Lines();
      Progress(lines, adds, i + 1 + n, out + Unlines(block), done + block,
        written + (if Managed(KeyOf(lines[i]), adds) then {KeyOf(lines[i])} else {}))
  {
    hide RenderLines, Parse, Written, TopKey, RenderBlock, Managed, BlockLen;
    var rest := lines[i..];
    assert rest[1..] == lines[i + 1..];
    var n := BlockLen(lines[i + 1..]);
    assert rest[1 + n..] == lines[i + 1 + n..];
    RenderLinesBlock(rest, adds);
    var block := RenderBlock(lines[i], lines[i + 1..], adds).Lines();
    UnlinesAppend(done, block);
    assert done + (block + RenderLines(lines[i + 1 + n..], adds)) ==
      done + block + RenderLines(lines[i + 1 + n..], adds);
  }

  lemma BlockLenUnique(lines: seq<string>, n: nat)
    requires n <= |lines|
    requires forall k :: 0 <= k < n ==> !TopKey(lines[k]) && lines[k] != ""
    requires n < |lines| ==> TopKey(lines[n]) || lines[n] == ""
    ensures BlockLen(lines) == n
  {
    hide TopKey;
    var m := BlockLen(lines);
  }

  method BlockEnd(lines: seq<string>, i: nat) returns (blockEnd: nat)
    requires i < |lines|
    ensures blockEnd == i + 1 + BlockLen(lines[i + 1..])
  {
    blockEnd := i + 1;
    while blockEnd < |lines| && !TopKey(lines[blockEnd]) && lines[blockEnd] != ""
      invariant i + 1 <= blockEnd <= |lines|
      invariant forall k :: i + 1 <= k < blockEnd ==> !TopKey(lines[k]) && lines[k] != ""
    {
      blockEnd := blockEnd + 1;
    }
    var after := lines[i + 1..];
    assert forall k :: 0 <= k < blockEnd - i - 1 ==> after[k] == lines[k + i + 1];
    BlockLenUnique(after, blockEnd - i - 1);
  }

  method CopyLines(lines: seq<string>, from: nat, end: nat) returns (text: string)
    requires from <= end <= |lines|
    ensures text == Unlines(lines[from..end])
  {
    text := "";
    for j := from to end
      invariant text == Unlines(lines[from..j])
    {
      assert lines[from..j + 1] == lines[from..j] + [lines[j]];
      UnlinesAppend(lines[from..j], [lines[j]]);
      UnlinesOne(lines[j]);
      text := text + (lines[j] + "\n");
    }
  }

  method RenderOne(lines: seq<string>, i: nat, blockEnd: nat, adds: Additions) returns (text: string)
    requires i < |lines| && blockEnd == i + 1 + BlockLen(lines[i + 1..])
    ensures text == Unlines(RenderBlock(lines[i], lines[i + 1..], adds).Lines())
  {
    hide KeyOf, RestOf, ExistingEntries, MergeUnique, BlockLen, ListSection, ScalarSection;
    var key := KeyOf(lines[i]);
    if key == "tags" {
      var existing := ReadListBlock(lines, i);
      var merged := MergeUniqueLoop(existing, adds.tags);
      text := EmitListBlock("", "tags", merged);
    } else if key == "related" {
      var existing := ReadListBlock(lines, i);
      var merged := MergeUniqueLoop(existing, adds.related);
      text := EmitListBlock("", "related", merged);
    } else if key in adds.fields {
      text := EmitScalar("", key, adds.fields[key]);
    } else {
      text := CopyLines(lines, i, blockEnd);
      assert lines[i..blockEnd] == [lines[i]] + lines[i + 1..][..blockEnd - i - 1];
    }
  }

  lemma PrivateStep(done: seq<Section>, i: nat, written: set<string>, fields: map<string, string>)
    requires i < |PRIVATE_KEYS|
    ensures var k := PRIVATE_KEYS[i];
      var more := if k !in written && k in fields && Trim(fields[k]) != "" then [ScalarSection(k, fields[k])] else [];
      done + PrivateSections(PRIVATE_KEYS[i..], written, fields)
      == done + more + PrivateSections(PRIVATE_KEYS[i + 1..], written, fields)
  {
    hide Trim, ScalarSection;
    assert PRIVATE_KEYS[i..][1..] == PRIVATE_KEYS[i + 1..] && PRIVATE_KEYS[i..][0] == PRIVATE_KEYS[i];
  }

  method EmitPrivate(written: set<string>, adds: Additions) returns (text: string)
    ensures text == Unlines(Flatten(PrivateSections(PRIVATE_KEYS, written, adds.fields)))
  {
    text := "";
    ghost var done: seq<Section> := [];
    assert PRIVATE_KEYS[0..] == PRIVATE_KEYS && text == Unlines(Flatten(done));
    hide Trim, ScalarSection, Unlines, Flatten;
    for i := 0 to |PRIVATE_KEYS|
      invariant text == Unlines(Flatten(done))
      invariant done + PrivateSections(PRIVATE_KEYS[i..], written, adds.fields) ==
        PrivateSections(PRIVATE_KEYS, written, adds.fields)
    {
      hide PrivateSections;
      var k := PRIVATE_KEYS[i];
      PrivateStep(done, i, written, adds.fields);
      assert done + [] == done;
      if k in written { continue; }
      if k in adds.fields && Trim(adds.fields[k]) != "" {
        var s := ScalarSection(k, adds.fields[k]);
        SnocSection(done, s);
        text := EmitScalar(text, k, adds.fields[k]);
        done := done + [s];
      }
    }
    assert PRIVATE_KEYS[|PRIVATE_KEYS|..] == [];
    assert done + [] == done;
  }

  lemma SnocSection(secs: seq<Section>, s: Section)
    ensures Unlines(Flatten(secs + [s])) == Unlines(Flatten(secs)) + Unlines(s.Lines())
  {
    FlattenAppend(secs, [s]);
    FlattenCons(s, []);
    assert [s] + [] == [s] && s.Lines() + [] == s.Lines();
    UnlinesAppend(Flatten(secs), s.Lines());
  }

  lemma ProgressStart(L: seq<string>, adds: Additions)
    ensures Progress(L, adds, 0, "", [], {})
  {
    assert L[0..] == L;
  }

  lemma ProgressEnd(L: seq<string>, adds: Additions, out: string, done: seq<string>, written: set<string>)
    requires Progress(L, adds, |L|, out, done, written)
    ensures out + Unlines(Flatten(Appended(written, adds))) == Unlines(Rendered(L, adds))
  {
    hide Appended;
    assert L[|L|..] == [];
    assert Written(Parse([]).sections, adds) == {} && written == written + {};
    RenderedParts(L, adds);
    assert RenderLines([], adds) == [] && done + [] == done;
    UnlinesAppend(done, Flatten(Appended(written, adds)));
  }

  method RenderAt(lines: seq<string>, i: nat, adds: Additions, ghost L: seq<string>)
      returns (text: string, blockEnd: nat)
    requires lines == L + [""] && i < |L|
    ensures text == Unlines(RenderBlock(L[i], L[i + 1..], adds).Lines())
    ensures blockEnd == i + 1 + BlockLen(L[i + 1..]) <= |L|
  {
    hide *;
    TrailingBlank(L, lines, i, adds);
    blockEnd := BlockEnd(lines, i);
    text := RenderOne(lines, i, blockEnd, adds);
  }

  method MergeBlock(lines: seq<string>, i: nat, out: string, written: set<string>, adds: Additions,
                    ghost L: seq<string>, ghost done: seq<string>)
      returns (out': string, written': set<string>, i': nat, ghost done': seq<string>)
    requires lines == L + [""] && i < |L| && TopKey(lines[i])
    requires Progress(L, adds, i, out, done, written)
    ensures i < i' <= |L| && Progress(L, adds, i', out', done', written')
  {
    hide *;
    var key := KeyOf(lines[i]);
    assert L[i] == lines[i];
    ProgressBlock(L, adds, i, out, done, written);
    var text;
    text, i' := RenderAt(lines, i, adds, L);
    out' := out + text;
    written' := written + (if Managed(key, adds) then {key} else {});
    done' := done + RenderBlock(L[i], L[i + 1..], adds).Lines();
  }

  method MergeFrontmatter(frontmatter: string, adds: Additions) returns (out: string)
    requires frontmatter != "" && frontmatter[|frontmatter| - 1] == '\n'
    ensures out == Unlines(Rendered(BlockLines(frontmatter), adds))
  {
    SplitTerminated(frontmatter);
    var lines := Split(frontmatter);
    ghost var L := BlockLines(frontmatter);
    assert lines == L + [""] && !TopKey("");
    hide *;
    out := "";
    var written := {};
    var i := 0;
    ghost var done: seq<string> := [];
    ProgressStart(L, adds);
    while i < |lines|
      invariant i <= |lines| == |L| + 1
      invariant Progress(L, adds, if i <= |L| then i else |L|, out, done, written)
      decreases |lines| - i
    {
      var line := lines[i];
      if !TopKey(line) {
        if i < |L| {
          ProgressPlain(L, adds, i, out, done, written);
          done := done + [line];
        }
        out := out + line;
        if i + 1 < |lines| { out := out + "\n"; }
        i := i + 1;
        continue;
      }
      out, written, i, done := MergeBlock(lines, i, out, written, adds, L, done);
    }
    ProgressEnd(L, adds, out, done, written);
    out := AppendMissing(out, written, adds);
  }

  /** The last, empty piece of the split text belongs to no block. */
  lemma TrailingBlank(L: seq<string>, lines: seq<string>, i: nat, adds: Additions)
    requires lines == L + [""] && i < |L|
    ensures BlockLen(lines[i + 1..]) == BlockLen(L[i + 1..])
    ensures RenderBlock(lines[i], lines[i + 1..], adds) == RenderBlock(L[i], L[i + 1..], adds)
  {
    hide RenderBlock, BlockLen, TopKey;
    assert lines[i + 1..] == L[i + 1..] + [""];
    BlockLenPrefix(L[i + 1..], [""]);
    RenderBlockPrefix(L[i], L[i + 1..], [""], adds);
  }

  method EmitMissingList(out: string, key: string, items: seq<string>, written: set<string>) returns (r: string)
    ensures r == out + Unlines(Flatten(MissingList(key, items, written)))
  {
    if key in written || |items| == 0 {
      return out;
    }
    r := EmitListBlock(out, key, items);
    SnocSection([], ListSection(key, items));
    assert [] + [ListSection(key, items)] == [ListSection(key, items)];
  }

  lemma UnlinesFlatten3(a: seq<Section>, b: seq<Section>, c: seq<Section>)
    ensures Unlines(Flatten(a + b + c)) == Unlines(Flatten(a)) + Unlines(Flatten(b)) + Unlines(Flatten(c))
  {
    FlattenAppend(a + b, c);
    UnlinesAppend(Flatten(a + b), Flatten(c));
    FlattenAppend(a, b);
    UnlinesAppend(Flatten(a), Flatten(b));
  }

  method AppendMissing(before: string, written: set<string>, adds: Additions) returns (out: string)
    ensures out == before + Unlines(Flatten(Appended(written, adds)))
  {
    hide ListSection, PrivateSections, Unlines, Flatten;
    ghost var tail := PrivateSections(PRIVATE_KEYS, written, adds.fields);
    UnlinesFlatten3(MissingList("tags", adds.tags, written), MissingList("related", adds.related, written), tail);
    assert Appended(written, adds) ==
      MissingList("tags", adds.tags, written) + MissingList("related", adds.related, written) + tail;
    hide *;
    out := EmitMissingList(before, "tags", adds.tags, written);
    out := EmitMissingList(out, "related", adds.related, written);
    var text := EmitPrivate(written, adds);
    out := out + text;
    Regroup(before, Unlines(Flatten(MissingList("tags", adds.tags, written))),
            Unlines(Flatten(MissingList("related", adds.related, written))), text);
  }

  lemma Regroup(a: string, b: string, c: string, d: string)
    ensures a + b + c + d == a + (b + c + d)
  {}

  // ---- The note ----

  /** The lines of a block that ends in a line break. */
  function BlockLines(block: string): (lines: seq<string>)
    requires block != "" && block[|block| - 1] == '\n'
    ensures AllLineFree(lines) && lines != [] && Unlines(lines) == block
  {
    SplitTerminated(block);
    var r := Split(block);
    r[..|r| - 1]
  }

  /** `strings.Index`. */
  function FindText(s: string, p: string): (r: Option<nat>)
    ensures r.Some? ==> r.value <= |s| && HasPrefix(s[r.value..], p)
  {
    if HasPrefix(s, p) then Some(0)
    else if s == "" then None
    else
      var r := FindText(s[1..], p);
      if r.None? then None
      else
        assert s[r.value + 1..] == s[1..][r.value..];
        Some(r.value + 1)
  }

  /** Where the frontmatter block ends: the byte after its last line break. */
  function BlockEndOf(content: string): (r: Option<nat>)
    ensures r.Some? ==>
      && 4 < r.value < |content| && HasPrefix(content, "---\n")
      && content[r.value - 1] == '\n' && HasPrefix(content[r.value..], "---")
  {
    if !HasPrefix(content, "---\n") then None
    else
      var r := FindText(content[4..], "\n---");
      if r.None? then None
      else
        var rest := content[4..][r.value..];
        assert rest[0] == "\n---"[0] && rest[1] == "\n---"[1] && rest[2] == "\n---"[2] && rest[3] == "\n---"[3];
        assert content[4 + r.value] == rest[0];
        assert content[5 + r.value..] == rest[1..];
        Some(4 + r.value + 1)
  }

  method FindFrontmatterBounds(content: string) returns (start: nat, end: nat, ok: bool)
    ensures ok == BlockEndOf(content).Some?
    ensures ok ==> start == 4 && end == BlockEndOf(content).value
  {
    if !HasPrefix(content, "---\n") { return 0, 0, false; }
    var rest := content[4..];
    var found := FindText(rest, "\n---");
    if found.None? { return 0, 0, false; }
    return 4, 4 + found.value + 1, true;
  }

  /** A note split at its fences: the lines between them, and everything from the
      closing fence on. */
  datatype Note = Note(lines: seq<string>, suffix: string) {
    function Text(): string { "---\n" + Unlines(lines) + suffix }
  }

  function NoteOf(content: string): (r: Option<Note>)
    ensures r.Some? ==> AllLineFree(r.value.lines) && r.value.lines != [] && r.value.Text() == content
    ensures r.Some? ==> HasPrefix(r.value.suffix, "---")
  {
    var end := BlockEndOf(content);
    if end.None? then None
    else
      var block := content[4..end.value];
      assert block[|block| - 1] == content[end.value - 1];
      assert content == content[..4] + block + content[end.value..];
      Some(Note(BlockLines(block), content[end.value..]))
  }

  /** The rendered note, or nothing when the input has no frontmatter. */
  function RenderNote(content: string, adds: Additions): Option<string> {
    var note := NoteOf(content);
    if note.None? then None else Some(note.value.(lines := Rendered(note.value.lines, adds)).Text())
  }

  method ApplyEnrichToFrontmatter(before: string, adds: Additions) returns (r: Option<string>)
    ensures r == RenderNote(before, adds)
  {
    var start, end, ok := FindFrontmatterBounds(before);
    if !ok { return None; }
    var frontmatter := before[start..end];
    assert frontmatter[|frontmatter| - 1] == before[end - 1];
    var updated := MergeFrontmatter(frontmatter, adds);
    assert before[..start] == "---\n";
    return Some(before[..start] + updated + before[end..]);
  }
}
