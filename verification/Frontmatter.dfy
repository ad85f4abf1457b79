/** Notes as frontmatter sections: the vocabulary shared by the renderer
    (internal/enrich) and the guard (internal/policy), which each scan the same
    lines in their own way. */
module Frontmatter {
  import opened Text

  // ---- The fields an enrich run may write ----

  /** The five fields only OpenWhisker writes, in the order they are added. */
  const PRIVATE_KEYS: seq<string> := [
    "openwhisker_route_suggestion",
    "openwhisker_new_tag_candidates",
    "openwhisker_enriched_at",
    "openwhisker_enrich_run_id",
    "openwhisker_enrich_attempts"
  ]

  const WRITABLE: set<string> := {"tags", "related"} + (set k | k in PRIVATE_KEYS)

  // ---- Top-level keys ----

  /** A line at column 0 of the form `key:`; both packages carry this test. */
  predicate TopKey(line: string) {
    && line != ""
    && line[0] != ' ' && line[0] != '\t' && line[0] != '-' && line[0] != '#'
    && 0 < IndexOf(line, ':') < |line|
    && ' ' !in line[..IndexOf(line, ':')] && '\t' !in line[..IndexOf(line, ':')]
  }

  function KeyOf(line: string): string {
    Trim(line[..IndexOf(line, ':')])
  }

  /** What follows the colon, less one leading blank. */
  function RestOf(line: string): string {
    var colon := IndexOf(line, ':');
    if colon < |line| then TrimPrefix(line[colon + 1..], " ") else ""
  }

  /** A line made of a plain key, a colon and a blank-led or empty remainder. */
  lemma HeadLine(key: string, rest: string)
    requires PlainKey(key)
    ensures TopKey(key + ": " + rest) && KeyOf(key + ": " + rest) == key && RestOf(key + ": " + rest) == rest
    ensures TopKey(key + ":") && KeyOf(key + ":") == key && RestOf(key + ":") == ""
  {
    var l := key + ": " + rest;
    assert l[..|key|] == key && l[|key|] == ':' && l[0] == key[0];
    IndexOfUnique(l, ':', |key|);
    assert l[|key| + 1..] == " " + rest;
    assert (" " + rest)[1..] == rest;
    var m := key + ":";
    assert m[..|key|] == key && m[|key|] == ':' && m[0] == key[0];
    IndexOfUnique(m, ':', |key|);
    assert m[|key| + 1..] == "";
    TrimSolid(key);
  }

  predicate PlainKey(key: string) {
    && key != "" && key[0] != '-' && key[0] != '#'
    && ':' !in key && ' ' !in key && '\t' !in key
    && Solid(key)
  }

  // ---- Sections ----

  /** One top-level key line with the lines under it. */
  datatype Section = Section(head: string, tail: seq<string>) {
    predicate WellFormed() {
      TopKey(head) && NoKeys(tail)
    }
    function Key(): string { KeyOf(head) }
    function Lines(): seq<string> { [head] + tail }
  }

  predicate NoKeys(lines: seq<string>) { forall l :: l in lines ==> !TopKey(l) }

  predicate WellFormedAll(secs: seq<Section>) { forall s :: s in secs ==> s.WellFormed() }

  /** A frontmatter block: what comes before the first key, then the sections. */
  datatype Outline = Outline(preamble: seq<string>, sections: seq<Section>) {
    predicate WellFormed() { NoKeys(preamble) && WellFormedAll(sections) }
    function Lines(): seq<string> { preamble + Flatten(sections) }
  }

  function Flatten(secs: seq<Section>): seq<string> {
    if secs == [] then [] else secs[0].Lines() + Flatten(secs[1..])
  }

  function Parse(lines: seq<string>): Outline {
    if lines == [] then Outline([], [])
    else
      var rest := Parse(lines[1..]);
      if TopKey(lines[0]) then Outline([], [Section(lines[0], rest.preamble)] + rest.sections)
      else Outline([lines[0]] + rest.preamble, rest.sections)
  }

  lemma {:induction false} ParseWellFormed(lines: seq<string>)
    ensures Parse(lines).WellFormed()
  {
    if lines != [] { ParseWellFormed(lines[1..]); }
  }

  /** Splitting into sections loses nothing. */
  lemma {:induction false} ParseCoversLines(lines: seq<string>)
    ensures Parse(lines).Lines() == lines
  {
    if lines != [] {
      ParseCoversLines(lines[1..]);
      var rest := Parse(lines[1..]);
      assert lines == [lines[0]] + (rest.preamble + Flatten(rest.sections));
      if TopKey(lines[0]) {
        var secs := [Section(lines[0], rest.preamble)] + rest.sections;
        assert secs[1..] == rest.sections;
        assert Flatten(secs) == [lines[0]] + rest.preamble + Flatten(rest.sections);
      }
    }
  }

  lemma {:induction false} FlattenAppend(a: seq<Section>, b: seq<Section>)
    ensures Flatten(a + b) == Flatten(a) + Flatten(b)
  {
    if a == [] {
      assert a + b == b;
    } else {
      assert (a + b)[1..] == a[1..] + b;
      FlattenAppend(a[1..], b);
    }
  }

  /** Lines without a key in front only lengthen the preamble. */
  lemma {:induction false} ParsePrepend(p: seq<string>, rest: seq<string>)
    requires NoKeys(p)
    ensures Parse(p + rest) == Outline(p + Parse(rest).preamble, Parse(rest).sections)
  {
    if p == [] {
      assert p + rest == rest;
      assert p + Parse(rest).preamble == Parse(rest).preamble;
    } else {
      assert p[0] in p;
      assert NoKeys(p[1..]);
      assert (p + rest)[1..] == p[1..] + rest;
      ParsePrepend(p[1..], rest);
      assert p + Parse(rest).preamble == [p[0]] + (p[1..] + Parse(rest).preamble);
    }
  }

  /** And an outline laid out as lines is read back as that outline. */
  lemma {:induction false} ParseOfLines(o: Outline)
    requires o.WellFormed()
    ensures Parse(o.Lines()) == o
    decreases |o.sections|
  {
    ParsePrepend(o.preamble, Flatten(o.sections));
    if o.sections == [] {
      assert o.preamble + [] == o.preamble;
    } else {
      var s, rest := o.sections[0], o.sections[1..];
      assert s in o.sections && WellFormedAll(rest);
      var inner := Outline(s.tail, rest);
      ParseOfLines(inner);
      assert Flatten(o.sections) == [s.head] + inner.Lines();
      assert Flatten(o.sections)[1..] == inner.Lines();
      assert [s] + rest == o.sections;
      assert o.preamble + [] == o.preamble;
    }
  }

  /** Leaving a section after its key line and some of its lines: what is left of
      it reads as a preamble, and the later sections are the same. */
  lemma ParseStep(lines: seq<string>, n: nat)
    requires 1 + n <= |lines| && TopKey(lines[0]) && NoKeys(lines[1..1 + n])
    ensures var tail, rest := Parse(lines[1..]).preamble, Parse(lines[1 + n..]);
      && Parse(lines) == Outline([], [Section(lines[0], tail)] + rest.sections)
      && n <= |tail| && tail[n..] == rest.preamble
  {
    hide TopKey, Parse;
    var p, more := lines[1..1 + n], lines[1 + n..];
    assert lines[1..] == p + more;
    ParsePrepend(p, more);
    ParseKey(lines);
    assert (p + Parse(more).preamble)[n..] == Parse(more).preamble;
  }

  lemma ParseKey(lines: seq<string>)
    requires lines != [] && TopKey(lines[0])
    ensures Parse(lines) == Outline([], [Section(lines[0], Parse(lines[1..]).preamble)] + Parse(lines[1..]).sections)
  {
    hide TopKey;
  }

  // ---- List items ----

  function StripQuotes(s: string): string {
    var t := Trim(s);
    if |t| >= 2 && t[0] == t[|t| - 1] && (t[0] == '"' || t[0] == '\'') then t[1..|t| - 1] else t
  }

  /** The entry a block-list line carries, if any. */
  function Item(line: string): (r: seq<string>)
    ensures |r| <= 1 && (r != [] ==> r[0] != "")
  {
    var t := Trim(line);
    if !HasPrefix(t, "-") then []
    else
      var v := StripQuotes(Trim(t[1..]));
      if v == "" then [] else [v]
  }

  function Items(lines: seq<string>): (r: seq<string>)
    ensures "" !in r
  {
    if lines == [] then [] else Item(lines[0]) + Items(lines[1..])
  }

  lemma {:induction false} ItemsAppend(a: seq<string>, b: seq<string>)
    ensures Items(a + b) == Items(a) + Items(b)
  {
    if a == [] {
      assert a + b == b;
    } else {
      assert (a + b)[1..] == a[1..] + b;
      ItemsAppend(a[1..], b);
    }
  }

  lemma ItemOfTrim(line: string)
    ensures Item(Trim(line)) == Item(line)
  {
    TrimIdempotent(line);
  }

  // ---- Flow lists ----

  /** The state of the scan for commas: the pieces cut off so far, the piece being
      read and the open quote ('\0' when none). */
  datatype FlowState = FlowState(pieces: seq<string>, cur: string, quote: char)

  /** Commas inside quotes do not separate. */
  function FlowStep(st: FlowState, c: char): FlowState {
    if st.quote != '\0' then FlowState(st.pieces, st.cur + [c], if c == st.quote then '\0' else st.quote)
    else if c == '"' || c == '\'' then FlowState(st.pieces, st.cur + [c], c)
    else if c == ',' then FlowState(st.pieces + [st.cur], "", '\0')
    else FlowState(st.pieces, st.cur + [c], '\0')
  }

  function FlowScan(inner: string): FlowState {
    if inner == "" then FlowState([], "", '\0')
    else FlowStep(FlowScan(inner[..|inner| - 1]), inner[|inner| - 1])
  }

  /** The comma-separated pieces of the text between brackets. */
  function FlowPieces(inner: string): seq<string> {
    var st := FlowScan(inner);
    if st.cur != "" then st.pieces + [st.cur] else st.pieces
  }

  lemma FlowScanSnoc(inner: string, i: nat)
    requires i < |inner|
    ensures FlowScan(inner[..i + 1]) == FlowStep(FlowScan(inner[..i]), inner[i])
  {
    assert inner[..i + 1][..i] == inner[..i];
  }

  function FlowValue(piece: string): (r: seq<string>)
    ensures "" !in r
  {
    var v := StripQuotes(Trim(piece));
    if v == "" then [] else [v]
  }

  function FlowValues(pieces: seq<string>): (r: seq<string>)
    ensures "" !in r
  {
    if pieces == [] then [] else FlowValue(pieces[0]) + FlowValues(pieces[1..])
  }

  /** The entries between the brackets of `[a, "b", 'c']`. */
  function FlowList(inner: string): seq<string> {
    FlowValues(FlowPieces(inner))
  }

  lemma {:induction false} FlowValuesSnoc(pieces: seq<string>, p: string)
    ensures FlowValues(pieces + [p]) == FlowValues(pieces) + FlowValue(p)
  {
    hide FlowValue;
    var all := pieces + [p];
    if pieces == [] {
      assert all == [p];
      assert FlowValues([p][1..]) == [];
    } else {
      FlowValuesSnoc(pieces[1..], p);
      assert all[0] == pieces[0] && all[1..] == pieces[1..] + [p];
      assert FlowValues(all) == FlowValue(pieces[0]) + FlowValues(pieces[1..] + [p]);
    }
  }
}
