/** How the guard reads back the lists the renderer writes. */
module ListReading {
  import opened Text
  import opened Frontmatter
  import opened EnrichRender
  import opened EnrichGuard

  // ---- One item ----

  predicate Special(c: char) { c == '"' || c == '\\' || c == '\n' || c == '\r' || c == '\t' }

  predicate NoSpecials(v: string) { forall c :: c in v ==> !Special(c) }

  /** An entry that survives being written and read: visible at both ends, and
      free of escaped characters if it has to be quoted. */
  predicate Readable(v: string) {
    v != "" && Solid(v) && (NeedsQuote(v) ==> NoSpecials(v))
  }

  predicate AllReadable(values: seq<string>) { forall v :: v in values ==> Readable(v) }

  /** What every entry is that a run adds: trimmed and not empty. */
  predicate Visible(v: string) { v != "" && Solid(v) }

  predicate AllVisible(values: seq<string>) { forall v :: v in values ==> Visible(v) }

  /** What a visible entry is read as once written: escapes are not undone. */
  function ReadBack(v: string): string { if NeedsQuote(v) then Escape(v) else v }

  function ReadBacks(values: seq<string>): (r: seq<string>)
    ensures |r| == |values| && forall i :: 0 <= i < |r| ==> r[i] == ReadBack(values[i])
  {
    if values == [] then [] else [ReadBack(values[0])] + ReadBacks(values[1..])
  }

  lemma ReadBackSame(v: string)
    requires Visible(v)
    ensures ReadBack(v) == v <==> Readable(v)
  {
    EscapeFixed(v);
    hide NeedsQuote, Escape, Solid;
  }

  /** Read back as written if and only if every entry is readable. */
  lemma ReadBacksSame(values: seq<string>)
    requires AllVisible(values)
    ensures ReadBacks(values) == values <==> AllReadable(values)
  {
    hide Readable, Visible, ReadBack, ReadBacks;
    forall i | 0 <= i < |values| ensures ReadBack(values[i]) == values[i] <==> Readable(values[i]) {
      assert values[i] in values;
      ReadBackSame(values[i]);
    }
    if AllReadable(values) {
      assert forall i :: 0 <= i < |values| ==> values[i] in values;
    }
  }

  lemma ReadableVisible(values: seq<string>)
    requires AllReadable(values)
    ensures AllVisible(values)
  {
    hide NeedsQuote, Solid, NoSpecials;
  }

  lemma {:induction false} EscapeFixed(v: string)
    ensures |Escape(v)| >= |v|
    ensures NoSpecials(v) <==> |Escape(v)| == |v|
    ensures NoSpecials(v) <==> Escape(v) == v
  {
    if v != "" {
      EscapeFixed(v[1..]);
      assert v == [v[0]] + v[1..];
      assert NoSpecials(v) <==> !Special(v[0]) && NoSpecials(v[1..]);
    }
  }

  lemma {:induction false} EscapeOneLine(v: string)
    ensures '\n' !in Escape(v)
  {
    if v != "" {
      EscapeOneLine(v[1..]);
      var e := EscapeChar(v[0]);
      assert '\n' !in e;
    }
  }

  /** The text of an item line, for a value with visible ends. */
  lemma ItemTextSolid(v: string)
    requires v != "" && Solid(v)
    ensures var q := QuoteIfNeeded(v); q != "" && Solid(q) && '\n' !in q && !EndsInReturn(q)
  {
    hide Contains;
    if NeedsQuote(v) {
      EscapeOneLine(v);
      var q := Quoted(v);
      assert q[0] == '"' && q[|q| - 1] == '"';
      assert '\n' !in q;
    }
  }

  lemma ItemLineTrim(q: string)
    requires q != "" && Solid(q)
    ensures Trim("  - " + q) == "- " + q
    ensures Trim(("- " + q)[1..]) == q
  {
    var t := "- " + q;
    TrimConsSpace(' ', t);
    TrimConsSpace(' ', [' '] + t);
    assert "  - " + q == [' '] + ([' '] + t);
    assert t[|t| - 1] == q[|q| - 1];
    TrimSolid(t);
    assert t[1..] == [' '] + q;
    TrimConsSpace(' ', q);
    TrimSolid(q);
  }

  lemma ItemOfText(q: string)
    requires q != "" && Solid(q)
    ensures Item("  - " + q) == if StripQuotes(q) == "" then [] else [StripQuotes(q)]
  {
    ItemLineTrim(q);
    hide Trim, StripQuotes;
    assert HasPrefix("- " + q, "-");
  }

  lemma StripQuoted(q: string)
    requires Solid(q) && |q| >= 2 && q[0] == '"' && q[|q| - 1] == '"'
    ensures StripQuotes(q) == q[1..|q| - 1]
  {
    TrimSolid(q);
  }

  /** What an item line is read back as. */
  lemma ItemReadBack(v: string)
    requires v != "" && Solid(v)
    ensures Item(ItemLine(v)) == [ReadBack(v)]
    ensures Item(ItemLine(v)) == [v] <==> Readable(v)
  {
    var q := QuoteIfNeeded(v);
    ItemTextSolid(v);
    EscapeFixed(v);
    ItemOfText(q);
    hide Item, Trim, Escape, Contains;
    if NeedsQuote(v) {
      assert q == "\"" + Escape(v) + "\"";
      StripQuoted(q);
      assert q[1..|q| - 1] == Escape(v);
    } else {
      NotQuoteLed(v);
      TrimSolid(v);
      assert StripQuotes(v) == v;
    }
  }

  lemma NotQuoteLed(v: string)
    requires v != "" && !NeedsQuote(v)
    ensures v[0] != '"' && v[0] != '\''
  {
    assert '"' in "[{&*!|>'\"%@`?" && '\'' in "[{&*!|>'\"%@`?";
  }

  lemma {:induction false} ItemsOfItemLines(values: seq<string>)
    requires AllVisible(values)
    ensures Items(ItemLines(values)) == ReadBacks(values)
  {
    if values != [] {
      hide Solid, Item, ItemLine, ReadBack;
      assert values[0] in values && forall w :: w in values[1..] ==> w in values;
      ItemReadBack(values[0]);
      ItemsOfItemLines(values[1..]);
      assert ItemLines(values)[1..] == ItemLines(values[1..]);
    }
  }

  lemma ReadableItem(v: string)
    requires Readable(v)
    ensures Item(ItemLine(v)) == [v]
  {
    ItemReadBack(v);
  }

  // ---- Any entry at all ----

  /** Quoting keeps outer blanks, but not the five escaped characters; without quotes it is
      the other way round. */
  predicate ComesBack(v: string) {
    v != "" && if NeedsQuote(v) then NoSpecials(v) else Solid(v)
  }

  lemma TrimShortens(s: string)
    requires s != "" && (IsSpace(s[0]) || IsSpace(s[|s| - 1]))
    ensures |Trim(s)| < |s|
  {
    if !IsSpace(s[0]) { assert TrimLeft(s) == s; }
  }

  lemma StripShortens(s: string)
    ensures |StripQuotes(s)| <= |Trim(s)|
  {}

  lemma DashTail(v: string)
    requires v != "" && !Solid(v)
    ensures var t := Trim("- " + v); t != "" && t[0] == '-' && |Trim(t[1..])| < |v|
  {
    var l := "- " + v;
    assert l[0] == '-' && l[|l| - 1] == v[|v| - 1] && l[1..] == [' '] + v;
    TrimPrefixOf(l);
    var t := Trim(l);
    var inner := t[1..];
    assert inner == l[1..][..|inner|];
    if IsSpace(v[|v| - 1]) {
      TrimShortens(l);
      hide Trim;
      if inner != "" {
        assert inner[0] == ' ';
        TrimShortens(inner);
      }
    } else {
      TrimSolid(l);
      hide Trim;
      assert inner == [' '] + v;
      TrimConsSpace(' ', v);
      TrimShortens(v);
    }
  }

  /** An entry with outer blanks that is not quoted comes back shorter. */
  lemma BlankEndsLost(v: string)
    requires v != "" && !NeedsQuote(v) && !Solid(v)
    ensures forall x :: x in Item(ItemLine(v)) ==> |x| < |v|
  {
    var l := "- " + v;
    assert "  - " + v == [' '] + ([' '] + l);
    TrimConsSpace(' ', l);
    TrimConsSpace(' ', [' '] + l);
    DashTail(v);
    var inner := Trim(l)[1..];
    StripShortens(Trim(inner));
    TrimIdempotent(inner);
    assert Trim(ItemLine(v)) == Trim(l);
    ItemOf(ItemLine(v));
    hide Trim, StripQuotes, Solid, NeedsQuote, Item, ItemLine;
  }

  lemma ItemOf(line: string)
    ensures forall x :: x in Item(line) ==> Trim(line) != "" && x == StripQuotes(Trim(Trim(line)[1..]))
  {}

  lemma TrimPrefixOf(l: string)
    requires l != "" && !IsSpace(l[0])
    ensures Trim(l) != "" && Trim(l) <= l
  {
    assert TrimLeft(l) == l;
    TrimRightPrefix(l);
  }

  lemma {:induction false} TrimRightPrefix(s: string)
    ensures TrimRight(s) <= s
    decreases |s|
  {
    if s != "" && IsSpace(s[|s| - 1]) { TrimRightPrefix(s[..|s| - 1]); }
  }

  lemma QuotedItem(v: string)
    requires NeedsQuote(v)
    ensures Item(ItemLine(v)) == if v == "" then [] else [Escape(v)]
  {
    var q := Quoted(v);
    EscapeFixed(v);
    assert q[0] == '"' && q[|q| - 1] == '"';
    hide NeedsQuote, Item, Trim, Escape;
    ItemOfText(q);
    StripQuoted(q);
    assert q[1..|q| - 1] == Escape(v);
    assert v == "" ==> Escape(v) == "" by { if v == "" { NoEscape(); } }
  }

  lemma NoEscape()
    ensures Escape("") == ""
  {}

  lemma ComesBackIff(v: string)
    ensures Item(ItemLine(v)) == [v] <==> ComesBack(v)
  {
    EscapeFixed(v);
    if NeedsQuote(v) {
      QuotedItem(v);
      hide NeedsQuote, Escape, Item, Trim;
    } else if Solid(v) {
      ItemReadBack(v);
      hide NeedsQuote, Escape, Item, Trim;
    } else {
      BlankEndsLost(v);
      hide NeedsQuote, Escape, Item, Trim;
      var r := Item(ItemLine(v));
      if r != [] { assert r[0] in r; }
    }
  }

  /** The exact condition for a written list to be read back unchanged, whatever it holds. */
  lemma {:induction false} ReadBackIff(values: seq<string>)
    ensures |Items(ItemLines(values))| <= |values|
    ensures Items(ItemLines(values)) == values <==> forall v :: v in values ==> ComesBack(v)
  {
    hide ComesBack, Item, ItemLine;
    if values != [] {
      var v, rest := values[0], values[1..];
      assert values == [v] + rest;
      ComesBackIff(v);
      ReadBackIff(rest);
      assert ItemLines(values)[1..] == ItemLines(rest);
      var head, tail := Item(ItemLine(v)), Items(ItemLines(rest));
      assert Items(ItemLines(values)) == head + tail;
      hide Items, ItemLines;
      assert (forall w :: w in values ==> ComesBack(w)) <==> ComesBack(v) && forall w :: w in rest ==> ComesBack(w);
      if head == [] {
        assert |head + tail| < |values|;
      } else {
        assert head == [head[0]];
        SameFirstRest(head[0], tail, v, rest);
      }
    }
  }

  lemma SameFirstRest<T>(a: T, s: seq<T>, b: T, t: seq<T>)
    ensures [a] + s == [b] + t <==> a == b && s == t
  {
    assert ([a] + s)[1..] == s && ([b] + t)[1..] == t && ([a] + s)[0] == a;
  }

  /** Every wiki link is allowed by the policy, but it has to be quoted, and the
      reader does not undo escapes: it comes back unchanged exactly when its name
      holds no quote, backslash, line break or tab. */
  lemma LinkReadBack(name: string)
    ensures var link := "[[" + name + "]]";
      LinkAllowed(link) && (Item(ItemLine(link)) == [link] <==> NoSpecials(name))
  {
    var link := "[[" + name + "]]";
    hide *;
    BracketsAllowed(name);
    BracketsQuoted(name);
    ItemReadBack(link);
    ReadableLink(link, name);
  }

  lemma BracketsAllowed(name: string)
    ensures LinkAllowed("[[" + name + "]]")
  {
    var link := "[[" + name + "]]";
    hide Trim;
    assert link[0] == '[' && link[|link| - 1] == ']';
    TrimSolid(link);
    assert StripQuoteChars(link) == link;
    assert link[|link| - 2..] == "]]" && link[..2] == "[[";
  }

  lemma BracketsQuoted(name: string)
    ensures var link := "[[" + name + "]]"; link != "" && Solid(link) && NeedsQuote(link)
  {
    var link := "[[" + name + "]]";
    hide Contains;
    assert link[0] == '[' && link[|link| - 1] == ']';
  }

  lemma ReadableLink(link: string, name: string)
    requires link == "[[" + name + "]]" && Solid(link) && NeedsQuote(link)
    ensures Readable(link) <==> NoSpecials(name)
  {
    hide NeedsQuote, Solid;
    assert forall c :: c in link <==> c in "[[" || c in name || c in "]]";
  }

  // ---- Outer blanks do not matter ----

  lemma ItemsSnocChar(s: string, c: char)
    requires IsSpace(c)
    ensures Items(Split(s + [c])) == Items(Split(s))
  {
    SplitSnoc(s, c);
    hide Items, Split, Item, Trim, IsSpace;
    var r := Split(s);
    var front, last := r[..|r| - 1], r[|r| - 1];
    assert r == front + [last];
    TrimSnocSpace(last, c);
    ItemOfTrim(last);
    ItemOfTrim(last + [c]);
    ItemsAppend(front, [last]);
    ItemsOne(last);
    if c == '\n' {
      ItemsAppend(r, [""]);
      BlankItems();
      assert Items(r) + [] == Items(r);
    } else {
      ItemsAppend(front, [last + [c]]);
      ItemsOne(last + [c]);
    }
  }

  lemma ItemsOne(l: string)
    ensures Items([l]) == Item(l)
  {
    assert [l][1..] == [];
  }

  /** The pieces of a text with one more character at its end, or at its start. */
  function PushEnd(r: seq<string>, c: char): seq<string>
    requires r != []
  {
    if c == '\n' then r + [""] else r[..|r| - 1] + [r[|r| - 1] + [c]]
  }

  function PushStart(c: char, r: seq<string>): seq<string>
    requires r != []
  {
    if c == '\n' then [""] + r else [[c] + r[0]] + r[1..]
  }

  lemma PushesCommute(a: char, r: seq<string>, c: char)
    requires r != []
    ensures PushStart(a, PushEnd(r, c)) == PushEnd(PushStart(a, r), c)
  {
    var e, f := PushStart(a, PushEnd(r, c)), PushEnd(PushStart(a, r), c);
    if |r| == 1 && a != '\n' && c != '\n' {
      assert [a] + (r[0] + [c]) == [a] + r[0] + [c];
    }
    assert |e| == |f|;
    forall k | 0 <= k < |e| ensures e[k] == f[k] {}
  }

  lemma {:induction false} SplitSnoc(s: string, c: char)
    ensures Split(s + [c]) == PushEnd(Split(s), c)
  {
    if s == "" {
      assert s + [c] == [c] + "" && [c][1..] == "" && "" + [c] == [c] + "";
      assert Split([c]) == PushStart(c, [""]);
      assert PushStart(c, [""]) == PushEnd([""], c);
    } else {
      assert (s + [c])[1..] == s[1..] + [c];
      SplitSnoc(s[1..], c);
      PushesCommute(s[0], Split(s[1..]), c);
      hide PushEnd;
      assert Split(s + [c]) == PushStart(s[0], PushEnd(Split(s[1..]), c));
      assert Split(s) == PushStart(s[0], Split(s[1..]));
    }
  }

  lemma ItemsConsChar(c: char, s: string)
    requires IsSpace(c)
    ensures Items(Split([c] + s)) == Items(Split(s))
  {
    assert ([c] + s)[1..] == s;
    var r := Split(s);
    assert Split([c] + s) == if c == '\n' then [""] + r else [[c] + r[0]] + r[1..];
    if c == '\n' {
      ItemsAppend([""], r);
      ItemsOne("");
    } else {
      TrimConsSpace(c, r[0]);
      ItemOfTrim(r[0]);
      ItemOfTrim([c] + r[0]);
      assert ([[c] + r[0]] + r[1..])[1..] == r[1..];
    }
  }

  lemma {:induction false} ItemsTrimLeft(s: string)
    ensures Items(Split(TrimLeft(s))) == Items(Split(s))
  {
    hide Items, Split, IsSpace;
    if s != "" && IsSpace(s[0]) {
      ItemsTrimLeft(s[1..]);
      ItemsConsChar(s[0], s[1..]);
      assert s == [s[0]] + s[1..];
    }
  }

  lemma {:induction false} ItemsTrimRight(s: string)
    ensures Items(Split(TrimRight(s))) == Items(Split(s))
    decreases |s|
  {
    hide Items, Split, IsSpace;
    if s != "" && IsSpace(s[|s| - 1]) {
      ItemsTrimRight(s[..|s| - 1]);
      ItemsSnocChar(s[..|s| - 1], s[|s| - 1]);
      assert s == s[..|s| - 1] + [s[|s| - 1]];
    }
  }

  lemma {:induction false} ItemsTrimBreaks(s: string)
    ensures Items(Split(TrimBreaks(s))) == Items(Split(s))
    decreases |s|
  {
    hide Items, Split;
    if s != "" && s[|s| - 1] == '\n' {
      ItemsTrimBreaks(s[..|s| - 1]);
      ItemsSnocChar(s[..|s| - 1], '\n');
      assert s == s[..|s| - 1] + ['\n'];
    }
  }

  /** Trimming never removes or adds an item. */
  lemma ItemsOfBlob(rest: string, tail: seq<string>)
    requires LineFree(rest) && AllLineFree(tail)
    ensures var blob := TrimBreaks(rest + "\n" + Unlines(tail));
      Items(Split(Trim(blob))) == Item(rest) + Items(tail)
  {
    hide Trim, TrimBreaks, TrimLeft, TrimRight, Items, Item, Split, Unlines;
    var text := rest + "\n" + Unlines(tail);
    var blob := TrimBreaks(text);
    assert Trim(blob) == TrimRight(TrimLeft(blob)) by { TrimParts(blob); }
    BlankItems();
    ItemsTrimBreaks(text);
    ItemsTrimLeft(blob);
    ItemsTrimRight(TrimLeft(blob));
    SplitLine(rest, Unlines(tail));
    SplitUnlines(tail, "");
    assert Unlines(tail) + "" == Unlines(tail);
    assert Split(text) == [rest] + (tail + [""]);
    ItemsAppend([rest], tail + [""]);
    ItemsAppend(tail, [""]);
    ItemsOne(rest);
    assert Items(tail) + [] == Items(tail);
  }

  lemma TrimParts(s: string)
    ensures Trim(s) == TrimRight(TrimLeft(s))
  {}

  lemma BlankItems()
    ensures Split("") == [""] && Items([""]) == []
  {
    ItemsOne("");
  }

  // ---- Whole sections ----

  /** The entries the guard reads under a key. */
  function GuardEntries(s: Section): seq<string> { ParseYAMLList(Blob(s)) }

  /** Under a bare key the guard reads the dash lines, unless the first visible
      character opens a flow list. */
  lemma BlockEntries(s: Section)
    requires LineFree(s.head) && AllLineFree(s.tail) && RestOf(s.head) == ""
    requires !HasPrefix(Trim(Blob(s)), "[")
    ensures GuardEntries(s) == Items(s.tail)
  {
    var blob := Blob(s);
    ItemsOfBlob("", s.tail);
    assert Item("") == [];
    if Trim(blob) == "" {
      ItemsOne("");
      assert Split("") == [""];
    }
  }

  lemma {:induction false} TrimLeftAppend(a: string, b: string)
    requires TrimLeft(a) != ""
    ensures TrimLeft(a + b) == TrimLeft(a) + b
  {
    if IsSpace(a[0]) {
      assert (a + b)[1..] == a[1..] + b;
      TrimLeftAppend(a[1..], b);
    }
  }

  lemma {:induction false} TrimBreaksAppend(a: string, b: string)
    requires a != "" && !IsSpace(a[|a| - 1])
    ensures a <= TrimBreaks(a + b) && a <= TrimRight(a + b)
    decreases |b|
  {
    TrimRightKeeps(a, b);
    hide TrimRight;
    if b == "" {
      assert a + b == a;
    } else {
      assert (a + b)[..|a + b| - 1] == a + b[..|b| - 1];
      TrimBreaksAppend(a, b[..|b| - 1]);
    }
  }

  /** The first visible character of a section's text survives all the trimming. */
  lemma BlobHead(pre: string, c: char, more: string)
    requires TrimLeft(pre + [c]) == [c] && !IsSpace(c)
    ensures Trim(TrimBreaks(pre + [c] + more)) != "" && Trim(TrimBreaks(pre + [c] + more))[0] == c
  {
    var a := pre + [c];
    TrimBreaksAppend(a, more);
    var t := TrimBreaks(a + more);
    var b := t[|a|..];
    assert t == a + b;
    TrimLeftAppend(a, b);
  }

  lemma DashHead()
    ensures TrimLeft("\n  " + ['-']) == ['-']
  {
    TrimLeftCons('-', "");
    TrimLeftCons(' ', "-");
    TrimLeftCons(' ', " -");
    TrimLeftCons('\n', "  -");
    assert "\n  " + ['-'] == ['\n'] + "  -" && "  -" == [' '] + " -" && " -" == [' '] + "-" && "-" == ['-'] + "";
  }

  lemma DashBlob(q: string, more: string)
    ensures !HasPrefix(Trim(TrimBreaks("" + "\n" + ("  - " + q + "\n" + more))), "[")
  {
    hide Trim, TrimBreaks;
    var after := " " + q + "\n" + more;
    assert "" + "\n" + ("  - " + q + "\n" + more) == "\n  " + ['-'] + after;
    DashHead();
    BlobHead("\n  ", '-', after);
  }

  lemma EmittedBlobHead(key: string, values: seq<string>, rest: seq<string>)
    requires PlainKey(key) && values != []
    ensures !HasPrefix(Trim(Blob(WithTail(ListSection(key, values), rest))), "[")
  {
    hide Trim, TrimBreaks, NeedsQuote, KeyOf, RestOf, TopKey;
    HeadLine(key, "");
    var s := WithTail(ListSection(key, values), rest);
    var q := QuoteIfNeeded(values[0]);
    assert s.tail[0] == "  - " + q;
    DashBlob(q, Unlines(s.tail[1..]));
  }

  lemma ItemLineFree(v: string)
    requires v != "" && Solid(v)
    ensures var l := ItemLine(v); LineFree(l) && !EndsInReturn(l) && l != "" && l[0] == ' ' && Trim(l) != "---"
  {
    hide Solid, Trim, Escape, NeedsQuote;
    ItemTextSolid(v);
    var q := QuoteIfNeeded(v);
    hide QuoteIfNeeded;
    ItemLineTrim(q);
    var l := "  - " + q;
    assert l[|l| - 1] == q[|q| - 1];
    assert ("- " + q)[1] == ' ' && "---"[1] == '-';
    assert '\n' !in "  - ";
  }

  lemma {:induction false} ItemLinesFree(values: seq<string>)
    requires forall v :: v in values ==> v != "" && Solid(v)
    ensures AllLineFree(ItemLines(values))
    ensures NoReturns(ItemLines(values))
    ensures forall l :: l in ItemLines(values) ==> l != "" && l[0] == ' ' && Trim(l) != "---"
  {
    hide Solid, Trim, ItemLine, LineFree, EndsInReturn;
    if values != [] {
      assert values[0] in values && forall w :: w in values[1..] ==> w in values;
      ItemLineFree(values[0]);
      ItemLinesFree(values[1..]);
    }
  }

  /** The guard reads an emitted list as the values written, escapes and all, followed by
      whatever items the lines left below it carry. */
  lemma EmittedEntries(key: string, values: seq<string>, rest: seq<string>)
    requires PlainKey(key) && LineFree(key) && AllVisible(values) && AllLineFree(rest)
    requires values == [] ==> Items(rest) == []
    ensures GuardEntries(WithTail(ListSection(key, values), rest)) == ReadBacks(values) + Items(rest)
  {
    var s := WithTail(ListSection(key, values), rest);
    if values == [] {
      EmptyFlow(key, rest);
    } else {
      EmittedBlobHead(key, values, rest);
      ItemLinesFree(values);
      HeadLine(key, "");
      assert AllLineFree(s.tail);
      BlockEntries(s);
      ItemsAppend(ItemLines(values), rest);
      ItemsOfItemLines(values);
    }
  }

  /** Trimming at the end keeps what starts and ends with a visible character. */
  lemma BracketsSurvive(a: string, more: string)
    requires a != "" && !IsSpace(a[0]) && !IsSpace(a[|a| - 1])
    ensures a <= Trim(TrimBreaks(a + more))
  {
    TrimBreaksAppend(a, more);
    var blob := TrimBreaks(a + more);
    var b := blob[|a|..];
    assert blob == a + b && blob[0] == a[0];
    assert TrimLeft(blob) == blob;
    hide TrimLeft, TrimBreaks, TrimRight, IsSpace;
    TrimBreaksAppend(a, b);
  }

  lemma SamePrefixIndex(a: string, t: string, rest: string, c: char)
    requires IndexOf(rest, c) < |rest| && a == rest[..IndexOf(rest, c) + 1] && a <= t
    ensures IndexOf(t, c) == IndexOf(rest, c) && t[..IndexOf(t, c)] == rest[..IndexOf(rest, c)]
  {
    var i := IndexOf(rest, c);
    hide IndexOf;
    assert t[..i] == a[..i] == rest[..i] && t[i] == a[i] == c;
    IndexOfUnique(t, c, i);
  }

  /** A flow list is read up to its first closing bracket, whatever follows. */
  lemma FlowEntries(s: Section)
    requires InlineFlow(RestOf(s.head))
    ensures GuardEntries(s) == FlowList(RestOf(s.head)[1..IndexOf(RestOf(s.head), ']')])
  {
    hide Trim, TrimBreaks, IndexOf, RestOf, FlowList, Unlines;
    var rest := RestOf(s.head);
    var i := IndexOf(rest, ']');
    var a := rest[..i + 1];
    var more := rest[i + 1..] + "\n" + Unlines(s.tail);
    assert rest == a + rest[i + 1..];
    assert rest + "\n" + Unlines(s.tail) == a + more;
    assert a[|a| - 1] == ']' && a[0] == '[';
    BracketsSurvive(a, more);
    var t := Trim(TrimBreaks(a + more));
    SamePrefixIndex(a, t, rest, ']');
    assert t[0] == '[' && t[1..i] == t[..i][1..] && rest[1..i] == rest[..i][1..];
  }

  lemma EmptyFlow(key: string, rest: seq<string>)
    requires PlainKey(key)
    ensures GuardEntries(WithTail(ListSection(key, []), rest)) == []
  {
    var s := WithTail(ListSection(key, []), rest);
    HeadLine(key, "[]");
    assert s.head == key + ": " + "[]";
    IndexOfUnique("[]", ']', 1);
    FlowEntries(s);
    assert "[]"[1..1] == "";
  }
}
