/** The link index: internal/vault/linkindex/linkindex.go. Notes come as the raw links
    found in them; which paths are scanned and how letters are lower-cased are
    parameters. */
module LinkIndex {
  import opened Text

  datatype Kind = Wikilink | Related

  datatype Raw = Raw(kind: Kind, text: string)

  /** An unresolved link has the empty target. */
  datatype Link = Link(kind: Kind, text: string, target: string, resolved: bool)

  /** What lies at a path: a note that can be read, or something else. */
  datatype File = Note(links: seq<Raw>) | Unreadable | Irregular

  // ---- Names ----

  function CutAt(s: string, c: char): string { s[..IndexOf(s, c)] }

  function BaseOf(path: string): string {
    var i := IndexOf(path, '/');
    if i == |path| then path else BaseOf(path[i + 1..])
  }

  predicate IsMd(path: string) {
    var b := BaseOf(path);
    var n := |b|;
    n >= 3 && b[n - 3] == '.' && (b[n - 2] == 'm' || b[n - 2] == 'M') && (b[n - 1] == 'd' || b[n - 1] == 'D')
  }

  function Lowered(s: string, lower: char -> char): (r: string)
    ensures |r| == |s| && forall i :: 0 <= i < |r| ==> r[i] == lower(s[i])
  {
    if s == "" then "" else [lower(s[0])] + Lowered(s[1..], lower)
  }

  /** The lower-cased file name without its extension. */
  function StemOf(path: string, lower: char -> char): string {
    var b := BaseOf(path);
    Lowered(if |b| >= 3 then b[..|b| - 3] else b, lower)
  }

  /** The file a link text names, before it is looked up. */
  function NameOf(text: string, lower: char -> char): string {
    var t := Trim(CutAt(CutAt(text, '|'), '#'));
    if t == "" then ""
    else TrimPrefix(if HasSuffix(Lowered(t, lower), ".md") then t else t + ".md", "/")
  }

  function StemName(t: string, lower: char -> char): string {
    Lowered(if HasSuffix(t, ".md") then t[..|t| - 3] else t, lower)
  }

  // ---- Resolving ----

  function ResolveTarget(text: string, notes: set<string>, stems: map<string, seq<string>>,
                         lower: char -> char): Option<string> {
    if Trim(CutAt(CutAt(text, '|'), '#')) == "" then None
    else
      var t := NameOf(text, lower);
      if t in notes then Some(t)
      else if '/' in t then None
      else
        var stem := StemName(t, lower);
        if stem in stems && |stems[stem]| == 1 then Some(stems[stem][0]) else None
  }

  /** The notes with a stem. */
  function Namesakes(stem: string, notes: set<string>, lower: char -> char): set<string> {
    set p | p in notes && StemOf(p, lower) == stem
  }

  /** The stem table lists every note once, under its own stem. */
  ghost predicate StemsOf(stems: map<string, seq<string>>, notes: set<string>, lower: char -> char) {
    && (forall k :: k in stems ==>
      stems[k] != [] && Distinct(stems[k]) && forall p :: p in stems[k] ==> p in Namesakes(k, notes, lower))
    && (forall p :: p in notes ==> StemOf(p, lower) in stems && p in stems[StemOf(p, lower)])
  }

  /** What a link text means among a set of notes: the note of that very path, or else
      the only note of that name. */
  ghost predicate Means(text: string, notes: set<string>, lower: char -> char, target: string) {
    var t := NameOf(text, lower);
    Trim(CutAt(CutAt(text, '|'), '#')) != ""
    && if t in notes then target == t
       else '/' !in t && Namesakes(StemName(t, lower), notes, lower) == {target}
  }

  // ---- How links may be written ----

  lemma CutBefore(s: string, c: char, rest: string)
    ensures CutAt(s + [c] + rest, c) == CutAt(s, c)
  {
    var i, t := IndexOf(s, c), s + [c] + rest;
    assert t[..i] == s[..i] && t[i] == c;
    IndexOfUnique(t, c, i);
  }

  lemma CutWhole(s: string, c: char)
    requires c !in s
    ensures CutAt(s, c) == s
  {
    var i := IndexOf(s, c);
    assert i == |s| && s[..i] == s;
  }

  /** What a link text says is what it says without its alias. */
  lemma AliasIgnored(text: string, alias: string, notes: set<string>, lower: char -> char, target: string)
    ensures Means(text + "|" + alias, notes, lower, target) <==> Means(text, notes, lower, target)
  {
    CutBefore(text, '|', alias);
    hide CutAt, Trim;
  }

  /** And without its heading. */
  lemma HeadingIgnored(text: string, heading: string, notes: set<string>, lower: char -> char, target: string)
    ensures Means(text + "#" + heading, notes, lower, target) <==> Means(text, notes, lower, target)
  {
    var full := text + "#" + heading;
    var i := IndexOf(text, '|');
    if i < |text| {
      assert full[..i] == text[..i] && full[i] == '|';
      IndexOfUnique(full, '|', i);
      assert CutAt(full, '|') == CutAt(text, '|');
    } else {
      assert '|' !in text by { assert text[..i] == text; }
      CutWhole(text, '|');
      HeadingCut(text, heading);
      CutBefore(text, '#', CutAt(heading, '|'));
    }
    hide CutAt, Trim;
  }

  lemma HeadingCut(text: string, heading: string)
    requires '|' !in text
    ensures CutAt(text + "#" + heading, '|') == text + "#" + CutAt(heading, '|')
  {
    var full, j := text + "#" + heading, IndexOf(heading, '|');
    var k := |text| + 1 + j;
    assert full[..k] == text + "#" + heading[..j];
    assert k < |full| ==> full[k] == heading[j];
    IndexOfUnique(full, '|', k);
  }

  /** A name or path as it stands: no alias, no heading, no outer blanks, no leading slash
      and no `.md` at its end. */
  predicate PlainName(name: string, lower: char -> char) {
    && name != "" && Solid(name) && '|' !in name && '#' !in name && name[0] != '/'
    && !HasSuffix(Lowered(name, lower), ".md")
  }

  predicate LowersMd(lower: char -> char) {
    lower('.') == '.' && lower('m') == 'm' && lower('d') == 'd' && lower('/') == '/'
  }

  lemma NameStep(name: string, lower: char -> char)
    requires name != "" && Solid(name) && '|' !in name && '#' !in name
    ensures Trim(CutAt(CutAt(name, '|'), '#')) == name
    ensures NameOf(name, lower) ==
      TrimPrefix(if HasSuffix(Lowered(name, lower), ".md") then name else name + ".md", "/")
  {
    CutWhole(name, '|');
    CutWhole(name, '#');
    TrimSolid(name);
    hide Lowered, CutAt, Trim;
  }

  lemma MdLowered(name: string, lower: char -> char)
    requires LowersMd(lower)
    ensures HasSuffix(Lowered(name + ".md", lower), ".md")
  {
    var full := name + ".md";
    var l := Lowered(full, lower);
    assert l[|l| - 3..] == [l[|name|], l[|name| + 1], l[|name| + 2]];
    assert full[|name|] == '.' && full[|name| + 1] == 'm' && full[|name| + 2] == 'd';
  }

  lemma LoweredStep(c: char, s: string, lower: char -> char)
    ensures Lowered([c] + s, lower) == [lower(c)] + Lowered(s, lower)
  {
    assert ([c] + s)[1..] == s;
  }

  lemma SlashLowered(name: string, lower: char -> char)
    requires LowersMd(lower) && !HasSuffix(Lowered(name, lower), ".md")
    ensures !HasSuffix(Lowered("/" + name, lower), ".md")
  {
    var l, m := Lowered("/" + name, lower), Lowered(name, lower);
    LoweredStep('/', name, lower);
    hide Lowered;
    if |m| >= 3 {
      assert l[|l| - 3..] == m[|m| - 3..];
    } else if |m| == 2 {
      assert l[0..][0] == '/' && ".md"[0] == '.';
    }
  }

  /** The file a plain name stands for. */
  lemma NamePlain(name: string, lower: char -> char)
    requires PlainName(name, lower)
    ensures NameOf(name, lower) == name + ".md" && StemName(name + ".md", lower) == Lowered(name, lower)
  {
    NameStep(name, lower);
    var full := name + ".md";
    assert full[0] == name[0] && full[..|name|] == name;
    hide NameOf, Lowered;
  }

  /** It may be written with its extension. */
  lemma NameWithMd(name: string, lower: char -> char)
    requires PlainName(name, lower) && LowersMd(lower)
    ensures NameOf(name + ".md", lower) == name + ".md"
  {
    hide NameOf, Lowered;
    var full := name + ".md";
    assert full[0] == name[0] && full[|full| - 1] == 'd';
    assert '|' !in ".md" && '#' !in ".md";
    NameStep(full, lower);
    MdLowered(name, lower);
  }

  /** Or with a leading slash. */
  lemma NameWithSlash(name: string, lower: char -> char)
    requires PlainName(name, lower) && LowersMd(lower)
    ensures NameOf("/" + name, lower) == name + ".md"
  {
    var slashed := "/" + name;
    assert slashed[0] == '/' && slashed[|slashed| - 1] == name[|name| - 1] && '|' !in slashed && '#' !in slashed;
    NameStep(slashed, lower);
    SlashLowered(name, lower);
    assert slashed + ".md" == "/" + (name + ".md") && ("/" + (name + ".md"))[1..] == name + ".md";
    hide NameOf, Lowered;
  }

  /** What a plain name means, written in any of the ways there are: the note of that very
      path, or else the only note whose file name is the same but for upper and lower case. */
  lemma PlainMeans(name: string, text: string, notes: set<string>, lower: char -> char, target: string)
    requires PlainName(name, lower) && LowersMd(lower)
    requires text == name || text == name + ".md" || text == "/" + name
    ensures Means(text, notes, lower, target) <==>
      if name + ".md" in notes then target == name + ".md"
      else '/' !in name && Namesakes(Lowered(name, lower), notes, lower) == {target}
  {
    assert '/' in name + ".md" <==> '/' in name;
    assert NameOf(text, lower) == name + ".md" by {
      hide *;
      NamePlain(name, lower);
      NameWithMd(name, lower);
      NameWithSlash(name, lower);
    }
    NamePlain(name, lower);
    CutShown(name, text);
    hide PlainName, LowersMd, Solid, NameOf, Lowered, CutAt, Trim, StemName, Namesakes;
  }

  lemma CutShown(name: string, text: string)
    requires name != "" && Solid(name) && '|' !in name && '#' !in name
    requires text == name || text == name + ".md" || text == "/" + name
    ensures Trim(CutAt(CutAt(text, '|'), '#')) != ""
  {
    CutWhole(text, '|');
    CutWhole(text, '#');
    assert text == name + ".md" ==> text[0] == name[0] && text[|text| - 1] == 'd';
    assert text == "/" + name ==> text[0] == '/' && text[|text| - 1] == name[|name| - 1];
    TrimSolid(text);
  }

  /** The stem of a note is its lower-cased file name, wherever the note lies. */
  lemma {:induction false} StemMeans(dir: string, name: string, lower: char -> char)
    requires '/' !in name
    ensures StemOf(name + ".md", lower) == Lowered(name, lower)
    ensures StemOf(dir + "/" + name + ".md", lower) == Lowered(name, lower)
  {
    var file := name + ".md";
    BaseWhole(file);
    BaseBelow(dir, file);
    assert dir + "/" + name + ".md" == dir + "/" + file;
    assert file[..|file| - 3] == name;
    hide BaseOf, Lowered;
  }

  lemma BaseWhole(file: string)
    requires '/' !in file
    ensures BaseOf(file) == file
  {
    assert IndexOf(file, '/') == |file|;
  }

  lemma {:induction false} BaseBelow(dir: string, file: string)
    requires '/' !in file
    ensures BaseOf(dir + "/" + file) == file
    decreases |dir|
  {
    var i, path := IndexOf(dir, '/'), dir + "/" + file;
    assert path[..i] == dir[..i] && path[i] == '/';
    IndexOfUnique(path, '/', i);
    if i < |dir| {
      BaseBelow(dir[i + 1..], file);
      assert path[i + 1..] == dir[i + 1..] + "/" + file;
    } else {
      assert path[i + 1..] == file;
      BaseWhole(file);
    }
  }

  lemma OneNamesake(s: seq<string>, names: set<string>)
    requires Distinct(s) && s != [] && forall p :: p in s <==> p in names
    ensures |s| == 1 <==> names == {s[0]}
  {
    if |s| == 1 {
      assert names == {s[0]};
    } else {
      assert s[0] in s && s[1] in s && s[0] != s[1];
    }
  }

  /** The lookup finds what the text means, whatever order the table has. */
  lemma ResolveMeans(text: string, notes: set<string>, stems: map<string, seq<string>>, lower: char -> char)
    requires StemsOf(stems, notes, lower)
    ensures var r := ResolveTarget(text, notes, stems, lower);
      forall target :: Means(text, notes, lower, target) <==> r == Some(target)
  {
    var t := NameOf(text, lower);
    var stem := StemName(t, lower);
    hide NameOf, StemName, StemOf, CutAt, Trim;
    var names := Namesakes(stem, notes, lower);
    if stem in stems {
      assert forall p :: p in stems[stem] <==> p in names;
      OneNamesake(stems[stem], names);
      assert stems[stem][0] in names;
      forall target ensures names == {target} <==> |stems[stem]| == 1 && target == stems[stem][0] {}
    } else {
      assert names == {};
      forall target ensures names != {target} { assert target in {target}; }
    }
    hide Namesakes, StemsOf;
  }

  function Resolved(raw: Raw, notes: set<string>, stems: map<string, seq<string>>, lower: char -> char): Link {
    var r := ResolveTarget(raw.text, notes, stems, lower);
    if r.Some? then Link(raw.kind, raw.text, r.value, true) else Link(raw.kind, raw.text, "", false)
  }

  function ResolveAll(raws: seq<Raw>, notes: set<string>, stems: map<string, seq<string>>,
                      lower: char -> char): (r: seq<Link>)
    ensures |r| == |raws| && forall i :: 0 <= i < |r| ==> r[i] == Resolved(raws[i], notes, stems, lower)
  {
    if raws == [] then [] else [Resolved(raws[0], notes, stems, lower)] + ResolveAll(raws[1..], notes, stems, lower)
  }

  /** A link as it should be among a set of notes. */
  ghost predicate Fresh(raw: Raw, link: Link, notes: set<string>, lower: char -> char) {
    && link.kind == raw.kind && link.text == raw.text
    && (link.resolved ==> Means(raw.text, notes, lower, link.target))
    && (!link.resolved ==> link.target == "" && forall t :: !Means(raw.text, notes, lower, t))
  }

  ghost predicate AllFresh(raws: seq<Raw>, links: seq<Link>, notes: set<string>, lower: char -> char) {
    |links| == |raws| && forall i :: 0 <= i < |raws| ==> Fresh(raws[i], links[i], notes, lower)
  }

  lemma ResolvedFresh(raws: seq<Raw>, notes: set<string>, stems: map<string, seq<string>>, lower: char -> char)
    requires StemsOf(stems, notes, lower)
    ensures AllFresh(raws, ResolveAll(raws, notes, stems, lower), notes, lower)
  {
    hide ResolveTarget, StemsOf, Means;
    forall i | 0 <= i < |raws| ensures Fresh(raws[i], Resolved(raws[i], notes, stems, lower), notes, lower) {
      ResolveMeans(raws[i].text, notes, stems, lower);
    }
  }

  lemma FreshOnce(raws: seq<Raw>, a: seq<Link>, b: seq<Link>, notes: set<string>, lower: char -> char)
    requires AllFresh(raws, a, notes, lower) && AllFresh(raws, b, notes, lower)
    ensures a == b
  {
    hide Means;
    forall i | 0 <= i < |raws| ensures a[i] == b[i] {
      assert Fresh(raws[i], a[i], notes, lower) && Fresh(raws[i], b[i], notes, lower);
      if a[i].resolved && b[i].resolved { MeansOne(raws[i].text, notes, lower, a[i].target, b[i].target); }
    }
  }

  lemma MeansOne(text: string, notes: set<string>, lower: char -> char, a: string, b: string)
    requires Means(text, notes, lower, a) && Means(text, notes, lower, b)
    ensures a == b
  {
    hide NameOf, StemName, Namesakes, CutAt, Trim;
    assert {a} == {b} ==> a in {b};
  }

  /** A link text that says the same among two sets of notes. */
  ghost predicate SameMeaning(text: string, a: set<string>, b: set<string>, lower: char -> char) {
    forall t :: Means(text, a, lower, t) <==> Means(text, b, lower, t)
  }

  /** Links resolved among one set of notes are right among another if and only if each says
      the same there. */
  lemma FreshElsewhere(raws: seq<Raw>, links: seq<Link>, a: set<string>, b: set<string>, lower: char -> char)
    requires AllFresh(raws, links, a, lower)
    ensures AllFresh(raws, links, b, lower) <==> forall raw :: raw in raws ==> SameMeaning(raw.text, a, b, lower)
  {
    hide Means;
    forall i | 0 <= i < |raws|
      ensures Fresh(raws[i], links[i], b, lower) <==> SameMeaning(raws[i].text, a, b, lower)
    {
      assert Fresh(raws[i], links[i], a, lower);
      FreshOneElsewhere(raws[i], links[i], a, b, lower);
    }
    hide Fresh, SameMeaning;
    if AllFresh(raws, links, b, lower) {
      forall raw | raw in raws ensures SameMeaning(raw.text, a, b, lower) {
        var i :| 0 <= i < |raws| && raws[i] == raw;
      }
    }
  }

  lemma FreshOneElsewhere(raw: Raw, link: Link, a: set<string>, b: set<string>, lower: char -> char)
    requires Fresh(raw, link, a, lower)
    ensures Fresh(raw, link, b, lower) <==> SameMeaning(raw.text, a, b, lower)
  {
    hide Means;
    forall t ensures Means(raw.text, a, lower, t) <==> link.resolved && t == link.target {
      if link.resolved && Means(raw.text, a, lower, t) { MeansOne(raw.text, a, lower, t, link.target); }
    }
    if Fresh(raw, link, b, lower) {
      forall t ensures Means(raw.text, b, lower, t) <==> link.resolved && t == link.target {
        if link.resolved && Means(raw.text, b, lower, t) { MeansOne(raw.text, b, lower, t, link.target); }
      }
    }
  }

  // ---- Backlinks ----

  predicate LinksTo(links: seq<Link>, target: string) {
    exists l :: l in links && l.resolved && l.target != "" && l.target == target
  }

  predicate Listed(back: map<string, seq<string>>, t: string, s: string) { t in back && s in back[t] }

  /** The exact inverse of the resolved links, without repeats. */
  ghost predicate Inverse(back: map<string, seq<string>>, out: map<string, seq<Link>>) {
    && (forall t :: t in back ==> back[t] != [] && Distinct(back[t]))
    && (forall t, s :: Listed(back, t, s) <==> (s in out && LinksTo(out[s], t)))
  }

  /** So it is fixed by the links, up to the order of the sources. */
  lemma InverseUnique(a: map<string, seq<string>>, b: map<string, seq<string>>, out: map<string, seq<Link>>, t: string)
    requires Inverse(a, out) && Inverse(b, out)
    ensures t in a <==> t in b
    ensures forall s :: Listed(a, t, s) <==> Listed(b, t, s)
  {
    forall s ensures Listed(a, t, s) <==> Listed(b, t, s) {
      assert Listed(a, t, s) <==> s in out && LinksTo(out[s], t);
    }
    if t in a { assert Listed(a, t, a[t][0]); }
    if t in b { assert Listed(b, t, b[t][0]); }
  }

  /** One source more: its targets, each once. */
  method AddSource(back: map<string, seq<string>>, source: string, links: seq<Link>, ghost out: map<string, seq<Link>>)
      returns (r: map<string, seq<string>>)
    requires Inverse(back, out) && source !in out
    ensures Inverse(r, out[source := links])
  {
    hide LinksTo, Distinct, Listed;
    r := back;
    var seenTargets: set<string> := {};
    AddStart(back, source, links, out);
    assert forall t :: t in back ==> back[t] != [] && Distinct(back[t]);
    hide Inverse;
    for i := 0 to |links|
      invariant forall t :: t in seenTargets <==> LinksTo(links[..i], t)
      invariant forall t :: t in r ==> r[t] != [] && Distinct(r[t])
      invariant forall t, s :: Listed(r, t, s) <==> Listed(back, t, s) || (s == source && t in seenTargets)
    {
      var link := links[i];
      LinksMore(links, i);
      if !link.resolved || link.target == "" { continue; }
      if link.target in seenTargets { continue; }
      var before := r;
      r := r[link.target := (if link.target in r then r[link.target] else []) + [source]];
      ListedMore(before, link.target, source);
      ListedStep(back, before, r, source, seenTargets, link.target);
      seenTargets := seenTargets + {link.target};
    }
    assert links[..|links|] == links;
    AddEnd(back, source, links, out, r);
  }

  lemma ListedMore(back: map<string, seq<string>>, target: string, source: string)
    requires !Listed(back, target, source) && (target in back ==> Distinct(back[target]))
    ensures var r := back[target := (if target in back then back[target] else []) + [source]];
      Distinct(r[target]) && forall t, s :: Listed(r, t, s) <==> Listed(back, t, s) || (s == source && t == target)
  {
    DistinctMore(if target in back then back[target] else [], source);
    hide Distinct;
  }

  lemma ListedStep(back: map<string, seq<string>>, before: map<string, seq<string>>, after: map<string, seq<string>>,
                   source: string, seen: set<string>, target: string)
    requires forall t, s :: Listed(before, t, s) <==> Listed(back, t, s) || (s == source && t in seen)
    requires forall t, s :: Listed(after, t, s) <==> Listed(before, t, s) || (s == source && t == target)
    ensures forall t, s :: Listed(after, t, s) <==> Listed(back, t, s) || (s == source && t in seen + {target})
  {
    hide Listed;
    forall t, s ensures Listed(after, t, s) <==> Listed(back, t, s) || (s == source && t in seen + {target}) {
      assert Listed(after, t, s) <==> Listed(before, t, s) || (s == source && t == target);
      assert Listed(before, t, s) <==> Listed(back, t, s) || (s == source && t in seen);
    }
  }

  lemma AddStart(back: map<string, seq<string>>, source: string, links: seq<Link>, out: map<string, seq<Link>>)
    requires Inverse(back, out) && source !in out
    ensures forall t :: !LinksTo(links[..0], t)
    ensures forall t :: !Listed(back, t, source)
  {
    hide Distinct;
    forall t ensures !Listed(back, t, source) {}
  }

  lemma AddEnd(back: map<string, seq<string>>, source: string, links: seq<Link>, out: map<string, seq<Link>>,
               r: map<string, seq<string>>)
    requires Inverse(back, out) && source !in out
    requires forall t :: t in r ==> r[t] != [] && Distinct(r[t])
    requires forall t, s :: Listed(r, t, s) <==> Listed(back, t, s) || (s == source && LinksTo(links, t))
    ensures Inverse(r, out[source := links])
  {
    hide Distinct, LinksTo, Listed;
    forall t, s ensures Listed(r, t, s) <==> (s in out[source := links] && LinksTo(out[source := links][s], t)) {
      assert Listed(back, t, s) <==> (s in out && LinksTo(out[s], t));
    }
  }

  lemma LinksMore(links: seq<Link>, i: nat)
    requires i < |links|
    ensures forall t :: LinksTo(links[..i + 1], t) <==>
      LinksTo(links[..i], t) || (links[i].resolved && links[i].target != "" && links[i].target == t)
  {
    assert links[..i + 1] == links[..i] + [links[i]];
  }

  lemma DistinctMore(s: seq<string>, x: string)
    requires Distinct(s) && x !in s
    ensures Distinct(s + [x])
  {}

  /** `buildBacklinks`; the order of the sources is that of the map iteration. */
  method BuildBacklinks(out: map<string, seq<Link>>) returns (back: map<string, seq<string>>)
    ensures Inverse(back, out)
  {
    hide LinksTo;
    back := map[];
    var left := out.Keys;
    ghost var done: map<string, seq<Link>> := map[];
    while left != {}
      invariant left <= out.Keys && done == map s | s in out && s !in left :: out[s]
      invariant Inverse(back, done)
      decreases left
    {
      var source :| source in left;
      back := AddSource(back, source, out[source], done);
      done := done[source := out[source]];
      left := left - {source};
    }
    assert done == out;
  }

  // ---- The index ----

  /** The notes a full scan finds. */
  function Notes(files: map<string, File>, scope: string -> bool): set<string> {
    set p | p in files && IsMd(p) && scope(p) && files[p].Note?
  }

  function AddStem(stems: map<string, seq<string>>, path: string, lower: char -> char): map<string, seq<string>> {
    var k := StemOf(path, lower);
    var prior := if k in stems then stems[k] else [];
    if path in prior then stems else stems[k := prior + [path]]
  }

  function Without(s: seq<string>, x: string): (r: seq<string>)
    ensures forall p :: p in r <==> p in s && p != x
  {
    if s == [] then []
    else (if s[0] == x then [] else [s[0]]) + Without(s[1..], x)
  }

  lemma {:induction false} WithoutDistinct(s: seq<string>, x: string)
    requires Distinct(s)
    ensures Distinct(Without(s, x))
  {
    if s != [] {
      var rest := s[1..];
      assert forall i :: 0 <= i < |rest| ==> rest[i] == s[i + 1];
      WithoutDistinct(rest, x);
      assert s[0] !in Without(rest, x);
    }
  }

  function DropStem(stems: map<string, seq<string>>, path: string, lower: char -> char): map<string, seq<string>> {
    var k := StemOf(path, lower);
    var rest := Without(if k in stems then stems[k] else [], path);
    if rest == [] then stems - {k} else stems[k := rest]
  }

  lemma AddStemKeeps(stems: map<string, seq<string>>, notes: set<string>, path: string, lower: char -> char)
    requires StemsOf(stems, notes, lower)
    ensures StemsOf(AddStem(stems, path, lower), notes + {path}, lower)
  {
    hide StemOf;
    var k := StemOf(path, lower);
    var prior := if k in stems then stems[k] else [];
    if path !in prior { DistinctMore(prior, path); }
  }

  lemma DropStemKeeps(stems: map<string, seq<string>>, notes: set<string>, path: string, lower: char -> char)
    requires StemsOf(stems, notes, lower)
    ensures StemsOf(DropStem(stems, path, lower), notes - {path}, lower)
  {
    hide StemOf;
    var k := StemOf(path, lower);
    WithoutDistinct(if k in stems then stems[k] else [], path);
  }

  /** The links of every note outside `except` are what its text says now. */
  ghost predicate UpToDate(files: map<string, File>, out: map<string, seq<Link>>, notes: set<string>,
                           except: set<string>, lower: char -> char) {
    forall p :: p in notes && p !in except ==>
      p in files && files[p].Note? && p in out && AllFresh(files[p].links, out[p], notes, lower)
  }

  /** The links of every readable note outside `except` are what its text said among the
      notes there were when it was last looked at. */
  ghost predicate ResolvedAmong(files: map<string, File>, out: map<string, seq<Link>>, notes: set<string>,
                                among: map<string, set<string>>, except: set<string>, scope: string -> bool,
                                lower: char -> char) {
    forall p :: p in notes && p !in except && p in Notes(files, scope) ==>
      p in out && p in among && AllFresh(files[p].links, out[p], among[p], lower)
  }

  lemma UntouchedAmong(files: map<string, File>, out: map<string, seq<Link>>, notes: set<string>, pending: set<string>,
                       scope: string -> bool, lower: char -> char)
    requires UpToDate(files, out, notes, pending, lower)
    ensures ResolvedAmong(files, out, notes, map p | p in notes :: notes, pending, scope, lower)
  {
    hide AllFresh, Notes;
  }

  /** The exact condition for the index to be what a rebuild gives, after any additions and
      removals: every link still says what it said when its note was last looked at. */
  lemma UpToDateIff(files: map<string, File>, out: map<string, seq<Link>>, notes: set<string>,
                    among: map<string, set<string>>, scope: string -> bool, lower: char -> char)
    requires notes == Notes(files, scope) && ResolvedAmong(files, out, notes, among, {}, scope, lower)
    ensures UpToDate(files, out, notes, {}, lower) <==>
      forall p :: p in notes ==> forall raw :: raw in files[p].links ==> SameMeaning(raw.text, among[p], notes, lower)
  {
    hide AllFresh, SameMeaning;
    forall p | p in notes
      ensures AllFresh(files[p].links, out[p], notes, lower)
        <==> forall raw :: raw in files[p].links ==> SameMeaning(raw.text, among[p], notes, lower)
    {
      FreshElsewhere(files[p].links, out[p], among[p], notes, lower);
    }
  }

  /** Two up-to-date indexes of the same notes hold the same links, and list the same
      notes as backlinks. */
  lemma UpToDateOnce(files: map<string, File>, notes: set<string>, lower: char -> char,
                     a: map<string, seq<Link>>, b: map<string, seq<Link>>,
                     backA: map<string, seq<string>>, backB: map<string, seq<string>>)
    requires UpToDate(files, a, notes, {}, lower) && UpToDate(files, b, notes, {}, lower)
    requires a.Keys == notes == b.Keys && Inverse(backA, a) && Inverse(backB, b)
    ensures a == b
    ensures forall t, s :: Listed(backA, t, s) <==> Listed(backB, t, s)
  {
    hide AllFresh, Inverse, Listed;
    forall p | p in notes ensures a[p] == b[p] {
      FreshOnce(files[p].links, a[p], b[p], notes, lower);
    }
    assert a == b;
    forall t, s ensures Listed(backA, t, s) <==> Listed(backB, t, s) {
      InverseUnique(backA, backB, a, t);
    }
  }

  /** An edit of a note that is then pending leaves the other links right. */
  lemma EditPending(files: map<string, File>, out: map<string, seq<Link>>, notes: set<string>, pending: set<string>,
                    lower: char -> char, p: string, links: seq<Raw>, scope: string -> bool)
    requires UpToDate(files, out, notes, pending, lower) && notes == Notes(files, scope) && p in notes
    ensures UpToDate(files[p := Note(links)], out, notes, pending + {p}, lower)
    ensures Notes(files[p := Note(links)], scope) == notes
  {
    hide AllFresh;
  }

  class Index {
    const scope: string -> bool
    const lower: char -> char

    var outlinks: map<string, seq<Link>>
    var backlinks: map<string, seq<string>>
    var notePaths: set<string>
    var stemIndex: map<string, seq<string>>
    var generation: nat
    var ready: bool
    var pending: set<string>

    constructor (scope: string -> bool, lower: char -> char)
      ensures this.scope == scope && this.lower == lower && Valid() && !ready && notePaths == {} && pending == {}
    {
      this.scope, this.lower := scope, lower;
      outlinks, backlinks, notePaths, stemIndex := map[], map[], {}, map[];
      generation, ready, pending := 0, false, {};
    }

    /** Notes and links have one domain, each note is once under its stem, backlinks are
        the links turned round. */
    ghost predicate Valid()
      reads this
    {
      outlinks.Keys == notePaths && StemsOf(stemIndex, notePaths, lower) && Inverse(backlinks, outlinks)
    }

    /** The first half of a scan: which notes there are. */
    method Scan(files: map<string, File>) returns (notes: set<string>, stems: map<string, seq<string>>)
      ensures notes == Notes(files, scope) && StemsOf(stems, notes, lower)
    {
      hide StemsOf, IsMd;
      notes, stems := {}, map[];
      NoStems();
      var left := files.Keys;
      while left != {}
        invariant left <= files.Keys && notes == Notes(map p | p in files && p !in left :: files[p], scope)
        invariant StemsOf(stems, notes, lower)
        decreases left
      {
        var p :| p in left;
        left := left - {p};
        if !IsMd(p) || !scope(p) || !files[p].Note? { continue; }
        AddStemKeeps(stems, notes, p, lower);
        stems := AddStem(stems, p, lower);
        notes := notes + {p};
      }
      assert files == map p | p in files && p !in left :: files[p];
    }

    lemma NoStems()
      ensures StemsOf(map[], {}, lower)
    {}

    /** `Build`: scan everything, then resolve among the notes found. */
    method Build(files: map<string, File>)
      modifies this
      ensures Valid() && ready && generation == old(generation) + 1 && pending == old(pending)
      ensures notePaths == Notes(files, scope) && UpToDate(files, outlinks, notePaths, {}, lower)
    {
      hide StemsOf, Inverse, AllFresh, IsMd, ResolveAll;
      var notes, stems := Scan(files);
      var out: map<string, seq<Link>> := map[];
      var left := notes;
      while left != {}
        invariant unchanged(this) && left <= notes && out.Keys == notes - left
        invariant forall p :: p in out ==>
          p in files && files[p].Note? && AllFresh(files[p].links, out[p], notes, lower)
        decreases left
      {
        var p :| p in left;
        left := left - {p};
        assert p in files && files[p].Note?;
        ResolvedFresh(files[p].links, notes, stems, lower);
        out := out[p := ResolveAll(files[p].links, notes, stems, lower)];
      }
      var back := BuildBacklinks(out);
      assert out.Keys == notes;
      outlinks, backlinks, notePaths, stemIndex := out, back, notes, stems;
      generation := generation + 1;
      ready := true;
    }

    /** `markPending`: someone edited a note, so that the vault is as `files` tells but
        with these links in it. The edited note is pending, the others are still right. */
    method MarkPending(path: string, ghost files: map<string, File>, ghost links: seq<Raw>)
      requires Valid() && path in notePaths
      requires UpToDate(files, outlinks, notePaths, pending, lower) && notePaths == Notes(files, scope)
      modifies `pending
      ensures Valid() && pending == old(pending) + {path}
      ensures UpToDate(files[path := Note(links)], outlinks, notePaths, pending, lower)
      ensures notePaths == Notes(files[path := Note(links)], scope)
    {
      hide StemsOf, Inverse, UpToDate, Notes;
      EditPending(files, outlinks, notePaths, pending, lower, path, links, scope);
      pending := pending + {path};
    }

    /** One pending path: dropped, re-read or left alone. */
    method FlushOne(files: map<string, File>, p: string) returns (mutated: bool)
      requires outlinks.Keys == notePaths && StemsOf(stemIndex, notePaths, lower)
      modifies `outlinks, `notePaths, `stemIndex
      ensures outlinks.Keys == notePaths && StemsOf(stemIndex, notePaths, lower)
      ensures notePaths == AfterFlush(files, old(notePaths), {p})
      ensures forall q :: q in old(outlinks) && q != p ==> q in outlinks && outlinks[q] == old(outlinks)[q]
      ensures !mutated ==> outlinks == old(outlinks)
      ensures p in Notes(files, scope) ==> p in outlinks && AllFresh(files[p].links, outlinks[p], old(notePaths), lower)
    {
      hide StemsOf, AllFresh, IsMd, ResolveAll, AddStem, DropStem;
      if !IsMd(p) { return false; }
      if p !in files {
        DropStemKeeps(stemIndex, notePaths, p, lower);
        outlinks := outlinks - {p};
        notePaths := notePaths - {p};
        stemIndex := DropStem(stemIndex, p, lower);
        return true;
      }
      if !scope(p) || !files[p].Note? { return false; }
      ResolvedFresh(files[p].links, notePaths, stemIndex, lower);
      AddStemKeeps(stemIndex, notePaths, p, lower);
      outlinks := outlinks[p := ResolveAll(files[p].links, notePaths, stemIndex, lower)];
      notePaths := notePaths + {p};
      stemIndex := AddStem(stemIndex, p, lower);
      return true;
    }

    /** The notes after some pending paths were looked at. */
    ghost function AfterFlush(files: map<string, File>, notes: set<string>, todo: set<string>): set<string> {
      set p | p in notes + todo &&
        (if p in todo && IsMd(p) && p !in files then false
         else p in notes || (p in todo && p in files && IsMd(p) && scope(p) && files[p].Note?))
    }

    /** A set of notes the index went through while the pending paths were looked at. */
    ghost predicate Passed(files: map<string, File>, notes: set<string>, todo: set<string>, s: set<string>) {
      exists done :: done <= todo && s == AfterFlush(files, notes, done)
    }

    lemma AmongMore(files: map<string, File>, before: map<string, seq<Link>>, notes: set<string>,
                    among: map<string, set<string>>, left: set<string>, p: string)
      requires ResolvedAmong(files, before, notes, among, left + {p}, scope, lower) && before.Keys == notes
      requires notePaths == AfterFlush(files, notes, {p})
      requires forall q :: q in before && q != p ==> q in outlinks && outlinks[q] == before[q]
      requires p in Notes(files, scope) ==> p in outlinks && AllFresh(files[p].links, outlinks[p], notes, lower)
      ensures var now := if p in Notes(files, scope) then among[p := notes] else among;
        ResolvedAmong(files, outlinks, notePaths, now, left, scope, lower)
    {
      hide AllFresh, Notes;
    }

    lemma FlushMore(files: map<string, File>, notes: set<string>, done: set<string>, p: string)
      requires p !in done
      ensures AfterFlush(files, notes, done + {p}) == AfterFlush(files, AfterFlush(files, notes, done), {p})
    {
      hide IsMd;
    }

    lemma FlushNone(files: map<string, File>, notes: set<string>, done: set<string>)
      ensures AfterFlush(files, notes, {}) == notes
      ensures notes == Notes(files, scope) ==> AfterFlush(files, notes, done) == notes
    {
      hide IsMd;
    }

    /** The pending paths one by one, in the order of the map iteration. */
    method FlushAll(files: map<string, File>, todo: set<string>)
        returns (mutated: bool, ghost among: map<string, set<string>>)
      requires outlinks.Keys == notePaths && StemsOf(stemIndex, notePaths, lower)
      modifies `outlinks, `notePaths, `stemIndex
      ensures outlinks.Keys == notePaths && StemsOf(stemIndex, notePaths, lower)
      ensures notePaths == AfterFlush(files, old(notePaths), todo)
      ensures forall p :: p in old(notePaths) && p !in todo ==> p in outlinks && outlinks[p] == old(outlinks)[p]
      ensures old(notePaths) == Notes(files, scope) ==> notePaths == old(notePaths) && Reread(files, todo)
      ensures !mutated ==> outlinks == old(outlinks)
      ensures UpToDate(files, old(outlinks), old(notePaths), todo, lower) ==>
        ResolvedAmong(files, outlinks, notePaths, among, {}, scope, lower)
      ensures forall p :: p in old(notePaths) && p !in todo ==> p in among && among[p] == old(notePaths)
      ensures forall p :: p in among ==> Passed(files, old(notePaths), todo, among[p])
    {
      hide StemsOf, AllFresh, AfterFlush, Notes, Reread, UpToDate, ResolvedAmong;
      mutated := false;
      among := map p | p in notePaths :: notePaths;
      ghost var fresh0 := UpToDate(files, outlinks, notePaths, todo, lower);
      if fresh0 { UntouchedAmong(files, outlinks, notePaths, todo, scope, lower); }
      ghost var notes0 := notePaths;
      ghost var stable := notes0 == Notes(files, scope);
      FlushNone(files, notes0, {});
      RereadNone(files);
      var left, done := todo, {};
      while left != {}
        invariant left !! done && left + done == todo
        invariant outlinks.Keys == notePaths && StemsOf(stemIndex, notePaths, lower)
        invariant notePaths == AfterFlush(files, notes0, done)
        invariant forall p :: p in notes0 && p !in done ==> p in outlinks && outlinks[p] == old(outlinks)[p]
        invariant stable ==> notePaths == notes0 && Reread(files, done)
        invariant !mutated ==> outlinks == old(outlinks)
        invariant fresh0 ==> ResolvedAmong(files, outlinks, notePaths, among, left, scope, lower)
        invariant forall p :: p in notes0 && p !in todo ==> p in among && among[p] == notes0
        invariant forall p :: p in among ==> Passed(files, notes0, todo, among[p])
        decreases left
      {
        var p :| p in left;
        ghost var left0 := left;
        left := left - {p};
        assert left + {p} == left0;
        FlushMore(files, notes0, done, p);
        FlushNone(files, notes0, done + {p});
        NotesAre(files, p);
        ghost var before, notes := outlinks, notePaths;
        RereadIs(files, done);
        var changed := FlushOne(files, p);
        if stable { RereadMore(files, before, done, p); }
        if fresh0 { AmongMore(files, before, notes, among, left, p); }
        assert Passed(files, notes0, todo, notes);
        among := if p in Notes(files, scope) then among[p := notes] else among;
        mutated := mutated || changed;
        done := done + {p};
      }
      assert done == todo;
    }

    /** `flushPending`. Whatever was added or removed, the index stays consistent; when
        only existing notes were edited, it is up to date again; and else, if all changes were
        pending, exactly when every link still says what it said when its note was looked at:
        for an untouched note, among the notes before the flush. */
    method FlushPending(files: map<string, File>) returns (ghost among: map<string, set<string>>)
      requires Valid()
      modifies this
      ensures Valid() && pending == {} && ready == old(ready)
      ensures notePaths == AfterFlush(files, old(notePaths), old(pending))
      ensures forall p :: p in old(notePaths) && p !in old(pending) ==>
        p in notePaths && outlinks[p] == old(outlinks)[p]
      ensures (UpToDate(files, old(outlinks), old(notePaths), old(pending), lower)
        && old(notePaths) == Notes(files, scope)) ==>
        notePaths == old(notePaths) && UpToDate(files, outlinks, notePaths, {}, lower)
      ensures (UpToDate(files, old(outlinks), old(notePaths), old(pending), lower)
        && notePaths == Notes(files, scope)) ==>
        (UpToDate(files, outlinks, notePaths, {}, lower) <==> SaysTheSame(files, among))
      ensures forall p :: p in old(notePaths) && p !in old(pending) ==> p in among && among[p] == old(notePaths)
      ensures forall p :: p in among ==> Passed(files, old(notePaths), old(pending), among[p])
    {
      hide StemsOf, Inverse, AllFresh, AfterFlush, Notes, Reread, UpToDate, ResolvedAmong, SaysTheSame, SameMeaning;
      var todo := pending;
      pending := {};
      FlushNone(files, notePaths, {});
      ghost var notes0 := notePaths;
      ghost var fresh0 := UpToDate(files, outlinks, notePaths, todo, lower);
      if todo == {} {
        among := map p | p in notePaths :: notePaths;
        assert Passed(files, notes0, todo, notes0);
        if fresh0 && notePaths == Notes(files, scope) {
          UntouchedAmong(files, outlinks, notePaths, {}, scope, lower);
          SaysIff(files, among);
        }
        return;
      }
      var mutated;
      mutated, among := FlushAll(files, todo);
      if fresh0 && notePaths == Notes(files, scope) { SaysIff(files, among); }
      if mutated {
        backlinks := BuildBacklinks(outlinks);
        generation := generation + 1;
      }
      if notes0 == Notes(files, scope) && fresh0 { NowUpToDate(files, old(outlinks), todo); }
    }

    /** Every link of every note says among all notes what it said among those there were when
        its note was last looked at. */
    ghost predicate SaysTheSame(files: map<string, File>, among: map<string, set<string>>)
      reads `notePaths
    {
      forall p :: p in notePaths ==>
        p in files && files[p].Note? && p in among
        && forall raw :: raw in files[p].links ==> SameMeaning(raw.text, among[p], notePaths, lower)
    }

    lemma SaysIff(files: map<string, File>, among: map<string, set<string>>)
      requires notePaths == Notes(files, scope) && ResolvedAmong(files, outlinks, notePaths, among, {}, scope, lower)
      ensures UpToDate(files, outlinks, notePaths, {}, lower) <==> SaysTheSame(files, among)
    {
      hide AllFresh, SameMeaning, UpToDate;
      UpToDateIff(files, outlinks, notePaths, among, scope, lower);
    }

    lemma RereadNone(files: map<string, File>)
      ensures Reread(files, {})
    {}

    lemma NotesAre(files: map<string, File>, p: string)
      ensures p in Notes(files, scope) ==> p in files && IsMd(p) && scope(p) && files[p].Note?
    {}

    /** The notes among `done` have the links their text says now. */
    ghost predicate Reread(files: map<string, File>, done: set<string>)
      reads `outlinks, `notePaths
    {
      RereadIn(files, outlinks, notePaths, done)
    }

    ghost predicate RereadIn(files: map<string, File>, out: map<string, seq<Link>>, notes: set<string>,
                             done: set<string>) {
      forall q :: q in notes && q in done ==>
        q in files && files[q].Note? && q in out && AllFresh(files[q].links, out[q], notes, lower)
    }

    lemma RereadIs(files: map<string, File>, done: set<string>)
      ensures Reread(files, done) <==> RereadIn(files, outlinks, notePaths, done)
    {
      hide AllFresh;
    }

    lemma RereadMore(files: map<string, File>, before: map<string, seq<Link>>, done: set<string>, p: string)
      requires notePaths == Notes(files, scope) == outlinks.Keys
      requires RereadIn(files, before, notePaths, done)
      requires forall q :: q in before && q != p ==> q in outlinks && outlinks[q] == before[q]
      requires p in notePaths ==>
        p in files && files[p].Note? && AllFresh(files[p].links, outlinks[p], notePaths, lower)
      ensures Reread(files, done + {p})
    {
      hide AllFresh;
    }

    lemma NowUpToDate(files: map<string, File>, before: map<string, seq<Link>>, todo: set<string>)
      requires UpToDate(files, before, notePaths, todo, lower) && Reread(files, todo)
      requires forall p :: p in notePaths && p !in todo ==> p in outlinks && outlinks[p] == before[p]
      ensures UpToDate(files, outlinks, notePaths, {}, lower)
    {
      hide AllFresh;
    }
  }
}
