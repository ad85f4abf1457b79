/** Memory recall: internal/memory/recall.go. Scores are exact; every loop over a map
    takes its keys in an arbitrary order. */
module Recall {
  import opened Paths
  import opened Text

  datatype Source = TagMatch | TextMatch | RelatedLink

  datatype Item = Item(score: real, source: Source, excerpt: string)

  datatype Hit = Hit(path: string, line: string)

  /** Related links as the link graph tells them, in both directions. */
  datatype Graph = Graph(out: map<string, seq<string>>, back: map<string, seq<string>>) {
    function Of(m: map<string, seq<string>>, p: string): seq<string> { if p in m then m[p] else [] }
    function Neighbours(p: string): seq<string> { Of(out, p) + Of(back, p) }
    /** Different notes, one related to the other. */
    predicate Adjacent(p: string, q: string) { p != q && q in Neighbours(p) }
  }

  // ---- Pass 1: tags ----

  function TagsOf(byTag: map<string, set<string>>, p: string): set<string> {
    set t | t in byTag && p in byTag[t]
  }

  predicate TagHit(byTag: map<string, set<string>>, tags: seq<string>, all: bool, p: string) {
    var n := |TagsOf(byTag, p)|;
    n > 0 && (all ==> n == |tags|)
  }

  /** The tags among `done` that list `p`. */
  function TagsIn(byTag: map<string, set<string>>, done: set<string>, p: string): set<string> {
    set t | t in done && t in byTag && p in byTag[t]
  }

  lemma TagsMore(byTag: map<string, set<string>>, done: set<string>, tag: string, p: string)
    requires tag in byTag && tag !in done
    ensures |TagsIn(byTag, done + {tag}, p)| == |TagsIn(byTag, done, p)| + (if p in byTag[tag] then 1 else 0)
  {
    assert TagsIn(byTag, done + {tag}, p) == TagsIn(byTag, done, p) + (if p in byTag[tag] then {tag} else {});
  }

  method AddTag(hits: map<string, nat>, paths: set<string>) returns (r: map<string, nat>)
    ensures forall p :: p in r <==> p in hits || p in paths
    ensures forall p :: p in r ==> r[p] == (if p in hits then hits[p] else 0) + (if p in paths then 1 else 0)
  {
    r := hits;
    var left := paths;
    while left != {}
      invariant left <= paths
      invariant forall p :: p in r <==> p in hits || p in paths - left
      invariant forall p :: p in r ==> r[p] == (if p in hits then hits[p] else 0) + (if p in paths - left then 1 else 0)
      decreases left
    {
      var p :| p in left;
      left := left - {p};
      r := r[p := (if p in r then r[p] else 0) + 1];
    }
  }

  method CountHits(byTag: map<string, set<string>>) returns (hits: map<string, nat>)
    ensures forall p :: p in hits <==> |TagsOf(byTag, p)| > 0
    ensures forall p :: p in hits ==> hits[p] == |TagsOf(byTag, p)|
  {
    hide TagsOf, TagsIn;
    hits := map[];
    var left := byTag.Keys;
    ghost var done: set<string> := {};
    forall p { TagsNone(byTag, p); }
    while left != {}
      invariant left !! done && left + done == byTag.Keys
      invariant forall p :: p in hits <==> |TagsIn(byTag, done, p)| > 0
      invariant forall p :: p in hits ==> hits[p] == |TagsIn(byTag, done, p)|
      decreases left
    {
      var tag :| tag in left;
      left := left - {tag};
      forall p { TagsMore(byTag, done, tag, p); }
      hits := AddTag(hits, byTag[tag]);
      done := done + {tag};
    }
    assert done == byTag.Keys;
    forall p { TagsAll(byTag, p); }
  }

  lemma TagsNone(byTag: map<string, set<string>>, p: string)
    ensures TagsIn(byTag, {}, p) == {}
  {}

  lemma TagsAll(byTag: map<string, set<string>>, p: string)
    ensures TagsIn(byTag, byTag.Keys, p) == TagsOf(byTag, p)
  {}

  method TagPass(byTag: map<string, set<string>>, tags: seq<string>, all: bool) returns (items: map<string, Item>)
    requires tags != []
    ensures forall p :: p in items <==> TagHit(byTag, tags, all, p)
    ensures forall p :: p in items ==> items[p] == Item(|TagsOf(byTag, p)| as real / |tags| as real, TagMatch, "")
  {
    var hits := CountHits(byTag);
    items := map p | p in hits && (all ==> hits[p] == |tags|) :: Item(hits[p] as real / |tags| as real, TagMatch, "");
  }

  // ---- Pass 2: text ----

  /** The text score of the `i`-th hit. */
  function RankScore(i: nat): (r: real)
    ensures r > 0.0
  {
    1.0 / (i + 1) as real * 0.6
  }

  /** A hit adds a text match, or lifts what is there. */
  function Touched(items: map<string, Item>, hit: Hit, i: nat): map<string, Item> {
    if hit.path in items then
      var e := items[hit.path];
      items[hit.path := Item(if RankScore(i) > e.score then RankScore(i) else e.score, e.source,
                             if e.excerpt == "" then hit.line else e.excerpt)]
    else items[hit.path := Item(RankScore(i), TextMatch, hit.line)]
  }

  function TextMatched(items: map<string, Item>, hits: seq<Hit>): map<string, Item> {
    if hits == [] then items
    else Touched(TextMatched(items, hits[..|hits| - 1]), hits[|hits| - 1], |hits| - 1)
  }

  method TextPass(items: map<string, Item>, hits: seq<Hit>) returns (r: map<string, Item>)
    ensures r == TextMatched(items, hits)
  {
    r := items;
    for i := 0 to |hits|
      invariant r == TextMatched(items, hits[..i])
    {
      assert hits[..i + 1][..i] == hits[..i];
      r := Touched(r, hits[i], i);
    }
    assert hits[..|hits|] == hits;
  }

  /** The rank of a path: its first hit. */
  function FirstHit(hits: seq<Hit>, p: string): (i: nat)
    ensures i <= |hits| && (i < |hits| ==> hits[i].path == p)
    ensures forall k :: 0 <= k < i ==> hits[k].path != p
  {
    if hits == [] then 0
    else
      var i := FirstHit(hits[..|hits| - 1], p);
      if i < |hits| - 1 then i else if hits[|hits| - 1].path == p then i else |hits|
  }

  lemma RanksFall(i: nat, j: nat)
    requires i <= j
    ensures RankScore(j) <= RankScore(i)
  {
    assert 1.0 / (j + 1) as real <= 1.0 / (i + 1) as real;
  }

  function Better(score: real, i: nat, n: nat): real {
    if i < n && RankScore(i) > score then RankScore(i) else score
  }

  /** The first line a search shows for a path. */
  function LineOf(hits: seq<Hit>, p: string): string {
    if hits == [] then ""
    else
      var l := LineOf(hits[..|hits| - 1], p);
      if l == "" && hits[|hits| - 1].path == p then hits[|hits| - 1].line else l
  }

  /** A path keeps its source, its score is the better of its tag score and the score of
      its first hit, and it shows the first line found. */
  lemma {:induction false} TextMeaning(items: map<string, Item>, hits: seq<Hit>, p: string)
    ensures var r, i := TextMatched(items, hits), FirstHit(hits, p);
      && (p in r <==> p in items || i < |hits|)
      && (p in items ==> r[p].source == items[p].source && r[p].score == Better(items[p].score, i, |hits|))
      && (p !in items && i < |hits| ==> r[p].source == TextMatch && r[p].score == RankScore(i))
      && (p in items && items[p].excerpt == "" ==> r[p].excerpt == LineOf(hits, p))
      && (p !in items && i < |hits| ==> r[p].excerpt == LineOf(hits, p))
      && (i == |hits| ==> LineOf(hits, p) == "")
    decreases |hits|
  {
    if hits != [] {
      var rest := hits[..|hits| - 1];
      TextMeaning(items, rest, p);
      var i := FirstHit(rest, p);
      if i < |rest| { RanksFall(i, |rest|); }
    }
  }

  // ---- Pass 3: related notes ----

  const HOP_SCORE: real := 0.7 * 0.4

  /** What a seed adds: its neighbours that are not there yet. */
  function Spread(items: map<string, Item>, seedPath: string, score: real, g: Graph): map<string, Item> {
    var more := map n | n in g.Neighbours(seedPath) && n != seedPath && n !in items ::
      Item(score * HOP_SCORE, RelatedLink, "");
    items + more
  }

  method SpreadOne(items: map<string, Item>, seedPath: string, score: real, g: Graph) returns (r: map<string, Item>)
    ensures r == Spread(items, seedPath, score, g)
  {
    r := items;
    var neighbours := g.Neighbours(seedPath);
    hide Graph.Neighbours;
    var seen: set<string> := {};
    for i := 0 to |neighbours|
      invariant forall n :: n in seen <==> n in neighbours[..i] && n != seedPath
      invariant forall n :: n in r <==> n in items || n in seen
      invariant forall n :: n in r ==> r[n] == if n in items then items[n] else Item(score * HOP_SCORE, RelatedLink, "")
    {
      var n := neighbours[i];
      assert neighbours[..i + 1] == neighbours[..i] + [n];
      if n in seen || n == seedPath { continue; }
      seen := seen + {n};
      if n in r { continue; }
      r := r[n := Item(score * HOP_SCORE, RelatedLink, "")];
    }
    assert neighbours[..|neighbours|] == neighbours;
  }

  /** All seeds in the order the map iteration yields them. */
  function SpreadAll(items: map<string, Item>, order: seq<string>, g: Graph): map<string, Item>
    requires forall s :: s in order ==> s in items
  {
    if order == [] then items
    else
      var n := |order| - 1;
      assert forall s :: s in order[..n] ==> s in order;
      Spread(SpreadAll(items, order[..n], g), order[n], items[order[n]].score, g)
  }

  /** An order a map with these keys may be gone through in. */
  ghost predicate OrderOf(keys: set<string>, order: seq<string>) {
    && (forall s :: s in order <==> s in keys)
    && (forall i, j :: 0 <= i < j < |order| ==> order[i] != order[j])
  }

  /** The first seed next to a note. */
  function FirstSeed(order: seq<string>, g: Graph, n: string): (i: nat)
    ensures i <= |order| && (i < |order| ==> g.Adjacent(order[i], n))
    ensures forall k :: 0 <= k < i ==> !g.Adjacent(order[k], n)
  {
    if order == [] then 0
    else
      var m := |order| - 1;
      var i := FirstSeed(order[..m], g, n);
      if i < m then i else if g.Adjacent(order[m], n) then m else m + 1
  }

  /** Primary hits stay as they are, exactly their neighbours join them, and the first seed
      next to a neighbour sets its score. */
  lemma {:induction false} SpreadMeaning(items: map<string, Item>, order: seq<string>, g: Graph, n: string)
    requires forall s :: s in order ==> s in items
    ensures var r, i := SpreadAll(items, order, g), FirstSeed(order, g, n);
      && (n in items ==> n in r && r[n] == items[n])
      && (n !in items ==> (n in r <==> i < |order|))
      && (n !in items && i < |order| ==> r[n] == Item(items[order[i]].score * HOP_SCORE, RelatedLink, ""))
    decreases |order|
  {
    hide Graph.Adjacent, Spread;
    if order != [] {
      var m := |order| - 1;
      assert order[m] in order && forall s :: s in order[..m] ==> s in order;
      SpreadMeaning(items, order[..m], g, n);
      SpreadAt(SpreadAll(items, order[..m], g), order[m], items[order[m]].score, g, n);
    }
  }

  lemma SpreadAt(items: map<string, Item>, s: string, score: real, g: Graph, n: string)
    ensures var r := Spread(items, s, score, g);
      && (n in r <==> n in items || g.Adjacent(s, n))
      && (n in r ==> r[n] == if n in items then items[n] else Item(score * HOP_SCORE, RelatedLink, ""))
  {}

  /** A note one hop from a primary hit, scored by one of those hits. */
  ghost predicate OneHop(items: map<string, Item>, g: Graph, n: string, item: Item) {
    n !in items && item.source == RelatedLink
    && exists s :: s in items && g.Adjacent(s, n) && item.score == items[s].score * HOP_SCORE
  }

  /** Whatever the order of the seeds: primary hits stay as they are, and exactly their
      neighbours join them. */
  lemma SpreadFinds(items: map<string, Item>, order: seq<string>, g: Graph)
    requires OrderOf(items.Keys, order)
    ensures var r := SpreadAll(items, order, g);
      && (forall p :: p in items ==> p in r && r[p] == items[p])
      && (forall n :: n in r <==> n in items || exists s :: s in items && g.Adjacent(s, n))
      && (forall n :: n in r && n !in items ==> OneHop(items, g, n, r[n]))
  {
    hide Graph.Adjacent, SpreadAll;
    var r := SpreadAll(items, order, g);
    forall n
      ensures n in items ==> n in r && r[n] == items[n]
      ensures n in r <==> n in items || exists s :: s in items && g.Adjacent(s, n)
      ensures n in r && n !in items ==> OneHop(items, g, n, r[n])
    {
      SpreadMeaning(items, order, g, n);
      var i := FirstSeed(order, g, n);
      if i < |order| { assert order[i] in order; }
      if s :| s in items && g.Adjacent(s, n) {
        var k :| 0 <= k < |order| && order[k] == s;
      }
    }
  }

  /** `expandRelated`: every primary hit is a seed, in the order of the map iteration. */
  method ExpandRelated(items: map<string, Item>, g: Graph) returns (r: map<string, Item>, ghost order: seq<string>)
    ensures OrderOf(items.Keys, order) && r == SpreadAll(items, order, g)
    ensures forall p :: p in items ==> p in r && r[p] == items[p]
    ensures forall n :: n in r <==> n in items || exists s :: s in items && g.Adjacent(s, n)
    ensures forall n :: n in r && n !in items ==> OneHop(items, g, n, r[n])
  {
    r, order := items, [];
    var left := items.Keys;
    while left != {}
      invariant left <= items.Keys && OrderOf(items.Keys - left, order)
      invariant r == SpreadAll(items, order, g)
      decreases left
    {
      var s :| s in left;
      r := SpreadOne(r, s, items[s].score, g);
      left := left - {s};
      assert (order + [s])[..|order|] == order;
      order := order + [s];
    }
    assert items.Keys - left == items.Keys;
    SpreadFinds(items, order, g);
  }

  // ---- Filters ----

  predicate InScope(path: string, dirs: seq<string>) {
    if dirs == [] then !HasPrefix(path, "Archive/")
    else exists d :: d in dirs && Trim(d) != "" && HasPrefix(path + "/", WithSlash(Trim(d)))
  }

  function WithSlash(d: string): string {
    if HasSuffix(d, "/") then d else d + "/"
  }

  /** A note whose time is not known is kept. */
  predicate Recent(path: string, since: Option<int>, times: map<string, int>) {
    since.None? || path !in times || times[path] >= since.value
  }

  /** A scope entry names a directory, with or without a slash at its end. */
  ghost predicate NamesDir(entry: string, dir: string) {
    Trim(entry) != "" && (Trim(entry) == dir + "/" || (Trim(entry) == dir && !HasSuffix(dir, "/")))
  }

  /** In scope is what lies in one of the directories, segment by segment; without any,
      what does not lie below `Archive`. */
  ghost predicate Within(path: string, dirs: seq<string>) {
    if dirs == [] then !(Inside(path, "Archive") && path != "Archive")
    else exists entry, dir :: entry in dirs && NamesDir(entry, dir) && Inside(path, dir)
  }

  lemma ScopeMeans(path: string, dirs: seq<string>)
    ensures InScope(path, dirs) <==> Within(path, dirs)
  {
    if dirs == [] {
      InsideMeans(path, "Archive");
      assert "Archive" + "/" == "Archive/";
      assert |"Archive/"| > |"Archive"|;
    } else {
      hide Inside, Trim;
      if InScope(path, dirs) {
        var entry :| entry in dirs && Trim(entry) != "" && HasPrefix(path + "/", WithSlash(Trim(entry)));
        var dir := DirOf(entry);
        DirMeans(path, entry, dir);
      }
      hide WithSlash, NamesDir;
      if entry, dir :| entry in dirs && NamesDir(entry, dir) && Inside(path, dir) {
        DirMeans(path, entry, dir);
      }
    }
  }

  lemma DirOf(entry: string) returns (dir: string)
    requires Trim(entry) != ""
    ensures NamesDir(entry, dir)
  {
    hide Trim;
    dir := if HasSuffix(Trim(entry), "/") then Trim(entry)[..|Trim(entry)| - 1] else Trim(entry);
  }

  lemma DirMeans(path: string, entry: string, dir: string)
    requires NamesDir(entry, dir)
    ensures Trim(entry) != ""
    ensures HasPrefix(path + "/", WithSlash(Trim(entry))) <==> Inside(path, dir)
  {
    InsideMeans(path, dir);
    hide Inside, Trim;
    assert WithSlash(Trim(entry)) == dir + "/";
    if HasPrefix(path + "/", dir + "/") && |path| > |dir| {
      assert (path + "/")[..|dir| + 1] == path[..|dir| + 1];
      assert HasPrefix(path, dir + "/");
    }
    if HasPrefix(path + "/", dir + "/") && |path| == |dir| { assert path == (path + "/")[..|dir|]; }
    if HasPrefix(path, dir + "/") { assert path <= path + "/"; }
  }

  predicate LexLess(a: string, b: string) {
    if b == "" then false
    else if a == "" then true
    else a[0] < b[0] || (a[0] == b[0] && LexLess(a[1..], b[1..]))
  }

  /** At this place `a` has the smaller character, after a common start. */
  predicate SmallerAt(a: string, b: string, i: nat) {
    i < |a| && i < |b| && a[..i] == b[..i] && a[i] < b[i]
  }

  lemma SmallerShift(a: string, b: string, i: nat)
    requires a != "" && b != "" && a[0] == b[0]
    ensures SmallerAt(a[1..], b[1..], i) <==> SmallerAt(a, b, i + 1)
    ensures a[1..] < b[1..] <==> a < b
  {
    assert a == [a[0]] + a[1..] && b == [b[0]] + b[1..];
    if i < |a[1..]| && i < |b[1..]| {
      assert a[..i + 1] == [a[0]] + a[1..][..i] && b[..i + 1] == [b[0]] + b[1..][..i];
      assert a[..i + 1][1..] == a[1..][..i] && b[..i + 1][1..] == b[1..][..i];
    }
  }

  lemma SmallerHead(a: string, b: string, i: nat)
    requires SmallerAt(a, b, i)
    ensures i == 0 || a[0] == b[0]
  {
    if i > 0 { assert a[..i][0] == a[0] && b[..i][0] == b[0]; }
  }

  /** One path comes before another when it is a proper start of it or has the smaller
      character at the first place where they differ. */
  lemma {:induction false} LexMeans(a: string, b: string)
    ensures LexLess(a, b) <==> a < b || exists i :: SmallerAt(a, b, i)
  {
    if a != "" && b != "" {
      LexMeans(a[1..], b[1..]);
      if a[0] == b[0] {
        SmallerShift(a, b, 0);
        if i :| SmallerAt(a[1..], b[1..], i) { SmallerShift(a, b, i); }
        if i: nat :| SmallerAt(a, b, i) && i > 0 { SmallerShift(a, b, i - 1); }
      } else {
        if i :| SmallerAt(a, b, i) { SmallerHead(a, b, i); }
        assert a[0] < b[0] ==> SmallerAt(a, b, 0);
      }
    }
  }

  lemma {:induction false} LexTotal(a: string, b: string)
    ensures LexLess(a, b) || LexLess(b, a) || a == b
    ensures !(LexLess(a, b) && LexLess(b, a)) && !LexLess(a, a)
  {
    if a != "" { LexTotal(a[1..], a[1..]); }
    if a != "" && b != "" {
      LexTotal(a[1..], b[1..]);
      assert a == [a[0]] + a[1..] && b == [b[0]] + b[1..];
    }
  }

  lemma {:induction false} LexTransitive(a: string, b: string, c: string)
    requires LexLess(a, b) && LexLess(b, c)
    ensures LexLess(a, c)
  {
    if a != "" { LexTransitiveStep(a, b, c); }
  }

  lemma {:induction false} LexTransitiveStep(a: string, b: string, c: string)
    requires a != "" && LexLess(a, b) && LexLess(b, c)
    ensures LexLess(a, c)
    decreases |a|
  {
    if a[0] == b[0] == c[0] && a[1..] != "" { LexTransitiveStep(a[1..], b[1..], c[1..]); }
  }

  datatype Entry = Entry(path: string, item: Item)

  /** Better score first, then path. */
  predicate Ahead(x: Entry, y: Entry) {
    x.item.score > y.item.score || (x.item.score == y.item.score && LexLess(x.path, y.path))
  }

  predicate Ordered(out: seq<Entry>) {
    forall i, j :: 0 <= i < j < |out| ==> Ahead(out[i], out[j])
  }

  predicate Holds(items: map<string, Item>, out: seq<Entry>) {
    && (forall e :: e in out ==> e.path in items && items[e.path] == e.item)
    && (forall p :: p in items ==> Entry(p, items[p]) in out)
  }

  lemma AheadOne(x: Entry, y: Entry, z: Entry)
    ensures Ahead(x, y) && Ahead(y, z) ==> Ahead(x, z)
    ensures !(Ahead(x, y) && Ahead(y, x)) && !Ahead(x, x)
    ensures x.path != y.path ==> Ahead(x, y) || Ahead(y, x)
  {
    LexTotal(x.path, y.path);
    LexTotal(x.path, x.path);
    hide LexLess;
    if x.item.score == y.item.score == z.item.score && LexLess(x.path, y.path) && LexLess(y.path, z.path) {
      LexTransitive(x.path, y.path, z.path);
    }
  }

  /** The order is strict and total, so the list is fixed by the items, whatever order
      the map was gone through in. */
  lemma {:induction false} OrderUnique(items: map<string, Item>, a: seq<Entry>, b: seq<Entry>, n: nat)
    requires Ordered(a) && Ordered(b) && Holds(items, a) && Holds(items, b)
    requires n <= |a| && n <= |b| && a[..n] == b[..n]
    ensures a == b
    decreases |a| - n
  {
    hide Ahead;
    if n < |b| { AsLong(items, a, b, n); }
    if n < |a| { AsLong(items, b, a, n); }
    if n < |a| && n < |b| {
      if a[n] != b[n] {
        var i := Position(items, b, a, n);
        var j := Position(items, a, b, n);
        if i > n && j > n { AheadOne(a[n], b[n], a[n]); }
      }
      assert a[n] == b[n];
      assert a[..n + 1] == b[..n + 1] by { assert a[..n + 1] == a[..n] + [a[n]] && b[..n + 1] == b[..n] + [b[n]]; }
      OrderUnique(items, a, b, n + 1);
    }
  }

  /** Where the `n`-th entry of one list stands in the other: not before `n`. */
  lemma Position(items: map<string, Item>, a: seq<Entry>, b: seq<Entry>, n: nat) returns (i: nat)
    requires Ordered(a) && Ordered(b) && Holds(items, a) && Holds(items, b)
    requires n <= |a| && n < |b| && a[..n] == b[..n]
    ensures n <= i < |a| && a[i] == b[n]
  {
    hide Ahead;
    assert b[n] in b;
    assert Entry(b[n].path, items[b[n].path]) in a;
    i :| 0 <= i < |a| && a[i] == b[n];
    if i < n {
      assert a[i] == a[..n][i] == b[..n][i] == b[i];
      assert Ahead(b[i], b[n]);
      AheadOne(b[i], b[n], b[n]);
    }
  }

  lemma AsLong(items: map<string, Item>, a: seq<Entry>, b: seq<Entry>, n: nat)
    requires Ordered(a) && Ordered(b) && Holds(items, a) && Holds(items, b)
    requires n <= |a| && n < |b| && a[..n] == b[..n]
    ensures n < |a|
  {
    var i := Position(items, a, b, n);
  }

  /** Insertion into an ordered list. */
  method Insert(out: seq<Entry>, e: Entry) returns (r: seq<Entry>)
    requires Ordered(out) && forall x :: x in out ==> x.path != e.path
    ensures Ordered(r) && forall x :: x in r <==> x in out || x == e
  {
    hide Ahead;
    var i := 0;
    while i < |out| && Ahead(out[i], e)
      invariant i <= |out| && forall k :: 0 <= k < i ==> Ahead(out[k], e)
    {
      i := i + 1;
    }
    r := out[..i] + [e] + out[i..];
    Inserted(out, e, i);
  }

  lemma Inserted(out: seq<Entry>, e: Entry, i: nat)
    requires Ordered(out) && i <= |out| && forall x :: x in out ==> x.path != e.path
    requires (forall k :: 0 <= k < i ==> Ahead(out[k], e)) && (i < |out| ==> !Ahead(out[i], e))
    ensures var r := out[..i] + [e] + out[i..];
      Ordered(r) && forall x :: x in r <==> x in out || x == e
  {
    hide Ahead;
    var r := out[..i] + [e] + out[i..];
    assert out == out[..i] + out[i..];
    forall j | i <= j < |out| ensures Ahead(e, out[j]) {
      assert out[i] in out;
      AheadOne(out[i], e, e);
      if j > i { AheadOne(e, out[i], out[j]); }
    }
    forall a, b | 0 <= a < b < |r| ensures Ahead(r[a], r[b]) {
      var x, y := if a <= i then a else a - 1, if b <= i then b else b - 1;
      assert a != i ==> r[a] == out[x];
      assert b != i ==> r[b] == out[y];
    }
  }

  method SortItems(items: map<string, Item>) returns (out: seq<Entry>)
    ensures Ordered(out) && Holds(items, out)
  {
    out := [];
    var left := items.Keys;
    while left != {}
      invariant left <= items.Keys && Ordered(out)
      invariant forall e :: e in out ==> e.path in items && e.path !in left && items[e.path] == e.item
      invariant forall p :: p in items && p !in left ==> Entry(p, items[p]) in out
      decreases left
    {
      hide Ordered;
      var p :| p in left;
      out := Insert(out, Entry(p, items[p]));
      left := left - {p};
    }
  }

  // ---- Recall ----

  datatype Request = Request(
    query: string, tags: seq<string>, mode: string, scope: seq<string>, since: Option<int>, limit: int, expand: bool)

  /** What the passes find: the tag index unless it is not ready, the text hits unless
      there is no search, the link graph unless it is missing, the notes' times. */
  datatype World = World(
    byTag: Option<map<string, set<string>>>, hits: Option<seq<Hit>>, searchFailed: bool,
    graph: Option<Graph>, graphReady: bool, times: map<string, int>)

  predicate ByTag(req: Request, w: World, p: string) {
    var tags := NonEmpty(req.tags);
    tags != [] && w.byTag.Some? && TagHit(w.byTag.value, tags, req.mode == "all", p)
  }

  function HitsOf(req: Request, w: World): seq<Hit> {
    if Trim(req.query) != "" && w.hits.Some? then w.hits.value else []
  }

  predicate ByText(req: Request, w: World, p: string) {
    FirstHit(HitsOf(req, w), p) < |HitsOf(req, w)|
  }

  /** What a primary hit scores. */
  function PrimaryScore(req: Request, w: World, p: string): real
    requires ByTag(req, w, p) || ByText(req, w, p)
  {
    var i, n := FirstHit(HitsOf(req, w), p), |HitsOf(req, w)|;
    if ByTag(req, w, p) then Better(|TagsOf(w.byTag.value, p)| as real / |NonEmpty(req.tags)| as real, i, n)
    else RankScore(i)
  }

  /** The primary hits, each with its score and its source. */
  ghost predicate Primary(req: Request, w: World, items: map<string, Item>) {
    && (forall p :: p in items <==> ByTag(req, w, p) || ByText(req, w, p))
    && (forall p :: p in items ==> items[p].score == PrimaryScore(req, w, p))
    && (forall p :: p in items ==> items[p].source == if ByTag(req, w, p) then TagMatch else TextMatch)
    && (forall p :: p in items ==> items[p].excerpt == LineOf(HitsOf(req, w), p))
  }

  lemma PrimarySame(req: Request, w: World, a: map<string, Item>, b: map<string, Item>)
    requires Primary(req, w, a) && Primary(req, w, b)
    ensures a == b
  {
    hide ByTag, ByText, PrimaryScore, HitsOf, LineOf;
    forall p ensures p in a <==> p in b {}
    forall p | p in a ensures a[p] == b[p] {}
  }

  predicate Spreads(req: Request, w: World) { req.expand && w.graph.Some? && w.graphReady }

  /** What is found before filtering: the primary hits and, if asked for, what they spread
      to, in some order of the map iteration. */
  ghost predicate Found(req: Request, w: World, primary: map<string, Item>, found: map<string, Item>) {
    if !Spreads(req, w) then found == primary
    else exists order :: OrderOf(primary.Keys, order) && found == SpreadAll(primary, order, w.graph.value)
  }

  /** A primary hit next to a note. */
  predicate NextTo(w: World, primary: map<string, Item>, s: string, n: string) {
    s in primary && w.graph.Some? && w.graph.value.Adjacent(s, n)
  }

  /** What the request lets through. */
  ghost predicate Admits(req: Request, w: World, path: string) {
    Within(path, req.scope) && (req.since.Some? && path in w.times ==> w.times[path] >= req.since.value)
  }

  lemma KeptMeans(req: Request, w: World, found: map<string, Item>)
    ensures forall p :: p in Kept(req, w, found) <==> p in found && Admits(req, w, p)
    ensures forall p :: p in Kept(req, w, found) ==> Kept(req, w, found)[p] == found[p]
  {
    hide InScope, Within;
    forall p ensures InScope(p, req.scope) <==> Within(p, req.scope) { ScopeMeans(p, req.scope); }
  }

  method PathInScope(path: string, dirs: seq<string>) returns (keep: bool)
    ensures keep == InScope(path, dirs)
  {
    if |dirs| == 0 { return !HasPrefix(path, "Archive/"); }
    keep := false;
    for i := 0 to |dirs|
      invariant !keep
      invariant forall k :: 0 <= k < i ==> Trim(dirs[k]) == "" || !HasPrefix(path + "/", WithSlash(Trim(dirs[k])))
    {
      var dir := Trim(dirs[i]);
      if dir == "" { continue; }
      if HasPrefix(path + "/", WithSlash(dir)) {
        assert dirs[i] in dirs;
        return true;
      }
    }
  }

  method FilterScope(items: map<string, Item>, dirs: seq<string>) returns (r: map<string, Item>)
    ensures r == map p | p in items && InScope(p, dirs) :: items[p]
  {
    r := items;
    var left := items.Keys;
    hide InScope;
    while left != {}
      invariant left <= items.Keys
      invariant r == map p | p in items && (p in left || InScope(p, dirs)) :: items[p]
      decreases left
    {
      var p :| p in left;
      var keep := PathInScope(p, dirs);
      if !keep { r := r - {p}; }
      left := left - {p};
    }
  }

  method FilterSince(items: map<string, Item>, since: int, times: map<string, int>) returns (r: map<string, Item>)
    ensures r == map p | p in items && Recent(p, Some(since), times) :: items[p]
  {
    r := items;
    var left := items.Keys;
    while left != {}
      invariant left <= items.Keys
      invariant r == map p | p in items && (p in left || Recent(p, Some(since), times)) :: items[p]
      decreases left
    {
      var p :| p in left;
      if p in times && times[p] < since { r := r - {p}; }
      left := left - {p};
    }
  }

  function Kept(req: Request, w: World, found: map<string, Item>): map<string, Item> {
    map p | p in found && InScope(p, req.scope) && Recent(p, req.since, w.times) :: found[p]
  }

  predicate ValidRequest(req: Request) {
    && (Trim(req.query) != "" || NonEmpty(req.tags) != [])
    && (req.mode == "" || req.mode == "any" || req.mode == "all")
  }

  /** Which of the first two passes were skipped or failed. */
  function PrimaryReasons(req: Request, w: World): seq<string> {
    (if NonEmpty(req.tags) != [] && w.byTag.None? then ["tag_index_not_ready"] else [])
    + (if Trim(req.query) == "" then [] else if w.hits.None? then ["text_search_unavailable"]
       else if w.searchFailed then ["text_search_error"] else [])
  }

  function LinkReasons(req: Request, w: World): seq<string> {
    if !req.expand then [] else if w.graph.None? then ["link_graph_unavailable"]
    else if !w.graphReady then ["link_graph_not_ready"] else []
  }

  method Recall(req: Request, w: World)
      returns (out: Option<seq<Entry>>, reasons: seq<string>,
               ghost primary: map<string, Item>, ghost found: map<string, Item>, ghost whole: seq<Entry>)
    ensures out.Some? <==> ValidRequest(req)
    ensures out.Some? ==> Primary(req, w, primary) && Found(req, w, primary, found)
    ensures out.Some? ==> Ordered(whole) && Holds(Kept(req, w, found), whole)
    ensures out.Some? ==>
      forall e :: e in whole <==> e.path in found && e.item == found[e.path] && Admits(req, w, e.path)
    ensures out.Some? ==> out.value == if 0 < req.limit < |whole| then whole[..req.limit] else whole
    ensures out.Some? ==> reasons == PrimaryReasons(req, w) + LinkReasons(req, w)
  {
    reasons, primary, found, whole := [], map[], map[], [];
    out := None;
    var tags := NonEmpty(req.tags);
    hide NonEmpty, Trim, Primary, Found, Kept, Ordered, Holds, PrimaryReasons, LinkReasons, Admits;
    if Trim(req.query) == "" && tags == [] { return; }
    if req.mode != "" && req.mode != "any" && req.mode != "all" { return; }
    var items, tagged := PrimaryHits(req, w);
    primary := items;
    var linked;
    items, linked := Expanded(req, w, items);
    found := items;
    reasons := tagged + linked;
    items := FilterScope(items, req.scope);
    if req.since.Some? { items := FilterSince(items, req.since.value, w.times); }
    assert items == Kept(req, w, found) by { KeptIs(req, w, found, items); }
    var all := SortItems(items);
    whole := all;
    WholeMeans(req, w, found, whole);
    out := Some(if 0 < req.limit < |all| then all[..req.limit] else all);
  }

  /** The first two passes. */
  method PrimaryHits(req: Request, w: World) returns (items: map<string, Item>, reasons: seq<string>)
    ensures Primary(req, w, items) && reasons == PrimaryReasons(req, w)
  {
    hide NonEmpty, Trim, Primary;
    var tags := NonEmpty(req.tags);
    items, reasons := map[], [];
    if tags != [] {
      if w.byTag.Some? {
        items := TagPass(w.byTag.value, tags, req.mode == "all");
      } else {
        reasons := reasons + ["tag_index_not_ready"];
      }
    }
    hide TagHit, TagsOf;
    ghost var tagged := items;
    if Trim(req.query) != "" {
      if w.hits.None? {
        reasons := reasons + ["text_search_unavailable"];
      } else {
        if w.searchFailed { reasons := reasons + ["text_search_error"]; }
        items := TextPass(items, w.hits.value);
      }
    }
    PrimaryIs(req, w, tagged, items);
  }

  /** The third pass. */
  method Expanded(req: Request, w: World, primary: map<string, Item>)
      returns (found: map<string, Item>, reasons: seq<string>)
    ensures Found(req, w, primary, found) && reasons == LinkReasons(req, w)
  {
    hide SpreadAll;
    found, reasons := primary, [];
    if req.expand {
      if w.graph.None? {
        reasons := ["link_graph_unavailable"];
      } else if !w.graphReady {
        reasons := ["link_graph_not_ready"];
      } else {
        ghost var order;
        found, order := ExpandRelated(primary, w.graph.value);
      }
    }
  }

  /** The whole list holds what was found and is let through, and nothing else. */
  lemma WholeMeans(req: Request, w: World, found: map<string, Item>, whole: seq<Entry>)
    requires Holds(Kept(req, w, found), whole)
    ensures forall e :: e in whole <==> e.path in found && e.item == found[e.path] && Admits(req, w, e.path)
  {
    KeptMeans(req, w, found);
    hide Kept, Admits;
    forall e: Entry | e.path in found && e.item == found[e.path] && Admits(req, w, e.path) ensures e in whole {
      assert e.path in Kept(req, w, found);
      assert Entry(e.path, Kept(req, w, found)[e.path]) in whole;
    }
  }

  lemma KeptIs(req: Request, w: World, found: map<string, Item>, items: map<string, Item>)
    requires var scoped := map p | p in found && InScope(p, req.scope) :: found[p];
      items == if req.since.Some? then map p | p in scoped && Recent(p, req.since, w.times) :: scoped[p] else scoped
    ensures items == Kept(req, w, found)
  {
    hide InScope;
  }

  lemma PrimaryIs(req: Request, w: World, tagged: map<string, Item>, items: map<string, Item>)
    requires items == TextMatched(tagged, HitsOf(req, w))
    requires forall p :: p in tagged <==> ByTag(req, w, p)
    requires forall p :: p in tagged ==>
      ByTag(req, w, p)
        && tagged[p] == Item(|TagsOf(w.byTag.value, p)| as real / |NonEmpty(req.tags)| as real, TagMatch, "")
    ensures Primary(req, w, items)
  {
    hide NonEmpty, Trim, TagHit, TagsOf, RankScore, TextMatched, FirstHit, LineOf;
    forall p
      ensures p in items <==> ByTag(req, w, p) || ByText(req, w, p)
      ensures p in items ==> items[p].score == PrimaryScore(req, w, p)
      ensures p in items ==> items[p].source == if ByTag(req, w, p) then TagMatch else TextMatch
      ensures p in items ==> items[p].excerpt == LineOf(HitsOf(req, w), p)
    {
      TextMeaning(tagged, HitsOf(req, w), p);
    }
  }

  /** What is found: the primary hits as they are and, if asked for, exactly their
      neighbours, each one hop from a primary hit and scored by one. */
  lemma FoundMeans(req: Request, w: World, primary: map<string, Item>, found: map<string, Item>)
    requires Found(req, w, primary, found)
    ensures forall p :: p in primary ==> p in found && found[p] == primary[p]
    ensures !Spreads(req, w) ==> found == primary
    ensures Spreads(req, w) ==> forall n :: n in found <==> n in primary || exists s :: NextTo(w, primary, s, n)
    ensures forall p :: p in found && p !in primary ==> Spreads(req, w) && OneHop(primary, w.graph.value, p, found[p])
  {
    hide SpreadAll, Graph.Adjacent, OneHop;
    if Spreads(req, w) {
      var o :| OrderOf(primary.Keys, o) && found == SpreadAll(primary, o, w.graph.value);
      SpreadFinds(primary, o, w.graph.value);
      hide OrderOf;
      forall n ensures n in found <==> n in primary || exists s :: NextTo(w, primary, s, n) {
        if s :| s in primary && w.graph.value.Adjacent(s, n) { assert NextTo(w, primary, s, n); }
      }
    }
  }

  /** Whatever orders the maps are gone through in: two runs have the same primary hits and
      find the same notes. */
  lemma FoundSame(req: Request, w: World, a: map<string, Item>, fa: map<string, Item>, b: map<string, Item>,
                  fb: map<string, Item>)
    requires Primary(req, w, a) && Found(req, w, a, fa) && Primary(req, w, b) && Found(req, w, b, fb)
    ensures a == b && fa.Keys == fb.Keys
  {
    hide Primary, Found, NextTo, OneHop, Spreads;
    PrimarySame(req, w, a, b);
    FoundMeans(req, w, a, fa);
    FoundMeans(req, w, b, fb);
    if Spreads(req, w) {
      forall n ensures n in fa <==> n in fb {}
    }
  }

  /** What the limit cuts off ranks behind everything it keeps. */
  lemma LimitKeepsTop(whole: seq<Entry>, limit: nat, x: Entry, y: Entry)
    requires Ordered(whole) && limit < |whole| && x in whole[..limit] && y in whole[limit..]
    ensures Ahead(x, y)
  {
    hide Ahead;
    var i :| 0 <= i < limit && whole[..limit][i] == x;
    var j :| 0 <= j < |whole| - limit && whole[limit..][j] == y;
    assert whole[i] == x && whole[limit + j] == y;
  }
}
