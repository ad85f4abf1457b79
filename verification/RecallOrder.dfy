/** When a recall (internal/memory/recall.go) depends on the order Go goes through a map. */
module RecallOrder {
  import opened Text
  import opened Recall

  /** A list a run may return, before the limit. */
  ghost predicate Listing(req: Request, w: World, primary: map<string, Item>, out: seq<Entry>) {
    exists found :: Found(req, w, primary, found) && Ordered(out) && Holds(Kept(req, w, found), out)
  }

  predicate Keeps(req: Request, w: World, p: string) { InScope(p, req.scope) && Recent(p, req.since, w.times) }

  /** The primary hits next to a kept neighbour all have one score. */
  ghost predicate OneScore(req: Request, w: World, primary: map<string, Item>) {
    Spreads(req, w) ==>
      forall n, s, t :: n !in primary && Keeps(req, w, n) && NextTo(w, primary, s, n) && NextTo(w, primary, t, n) ==>
        primary[s].score == primary[t].score
  }

  lemma OneScoreSame(req: Request, w: World, primary: map<string, Item>, fa: map<string, Item>, fb: map<string, Item>)
    requires OneScore(req, w, primary) && Found(req, w, primary, fa) && Found(req, w, primary, fb)
    ensures Kept(req, w, fa) == Kept(req, w, fb)
  {
    hide OneScore, SpreadAll, Graph.Adjacent, InScope, Recent;
    if Spreads(req, w) {
      var g := w.graph.value;
      var o :| OrderOf(primary.Keys, o) && fa == SpreadAll(primary, o, g);
      var q :| OrderOf(primary.Keys, q) && fb == SpreadAll(primary, q, g);
      forall n | Keeps(req, w, n) ensures n in fa <==> n in fb ensures n in fa ==> fa[n] == fb[n] {
        OneScoreAt(req, w, primary, o, q, n);
      }
    }
  }

  lemma OneScoreAt(req: Request, w: World, primary: map<string, Item>, o: seq<string>, q: seq<string>, n: string)
    requires OneScore(req, w, primary) && Spreads(req, w) && Keeps(req, w, n)
    requires OrderOf(primary.Keys, o) && OrderOf(primary.Keys, q)
    ensures var a, b := SpreadAll(primary, o, w.graph.value), SpreadAll(primary, q, w.graph.value);
      (n in a <==> n in b) && (n in a ==> a[n] == b[n])
  {
    hide SpreadAll, Graph.Adjacent, Keeps;
    var g := w.graph.value;
    SpreadMeaning(primary, o, g, n);
    SpreadMeaning(primary, q, g, n);
    var i, j := FirstSeed(o, g, n), FirstSeed(q, g, n);
    if i < |o| {
      assert o[i] in o && o[i] in q;
      assert NextTo(w, primary, o[i], n);
    }
    if j < |q| {
      assert q[j] in q && q[j] in o;
      assert NextTo(w, primary, q[j], n);
    }
  }

  lemma {:induction false} SomeOrder(keys: set<string>) returns (order: seq<string>)
    ensures OrderOf(keys, order)
  {
    if keys == {} {
      order := [];
    } else {
      var k :| k in keys;
      var rest := SomeOrder(keys - {k});
      order := [k] + rest;
    }
  }

  /** An order that starts with a given key. */
  lemma OrderFrom(keys: set<string>, first: string) returns (order: seq<string>)
    requires first in keys
    ensures OrderOf(keys, order) && order != [] && order[0] == first
  {
    var rest := SomeOrder(keys - {first});
    order := [first] + rest;
  }

  /** Every map has its ordered list. */
  lemma {:induction false} SomeList(items: map<string, Item>) returns (out: seq<Entry>)
    ensures Ordered(out) && Holds(items, out)
    decreases items.Keys
  {
    if items.Keys == {} {
      out := [];
    } else {
      var p :| p in items.Keys;
      var less := items - {p};
      assert less.Keys == items.Keys - {p};
      out := SomeList(less);
      hide Ordered;
      var i := Place(out, Entry(p, items[p]));
      Inserted(out, Entry(p, items[p]), i);
      var rest := out;
      out := rest[..i] + [Entry(p, items[p])] + rest[i..];
      hide Ahead;
      forall q | q in items ensures Entry(q, items[q]) in out {
        if q != p { assert Entry(q, less[q]) in rest; }
      }
    }
  }

  /** Where an entry belongs. */
  lemma {:induction false} Place(out: seq<Entry>, e: Entry) returns (i: nat)
    ensures i <= |out| && (forall k :: 0 <= k < i ==> Ahead(out[k], e)) && (i < |out| ==> !Ahead(out[i], e))
  {
    hide Ahead;
    if out == [] || !Ahead(out[0], e) {
      i := 0;
    } else {
      i := Place(out[1..], e);
      assert forall k :: 1 <= k < i + 1 ==> out[k] == out[1..][k - 1];
      i := i + 1;
    }
  }

  /** With two primary hits of different scores next to a kept neighbour, the one that comes
      first in the map decides what the list says of it. */
  lemma OrderShows(req: Request, w: World, primary: map<string, Item>, n: string, s: string) returns (out: seq<Entry>)
    requires Spreads(req, w) && n !in primary && Keeps(req, w, n) && s in primary && w.graph.value.Adjacent(s, n)
    ensures Listing(req, w, primary, out)
    ensures Entry(n, Item(primary[s].score * HOP_SCORE, RelatedLink, "")) in out
    ensures forall e :: e in out && e.path == n ==> e.item.score == primary[s].score * HOP_SCORE
  {
    hide SpreadAll, Graph.Adjacent, InScope, Recent;
    var g := w.graph.value;
    var order := OrderFrom(primary.Keys, s);
    var found := SpreadAll(primary, order, g);
    SpreadMeaning(primary, order, g, n);
    assert FirstSeed(order, g, n) == 0;
    assert Found(req, w, primary, found);
    out := SomeList(Kept(req, w, found));
    hide Ordered, Found;
    assert n in Kept(req, w, found);
  }

  /** The exact condition for the list before the limit not to depend on the order the map is
      gone through in: the primary hits next to each kept neighbour have one score. */
  lemma ListSameIff(req: Request, w: World, primary: map<string, Item>)
    ensures OneScore(req, w, primary) <==>
      forall a, b :: Listing(req, w, primary, a) && Listing(req, w, primary, b) ==> a == b
  {
    hide Graph.Adjacent, Keeps, Ordered, Holds, Kept, Found;
    if OneScore(req, w, primary) {
      forall a, b | Listing(req, w, primary, a) && Listing(req, w, primary, b) ensures a == b {
        var fa :| Found(req, w, primary, fa) && Ordered(a) && Holds(Kept(req, w, fa), a);
        var fb :| Found(req, w, primary, fb) && Ordered(b) && Holds(Kept(req, w, fb), b);
        OneScoreSame(req, w, primary, fa, fb);
        assert a[..0] == b[..0];
        OrderUnique(Kept(req, w, fa), a, b, 0);
      }
    } else {
      var n, s, t :| n !in primary && Keeps(req, w, n) && NextTo(w, primary, s, n) && NextTo(w, primary, t, n)
        && primary[s].score != primary[t].score;
      var a := OrderShows(req, w, primary, n, s);
      var b := OrderShows(req, w, primary, n, t);
      assert primary[s].score * HOP_SCORE != primary[t].score * HOP_SCORE;
      assert a != b;
    }
  }

  // ---- The list up to the limit ----

  /** What a run returns. */
  function CutOf(req: Request, whole: seq<Entry>): seq<Entry> {
    if 0 < req.limit < |whole| then whole[..req.limit] else whole
  }

  /** A kept neighbour of primary hits with different scores: its score depends on the map. */
  ghost predicate Wavers(req: Request, w: World, primary: map<string, Item>, n: string) {
    && Spreads(req, w) && n !in primary && Keeps(req, w, n)
    && exists s, t :: NextTo(w, primary, s, n) && NextTo(w, primary, t, n) && primary[s].score != primary[t].score
  }

  /** A neighbour as the primary hit `s` scores it. */
  function Related(primary: map<string, Item>, s: string, n: string): Entry
    requires s in primary
  {
    Entry(n, Item(primary[s].score * HOP_SCORE, RelatedLink, ""))
  }

  ghost predicate Scored(w: World, primary: map<string, Item>, e: Entry) {
    exists s :: NextTo(w, primary, s, e.path) && e == Related(primary, s, e.path)
  }

  /** An entry every run has. */
  ghost predicate Settled(req: Request, w: World, primary: map<string, Item>, e: Entry) {
    && Keeps(req, w, e.path)
    && if e.path in primary then e.item == primary[e.path]
       else Spreads(req, w) && !Wavers(req, w, primary, e.path) && Scored(w, primary, e)
  }

  ghost predicate SettledList(req: Request, w: World, primary: map<string, Item>, u: seq<Entry>) {
    Ordered(u) && forall e :: e in u <==> Settled(req, w, primary, e)
  }

  /** What one run keeps: the settled entries, and each wavering note as one of its primary
      hits scores it. */
  lemma KeptParts(req: Request, w: World, primary: map<string, Item>, found: map<string, Item>, e: Entry)
    requires Found(req, w, primary, found)
    ensures Settled(req, w, primary, e) ==> e.path in Kept(req, w, found) && Kept(req, w, found)[e.path] == e.item
    ensures e.path in Kept(req, w, found) && Kept(req, w, found)[e.path] == e.item ==>
      Settled(req, w, primary, e) || (Wavers(req, w, primary, e.path) && Scored(w, primary, e))
  {
    hide SpreadAll, Graph.Adjacent, InScope, Recent, Wavers;
    var n := e.path;
    if Spreads(req, w) {
      var g := w.graph.value;
      var o :| OrderOf(primary.Keys, o) && found == SpreadAll(primary, o, g);
      SpreadMeaning(primary, o, g, n);
      var i := FirstSeed(o, g, n);
      if i < |o| && n !in primary {
        assert o[i] in o && NextTo(w, primary, o[i], n);
        if Settled(req, w, primary, e) { NotWavering(req, w, primary, e, o[i]); }
      }
      if n !in primary && Settled(req, w, primary, e) {
        var s :| NextTo(w, primary, s, n) && e == Related(primary, s, n);
        assert s in o;
      }
    }
  }

  lemma NotWavering(req: Request, w: World, primary: map<string, Item>, e: Entry, s: string)
    requires Settled(req, w, primary, e) && e.path !in primary && NextTo(w, primary, s, e.path)
    ensures e == Related(primary, s, e.path)
  {
    hide Graph.Adjacent, Keeps;
  }

  /** What every list holds: the settled entries, and wavering ones as scored by some hit. */
  lemma ListParts(req: Request, w: World, primary: map<string, Item>, u: seq<Entry>, a: seq<Entry>)
    requires Listing(req, w, primary, a) && SettledList(req, w, primary, u)
    ensures Ordered(a) && (forall e :: e in u ==> e in a)
    ensures forall e :: e in a && e !in u ==> Wavers(req, w, primary, e.path) && Scored(w, primary, e)
  {
    hide Found, Settled, Wavers, Scored, Kept, Ordered;
    var found :| Found(req, w, primary, found) && Ordered(a) && Holds(Kept(req, w, found), a);
    forall e | e in u ensures e in a {
      KeptParts(req, w, primary, found, e);
      assert Entry(e.path, e.item) in a;
    }
    forall e | e in a && e !in u ensures Wavers(req, w, primary, e.path) && Scored(w, primary, e) {
      KeptParts(req, w, primary, found, e);
    }
  }

  /** There is a list of all settled entries. */
  lemma SomeSettled(req: Request, w: World, primary: map<string, Item>) returns (u: seq<Entry>)
    ensures SettledList(req, w, primary, u)
  {
    hide Settled, Wavers, Scored, Spread, SpreadAll, OrderOf, Kept, Ordered;
    var order := SomeOrder(primary.Keys);
    OrderCovers(primary.Keys, order);
    var found := if Spreads(req, w) then SpreadAll(primary, order, w.graph.value) else primary;
    assert Found(req, w, primary, found);
    var kept := Kept(req, w, found);
    var settled := map p | p in kept && Settled(req, w, primary, Entry(p, kept[p])) :: kept[p];
    u := SomeList(settled);
    hide Found;
    forall e ensures e in u <==> Settled(req, w, primary, e) {
      KeptParts(req, w, primary, found, e);
      if Settled(req, w, primary, e) {
        assert e == Entry(e.path, settled[e.path]);
      }
    }
  }

  lemma OrderCovers(keys: set<string>, order: seq<string>)
    requires OrderOf(keys, order)
    ensures forall s :: s in order ==> s in keys
  {}

  /** As long as a list shows settled entries only, it shows the first of them, in order. */
  lemma {:induction false} SettledFirst(a: seq<Entry>, u: seq<Entry>, k: nat)
    requires Ordered(a) && Ordered(u) && (forall e :: e in u ==> e in a)
    requires k <= |a| && forall i :: 0 <= i < k ==> a[i] in u
    ensures k <= |u| && a[..k] == u[..k]
    decreases k
  {
    hide Ahead;
    if k > 0 {
      SettledFirst(a, u, k - 1);
      var x := a[k - 1];
      var j :| 0 <= j < |u| && u[j] == x;
      if j < k - 1 {
        assert a[j] == a[..k - 1][j] == u[..k - 1][j] == x;
        AheadOne(x, x, x);
      }
      Swapped(a, u, k - 1, j);
      assert a[..k] == a[..k - 1] + [x] && u[..k] == u[..k - 1] + [u[k - 1]];
    }
  }

  /** The next entry of one list is not further down in the other. */
  lemma Swapped(a: seq<Entry>, u: seq<Entry>, k: nat, j: nat)
    requires Ordered(a) && Ordered(u) && (forall e :: e in u ==> e in a)
    requires k < |a| && k <= j < |u| && u[j] == a[k] && a[..k] == u[..k]
    ensures a[k] == u[k]
  {
    hide Ahead;
    var m := StandsAt(a, u, k);
    if j > k && m > k { AheadOne(a[k], u[k], a[k]); }
  }

  lemma StandsAt(a: seq<Entry>, u: seq<Entry>, k: nat) returns (m: nat)
    requires Ordered(u) && (forall e :: e in u ==> e in a)
    requires k <= |a| && k < |u| && a[..k] == u[..k]
    ensures k <= m < |a| && a[m] == u[k]
  {
    hide Ahead;
    assert u[k] in u;
    m :| 0 <= m < |a| && a[m] == u[k];
    if m < k {
      assert u[m] == u[..k][m] == a[..k][m] == u[k];
      AheadOne(u[k], u[k], u[k]);
    }
  }

  /** If everything else ranks behind the settled entry at the limit, the list starts with the
      settled ones up to there. */
  lemma {:induction false} SettledShown(a: seq<Entry>, u: seq<Entry>, limit: nat, k: nat)
    requires Ordered(a) && Ordered(u) && (forall e :: e in u ==> e in a) && 0 < limit <= |u| && k <= limit
    requires forall e :: e in a && e !in u ==> Ahead(u[limit - 1], e)
    ensures k <= |a| && a[..k] == u[..k]
    decreases k
  {
    hide Ahead;
    if k > 0 {
      SettledShown(a, u, limit, k - 1);
      var m := StandsAt(a, u, k - 1);
      var x, y := a[k - 1], u[k - 1];
      assert m == k - 1 || Ahead(x, y);
      if x in u {
        var j :| 0 <= j < |u| && u[j] == x;
        if j < k - 1 {
          assert a[j] == a[..k - 1][j] == u[..k - 1][j] == x;
          AheadOne(x, x, x);
        }
        Swapped(a, u, k - 1, j);
      } else {
        BehindAll(u, limit, k - 1, x, y);
      }
      assert a[..k] == a[..k - 1] + [x] && u[..k] == u[..k - 1] + [y];
    }
  }

  lemma BehindAll(u: seq<Entry>, limit: nat, k: nat, x: Entry, y: Entry)
    requires Ordered(u) && k < limit <= |u| && u[k] == y && Ahead(u[limit - 1], x)
    ensures !Ahead(x, y)
  {
    hide Ahead;
    AheadOne(y, u[limit - 1], x);
    AheadOne(x, y, x);
  }

  /** Within the limit there are settled entries only, whatever the map's order: as many as
      the limit allows rank ahead of everything a wavering note can score. */
  ghost predicate LimitSettles(req: Request, w: World, primary: map<string, Item>, u: seq<Entry>) {
    && 0 < req.limit <= |u|
    && forall n, s :: Wavers(req, w, primary, n) && NextTo(w, primary, s, n) ==>
      Ahead(u[req.limit - 1], Related(primary, s, n))
  }

  lemma LimitSettled(req: Request, w: World, primary: map<string, Item>, u: seq<Entry>, a: seq<Entry>)
    requires SettledList(req, w, primary, u) && LimitSettles(req, w, primary, u) && Listing(req, w, primary, a)
    ensures CutOf(req, a) == u[..req.limit]
  {
    hide Wavers, Settled, Listing, Related, Ahead, Graph.Adjacent;
    ListParts(req, w, primary, u, a);
    forall e | e in a && e !in u ensures Ahead(u[req.limit - 1], e) {
      var s :| NextTo(w, primary, s, e.path) && e == Related(primary, s, e.path);
    }
    SettledShown(a, u, req.limit, req.limit);
  }

  /** Otherwise some list shows a wavering note within the limit. */
  lemma WaverShown(req: Request, w: World, primary: map<string, Item>, u: seq<Entry>, n: string, s: string)
      returns (a: seq<Entry>, e: Entry)
    requires SettledList(req, w, primary, u) && Wavers(req, w, primary, n) && NextTo(w, primary, s, n)
    requires 0 < req.limit <= |u| ==> !Ahead(u[req.limit - 1], Related(primary, s, n))
    ensures Listing(req, w, primary, a) && e in CutOf(req, a) && Wavers(req, w, primary, e.path)
    ensures Scored(w, primary, e)
  {
    hide Graph.Adjacent, Keeps, Ahead, Listing, Settled, Scored;
    a := OrderShows(req, w, primary, n, s);
    hide Wavers, OrderOf;
    ListParts(req, w, primary, u, a);
    var r := Related(primary, s, n);
    assert Scored(w, primary, r) by { ScoredBy(w, primary, s, n); }
    assert r !in u by { WaverUnsettled(req, w, primary, r); }
    if !(0 < req.limit < |a|) {
      e := r;
    } else {
      var i := Unsettled(a, u, req.limit, r);
      e := a[i];
      assert a[..req.limit][i] == e;
    }
  }

  lemma Unsettled(a: seq<Entry>, u: seq<Entry>, limit: nat, r: Entry) returns (i: nat)
    requires Ordered(a) && Ordered(u) && (forall e :: e in u ==> e in a) && 0 < limit < |a|
    requires r in a && r !in u && (limit <= |u| ==> !Ahead(u[limit - 1], r))
    ensures i < limit && a[i] !in u
  {
    hide Ahead;
    i :| 0 <= i < |a| && a[i] == r;
    if i >= limit {
      assert Ahead(a[limit - 1], r);
      if forall k :: 0 <= k < limit ==> a[k] in u { SettledLast(a, u, limit); }
      i :| 0 <= i < limit && a[i] !in u;
    }
  }

  lemma SettledLast(a: seq<Entry>, u: seq<Entry>, k: nat)
    requires Ordered(a) && Ordered(u) && (forall e :: e in u ==> e in a)
    requires 0 < k <= |a| && forall i :: 0 <= i < k ==> a[i] in u
    ensures k <= |u| && a[k - 1] == u[k - 1]
  {
    hide Ordered;
    SettledFirst(a, u, k);
    assert a[..k][k - 1] == u[..k][k - 1];
  }

  lemma ScoredBy(w: World, primary: map<string, Item>, s: string, n: string)
    requires NextTo(w, primary, s, n)
    ensures Scored(w, primary, Related(primary, s, n))
  {
    hide Graph.Adjacent;
    assert Related(primary, s, n).path == n;
  }

  lemma WaverUnsettled(req: Request, w: World, primary: map<string, Item>, e: Entry)
    requires Wavers(req, w, primary, e.path)
    ensures !Settled(req, w, primary, e)
  {
    hide Scored, NextTo, Keeps;
  }

  /** And then another list does not show it with that score. */
  lemma WaverMoves(req: Request, w: World, primary: map<string, Item>, e: Entry) returns (b: seq<Entry>)
    requires Wavers(req, w, primary, e.path) && Scored(w, primary, e)
    ensures Listing(req, w, primary, b) && e !in b
  {
    hide Graph.Adjacent, Keeps, Listing;
    var n := e.path;
    var s :| NextTo(w, primary, s, n) && e == Related(primary, s, n);
    var x, y :| NextTo(w, primary, x, n) && NextTo(w, primary, y, n) && primary[x].score != primary[y].score;
    var t := if primary[x].score != primary[s].score then x else y;
    b := OrderShows(req, w, primary, n, t);
    assert primary[t].score * HOP_SCORE != primary[s].score * HOP_SCORE;
  }

  /** The exact condition for the list returned, cut at the limit, not to depend on the order
      the map is gone through in: no kept note wavers, or all of them rank behind the settled
      entry at the limit, whichever hit scores them. */
  lemma CutSameIff(req: Request, w: World, primary: map<string, Item>, u: seq<Entry>)
    requires SettledList(req, w, primary, u)
    ensures (OneScore(req, w, primary) || LimitSettles(req, w, primary, u)) <==>
      forall a, b :: Listing(req, w, primary, a) && Listing(req, w, primary, b) ==> CutOf(req, a) == CutOf(req, b)
  {
    hide Listing, SettledList, Wavers, Related, Ahead, NextTo, CutOf, Keeps;
    if OneScore(req, w, primary) {
      ListSameIff(req, w, primary);
    } else if LimitSettles(req, w, primary, u) {
      forall a, b | Listing(req, w, primary, a) && Listing(req, w, primary, b) ensures CutOf(req, a) == CutOf(req, b) {
        LimitSettled(req, w, primary, u, a);
        LimitSettled(req, w, primary, u, b);
      }
    } else {
      var n, s := Unsettling(req, w, primary, u);
      var a, e := WaverShown(req, w, primary, u, n, s);
      var b := WaverMoves(req, w, primary, e);
      CutShows(req, b, e);
      assert CutOf(req, a) != CutOf(req, b);
    }
  }

  lemma CutShows(req: Request, b: seq<Entry>, e: Entry)
    ensures e in CutOf(req, b) ==> e in b
  {}

  /** A wavering note that can come within the limit. */
  lemma Unsettling(req: Request, w: World, primary: map<string, Item>, u: seq<Entry>) returns (n: string, s: string)
    requires !OneScore(req, w, primary) && !LimitSettles(req, w, primary, u)
    ensures Wavers(req, w, primary, n) && NextTo(w, primary, s, n)
    ensures 0 < req.limit <= |u| ==> !Ahead(u[req.limit - 1], Related(primary, s, n))
  {
    hide Graph.Adjacent, Keeps, Ahead, Related;
    if 0 < req.limit <= |u| {
      n, s :| Wavers(req, w, primary, n) && NextTo(w, primary, s, n)
        && !Ahead(u[req.limit - 1], Related(primary, s, n));
    } else {
      var t;
      n, s, t :| n !in primary && Keeps(req, w, n) && NextTo(w, primary, s, n) && NextTo(w, primary, t, n)
        && primary[s].score != primary[t].score;
    }
  }

  // ---- Two search hits and a note between them ----

  const FIRST: string := "First.md"
  const SECOND: string := "Second.md"
  const BETWEEN: string := "Between.md"

  /** Two search hits, both linking to one more note. */
  const LINKED_HITS: World := World(
    None, Some([Hit(FIRST, "x"), Hit(SECOND, "x")]), false,
    Some(Graph(map[FIRST := [BETWEEN], SECOND := [BETWEEN]], map[])), true, map[])

  const LINKED_QUERY: Request := Request("x", [], "", [], None, 0, true)

  /** Depending on the map, the linked note scores 0.28 of the first or of the second hit. */
  lemma ListVaries(primary: map<string, Item>) returns (a: seq<Entry>, b: seq<Entry>)
    requires Primary(LINKED_QUERY, LINKED_HITS, primary)
    ensures a != b && Listing(LINKED_QUERY, LINKED_HITS, primary, a) && Listing(LINKED_QUERY, LINKED_HITS, primary, b)
  {
    var hits := [Hit(FIRST, "x"), Hit(SECOND, "x")];
    assert Trim("x") == "x";
    assert HitsOf(LINKED_QUERY, LINKED_HITS) == hits;
    RankOfTwo(hits);
    assert FIRST in primary && SECOND in primary && BETWEEN !in primary;
    assert primary[FIRST].score != primary[SECOND].score;
    var g := LINKED_HITS.graph.value;
    assert g.Adjacent(FIRST, BETWEEN) && g.Adjacent(SECOND, BETWEEN);
    assert BETWEEN[0] != "Archive/"[0];
    assert Keeps(LINKED_QUERY, LINKED_HITS, BETWEEN);
    hide Primary, Listing, Graph.Adjacent, Keeps;
    a := OrderShows(LINKED_QUERY, LINKED_HITS, primary, BETWEEN, FIRST);
    b := OrderShows(LINKED_QUERY, LINKED_HITS, primary, BETWEEN, SECOND);
  }

  lemma RankOfTwo(hits: seq<Hit>)
    requires |hits| == 2 && hits[0].path == FIRST && hits[1].path == SECOND
    ensures FirstHit(hits, FIRST) == 0 && FirstHit(hits, SECOND) == 1 && FirstHit(hits, BETWEEN) == 2
    ensures RankScore(0) == 0.6 && RankScore(1) == 0.3
  {
    assert FIRST[0] != SECOND[0] && FIRST[0] != BETWEEN[0] && SECOND[0] != BETWEEN[0];
  }
}
