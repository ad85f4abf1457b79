/** Reading cron expressions: ParseCron and its helpers in internal/scheduler/cron.go. */
module CronParse {
  import opened Text
  import opened Calendar
  import opened Cron

  // ---- Pieces of text ----

  /** `strings.Fields`. */
  function Words(s: string): (r: seq<string>)
    ensures forall w :: w in r ==> w != ""
  {
    if s == "" then []
    else if IsSpace(s[0]) then Words(s[1..])
    else
      var n := WordLen(s);
      [s[..n]] + Words(s[n..])
  }

  function WordLen(s: string): (n: nat)
    ensures n <= |s| && (s != "" && !IsSpace(s[0]) ==> n > 0)
  {
    if s == "" || IsSpace(s[0]) then 0 else 1 + WordLen(s[1..])
  }

  /** `strings.Split(s, ",")`. */
  function Parts(s: string): (r: seq<string>)
    ensures r != []
  {
    var i := IndexOf(s, ',');
    if i == |s| then [s] else [s[..i]] + Parts(s[i + 1..])
  }

  /** The parts with commas between them are the text, and no part holds a comma. */
  lemma {:induction false} PartsMean(s: string)
    ensures JoinBy(Parts(s), ',') == s && forall p :: p in Parts(s) ==> ',' !in p
    decreases |s|
  {
    var i := IndexOf(s, ',');
    if i < |s| {
      PartsMean(s[i + 1..]);
      assert Parts(s)[1..] == Parts(s[i + 1..]);
      assert s == s[..i] + "," + s[i + 1..];
    } else {
      assert s[..i] == s;
    }
  }

  /** There is only one such way to part a text. */
  lemma {:induction false} PartsOnce(parts: seq<string>)
    requires parts != [] && forall p :: p in parts ==> ',' !in p
    ensures Parts(JoinBy(parts, ',')) == parts
  {
    var s := JoinBy(parts, ',');
    assert ',' !in parts[0];
    if |parts| == 1 {
      IndexOfUnique(s, ',', |s|) by { assert s[..|s|] == s; }
    } else {
      PartsOnce(parts[1..]);
      var rest := JoinBy(parts[1..], ',');
      assert s[..|parts[0]|] == parts[0] && s[|parts[0]|] == ',' && s[|parts[0]| + 1..] == rest;
      IndexOfUnique(s, ',', |parts[0]|);
    }
  }

  predicate IsWord(s: string) { s != "" && forall c :: c in s ==> !IsSpace(c) }

  /** A blank, then every word with a blank after it. */
  function Spaced(first: string, words: seq<string>, gaps: seq<string>): string
    requires |gaps| == |words|
    decreases |words|
  {
    if words == [] then first else first + words[0] + Spaced(gaps[0], words[1..], gaps[1..])
  }

  /** Gaps are white space, and only the last may be empty. */
  predicate Gaps(first: string, gaps: seq<string>) {
    AllSpace(first) && (forall g :: g in gaps ==> AllSpace(g)) && forall k :: 0 <= k < |gaps| - 1 ==> gaps[k] != ""
  }

  /** The words with white space between and around them are the text; no word holds any,
      and two words always have some between them. */
  lemma {:induction false} WordsMean(s: string) returns (first: string, gaps: seq<string>)
    ensures |gaps| == |Words(s)| && Spaced(first, Words(s), gaps) == s && Gaps(first, gaps)
    ensures forall w :: w in Words(s) ==> IsWord(w)
    ensures s != "" && IsSpace(s[0]) ==> first != ""
    decreases |s|
  {
    if s == "" {
      first, gaps := "", [];
    } else if IsSpace(s[0]) {
      var rest;
      rest, gaps := WordsMean(s[1..]);
      first := [s[0]] + rest;
      SpacedMore(s[0], rest, Words(s), gaps);
      assert s == [s[0]] + s[1..];
      hide Words, Spaced;
    } else {
      var n := WordLen(s);
      WordEnds(s);
      var gap, rest := WordsMean(s[n..]);
      first, gaps := "", [gap] + rest;
      SpacedCons(s[..n], gap, Words(s[n..]), rest);
      assert Words(s) == [s[..n]] + Words(s[n..]);
      assert s[..n] + s[n..] == s;
      assert rest != [] ==> s[n..] != "";
      hide Words, Spaced, WordLen, IsSpace;
      GapsCons(gap, rest);
    }
  }

  lemma GapsCons(gap: string, rest: seq<string>)
    requires Gaps(gap, rest) && (rest != [] ==> gap != "")
    ensures Gaps("", [gap] + rest)
  {
    hide AllSpace;
    assert AllSpace("") by { NoSpaceNeeded(); }
    var gaps := [gap] + rest;
    forall k | 0 <= k < |gaps| - 1 ensures gaps[k] != "" {
      if k > 0 { assert gaps[k] == rest[k - 1]; }
    }
  }

  lemma NoSpaceNeeded()
    ensures AllSpace("")
  {}

  lemma SpacedCons(word: string, gap: string, words: seq<string>, gaps: seq<string>)
    requires |gaps| == |words|
    ensures Spaced("", [word] + words, [gap] + gaps) == word + Spaced(gap, words, gaps)
  {
    assert ([word] + words)[1..] == words && ([gap] + gaps)[1..] == gaps;
    assert "" + word + Spaced(gap, words, gaps) == word + Spaced(gap, words, gaps);
  }

  lemma SpacedMore(c: char, first: string, words: seq<string>, gaps: seq<string>)
    requires |gaps| == |words|
    ensures Spaced([c] + first, words, gaps) == [c] + Spaced(first, words, gaps)
  {
    if words != [] {
      var more := Spaced(gaps[0], words[1..], gaps[1..]);
      assert [c] + first + words[0] + more == [c] + (first + words[0] + more);
    }
  }

  /** A word ends at the first white space. */
  lemma {:induction false} WordEnds(s: string)
    ensures var n := WordLen(s); (forall c :: c in s[..n] ==> !IsSpace(c)) && (n < |s| ==> IsSpace(s[n]))
  {
    if s != "" && !IsSpace(s[0]) {
      WordEnds(s[1..]);
      var n := WordLen(s[1..]);
      assert s[..n + 1] == [s[0]] + s[1..][..n];
    }
  }

  // ---- Numbers ----

  const MAX_INT: int := 0x7FFF_FFFF_FFFF_FFFF

  predicate OnlyDigits(s: string) { forall i :: 0 <= i < |s| ==> '0' <= s[i] <= '9' }

  /** `strconv.Atoi`. */
  function Atoi(s: string): Option<int> {
    var signed := s != "" && (s[0] == '-' || s[0] == '+');
    var digits := if signed then s[1..] else s;
    if digits == "" || !OnlyDigits(digits) then None
    else
      var n := if s[0] == '-' then -NumberOf(digits) else NumberOf(digits);
      if -MAX_INT - 1 <= n <= MAX_INT then Some(n) else None
  }

  /** Numbers written in decimal are read back, with their sign. */
  lemma AtoiDecimal(n: nat)
    requires n <= MAX_INT
    ensures Atoi(Decimal(n)) == Some(n) && Atoi("+" + Decimal(n)) == Some(n)
    ensures Atoi("-" + Decimal(n)) == Some(-(n as int))
  {
    NumberOfDecimal(n);
    DecimalDigits(n);
    assert ("+" + Decimal(n))[1..] == Decimal(n) && ("-" + Decimal(n))[1..] == Decimal(n);
  }

  lemma {:induction false} DecimalDigits(n: nat)
    ensures Decimal(n) != "" && OnlyDigits(Decimal(n))
  {
    if n >= 10 { DecimalDigits(n / 10); }
  }

  /** Decimal digits, with or without a sign. */
  ghost predicate Numeral(t: string, n: int) {
    exists d :: d != "" && OnlyDigits(d)
      && ((t == d && n == NumberOf(d)) || (t == "+" + d && n == NumberOf(d)) || (t == "-" + d && n == -NumberOf(d)))
  }

  predicate Fits(n: int) { -MAX_INT - 1 <= n <= MAX_INT }

  /** What is read as a number are the numerals that fit a machine integer. */
  lemma AtoiMeans(t: string, n: int)
    ensures Atoi(t) == Some(n) <==> Numeral(t, n) && Fits(n)
  {
    var signed := t != "" && (t[0] == '-' || t[0] == '+');
    var digits := if signed then t[1..] else t;
    if signed { assert t == [t[0]] + digits; }
    hide NumberOf;
    if Numeral(t, n) {
      var d :| d != "" && OnlyDigits(d)
        && ((t == d && n == NumberOf(d)) || (t == "+" + d && n == NumberOf(d)) || (t == "-" + d && n == -NumberOf(d)));
      assert '0' <= d[0] <= '9';
      hide OnlyDigits;
      assert signed <==> t != d;
      assert d == digits;
    }
    if Atoi(t).Some? {
      assert digits != "" && OnlyDigits(digits);
      assert Numeral(t, Atoi(t).value);
    }
  }

  function ParseInt(value: string, lo: int, hi: int): (r: Option<int>)
    ensures r.Some? ==> lo <= r.value <= hi
  {
    var n := Atoi(Trim(value));
    if n.Some? && lo <= n.value <= hi then n else None
  }

  // ---- Fields ----

  /** The values `first`, `first + step`, … up to `last`. */
  datatype Piece = Piece(first: int, last: int, step: int) {
    ghost predicate Has(v: int) {
      first <= v <= last && exists k: nat :: v == first + k * step
    }
  }

  function ParseRange(part: string, lo: int, hi: int): (r: Option<Piece>)
    requires lo <= hi
    ensures r.Some? ==> lo <= r.value.first <= r.value.last <= hi && r.value.step == 1
  {
    if part == "*" then Some(Piece(lo, hi, 1))
    else
      var i := IndexOf(part, '-');
      if i < |part| then
        var a, b := ParseInt(part[..i], lo, hi), ParseInt(part[i + 1..], lo, hi);
        if a.Some? && b.Some? && a.value <= b.value then Some(Piece(a.value, b.value, 1)) else None
      else
        var a := ParseInt(part, lo, hi);
        if a.Some? then Some(Piece(a.value, a.value, 1)) else None
  }

  /** The two parts of a text before and behind the first such character. */
  predicate CutBy(t: string, c: char, a: string, b: string) { t == a + [c] + b && c !in a }

  ghost predicate DashText(t: string, first: int, last: int) {
    exists a, b :: CutBy(t, '-', a, b) && Numeral(Trim(a), first) && Numeral(Trim(b), last)
  }

  /** How a range is written: a star, two numbers with a dash between, or one number. */
  ghost predicate RangeText(t: string, lo: int, hi: int, first: int, last: int) {
    && lo <= first <= last <= hi
    && if t == "*" then first == lo && last == hi
       else if '-' in t then DashText(t, first, last)
       else Numeral(Trim(t), first) && last == first
  }

  ghost predicate StepText(t: string, lo: int, hi: int, p: Piece) {
    exists a, b :: CutBy(t, '/', a, b) && RangeText(Trim(a), lo, hi, p.first, p.last) && Numeral(Trim(b), p.step)
  }

  /** And with a step: the range, a slash and a positive number. */
  ghost predicate PieceText(text: string, lo: int, hi: int, p: Piece) {
    var t := Trim(text);
    if '/' in t then
      0 < p.step <= MAX_INT && StepText(t, lo, hi, p)
    else t != "" && RangeText(t, lo, hi, p.first, p.last) && p.step == 1
  }

  lemma ParseIntMeans(t: string, lo: int, hi: int, n: int)
    requires Fits(lo) && Fits(hi)
    ensures ParseInt(t, lo, hi) == Some(n) <==> lo <= n <= hi && Numeral(Trim(t), n)
  {
    AtoiMeans(Trim(t), n);
    if Atoi(Trim(t)).Some? { AtoiMeans(Trim(t), Atoi(Trim(t)).value); }
    hide Atoi, Numeral, Trim;
  }

  lemma CutThere(t: string, c: char) returns (i: nat)
    requires c in t
    ensures i == IndexOf(t, c) && i < |t| && CutBy(t, c, t[..i], t[i + 1..])
  {
    i := IndexOf(t, c);
    assert c in t[..i] + t[i..] by { assert t == t[..i] + t[i..]; }
    assert i < |t| && t == t[..i] + [c] + t[i + 1..];
  }

  lemma CutOnce(t: string, c: char, a: string, b: string)
    requires CutBy(t, c, a, b)
    ensures var i := IndexOf(t, c); i < |t| && a == t[..i] && b == t[i + 1..]
  {
    assert t[|a|] == c && t[..|a|] == a;
    IndexOfUnique(t, c, |a|);
  }

  lemma DashFrom(t: string, a: string, b: string, first: int, last: int)
    requires CutBy(t, '-', a, b) && Numeral(Trim(a), first) && Numeral(Trim(b), last)
    ensures DashText(t, first, last)
  {
    hide Numeral, Trim, CutBy;
  }

  lemma DashTo(t: string, first: int, last: int)
    requires DashText(t, first, last)
    ensures var i := IndexOf(t, '-'); i < |t| && Numeral(Trim(t[..i]), first) && Numeral(Trim(t[i + 1..]), last)
  {
    var a, b :| CutBy(t, '-', a, b) && Numeral(Trim(a), first) && Numeral(Trim(b), last);
    hide *;
    CutOnce(t, '-', a, b);
  }

  lemma DashCut(t: string, first: int, last: int) returns (i: nat)
    requires '-' in t
    ensures i == IndexOf(t, '-') && i < |t|
    ensures DashText(t, first, last) <==> Numeral(Trim(t[..i]), first) && Numeral(Trim(t[i + 1..]), last)
  {
    hide *;
    i := CutThere(t, '-');
    if DashText(t, first, last) { DashTo(t, first, last); }
    if Numeral(Trim(t[..i]), first) && Numeral(Trim(t[i + 1..]), last) {
      DashFrom(t, t[..i], t[i + 1..], first, last);
    }
  }

  lemma ParseRangeMeans(t: string, lo: int, hi: int, p: Piece)
    requires lo <= hi && Fits(lo) && Fits(hi)
    ensures ParseRange(t, lo, hi) == Some(p) <==> RangeText(t, lo, hi, p.first, p.last) && p.step == 1
  {
    if '-' in t && t != "*" {
      var i := DashCut(t, p.first, p.last);
      ParseIntMeans(t[..i], lo, hi, p.first);
      ParseIntMeans(t[i + 1..], lo, hi, p.last);
      hide ParseInt, Numeral, Trim, DashText;
    } else {
      assert IndexOf(t, '-') == |t| || t == "*";
      ParseIntMeans(t, lo, hi, p.first);
      hide ParseInt, Numeral, Trim;
    }
  }

  function ParsePiece(text: string, lo: int, hi: int): (r: Option<Piece>)
    requires lo <= hi
    ensures r.Some? ==> lo <= r.value.first <= r.value.last <= hi && r.value.step > 0
  {
    var part := Trim(text);
    if part == "" then None
    else
      var i := IndexOf(part, '/');
      if i == |part| then ParseRange(part, lo, hi)
      else
        var step := Atoi(Trim(part[i + 1..]));
        var range := ParseRange(Trim(part[..i]), lo, hi);
        if step.Some? && step.value > 0 && range.Some? then Some(range.value.(step := step.value)) else None
  }

  lemma StepFrom(t: string, a: string, b: string, lo: int, hi: int, p: Piece)
    requires CutBy(t, '/', a, b) && RangeText(Trim(a), lo, hi, p.first, p.last) && Numeral(Trim(b), p.step)
    ensures StepText(t, lo, hi, p)
  {
    hide RangeText, Numeral, Trim, CutBy;
  }

  lemma StepTo(t: string, lo: int, hi: int, p: Piece)
    requires StepText(t, lo, hi, p)
    ensures var i := IndexOf(t, '/');
      i < |t| && RangeText(Trim(t[..i]), lo, hi, p.first, p.last) && Numeral(Trim(t[i + 1..]), p.step)
  {
    var a, b :| CutBy(t, '/', a, b) && RangeText(Trim(a), lo, hi, p.first, p.last) && Numeral(Trim(b), p.step);
    hide *;
    CutOnce(t, '/', a, b);
  }

  lemma StepCut(t: string, lo: int, hi: int, p: Piece) returns (i: nat)
    requires '/' in t
    ensures i == IndexOf(t, '/') && i < |t|
    ensures StepText(t, lo, hi, p) <==>
      RangeText(Trim(t[..i]), lo, hi, p.first, p.last) && Numeral(Trim(t[i + 1..]), p.step)
  {
    hide *;
    i := CutThere(t, '/');
    if StepText(t, lo, hi, p) { StepTo(t, lo, hi, p); }
    if RangeText(Trim(t[..i]), lo, hi, p.first, p.last) && Numeral(Trim(t[i + 1..]), p.step) {
      StepFrom(t, t[..i], t[i + 1..], lo, hi, p);
    }
  }

  /** A piece is read exactly as it is written. */
  lemma ParsePieceMeans(text: string, lo: int, hi: int, p: Piece)
    requires lo <= hi && Fits(lo) && Fits(hi)
    ensures ParsePiece(text, lo, hi) == Some(p) <==> PieceText(text, lo, hi, p)
  {
    var t := Trim(text);
    if '/' in t {
      hide ParseRange, RangeText, Numeral, Atoi, Trim, StepText, IndexOf;
      var i := StepCut(t, lo, hi, p);
      ParseRangeMeans(Trim(t[..i]), lo, hi, p.(step := 1));
      RangeStep(Trim(t[..i]), lo, hi);
      AtoiMeans(Trim(t[i + 1..]), p.step);
    } else {
      assert IndexOf(t, '/') == |t|;
      ParseRangeMeans(t, lo, hi, p);
      hide ParseRange, RangeText, Numeral, Atoi, Trim;
    }
  }

  lemma RangeStep(t: string, lo: int, hi: int)
    requires lo <= hi
    ensures ParseRange(t, lo, hi).Some? ==> ParseRange(t, lo, hi).value.step == 1
  {}

  /** Sunday may be written 0 or 7. */
  function Normalized(v: int, sunday: bool): int { if sunday && v == 7 then 0 else v }

  /** Every piece of the field is well formed. */
  predicate FieldOk(field: string, lo: int, hi: int)
    requires lo <= hi
  {
    forall p :: p in Parts(field) ==> ParsePiece(p, lo, hi).Some?
  }

  /** A value the field allows. */
  ghost predicate Allows(field: string, lo: int, hi: int, v: int)
    requires lo <= hi
  {
    exists p :: p in Parts(field) && ParsePiece(p, lo, hi).Some? && ParsePiece(p, lo, hi).value.Has(v)
  }

  ghost predicate ReadsValue(field: string, lo: int, hi: int, sunday: bool, w: int)
    requires lo <= hi
  {
    exists v :: lo <= v <= hi && Allows(field, lo, hi, v) && w == Normalized(v, sunday)
  }

  /** What the field reads as. */
  ghost predicate Reads(field: string, lo: int, hi: int, sunday: bool, values: set<int>)
    requires lo <= hi
  {
    FieldOk(field, lo, hi) && forall w :: w in values <==> ReadsValue(field, lo, hi, sunday, w)
  }

  method FillPiece(p: Piece, values: set<int>, sunday: bool) returns (r: set<int>)
    requires p.step > 0
    ensures forall w :: w in r <==> w in values || exists v :: p.Has(v) && w == Normalized(v, sunday)
  {
    r := values;
    var value := p.first;
    ghost var n: nat := 0;
    while value <= p.last
      invariant value == p.first + n * p.step
      invariant n > 0 ==> p.first + (n - 1) * p.step <= p.last
      invariant forall w :: w in r <==> w in values || exists k: nat :: k < n && w == Normalized(Stop(p, k), sunday)
      decreases p.last - value
    {
      var normalized := value;
      if sunday && value == 7 { normalized := 0; }
      r := r + {normalized};
      assert value == Stop(p, n) && normalized == Normalized(value, sunday);
      value := value + p.step;
      n := n + 1;
      assert n * p.step == (n - 1) * p.step + p.step;
    }
    StopsAre(p, n);
  }

  /** The `k`-th value of a piece. */
  function Stop(p: Piece, k: nat): int { p.first + k * p.step }

  lemma StopsAre(p: Piece, n: nat)
    requires p.step > 0 && Stop(p, n) > p.last && (n > 0 ==> Stop(p, n - 1) <= p.last)
    ensures forall k: nat :: k < n ==> p.Has(Stop(p, k))
    ensures forall v :: p.Has(v) ==> exists k: nat :: k < n && v == Stop(p, k)
  {
    forall k: nat | k < n ensures p.Has(Stop(p, k)) {
      Grows(k, n - 1, p.step);
      Grows(0, k, p.step);
    }
    forall v | p.Has(v) ensures exists k: nat :: k < n && v == Stop(p, k) {
      var k: nat :| v == p.first + k * p.step;
      if k >= n { Grows(n, k, p.step); }
      assert v == Stop(p, k);
    }
  }

  lemma Grows(a: int, b: int, n: int)
    requires a <= b && n > 0
    ensures a * n <= b * n
  {}

  method ParseCronField(field: string, lo: int, hi: int, sunday: bool) returns (r: Option<set<int>>)
    requires lo <= hi
    ensures r.Some? <==> FieldOk(field, lo, hi)
    ensures r.Some? ==> Reads(field, lo, hi, sunday, r.value)
  {
    hide ParsePiece, Parts, Piece.Has;
    var parts := Parts(field);
    var values: set<int> := {};
    for i := 0 to |parts|
      invariant forall k :: 0 <= k < i ==> ParsePiece(parts[k], lo, hi).Some?
      invariant forall w :: w in values <==> Listed(parts, i, lo, hi, sunday, w)
    {
      var piece := ParsePiece(parts[i], lo, hi);
      if piece.None? { return None; }
      var before := values;
      values := FillPiece(piece.value, before, sunday);
      forall w { ListedNext(parts, i, lo, hi, sunday, w); }
      hide Listed;
    }
    ListedAll(field, lo, hi, sunday);
    return Some(values);
  }

  /** A value of one of the first `n` pieces. */
  ghost predicate Listed(parts: seq<string>, n: nat, lo: int, hi: int, sunday: bool, w: int)
    requires lo <= hi && n <= |parts|
  {
    exists k, v :: 0 <= k < n && ParsePiece(parts[k], lo, hi).Some? && ParsePiece(parts[k], lo, hi).value.Has(v)
      && w == Normalized(v, sunday)
  }

  lemma ListedNext(parts: seq<string>, i: nat, lo: int, hi: int, sunday: bool, w: int)
    requires lo <= hi && i < |parts| && ParsePiece(parts[i], lo, hi).Some?
    ensures Listed(parts, i + 1, lo, hi, sunday, w) <==>
      (Listed(parts, i, lo, hi, sunday, w)
       || exists v :: ParsePiece(parts[i], lo, hi).value.Has(v) && w == Normalized(v, sunday))
  {
    hide ParsePiece, Piece.Has;
    if Listed(parts, i + 1, lo, hi, sunday, w) {
      var k, v :| 0 <= k < i + 1 && ParsePiece(parts[k], lo, hi).Some? && ParsePiece(parts[k], lo, hi).value.Has(v)
        && w == Normalized(v, sunday);
      assert k == i || Listed(parts, i, lo, hi, sunday, w);
    }
  }

  lemma ListedAll(field: string, lo: int, hi: int, sunday: bool)
    requires lo <= hi
    ensures forall w :: Listed(Parts(field), |Parts(field)|, lo, hi, sunday, w) <==>
                        exists v :: lo <= v <= hi && Allows(field, lo, hi, v) && w == Normalized(v, sunday)
  {
    hide ParsePiece, Parts;
    var parts := Parts(field);
    forall w
      ensures Listed(parts, |parts|, lo, hi, sunday, w)
        <==> exists v :: lo <= v <= hi && Allows(field, lo, hi, v) && w == Normalized(v, sunday)
    {
      if Listed(parts, |parts|, lo, hi, sunday, w) {
        var k, v :| 0 <= k < |parts| && ParsePiece(parts[k], lo, hi).Some? && ParsePiece(parts[k], lo, hi).value.Has(v)
          && w == Normalized(v, sunday);
        assert parts[k] in parts && Allows(field, lo, hi, v);
      }
      if exists v :: lo <= v <= hi && Allows(field, lo, hi, v) && w == Normalized(v, sunday) {
        var v :| lo <= v <= hi && Allows(field, lo, hi, v) && w == Normalized(v, sunday);
        var p :| p in parts && ParsePiece(p, lo, hi).Some? && ParsePiece(p, lo, hi).value.Has(v);
        var k :| 0 <= k < |parts| && parts[k] == p;
      }
    }
  }

  /** A field that reads is never empty, and its values are in range. */
  lemma ReadsSome(field: string, lo: int, hi: int, sunday: bool, values: set<int>)
    requires lo <= hi && Reads(field, lo, hi, sunday, values)
    ensures exists v :: lo <= v <= hi && Normalized(v, sunday) in values
    ensures forall w :: w in values ==> exists v :: lo <= v <= hi && w == Normalized(v, sunday)
  {
    hide ParsePiece, Parts, Normalized;
    var p := Parts(field)[0];
    assert p in Parts(field);
    var v := ParsePiece(p, lo, hi).value.first;
    assert ParsePiece(p, lo, hi).value.Has(v) by { assert v == v + 0 * ParsePiece(p, lo, hi).value.step; }
    assert Allows(field, lo, hi, v);
    assert Normalized(v, sunday) in values;
  }

  lemma ReadsSame(field: string, lo: int, hi: int, sunday: bool, a: set<int>, b: set<int>)
    requires lo <= hi && Reads(field, lo, hi, sunday, a) && Reads(field, lo, hi, sunday, b)
    ensures a == b
  {
    hide FieldOk, Allows, Normalized;
    forall w ensures w in a <==> w in b {}
  }

  // ---- What a field says ----

  ghost predicate WellFormed(t: string, lo: int, hi: int) { exists p :: PieceText(t, lo, hi, p) }

  /** One of the pieces has the value. */
  ghost predicate Says(parts: seq<string>, lo: int, hi: int, v: int) {
    exists t, p :: t in parts && PieceText(t, lo, hi, p) && p.Has(v)
  }

  /** And the value counts; 0 takes the place of a 7 that stands for Sunday. */
  ghost predicate SaysValue(parts: seq<string>, lo: int, hi: int, sunday: bool, w: int) {
    if sunday && w == 7 then false
    else Says(parts, lo, hi, w) || (sunday && w == 0 && Says(parts, lo, hi, 7))
  }

  /** A field is pieces with commas between them, and holds their values. */
  ghost predicate FieldText(field: string, lo: int, hi: int, sunday: bool, values: set<int>) {
    exists parts :: parts != [] && (forall t :: t in parts ==> ',' !in t) && JoinBy(parts, ',') == field
      && PartsText(parts, lo, hi, sunday, values)
  }

  ghost predicate PartsText(parts: seq<string>, lo: int, hi: int, sunday: bool, values: set<int>) {
    && (forall t :: t in parts ==> WellFormed(t, lo, hi))
    && (forall w :: w in values <==> SaysValue(parts, lo, hi, sunday, w))
  }

  lemma SaysMeans(field: string, lo: int, hi: int, v: int)
    requires lo <= hi && Fits(lo) && Fits(hi)
    ensures Allows(field, lo, hi, v) <==> Says(Parts(field), lo, hi, v)
    ensures Allows(field, lo, hi, v) ==> lo <= v <= hi
  {
    hide ParsePiece, PieceText, Parts;
    if Allows(field, lo, hi, v) {
      var t :| t in Parts(field) && ParsePiece(t, lo, hi).Some? && ParsePiece(t, lo, hi).value.Has(v);
      ParsePieceMeans(t, lo, hi, ParsePiece(t, lo, hi).value);
    }
    if Says(Parts(field), lo, hi, v) {
      var t, p :| t in Parts(field) && PieceText(t, lo, hi, p) && p.Has(v);
      ParsePieceMeans(t, lo, hi, p);
    }
  }

  lemma OkMeans(field: string, lo: int, hi: int)
    requires lo <= hi && Fits(lo) && Fits(hi)
    ensures FieldOk(field, lo, hi) <==> forall t :: t in Parts(field) ==> WellFormed(t, lo, hi)
  {
    hide ParsePiece, PieceText, Parts;
    forall t ensures ParsePiece(t, lo, hi).Some? <==> WellFormed(t, lo, hi) {
      if ParsePiece(t, lo, hi).Some? { ParsePieceMeans(t, lo, hi, ParsePiece(t, lo, hi).value); }
      if p :| PieceText(t, lo, hi, p) { ParsePieceMeans(t, lo, hi, p); }
    }
  }

  /** A value that is read, with 7 standing for Sunday. */
  lemma ValueMeans(field: string, lo: int, hi: int, sunday: bool, w: int)
    requires lo <= hi && Fits(lo) && Fits(hi)
    ensures ReadsValue(field, lo, hi, sunday, w) <==> SaysValue(Parts(field), lo, hi, sunday, w)
  {
    SaysMeans(field, lo, hi, w);
    SaysMeans(field, lo, hi, 7);
    hide Allows, Says, Parts;
    if Allows(field, lo, hi, w) && !(sunday && w == 7) { assert w == Normalized(w, sunday); }
    if Allows(field, lo, hi, 7) && sunday && w == 0 { assert w == Normalized(7, sunday); }
  }

  lemma ReadsParts(field: string, lo: int, hi: int, sunday: bool, values: set<int>)
    requires lo <= hi && Fits(lo) && Fits(hi)
    ensures Reads(field, lo, hi, sunday, values) <==> PartsText(Parts(field), lo, hi, sunday, values)
  {
    OkMeans(field, lo, hi);
    forall w ensures ReadsValue(field, lo, hi, sunday, w) <==> SaysValue(Parts(field), lo, hi, sunday, w) {
      ValueMeans(field, lo, hi, sunday, w);
    }
    hide Parts, FieldOk, WellFormed, ReadsValue, SaysValue;
  }

  /** A field reads as exactly what it says. */
  lemma ReadsMeans(field: string, lo: int, hi: int, sunday: bool, values: set<int>)
    requires lo <= hi && Fits(lo) && Fits(hi)
    ensures Reads(field, lo, hi, sunday, values) <==> FieldText(field, lo, hi, sunday, values)
  {
    ReadsParts(field, lo, hi, sunday, values);
    PartsMean(field);
    hide Reads, PartsText, Parts;
    if FieldText(field, lo, hi, sunday, values) {
      var parts :| parts != [] && (forall t :: t in parts ==> ',' !in t) && JoinBy(parts, ',') == field
        && PartsText(parts, lo, hi, sunday, values);
      PartsOnce(parts);
    }
  }

  // ---- Expressions ----

  predicate Satisfiable(c: Schedule) {
    exists mo, d :: mo in c.month && d in c.dom && 1 <= mo <= 12 && 1 <= d <= DaysInMonth(4, mo)
  }

  /** Some date there is has an allowed month and an allowed day. */
  ghost predicate HasDate(c: Schedule) {
    exists date :: ValidDate(date) && date.month in c.month && date.day in c.dom
  }

  lemma SatisfiableMeans(c: Schedule)
    ensures Satisfiable(c) <==> HasDate(c)
  {
    if Satisfiable(c) {
      var mo, d :| mo in c.month && d in c.dom && 1 <= mo <= 12 && 1 <= d <= DaysInMonth(4, mo);
      assert ValidDate(Date(4, mo, d)) && Date(4, mo, d).month in c.month;
    }
    if date :| ValidDate(date) && date.month in c.month && date.day in c.dom {
      assert date.day <= DaysInMonth(4, date.month);
    }
  }

  /** An expression of five fields says the schedule. */
  ghost predicate SaysAs(f: seq<string>, c: Schedule) {
    && |f| == 5
    && FieldText(f[0], 0, 59, false, c.minute) && FieldText(f[1], 0, 23, false, c.hour)
    && FieldText(f[2], 1, 31, false, c.dom) && FieldText(f[3], 1, 12, false, c.month)
    && FieldText(f[4], 0, 7, true, c.dow)
  }

  lemma SaysRead(f: seq<string>, c: Schedule)
    ensures ReadsAs(f, c) <==> SaysAs(f, c)
  {
    hide Reads, FieldText;
    if |f| == 5 {
      ReadsMeans(f[0], 0, 59, false, c.minute);
      ReadsMeans(f[1], 0, 23, false, c.hour);
      ReadsMeans(f[2], 1, 31, false, c.dom);
      ReadsMeans(f[3], 1, 12, false, c.month);
      ReadsMeans(f[4], 0, 7, true, c.dow);
    }
  }

  ghost predicate ReadsAs(f: seq<string>, c: Schedule) {
    && |f| == 5
    && Reads(f[0], 0, 59, false, c.minute) && Reads(f[1], 0, 23, false, c.hour) && Reads(f[2], 1, 31, false, c.dom)
    && Reads(f[3], 1, 12, false, c.month) && Reads(f[4], 0, 7, true, c.dow)
  }

  method ParseCron(expr: string) returns (r: Option<Schedule>)
    ensures r.Some? ==> ReadsAs(Words(expr), r.value) && Satisfiable(r.value)
    ensures r.None? ==> forall c :: !(ReadsAs(Words(expr), c) && Satisfiable(c))
    ensures r.Some? ==> SaysAs(Words(expr), r.value) && HasDate(r.value)
    ensures r.None? ==> forall c :: !(SaysAs(Words(expr), c) && HasDate(c))
  {
    forall c
      ensures ReadsAs(Words(expr), c) <==> SaysAs(Words(expr), c)
      ensures Satisfiable(c) <==> HasDate(c)
    {
      SaysRead(Words(expr), c);
      SatisfiableMeans(c);
    }
    hide FieldOk, Allows, Words, SaysAs, HasDate, Satisfiable;
    var f := Words(expr);
    if |f| != 5 { return None; }
    var minute := ParseCronField(f[0], 0, 59, false);
    if minute.None? { return None; }
    var hour := ParseCronField(f[1], 0, 23, false);
    if hour.None? { return None; }
    var dom := ParseCronField(f[2], 1, 31, false);
    if dom.None? { return None; }
    var month := ParseCronField(f[3], 1, 12, false);
    if month.None? { return None; }
    var dow := ParseCronField(f[4], 0, 7, true);
    if dow.None? { return None; }
    var c := Schedule(minute.value, hour.value, dom.value, month.value, dow.value);
    if !Satisfiable(c) {
      forall other ensures !(ReadsAs(f, other) && Satisfiable(other)) {
        if ReadsAs(f, other) { ReadsOnce(f, c, other); }
      }
      return None;
    }
    return Some(c);
  }

  lemma ReadsOnce(f: seq<string>, a: Schedule, b: Schedule)
    requires ReadsAs(f, a) && ReadsAs(f, b)
    ensures a == b
  {
    hide Reads;
    ReadsSame(f[0], 0, 59, false, a.minute, b.minute);
    ReadsSame(f[1], 0, 23, false, a.hour, b.hour);
    ReadsSame(f[2], 1, 31, false, a.dom, b.dom);
    ReadsSame(f[3], 1, 12, false, a.month, b.month);
    ReadsSame(f[4], 0, 7, true, a.dow, b.dow);
  }

  /** What is read is what the search needs. */
  lemma ParsedAccepted(f: seq<string>, c: Schedule)
    requires ReadsAs(f, c) && Satisfiable(c)
    ensures Accepted(c)
  {
    hide Reads;
    ReadsSome(f[0], 0, 59, false, c.minute);
    ReadsSome(f[1], 0, 23, false, c.hour);
    var mi :| 0 <= mi <= 59 && Normalized(mi, false) in c.minute;
    var h :| 0 <= h <= 23 && Normalized(h, false) in c.hour;
  }
}
