/** What a run of the tool-calling loop does with the calls it is given, told from the
    replies alone (internal/agent/tool_calling_engine.go). */
module EngineMeaning {
  import opened Text
  import opened Engine

  // ---- Calls ----

  predicate Allowed(cfg: Config, c: Call) { c.name != SUBMIT && c.name in cfg.tools }

  predicate Submits(c: Call) { c.name == SUBMIT && c.submitOk }

  predicate Misfires(c: Call) { c.name == SUBMIT && !c.submitOk }

  function Misfired(calls: seq<Call>): nat {
    if calls == [] then 0
    else Misfired(calls[..|calls| - 1]) + if Misfires(calls[|calls| - 1]) then 1 else 0
  }

  /** Call `j` ends the run: a valid submission, or an invalid one too many in its reply. */
  predicate EndsAt(cfg: Config, calls: seq<Call>, j: nat)
    requires j < |calls|
  {
    Submits(calls[j]) || (Misfires(calls[j]) && Misfired(calls[..j + 1]) >= cfg.maxViolations)
  }

  /** No earlier call of the reply ended the run. */
  predicate Reached(cfg: Config, calls: seq<Call>, i: nat)
    requires i <= |calls|
  {
    forall j :: 0 <= j < i ==> !EndsAt(cfg, calls, j)
  }

  /** How a call that ends the run ends it. */
  predicate Closes(call: Call, t: State, v: Verdict) {
    v == if Misfires(call) then Verdict(Broken, Protocol)
         else if t.force then Verdict(Partial, t.termination) else Verdict(Finished, Natural)
  }

  /** The first of the calls that ends the run ends it so. */
  ghost predicate ClosedBy(cfg: Config, calls: seq<Call>, n: nat, t: State, v: Verdict)
    requires n <= |calls|
  {
    exists j :: 0 <= j < n && Reached(cfg, calls, j) && EndsAt(cfg, calls, j) && Closes(calls[j], t, v)
  }

  // ---- The calls of one reply ----

  /** The calls at the positions `ran`, and no others of the first `n`, were executed: all
      that are allowed and reached, up to where the budget was gone. */
  ghost predicate RanCalls(cfg: Config, s: State, calls: seq<Call>, n: nat, t: State, ran: seq<nat>)
    requires n <= |calls|
  {
    && Rising(ran)
    && (forall i :: i in ran ==> i < n && Allowed(cfg, calls[i]) && Reached(cfg, calls, i))
    && ExecsOf(s, calls, n, t, ran)
    && (forall i :: 0 <= i < n && Reached(cfg, calls, i) && Allowed(cfg, calls[i]) && i !in ran ==>
          t.force && Below(ran, i))
    && (s.force ==> ran == [] && t.force)
  }

  predicate Below(at: seq<nat>, n: nat) { forall i :: i in at ==> i < n }

  /** What was executed since are these calls, in order. */
  predicate ExecsOf(s: State, calls: seq<Call>, n: nat, t: State, ran: seq<nat>)
    requires n <= |calls|
  {
    && |t.executed| == |s.executed| + |ran| && s.executed <= t.executed
    && (forall m :: 0 <= m < |ran| ==> ran[m] < n && t.executed[|s.executed| + m] == calls[ran[m]].exec)
  }

  /** The trace's record of a call: executed or turned down. */
  predicate RecordFits(record: Record, call: Call, ran: bool) {
    && record.tool == call.name
    && (record.error <==> !ran || call.exec.failed) && record.bytes == (if ran then call.exec.bytes else 0)
  }

  /** Every reached call but a submission has its record, in order. */
  ghost predicate LoggedCalls(cfg: Config, s: State, calls: seq<Call>, n: nat, t: State, ran: seq<nat>,
                              logged: seq<nat>)
    requires n <= |calls|
  {
    && Rising(logged) && Below(logged, n)
    && (forall i :: 0 <= i < n ==> (i in logged <==> Reached(cfg, calls, i) && calls[i].name != SUBMIT))
    && RecordsOf(s, calls, n, t, ran, logged)
  }

  /** What was recorded since are these calls, in order. */
  predicate RecordsOf(s: State, calls: seq<Call>, n: nat, t: State, ran: seq<nat>, logged: seq<nat>)
    requires n <= |calls|
  {
    && |t.records| == |s.records| + |logged| && s.records <= t.records
    && (forall m :: 0 <= m < |logged| ==>
          logged[m] < n && RecordFits(t.records[|s.records| + m], calls[logged[m]], logged[m] in ran))
  }

  /** What a call that did not end the run is answered. */
  ghost predicate Answered(cfg: Config, call: Call, ran: bool, force: bool, m: Message) {
    && m.role == Tool && m.callId == call.id
    && if ran then m.content == call.exec.content
       else if call.name == SUBMIT then m.content == INVALID
       else if call.name in cfg.tools then m.content == EXHAUSTED && force
       else m.content == FORBIDDEN || (m.content == EXHAUSTED && force)
  }

  ghost predicate AnsweredAll(cfg: Config, s: State, calls: seq<Call>, n: nat, t: State, ran: seq<nat>)
    requires n <= |calls|
  {
    && |t.messages| == |s.messages| + n && s.messages <= t.messages
    && forall i :: 0 <= i < n ==> Answered(cfg, calls[i], i in ran, t.force, t.messages[|s.messages| + i])
  }

  /** The run ends with the first of these calls that ends it, if any does. */
  ghost predicate EndedCalls(cfg: Config, calls: seq<Call>, n: nat, t: State, verdict: Option<Verdict>)
    requires n <= |calls|
  {
    && (verdict.None? <==> Reached(cfg, calls, n))
    && (verdict.Some? ==> ClosedBy(cfg, calls, n, t, verdict.value))
  }

  ghost predicate CallsAre(cfg: Config, s: State, calls: seq<Call>, n: nat, r: Step, ran: seq<nat>,
                           logged: seq<nat>)
    requires n <= |calls|
  {
    && RanCalls(cfg, s, calls, n, r.state, ran) && LoggedCalls(cfg, s, calls, n, r.state, ran, logged)
    && EndedCalls(cfg, calls, n, r.state, r.verdict)
    && (r.verdict.None? ==> r.state.violations == Misfired(calls[..n]) && AnsweredAll(cfg, s, calls, n, r.state, ran))
  }

  lemma {:induction false} CallsMean(cfg: Config, s: State, calls: seq<Call>, n: nat)
      returns (ran: seq<nat>, logged: seq<nat>)
    requires n <= |calls| && s.violations == 0
    ensures CallsAre(cfg, s, calls, n, CallsStep(cfg, s, calls[..n]), ran, logged)
    decreases n
  {
    if n == 0 {
      ran, logged := [], [];
      assert calls[..0] == [];
    } else {
      var ran0, logged0 := CallsMean(cfg, s, calls, n - 1);
      assert calls[..n][..n - 1] == calls[..n - 1];
      var r := CallsStep(cfg, s, calls[..n - 1]);
      assert CallsStep(cfg, s, calls[..n]) == if r.verdict.Some? then r else CallStep(cfg, r.state, calls[n - 1]);
      hide *;
      if r.verdict.Some? {
        ran, logged := ran0, logged0;
        CallsOverStay(cfg, s, calls, n, r, ran, logged);
      } else {
        ran, logged := CallMore(cfg, s, calls, n, r, ran0, logged0);
      }
    }
  }

  lemma CallsOverStay(cfg: Config, s: State, calls: seq<Call>, n: nat, r: Step, ran: seq<nat>, logged: seq<nat>)
    requires 0 < n <= |calls| && CallsAre(cfg, s, calls, n - 1, r, ran, logged) && r.verdict.Some?
    ensures CallsAre(cfg, s, calls, n, r, ran, logged)
  {
    hide EndsAt, Allowed, Closes, RecordFits, Rising;
    assert !Reached(cfg, calls, n - 1);
  }

  /** What one call comes to. */
  lemma CallMeans(cfg: Config, s: State, c: Call) returns (ran: bool)
    ensures ran <==> Allowed(cfg, c) && !s.force
    ensures var r := CallStep(cfg, s, c);
      && r.state.executed == (if ran then s.executed + [c.exec] else s.executed)
      && (s.force ==> r.state.force)
      && r.state.violations == s.violations + (if Misfires(c) then 1 else 0)
      && (r.verdict.Some? <==> Submits(c) || (Misfires(c) && r.state.violations >= cfg.maxViolations))
      && (r.verdict.Some? ==> Closes(c, r.state, r.verdict.value))
      && (r.verdict.None? ==>
        exists m :: r.state.messages == s.messages + [m] && Answered(cfg, c, ran, r.state.force, m))
      && (if c.name == SUBMIT then r.state.records == s.records
          else exists record :: r.state.records == s.records + [record] && RecordFits(record, c, ran))
  {
    ran := Allowed(cfg, c) && !s.force;
    var r := CallStep(cfg, s, c);
    if r.verdict.None? {
      var m := r.state.messages[|s.messages|];
      assert r.state.messages == s.messages + [m] && Answered(cfg, c, ran, r.state.force, m);
    }
    if c.name != SUBMIT {
      var record := r.state.records[|s.records|];
      assert r.state.records == s.records + [record] && RecordFits(record, c, ran);
    }
  }

  lemma CallMore(cfg: Config, s: State, calls: seq<Call>, n: nat, r: Step, ran0: seq<nat>, logged0: seq<nat>)
      returns (ran: seq<nat>, logged: seq<nat>)
    requires 0 < n <= |calls| && CallsAre(cfg, s, calls, n - 1, r, ran0, logged0) && r.verdict.None?
    ensures CallsAre(cfg, s, calls, n, CallStep(cfg, r.state, calls[n - 1]), ran, logged)
  {
    var c, t := calls[n - 1], CallStep(cfg, r.state, calls[n - 1]);
    CallsParts(cfg, s, calls, n - 1, r, ran0, logged0);
    EndsWhen(cfg, calls, n);
    hide *;
    var now := CallMeans(cfg, r.state, c);
    ran := if now then ran0 + [n - 1] else ran0;
    RanMore(cfg, s, calls, n, r.state, ran0, t.state, now);
    SameBefore(cfg, s, calls, n, r.state, ran0, now);
    logged := LoggedMore(cfg, s, calls, n, r.state, ran0, logged0, t.state, ran);
    EndedMore(cfg, calls, n, r.state, t.state, t.verdict);
    if t.verdict.None? {
      AnsweredMore(cfg, s, calls, n, r.state, ran0, t.state, ran);
    }
    assert CallsAre(cfg, s, calls, n, t, ran, logged) by { CallsPack(cfg, s, calls, n, t, ran, logged); }
  }

  lemma CallsParts(cfg: Config, s: State, calls: seq<Call>, n: nat, r: Step, ran: seq<nat>, logged: seq<nat>)
    requires n <= |calls| && CallsAre(cfg, s, calls, n, r, ran, logged) && r.verdict.None?
    ensures RanCalls(cfg, s, calls, n, r.state, ran) && LoggedCalls(cfg, s, calls, n, r.state, ran, logged)
    ensures EndedCalls(cfg, calls, n, r.state, None) && Reached(cfg, calls, n)
    ensures r.state.violations == Misfired(calls[..n]) && AnsweredAll(cfg, s, calls, n, r.state, ran)
  {
    hide RanCalls, LoggedCalls, AnsweredAll, Reached, Misfired;
  }

  lemma CallsPack(cfg: Config, s: State, calls: seq<Call>, n: nat, r: Step, ran: seq<nat>, logged: seq<nat>)
    requires n <= |calls| && RanCalls(cfg, s, calls, n, r.state, ran)
    requires LoggedCalls(cfg, s, calls, n, r.state, ran, logged)
    requires EndedCalls(cfg, calls, n, r.state, r.verdict)
    requires r.verdict.None? ==>
      r.state.violations == Misfired(calls[..n]) && AnsweredAll(cfg, s, calls, n, r.state, ran)
    ensures CallsAre(cfg, s, calls, n, r, ran, logged)
  {
    hide RanCalls, LoggedCalls, EndedCalls, AnsweredAll, Misfired;
  }

  lemma EndsWhen(cfg: Config, calls: seq<Call>, n: nat)
    requires 0 < n <= |calls|
    ensures Misfired(calls[..n]) == Misfired(calls[..n - 1]) + if Misfires(calls[n - 1]) then 1 else 0
    ensures EndsAt(cfg, calls, n - 1) <==>
      Submits(calls[n - 1]) || (Misfires(calls[n - 1]) && Misfired(calls[..n]) >= cfg.maxViolations)
  {
    assert calls[..n][..n - 1] == calls[..n - 1];
    hide Submits, Misfires;
  }

  lemma SameBefore(cfg: Config, s: State, calls: seq<Call>, n: nat, t: State, ran0: seq<nat>, now: bool)
    requires 0 < n <= |calls| && RanCalls(cfg, s, calls, n - 1, t, ran0)
    ensures var ran := if now then ran0 + [n - 1] else ran0;
      (forall i :: 0 <= i < n - 1 ==> (i in ran <==> i in ran0)) && (n - 1 in ran <==> now)
  {
    hide Reached, Allowed, Rising;
    InMore(ran0, n - 1);
  }

  lemma LoggedMore(cfg: Config, s: State, calls: seq<Call>, n: nat, t: State, ran0: seq<nat>, logged0: seq<nat>,
                   u: State, ran: seq<nat>)
      returns (logged: seq<nat>)
    requires 0 < n <= |calls| && LoggedCalls(cfg, s, calls, n - 1, t, ran0, logged0) && Reached(cfg, calls, n - 1)
    requires forall i :: 0 <= i < n - 1 ==> (i in ran <==> i in ran0)
    requires if calls[n - 1].name == SUBMIT then u.records == t.records
             else exists record :: u.records == t.records + [record] && RecordFits(record, calls[n - 1], n - 1 in ran)
    ensures LoggedCalls(cfg, s, calls, n, u, ran, logged)
  {
    hide Reached, RecordFits, Rising;
    logged := logged0;
    if calls[n - 1].name != SUBMIT {
      InMore(logged0, n - 1);
      RisingMore(logged0, n - 1);
      logged := logged0 + [n - 1];
    }
    assert RecordsOf(s, calls, n, u, ran, logged);
    hide RecordsOf;
  }

  lemma RanMore(cfg: Config, s: State, calls: seq<Call>, n: nat, t: State, before: seq<nat>, u: State, now: bool)
    requires 0 < n <= |calls| && RanCalls(cfg, s, calls, n - 1, t, before) && Reached(cfg, calls, n - 1)
    requires now <==> Allowed(cfg, calls[n - 1]) && !t.force
    requires u.executed == (if now then t.executed + [calls[n - 1].exec] else t.executed) && (t.force ==> u.force)
    ensures RanCalls(cfg, s, calls, n, u, if now then before + [n - 1] else before)
  {
    hide EndsAt, Allowed, Reached, Rising;
    if now {
      InMore(before, n - 1);
      RisingMore(before, n - 1);
    }
    assert ExecsOf(s, calls, n, u, if now then before + [n - 1] else before) by { hide Below; }
    hide ExecsOf;
  }

  lemma InMore(at: seq<nat>, n: nat)
    ensures forall i :: i in at + [n] <==> i in at || i == n
    ensures Below(at, n) ==> forall m :: 0 <= m < |at| ==> at[m] < n
  {
    assert (at + [n])[|at|] == n;
    assert forall m :: 0 <= m < |at| ==> at[m] in at;
  }

  lemma EndedMore(cfg: Config, calls: seq<Call>, n: nat, t: State, u: State, verdict: Option<Verdict>)
    requires 0 < n <= |calls| && EndedCalls(cfg, calls, n - 1, t, None)
    requires verdict.Some? <==> EndsAt(cfg, calls, n - 1)
    requires verdict.Some? ==> Closes(calls[n - 1], u, verdict.value)
    ensures EndedCalls(cfg, calls, n, u, verdict)
  {
    hide EndsAt, Closes;
  }

  lemma AnsweredMore(cfg: Config, s: State, calls: seq<Call>, n: nat, t: State, before: seq<nat>, u: State,
                     ran: seq<nat>)
    requires 0 < n <= |calls| && AnsweredAll(cfg, s, calls, n - 1, t, before)
    requires exists m :: u.messages == t.messages + [m] && Answered(cfg, calls[n - 1], n - 1 in ran, u.force, m)
    requires (t.force ==> u.force) && forall i :: 0 <= i < n - 1 ==> (i in ran <==> i in before)
    ensures AnsweredAll(cfg, s, calls, n, u, ran)
  {
    var m :| u.messages == t.messages + [m] && Answered(cfg, calls[n - 1], n - 1 in ran, u.force, m);
    forall i | 0 <= i < n ensures Answered(cfg, calls[i], i in ran, u.force, u.messages[|s.messages| + i]) {
      if i < n - 1 {
        assert Answered(cfg, calls[i], i in before, t.force, t.messages[|s.messages| + i]);
        assert u.messages[|s.messages| + i] == t.messages[|s.messages| + i];
      }
    }
  }

  // ---- Rounds ----

  /** A call by its round and its position in the reply. */
  datatype Place = Place(round: nat, call: nat)

  predicate Talks(turn: Turn) { turn.reply.Choice? && turn.reply.calls == [] }

  predicate Works(turn: Turn) { turn.reply.Choice? && turn.reply.calls != [] }

  /** The rounds from `j` to `n` were texts, and the one before them was none. */
  predicate TextRow(turns: seq<Turn>, j: nat, n: nat)
    requires n <= |turns|
  {
    j <= n && (forall k :: j <= k < n ==> Talks(turns[k])) && (j > 0 ==> Works(turns[j - 1]))
  }

  /** How many texts that makes, on top of the invalid submissions of the reply before. */
  function RowCount(turns: seq<Turn>, j: nat, n: nat): int
    requires n <= |turns| && TextRow(turns, j, n)
  {
    n - j + if j == 0 then 0 else Misfired(turns[j - 1].reply.calls)
  }

  /** The last of the first `n` rounds is a text, and one too many. */
  predicate TextsEnd(cfg: Config, turns: seq<Turn>, n: nat)
    requires n <= |turns|
  {
    exists j :: 0 <= j < n && TextRow(turns, j, n) && RowCount(turns, j, n) >= cfg.maxViolations
  }

  /** One of the calls of round `m` ends the run. */
  predicate CallEnds(cfg: Config, turn: Turn) {
    Works(turn) && !Reached(cfg, turn.reply.calls, |turn.reply.calls|)
  }

  /** Round `m` ends the run, if it comes to it. */
  predicate RoundEnds(cfg: Config, turns: seq<Turn>, m: nat)
    requires m < |turns|
  {
    || turns[m].expired || !turns[m].reply.Choice?
    || TextsEnd(cfg, turns, m + 1) || CallEnds(cfg, turns[m]) || (Works(turns[m]) && turns[m].overAfter)
  }

  /** The run gets past the first `n` rounds. */
  predicate Goes(cfg: Config, turns: seq<Turn>, n: nat)
    requires n <= |turns|
  {
    forall m :: 0 <= m < n ==> !RoundEnds(cfg, turns, m)
  }

  /** How round `m` ends the run. */
  ghost predicate EndedBy(cfg: Config, turns: seq<Turn>, m: nat, t: State, v: Verdict)
    requires m < |turns|
  {
    if turns[m].expired then v == Verdict(Broken, WallClock)
    else match turns[m].reply
      case ClientError(expired) => v == Verdict(Broken, if expired then WallClock else Error)
      case NoChoices => v == Verdict(Broken, Protocol)
      case Choice(_, _, calls) =>
        if calls == [] then v == Verdict(Broken, Protocol)
        else if CallEnds(cfg, turns[m]) then ClosedBy(cfg, calls, |calls|, t, v)
        else v == Verdict(Broken, WallClock)
  }

  /** Call `at.call` of round `at.round` is reached. */
  predicate Reaches(cfg: Config, turns: seq<Turn>, at: Place) {
    && at.round < |turns| && Goes(cfg, turns, at.round) && !turns[at.round].expired && turns[at.round].reply.Choice?
    && at.call < |turns[at.round].reply.calls| && Reached(cfg, turns[at.round].reply.calls, at.call)
  }

  predicate HasCall(turns: seq<Turn>, at: Place) {
    at.round < |turns| && turns[at.round].reply.Choice? && at.call < |turns[at.round].reply.calls|
  }

  function CallAt(turns: seq<Turn>, at: Place): Call
    requires HasCall(turns, at)
  {
    turns[at.round].reply.calls[at.call]
  }

  predicate Earlier(a: Place, b: Place) { a.round < b.round || (a.round == b.round && a.call < b.call) }

  predicate InOrder(places: seq<Place>) {
    forall l, m :: 0 <= l < m < |places| ==> Earlier(places[l], places[m])
  }

  /** The calls at these places, and no others of the first `n` rounds, were executed: all
      that are allowed and reached, up to where the budget was gone. */
  ghost predicate RanAt(cfg: Config, turns: seq<Turn>, n: nat, t: State, places: seq<Place>)
    requires n <= |turns|
  {
    && InOrder(places) && AllReached(cfg, turns, n, places)
    && (forall p :: p in places ==> Allowed(cfg, CallAt(turns, p)))
    && ExecsAt(turns, t.executed, places)
    && (forall at :: Reaches(cfg, turns, at) && at.round < n && Allowed(cfg, CallAt(turns, at)) && at !in places ==>
          t.force && AllEarlier(places, at))
  }

  predicate AllEarlier(places: seq<Place>, at: Place) { forall p :: p in places ==> Earlier(p, at) }

  predicate AllReached(cfg: Config, turns: seq<Turn>, n: nat, places: seq<Place>) {
    forall p :: p in places ==> p.round < n && Reaches(cfg, turns, p)
  }

  /** What was executed are these calls, in order. */
  predicate ExecsAt(turns: seq<Turn>, executed: seq<Exec>, places: seq<Place>) {
    && |executed| == |places|
    && forall m :: 0 <= m < |places| ==> HasCall(turns, places[m]) && executed[m] == CallAt(turns, places[m]).exec
  }

  /** Every reached call of the first `n` rounds but a submission has its record, in order. */
  ghost predicate LoggedAt(cfg: Config, turns: seq<Turn>, n: nat, t: State, places: seq<Place>, logged: seq<Place>)
    requires n <= |turns|
  {
    && InOrder(logged) && AllReached(cfg, turns, n, logged)
    && (forall at :: Reaches(cfg, turns, at) && at.round < n ==> (at in logged <==> CallAt(turns, at).name != SUBMIT))
    && RecordsAt(turns, t.records, places, logged)
  }

  /** What was recorded are these calls, in order. */
  predicate RecordsAt(turns: seq<Turn>, records: seq<Record>, places: seq<Place>, logged: seq<Place>) {
    && |records| == |logged|
    && forall m :: 0 <= m < |logged| ==>
         HasCall(turns, logged[m]) && RecordFits(records[m], CallAt(turns, logged[m]), logged[m] in places)
  }

  /** The run ends with the first round that ends it, if any does. */
  ghost predicate EndedRounds(cfg: Config, turns: seq<Turn>, n: nat, t: State, verdict: Option<Verdict>)
    requires n <= |turns|
  {
    && (verdict.None? <==> Goes(cfg, turns, n))
    && (verdict.Some? ==>
          exists m :: 0 <= m < n && Goes(cfg, turns, m) && RoundEnds(cfg, turns, m)
            && EndedBy(cfg, turns, m, t, verdict.value))
  }

  ghost predicate Counted(turns: seq<Turn>, n: nat, count: int)
    requires n <= |turns|
  {
    exists j :: 0 <= j <= n && TextRow(turns, j, n) && RowCount(turns, j, n) == count
  }

  ghost predicate HasAnswer(cfg: Config, call: Call, ran: bool, force: bool, ms: seq<Message>) {
    exists m :: m in ms && Answered(cfg, call, ran, force, m)
  }

  /** Each call of the reply has its answer among the messages. */
  ghost predicate AnsweredIn(cfg: Config, turns: seq<Turn>, k: nat, ms: seq<Message>, force: bool, places: seq<Place>)
    requires k < |turns| && Works(turns[k])
  {
    var calls := turns[k].reply.calls;
    forall i :: 0 <= i < |calls| ==> HasAnswer(cfg, calls[i], Place(k, i) in places, force, ms)
  }

  /** After each round the run got past, its calls are answered. */
  ghost predicate AllAnswered(cfg: Config, s0: State, turns: seq<Turn>, n: nat, force: bool, places: seq<Place>)
    requires n <= |turns|
  {
    forall k :: 0 <= k < n && Goes(cfg, turns, k + 1) && Works(turns[k]) ==>
      AnsweredIn(cfg, turns, k, AfterRounds(cfg, s0, turns, k + 1).state.messages, force, places)
  }

  ghost predicate RoundsAre(cfg: Config, turns: seq<Turn>, n: nat, r: Step, places: seq<Place>, logged: seq<Place>)
    requires n <= |turns|
  {
    && RanAt(cfg, turns, n, r.state, places) && LoggedAt(cfg, turns, n, r.state, places, logged)
    && EndedRounds(cfg, turns, n, r.state, r.verdict)
    && (r.verdict.None? ==> Counted(turns, n, r.state.violations))
  }

  /** There is one such row. */
  lemma RowOnce(turns: seq<Turn>, n: nat, i: nat, j: nat)
    requires n <= |turns| && TextRow(turns, i, n) && TextRow(turns, j, n)
    ensures i == j
  {}

  lemma RoundsStart(cfg: Config, turns: seq<Turn>, s: State)
    requires s.executed == [] && !s.force && s.violations == 0 && s.records == []
    ensures RoundsAre(cfg, turns, 0, Step(s, None), [], [])
  {
    hide RoundEnds, EndedBy, Reached, Allowed, Misfired;
    assert TextRow(turns, 0, 0) && RowCount(turns, 0, 0) == 0;
  }

  lemma StartFresh(b: Budget, initial: seq<Message>)
    ensures var s := Start(b, initial); s.executed == [] && !s.force && s.violations == 0 && s.records == []
  {}

  /** The whole account, for any number of rounds. */
  lemma {:induction false} RoundsMean(cfg: Config, b: Budget, initial: seq<Message>, turns: seq<Turn>, n: nat)
      returns (places: seq<Place>, logged: seq<Place>)
    requires n <= |turns|
    ensures RoundsAre(cfg, turns, n, AfterRounds(cfg, Start(b, initial), turns, n), places, logged)
    ensures var s := Start(b, initial);
      AllAnswered(cfg, s, turns, n, AfterRounds(cfg, s, turns, n).state.force, places)
    decreases n
  {
    hide *;
    var s := Start(b, initial);
    NoRounds(cfg, s, turns);
    StartFresh(b, initial);
    if n == 0 {
      places, logged := [], [];
      RoundsStart(cfg, turns, s);
      AnsweredNone(cfg, s, turns);
    } else {
      var places0, logged0 := RoundsMean(cfg, b, initial, turns, n - 1);
      OneRound(cfg, s, turns, n - 1);
      var r := AfterRounds(cfg, s, turns, n - 1);
      if r.verdict.Some? {
        places, logged := places0, logged0;
        RoundsOverStay(cfg, turns, n, r, places, logged);
        AnsweredStay(cfg, s, turns, n, r, places, logged);
      } else {
        places, logged := RoundMore(cfg, turns, n, r.state, places0, logged0);
        MoreGives(cfg, turns, n, r.state, AfterRounds(cfg, s, turns, n), places0, places, logged);
        AnsweredOn(cfg, s, turns, n, r.state, places0, places, logged);
      }
    }
  }

  lemma MoreGives(cfg: Config, turns: seq<Turn>, n: nat, s: State, r: Step, places0: seq<Place>, places: seq<Place>,
                  logged: seq<Place>)
    requires 0 < n <= |turns| && MoreAre(cfg, turns, n, s, r, places0, places, logged)
    ensures RoundsAre(cfg, turns, n, r, places, logged)
  {}

  lemma AnsweredNone(cfg: Config, s0: State, turns: seq<Turn>)
    ensures AllAnswered(cfg, s0, turns, 0, s0.force, [])
  {}

  lemma AnsweredStay(cfg: Config, s0: State, turns: seq<Turn>, n: nat, r: Step, places: seq<Place>,
                     logged: seq<Place>)
    requires 0 < n <= |turns| && AllAnswered(cfg, s0, turns, n - 1, r.state.force, places)
    requires RoundsAre(cfg, turns, n - 1, r, places, logged) && r.verdict.Some?
    ensures AllAnswered(cfg, s0, turns, n, r.state.force, places)
  {
    hide AnsweredIn, RoundEnds, RanAt, LoggedAt, Counted, AfterRounds;
  }

  lemma AnsweredOn(cfg: Config, s0: State, turns: seq<Turn>, n: nat, s: State, places0: seq<Place>,
                   places: seq<Place>, logged: seq<Place>)
    requires 0 < n <= |turns| && AllAnswered(cfg, s0, turns, n - 1, s.force, places0)
    requires MoreAre(cfg, turns, n, s, AfterRounds(cfg, s0, turns, n), places0, places, logged)
    ensures AllAnswered(cfg, s0, turns, n, AfterRounds(cfg, s0, turns, n).state.force, places)
  {
    hide AnsweredIn, RoundEnds, RanAt, LoggedAt, Counted, AfterRounds;
    var r := AfterRounds(cfg, s0, turns, n);
    forall k | 0 <= k < n && Goes(cfg, turns, k + 1) && Works(turns[k])
      ensures AnsweredIn(cfg, turns, k, AfterRounds(cfg, s0, turns, k + 1).state.messages, r.state.force, places)
    {
      if k < n - 1 {
        var ms := AfterRounds(cfg, s0, turns, k + 1).state.messages;
        assert AnsweredIn(cfg, turns, k, ms, s.force, places0);
        AnsweredSame(cfg, turns, k, ms, s.force, r.state.force, places0, places);
      } else {
        assert k + 1 == n;
      }
    }
  }

  lemma AnsweredSame(cfg: Config, turns: seq<Turn>, k: nat, ms: seq<Message>, force0: bool, force: bool,
                     places0: seq<Place>, places: seq<Place>)
    requires k < |turns| && Works(turns[k]) && AnsweredIn(cfg, turns, k, ms, force0, places0)
    requires (force0 ==> force) && forall i :: Place(k, i) in places <==> Place(k, i) in places0
    ensures AnsweredIn(cfg, turns, k, ms, force, places)
  {
    var calls := turns[k].reply.calls;
    forall i | 0 <= i < |calls| ensures HasAnswer(cfg, calls[i], Place(k, i) in places, force, ms) {
      assert HasAnswer(cfg, calls[i], Place(k, i) in places0, force0, ms);
    }
  }

  lemma RoundsOverStay(cfg: Config, turns: seq<Turn>, n: nat, r: Step, places: seq<Place>, logged: seq<Place>)
    requires 0 < n <= |turns| && RoundsAre(cfg, turns, n - 1, r, places, logged) && r.verdict.Some?
    ensures RoundsAre(cfg, turns, n, r, places, logged)
  {
    hide RoundEnds, EndedBy, Reached, Allowed, RecordFits;
    forall at | Reaches(cfg, turns, at) && at.round < n ensures at.round < n - 1 {}
  }

  /** Nothing is executed in a round without tool calls. */
  lemma IdleMeans(cfg: Config, s: State, turn: Turn)
    requires turn.expired || !Works(turn)
    ensures var r := RoundStep(cfg, s, turn);
      && r.state.executed == s.executed && r.state.force == s.force && r.state.records == s.records
      && r.state.violations == s.violations + (if !turn.expired && Talks(turn) then 1 else 0)
      && (r.verdict.None? <==> !turn.expired && Talks(turn) && r.state.violations < cfg.maxViolations)
      && (r.verdict.Some? ==> r.verdict.value.status == Broken)
      && (r.verdict.Some? ==>
        r.verdict.value.termination == (if turn.expired || turn.reply == ClientError(true) then WallClock
         else if turn.reply.ClientError? then Error else Protocol))
  {
    hide RequestOf;
  }

  /** What a round with tool calls comes to. */
  ghost predicate WorkIs(cfg: Config, s: State, turn: Turn, r: Step, ran: seq<nat>, logged: seq<nat>)
    requires Works(turn)
  {
    var calls := turn.reply.calls;
    && RanCalls(cfg, s, calls, |calls|, r.state, ran) && LoggedCalls(cfg, s, calls, |calls|, r.state, ran, logged)
    && (r.verdict.None? <==> !CallEnds(cfg, turn) && !turn.overAfter)
    && (r.verdict.None? ==> r.state.violations == Misfired(calls))
    && (CallEnds(cfg, turn) ==> ClosedBy(cfg, calls, |calls|, r.state, r.verdict.value))
    && (!CallEnds(cfg, turn) && turn.overAfter ==> r.verdict == Some(Verdict(Broken, WallClock)))
    && (r.verdict.None? ==> CallsAnswered(cfg, calls, r.state.messages, r.state.force, ran))
  }

  lemma WorkParts(cfg: Config, s: State, turn: Turn, r: Step, ran: seq<nat>, logged: seq<nat>)
    requires Works(turn) && WorkIs(cfg, s, turn, r, ran, logged)
    ensures var calls := turn.reply.calls;
      && RanCalls(cfg, s, calls, |calls|, r.state, ran) && LoggedCalls(cfg, s, calls, |calls|, r.state, ran, logged)
      && (r.verdict.None? <==> !CallEnds(cfg, turn) && !turn.overAfter)
      && (r.verdict.None? ==> r.state.violations == Misfired(calls))
      && (CallEnds(cfg, turn) ==> ClosedBy(cfg, calls, |calls|, r.state, r.verdict.value))
      && (!CallEnds(cfg, turn) && turn.overAfter ==> r.verdict == Some(Verdict(Broken, WallClock)))
      && (r.verdict.None? ==> CallsAnswered(cfg, calls, r.state.messages, r.state.force, ran))
  {
    hide RanCalls, LoggedCalls, CallEnds, ClosedBy, CallsAnswered, Misfired;
  }

  lemma WorkMeans(cfg: Config, s: State, turn: Turn) returns (ran: seq<nat>, logged: seq<nat>)
    requires !turn.expired && Works(turn)
    ensures WorkIs(cfg, s, turn, RoundStep(cfg, s, turn), ran, logged)
  {
    var calls := turn.reply.calls;
    var q := s.(messages := RequestOf(s, turn));
    var asked := q.(violations := 0, messages := q.messages + [MessageOf(turn.reply)]);
    ran, logged := CallsMean(cfg, asked, calls, |calls|);
    assert calls[..|calls|] == calls;
    var r := CallsStep(cfg, asked, calls);
    assert RoundStep(cfg, s, turn) ==
      if r.verdict.None? && turn.overAfter then Step(r.state, Some(Verdict(Broken, WallClock))) else r
      by { hide CallsStep, RequestOf; }
    assert RanCalls(cfg, s, calls, |calls|, r.state, ran) && LoggedCalls(cfg, s, calls, |calls|, r.state, ran, logged)
      by { hide *; SameLedger(cfg, asked, s, calls, r, ran, logged); }
    if r.verdict.None? {
      assert CallsAnswered(cfg, calls, r.state.messages, r.state.force, ran)
        by { hide *; AnsweredSome(cfg, asked, calls, r, ran, logged); }
    }
    hide CallsAnswered, CallsStep, RoundStep, RanCalls, LoggedCalls, AnsweredAll, Misfired, EndsAt, Closes;
  }

  ghost predicate CallsAnswered(cfg: Config, calls: seq<Call>, ms: seq<Message>, force: bool, ran: seq<nat>) {
    forall i :: 0 <= i < |calls| ==> HasAnswer(cfg, calls[i], i in ran, force, ms)
  }

  lemma AnsweredSome(cfg: Config, s: State, calls: seq<Call>, r: Step, ran: seq<nat>, logged: seq<nat>)
    requires CallsAre(cfg, s, calls, |calls|, r, ran, logged) && r.verdict.None?
    ensures CallsAnswered(cfg, calls, r.state.messages, r.state.force, ran)
  {
    hide Answered, RanCalls, LoggedCalls, EndedCalls;
    forall i | 0 <= i < |calls|
      ensures HasAnswer(cfg, calls[i], i in ran, r.state.force, r.state.messages)
    {
      var m := r.state.messages[|s.messages| + i];
      assert m in r.state.messages;
    }
  }

  lemma SameLedger(cfg: Config, s: State, t: State, calls: seq<Call>, r: Step, ran: seq<nat>, logged: seq<nat>)
    requires CallsAre(cfg, s, calls, |calls|, r, ran, logged)
    requires t.executed == s.executed && t.force == s.force && t.records == s.records
    ensures RanCalls(cfg, t, calls, |calls|, r.state, ran) && LoggedCalls(cfg, t, calls, |calls|, r.state, ran, logged)
  {
    hide Reached, Allowed, RecordFits, Rising, AnsweredAll, EndedCalls;
  }

  /** The places before this round are the same. */
  ghost predicate SameUpTo(before: seq<Place>, after: seq<Place>, round: nat) {
    forall p: Place :: p.round < round ==> (p in after <==> p in before)
  }

  /** The places of this round are these calls. */
  ghost predicate InRound(places: seq<Place>, round: nat, at: seq<nat>) {
    forall i :: Place(round, i) in places <==> i in at
  }

  /** What one more round adds to the account. */
  ghost predicate MoreAre(cfg: Config, turns: seq<Turn>, n: nat, s: State, r: Step, places0: seq<Place>,
                          places: seq<Place>, logged: seq<Place>)
    requires 0 < n <= |turns|
  {
    && RoundsAre(cfg, turns, n, r, places, logged) && (s.force ==> r.state.force)
    && SameUpTo(places0, places, n - 1)
    && (r.verdict.None? && Works(turns[n - 1]) ==>
          AnsweredIn(cfg, turns, n - 1, r.state.messages, r.state.force, places))
  }

  lemma RoundMore(cfg: Config, turns: seq<Turn>, n: nat, s: State, places0: seq<Place>, logged0: seq<Place>)
      returns (places: seq<Place>, logged: seq<Place>)
    requires 0 < n <= |turns| && RoundsAre(cfg, turns, n - 1, Step(s, None), places0, logged0)
    ensures MoreAre(cfg, turns, n, s, RoundStep(cfg, s, turns[n - 1]), places0, places, logged)
  {
    hide RoundStep, RanAt, LoggedAt, MoreAre, RoundEnds;
    if turns[n - 1].expired || !Works(turns[n - 1]) {
      places, logged := places0, logged0;
      RoundIdle(cfg, turns, n, s, places, logged);
    } else {
      places, logged := RoundWork(cfg, turns, n, s, places0, logged0);
    }
  }

  lemma RoundIdle(cfg: Config, turns: seq<Turn>, n: nat, s: State, places: seq<Place>, logged: seq<Place>)
    requires 0 < n <= |turns| && RoundsAre(cfg, turns, n - 1, Step(s, None), places, logged)
    requires turns[n - 1].expired || !Works(turns[n - 1])
    ensures MoreAre(cfg, turns, n, s, RoundStep(cfg, s, turns[n - 1]), places, places, logged)
  {
    var j :| 0 <= j <= n - 1 && TextRow(turns, j, n - 1) && RowCount(turns, j, n - 1) == s.violations;
    hide RoundStep, RanAt, LoggedAt, CallEnds, Misfired, AnsweredIn, RoundEnds;
    IdleMeans(cfg, s, turns[n - 1]);
    IdlePlaces(cfg, turns, n, s, places, logged, RoundStep(cfg, s, turns[n - 1]).state);
    IdleEnds(cfg, turns, n, s, RoundStep(cfg, s, turns[n - 1]), j);
  }

  lemma RoundWork(cfg: Config, turns: seq<Turn>, n: nat, s: State, places0: seq<Place>, logged0: seq<Place>)
      returns (places: seq<Place>, logged: seq<Place>)
    requires 0 < n <= |turns| && RoundsAre(cfg, turns, n - 1, Step(s, None), places0, logged0)
    requires !turns[n - 1].expired && Works(turns[n - 1])
    ensures MoreAre(cfg, turns, n, s, RoundStep(cfg, s, turns[n - 1]), places0, places, logged)
  {
    RoundsParts(cfg, turns, n - 1, s, places0, logged0);
    hide *;
    var ran, ls := WorkMeans(cfg, s, turns[n - 1]);
    places, logged := WorkJoin(cfg, turns, n, s, RoundStep(cfg, s, turns[n - 1]), places0, logged0, ran, ls);
  }

  lemma WorkJoin(cfg: Config, turns: seq<Turn>, n: nat, s: State, r: Step, places0: seq<Place>, logged0: seq<Place>,
                 ran: seq<nat>, ls: seq<nat>)
      returns (places: seq<Place>, logged: seq<Place>)
    requires 0 < n <= |turns| && !turns[n - 1].expired && Works(turns[n - 1])
    requires RanAt(cfg, turns, n - 1, s, places0) && LoggedAt(cfg, turns, n - 1, s, places0, logged0)
    requires Goes(cfg, turns, n - 1) && AllReached(cfg, turns, n - 1, places0)
    requires WorkIs(cfg, s, turns[n - 1], r, ran, ls)
    ensures MoreAre(cfg, turns, n, s, r, places0, places, logged)
  {
    var calls := turns[n - 1].reply.calls;
    hide *;
    WorkParts(cfg, s, turns[n - 1], r, ran, ls);
    if r.verdict.Some? { EndedWork(cfg, turns, n - 1, r); }
    places := WorkPlaces(cfg, turns, n, s, places0, r.state, ran);
    logged := WorkLogged(cfg, turns, n, s, places0, logged0, r.state, ran, ls);
    WorkEnds(cfg, turns, n, r);
    if r.verdict.None? { InPlaces(cfg, turns, n - 1, r.state, ran, places); }
    MorePack(cfg, turns, n, s, r, places0, places, logged);
  }

  lemma RoundsParts(cfg: Config, turns: seq<Turn>, n: nat, s: State, places: seq<Place>, logged: seq<Place>)
    requires n <= |turns| && RoundsAre(cfg, turns, n, Step(s, None), places, logged)
    ensures RanAt(cfg, turns, n, s, places) && LoggedAt(cfg, turns, n, s, places, logged)
    ensures Goes(cfg, turns, n) && AllReached(cfg, turns, n, places)
  {
    hide Goes, AllReached;
  }

  lemma MorePack(cfg: Config, turns: seq<Turn>, n: nat, s: State, r: Step, places0: seq<Place>, places: seq<Place>,
                 logged: seq<Place>)
    requires 0 < n <= |turns| && (s.force ==> r.state.force)
    requires RanAt(cfg, turns, n, r.state, places) && LoggedAt(cfg, turns, n, r.state, places, logged)
    requires EndedRounds(cfg, turns, n, r.state, r.verdict)
    requires r.verdict.None? ==> Counted(turns, n, r.state.violations)
    requires SameUpTo(places0, places, n - 1)
    requires r.verdict.None? && Works(turns[n - 1]) ==>
      AnsweredIn(cfg, turns, n - 1, r.state.messages, r.state.force, places)
    ensures MoreAre(cfg, turns, n, s, r, places0, places, logged)
  {
    hide RanAt, LoggedAt, EndedRounds, Counted, AnsweredIn, SameUpTo;
  }

  lemma InPlaces(cfg: Config, turns: seq<Turn>, k: nat, t: State, ran: seq<nat>, places: seq<Place>)
    requires k < |turns| && Works(turns[k]) && InRound(places, k, ran)
    requires CallsAnswered(cfg, turns[k].reply.calls, t.messages, t.force, ran)
    ensures AnsweredIn(cfg, turns, k, t.messages, t.force, places)
  {
    hide HasAnswer;
    var calls := turns[k].reply.calls;
    forall i | 0 <= i < |calls| ensures HasAnswer(cfg, calls[i], Place(k, i) in places, t.force, t.messages) {
      assert HasAnswer(cfg, calls[i], i in ran, t.force, t.messages);
    }
  }

  lemma IdlePlaces(cfg: Config, turns: seq<Turn>, n: nat, s: State, places: seq<Place>, logged: seq<Place>, u: State)
    requires 0 < n <= |turns| && (turns[n - 1].expired || !Works(turns[n - 1]))
    requires RanAt(cfg, turns, n - 1, s, places) && u.executed == s.executed && u.force == s.force
    requires LoggedAt(cfg, turns, n - 1, s, places, logged) && u.records == s.records
    ensures RanAt(cfg, turns, n, u, places) && LoggedAt(cfg, turns, n, u, places, logged)
  {
    hide Goes, Reached, Allowed, RecordFits;
    forall at | Reaches(cfg, turns, at) && at.round < n ensures at.round < n - 1 {}
  }

  lemma IdleEnds(cfg: Config, turns: seq<Turn>, n: nat, s: State, r: Step, j: nat)
    requires 0 < n <= |turns| && Goes(cfg, turns, n - 1)
    requires TextRow(turns, j, n - 1) && RowCount(turns, j, n - 1) == s.violations
    requires var turn := turns[n - 1];
      && (turn.expired || !Works(turn))
      && r.state.violations == s.violations + (if !turn.expired && Talks(turn) then 1 else 0)
      && (r.verdict.None? <==> !turn.expired && Talks(turn) && r.state.violations < cfg.maxViolations)
      && (r.verdict.Some? ==> EndedBy(cfg, turns, n - 1, r.state, r.verdict.value))
    ensures EndedRounds(cfg, turns, n, r.state, r.verdict)
    ensures r.verdict.None? ==> Counted(turns, n, r.state.violations)
  {
    hide EndedBy, Misfired, CallEnds;
    var turn := turns[n - 1];
    if !Works(turn) { NoCallEnds(cfg, turn); }
    if !turn.expired && Talks(turn) {
      assert TextRow(turns, j, n) && RowCount(turns, j, n) == r.state.violations;
      forall i: nat | TextRow(turns, i, n) ensures i == j { RowOnce(turns, n, i, j); }
    }
    assert RoundEnds(cfg, turns, n - 1) <==> r.verdict.Some?;
  }

  lemma NoCallEnds(cfg: Config, turn: Turn)
    requires !Works(turn)
    ensures !CallEnds(cfg, turn)
  {}

  lemma EndedWork(cfg: Config, turns: seq<Turn>, m: nat, r: Step)
    requires m < |turns| && !turns[m].expired && Works(turns[m]) && r.verdict.Some?
    requires var calls := turns[m].reply.calls;
      CallEnds(cfg, turns[m]) ==> ClosedBy(cfg, calls, |calls|, r.state, r.verdict.value)
    requires !CallEnds(cfg, turns[m]) ==> r.verdict.value == Verdict(Broken, WallClock)
    ensures EndedBy(cfg, turns, m, r.state, r.verdict.value)
  {
    hide CallEnds, ClosedBy;
  }

  lemma WorkEnds(cfg: Config, turns: seq<Turn>, n: nat, r: Step)
    requires 0 < n <= |turns| && Goes(cfg, turns, n - 1)
    requires var turn := turns[n - 1];
      && !turn.expired && Works(turn)
      && (r.verdict.None? <==> !CallEnds(cfg, turn) && !turn.overAfter)
      && (r.verdict.None? ==> r.state.violations == Misfired(turn.reply.calls))
      && (r.verdict.Some? ==> EndedBy(cfg, turns, n - 1, r.state, r.verdict.value))
    ensures EndedRounds(cfg, turns, n, r.state, r.verdict)
    ensures r.verdict.None? ==> Counted(turns, n, r.state.violations)
  {
    hide EndedBy, Misfired, CallEnds;
    var turn := turns[n - 1];
    assert !Talks(turn);
    forall i: nat | i < n ensures !TextRow(turns, i, n) {}
    assert RoundEnds(cfg, turns, n - 1) <==> r.verdict.Some?;
    assert TextRow(turns, n, n) && RowCount(turns, n, n) == Misfired(turn.reply.calls);
  }

  /** The places of some calls of one round. */
  function PlacesIn(round: nat, at: seq<nat>): (r: seq<Place>)
    ensures |r| == |at| && forall m :: 0 <= m < |at| ==> r[m] == Place(round, at[m])
  {
    seq(|at|, m requires 0 <= m < |at| => Place(round, at[m]))
  }

  lemma PlacesHold(cfg: Config, turns: seq<Turn>, round: nat, at: seq<nat>, before: seq<Place>)
    requires AllReached(cfg, turns, round, before)
    ensures forall p :: p in before + PlacesIn(round, at) <==> p in before || (p.round == round && p.call in at)
    ensures forall p :: p in before ==> p.round < round
  {
    hide Reaches;
    var now := PlacesIn(round, at);
    forall p: Place | p.round == round && p.call in at ensures p in now {
      var m :| 0 <= m < |at| && at[m] == p.call;
      assert now[m] == p;
    }
  }

  lemma PlacesOrdered(round: nat, at: seq<nat>, before: seq<Place>)
    requires InOrder(before) && (forall p :: p in before ==> p.round < round) && Rising(at)
    ensures InOrder(before + PlacesIn(round, at))
  {
    assert forall m :: 0 <= m < |before| ==> before[m] in before;
  }

  lemma ExecsMore(turns: seq<Turn>, round: nat, s: State, before: seq<Place>, u: State, ran: seq<nat>)
    requires round < |turns| && turns[round].reply.Choice? && Below(ran, |turns[round].reply.calls|)
    requires ExecsAt(turns, s.executed, before)
    requires ExecsOf(s, turns[round].reply.calls, |turns[round].reply.calls|, u, ran)
    ensures ExecsAt(turns, u.executed, before + PlacesIn(round, ran))
  {
    var places := before + PlacesIn(round, ran);
    forall m | 0 <= m < |places|
      ensures HasCall(turns, places[m]) && u.executed[m] == CallAt(turns, places[m]).exec
    {
      if m < |before| {
        assert HasCall(turns, before[m]) && u.executed[m] == s.executed[m];
      } else {
        var k := m - |before|;
        assert ran[k] in ran && places[m] == Place(round, ran[k]);
        assert u.executed[|s.executed| + k] == turns[round].reply.calls[ran[k]].exec;
      }
    }
  }

  lemma RecordsMore(turns: seq<Turn>, round: nat, s: State, places: seq<Place>, before: seq<Place>, u: State,
                    ran: seq<nat>, ls: seq<nat>, all: seq<Place>)
    requires round < |turns| && turns[round].reply.Choice? && Below(ls, |turns[round].reply.calls|)
    requires RecordsAt(turns, s.records, places, before) && forall p :: p in before ==> p.round < round
    requires RecordsOf(s, turns[round].reply.calls, |turns[round].reply.calls|, u, ran, ls)
    requires forall p :: p in all && p.round < round <==> p in places
    requires forall i :: i in ran <==> Place(round, i) in all
    ensures RecordsAt(turns, u.records, all, before + PlacesIn(round, ls))
  {
    hide RecordFits, PlacesIn;
    var calls, now := turns[round].reply.calls, PlacesIn(round, ls);
    forall m | 0 <= m < |before|
      ensures HasCall(turns, before[m]) && RecordFits(u.records[m], CallAt(turns, before[m]), before[m] in all)
    {
      assert u.records[m] == s.records[m] && before[m] in before;
    }
    forall k | 0 <= k < |ls|
      ensures HasCall(turns, now[k])
      ensures RecordFits(u.records[|before| + k], CallAt(turns, now[k]), now[k] in all)
    {
      assert now[k] == Place(round, ls[k]) && ls[k] < |calls|;
      assert RecordFits(u.records[|s.records| + k], calls[ls[k]], ls[k] in ran);
    }
    RecordsJoin(turns, u.records, all, before, now);
  }

  lemma RecordsJoin(turns: seq<Turn>, records: seq<Record>, all: seq<Place>, a: seq<Place>, b: seq<Place>)
    requires |records| == |a| + |b|
    requires forall m :: 0 <= m < |a| ==>
      HasCall(turns, a[m]) && RecordFits(records[m], CallAt(turns, a[m]), a[m] in all)
    requires forall k :: 0 <= k < |b| ==>
      HasCall(turns, b[k]) && RecordFits(records[|a| + k], CallAt(turns, b[k]), b[k] in all)
    ensures RecordsAt(turns, records, all, a + b)
  {
    hide RecordFits, HasCall;
    forall m | 0 <= m < |a + b|
      ensures HasCall(turns, (a + b)[m]) && RecordFits(records[m], CallAt(turns, (a + b)[m]), (a + b)[m] in all)
    {
      if m >= |a| { assert (a + b)[m] == b[m - |a|] && records[m] == records[|a| + (m - |a|)]; }
    }
  }

  lemma WorkPlaces(cfg: Config, turns: seq<Turn>, n: nat, s: State, before: seq<Place>, u: State, ran: seq<nat>)
      returns (places: seq<Place>)
    requires 0 < n <= |turns| && Goes(cfg, turns, n - 1) && !turns[n - 1].expired && Works(turns[n - 1])
    requires RanAt(cfg, turns, n - 1, s, before)
    requires RanCalls(cfg, s, turns[n - 1].reply.calls, |turns[n - 1].reply.calls|, u, ran)
    ensures RanAt(cfg, turns, n, u, places) && places == before + PlacesIn(n - 1, ran) && (s.force ==> u.force)
    ensures SameUpTo(before, places, n - 1) && InRound(places, n - 1, ran)
  {
    hide Goes, Reached, Allowed, ExecsAt, ExecsOf, InOrder, Rising;
    places := before + PlacesIn(n - 1, ran);
    PlacesHold(cfg, turns, n - 1, ran, before);
    PlacesOrdered(n - 1, ran, before);
    ExecsMore(turns, n - 1, s, before, u, ran);
    forall at | Reaches(cfg, turns, at) && at.round < n && Allowed(cfg, CallAt(turns, at)) && at !in places
      ensures u.force && AllEarlier(places, at)
    {
      assert at !in before;
      assert at.round == n - 1 ==> at.call !in ran;
    }
  }

  lemma WorkLogged(cfg: Config, turns: seq<Turn>, n: nat, s: State, places: seq<Place>, before: seq<Place>, u: State,
                   ran: seq<nat>, ls: seq<nat>)
      returns (logged: seq<Place>)
    requires 0 < n <= |turns| && Goes(cfg, turns, n - 1) && !turns[n - 1].expired && Works(turns[n - 1])
    requires LoggedAt(cfg, turns, n - 1, s, places, before) && AllReached(cfg, turns, n - 1, places)
    requires LoggedCalls(cfg, s, turns[n - 1].reply.calls, |turns[n - 1].reply.calls|, u, ran, ls)
    ensures LoggedAt(cfg, turns, n, u, places + PlacesIn(n - 1, ran), logged)
  {
    hide Goes, Reached, Allowed, RecordFits, RecordsAt, RecordsOf, InOrder, Rising;
    logged := before + PlacesIn(n - 1, ls);
    PlacesHold(cfg, turns, n - 1, ls, before);
    PlacesHold(cfg, turns, n - 1, ran, places);
    PlacesOrdered(n - 1, ls, before);
    RecordsMore(turns, n - 1, s, places, before, u, ran, ls, places + PlacesIn(n - 1, ran));
  }

  // ---- How a run ends ----

  /** Round `m` is reached and breaks the protocol: no choices, a text too many, or an
      invalid submission too many. */
  ghost predicate Breaks(cfg: Config, turns: seq<Turn>, m: nat)
    requires m < |turns|
  {
    && Goes(cfg, turns, m) && !turns[m].expired
    && (turns[m].reply.NoChoices? || TextsEnd(cfg, turns, m + 1) || MisfiresOut(cfg, turns[m]))
  }

  ghost predicate MisfiresOut(cfg: Config, turn: Turn) {
    && turn.reply.Choice?
    && exists i :: 0 <= i < |turn.reply.calls| && Reached(cfg, turn.reply.calls, i) && EndsAt(cfg, turn.reply.calls, i)
         && Misfires(turn.reply.calls[i])
  }

  /** A reached submission that is valid. */
  predicate Delivers(cfg: Config, turns: seq<Turn>, at: Place) {
    Reaches(cfg, turns, at) && Submits(CallAt(turns, at))
  }

  /** The run is done, or partly done if the budget is gone, exactly when a valid submission
      is reached, which is then the last call there is; it fails on the protocol exactly when
      that is broken. */
  ghost predicate Outcome(cfg: Config, turns: seq<Turn>, s: State, v: Verdict) {
    && (v.status != Broken <==> exists at :: Delivers(cfg, turns, at))
    && (v.status == Partial <==> v.status != Broken && s.force)
    && (forall at, b :: Delivers(cfg, turns, at) && Reaches(cfg, turns, b) ==> b == at || Earlier(b, at))
    && (v == Verdict(Broken, Protocol) <==> exists m :: 0 <= m < |turns| && Breaks(cfg, turns, m))
  }

  lemma FirstEnd(cfg: Config, turns: seq<Turn>, l: nat, m: nat)
    requires l < |turns| && m < |turns| && Goes(cfg, turns, l) && Goes(cfg, turns, m)
    requires RoundEnds(cfg, turns, l) && RoundEnds(cfg, turns, m)
    ensures l == m
  {
    hide RoundEnds;
  }

  lemma FirstClose(cfg: Config, calls: seq<Call>, i: nat, j: nat)
    requires i < |calls| && j < |calls| && Reached(cfg, calls, i) && Reached(cfg, calls, j)
    requires EndsAt(cfg, calls, i) && EndsAt(cfg, calls, j)
    ensures i == j
  {
    hide EndsAt;
  }

  /** A submission that is reached ends the run. */
  lemma DeliverEnds(cfg: Config, turns: seq<Turn>, at: Place)
    requires Delivers(cfg, turns, at)
    ensures RoundEnds(cfg, turns, at.round) && CallEnds(cfg, turns[at.round])
    ensures EndsAt(cfg, turns[at.round].reply.calls, at.call)
  {
    hide Misfired, TextsEnd, Goes;
    assert EndsAt(cfg, turns[at.round].reply.calls, at.call);
  }

  lemma LastCall(cfg: Config, turns: seq<Turn>, at: Place, b: Place)
    requires Delivers(cfg, turns, at) && Reaches(cfg, turns, b)
    ensures b == at || Earlier(b, at)
  {
    DeliverEnds(cfg, turns, at);
    hide EndsAt, RoundEnds, CallEnds, Submits;
  }

  lemma TextsTalk(cfg: Config, turns: seq<Turn>, n: nat)
    requires 0 < n <= |turns| && TextsEnd(cfg, turns, n)
    ensures Talks(turns[n - 1])
  {
    hide Misfired;
  }

  /** No call of the round delivers unless one ends it. */
  lemma DeliverHere(cfg: Config, turns: seq<Turn>, m: nat, at: Place)
    requires m < |turns| && Goes(cfg, turns, m) && RoundEnds(cfg, turns, m) && Delivers(cfg, turns, at)
    ensures at.round == m && CallEnds(cfg, turns[m]) && EndsAt(cfg, turns[m].reply.calls, at.call)
    ensures !turns[m].expired && Reached(cfg, turns[m].reply.calls, at.call) && Submits(turns[m].reply.calls[at.call])
  {
    DeliverEnds(cfg, turns, at);
    FirstEnd(cfg, turns, m, at.round) by { hide RoundEnds; }
    hide EndsAt, RoundEnds, CallEnds, Submits;
  }

  /** What the round that ends the run makes of it. */
  ghost predicate EndIs(cfg: Config, turns: seq<Turn>, m: nat, s: State, v: Verdict)
    requires m < |turns|
  {
    && (v.status != Broken <==> exists at :: Delivers(cfg, turns, at))
    && (v.status != Broken ==> v.status == if s.force then Partial else Finished)
    && (v == Verdict(Broken, Protocol) <==> Breaks(cfg, turns, m))
  }

  lemma EndMeans(cfg: Config, turns: seq<Turn>, m: nat, s: State, v: Verdict)
    requires m < |turns| && Goes(cfg, turns, m) && RoundEnds(cfg, turns, m) && EndedBy(cfg, turns, m, s, v)
    ensures EndIs(cfg, turns, m, s, v)
  {
    if !turns[m].expired && Works(turns[m]) && CallEnds(cfg, turns[m]) {
      var calls := turns[m].reply.calls;
      var j :| 0 <= j < |calls| && Reached(cfg, calls, j) && EndsAt(cfg, calls, j) && Closes(calls[j], s, v);
      CloseMeans(cfg, turns, m, j, s, v);
    } else {
      forall at ensures !Delivers(cfg, turns, at) {
        if Delivers(cfg, turns, at) { DeliverHere(cfg, turns, m, at); }
      }
      BreaksWhen(cfg, turns, m);
    }
  }

  lemma BreaksWhen(cfg: Config, turns: seq<Turn>, m: nat)
    requires m < |turns| && Goes(cfg, turns, m) && RoundEnds(cfg, turns, m)
    requires turns[m].expired || !Works(turns[m]) || !CallEnds(cfg, turns[m])
    ensures Breaks(cfg, turns, m) <==> !turns[m].expired && (turns[m].reply.NoChoices? || Talks(turns[m]))
  {
    if TextsEnd(cfg, turns, m + 1) { TextsTalk(cfg, turns, m + 1); }
    hide TextsEnd, EndsAt, Goes;
  }

  lemma CloseMeans(cfg: Config, turns: seq<Turn>, m: nat, j: nat, s: State, v: Verdict)
    requires m < |turns| && Goes(cfg, turns, m) && RoundEnds(cfg, turns, m)
    requires !turns[m].expired && Works(turns[m]) && j < |turns[m].reply.calls|
    requires var calls := turns[m].reply.calls;
      Reached(cfg, calls, j) && EndsAt(cfg, calls, j) && Closes(calls[j], s, v)
    ensures EndIs(cfg, turns, m, s, v)
  {
    var calls := turns[m].reply.calls;
    assert Submits(calls[j]) <==> !Misfires(calls[j]) by { hide Misfired; }
    if TextsEnd(cfg, turns, m + 1) { TextsTalk(cfg, turns, m + 1); }
    assert Reaches(cfg, turns, Place(m, j)) by { hide Reached, Goes; }
    assert CallAt(turns, Place(m, j)) == calls[j];
    forall at | Delivers(cfg, turns, at) ensures at == Place(m, j) {
      DeliverHere(cfg, turns, m, at);
      FirstClose(cfg, calls, at.call, j) by { hide *; }
    }
    forall i | 0 <= i < |calls| && Reached(cfg, calls, i) && EndsAt(cfg, calls, i) ensures i == j {
      FirstClose(cfg, calls, i, j);
    }
    hide TextsEnd, EndsAt, Goes, Reached, Reaches, RoundEnds, CallAt;
    assert MisfiresOut(cfg, turns[m]) <==> Misfires(calls[j]);
    assert Breaks(cfg, turns, m) <==> Misfires(calls[j]);
    assert Delivers(cfg, turns, Place(m, j)) <==> Submits(calls[j]);
  }

  lemma NothingEnds(cfg: Config, turns: seq<Turn>, at: Place)
    requires Goes(cfg, turns, |turns|)
    ensures !Delivers(cfg, turns, at)
    ensures forall m :: 0 <= m < |turns| ==> !Breaks(cfg, turns, m)
  {
    if Delivers(cfg, turns, at) { DeliverEnds(cfg, turns, at); }
    forall m | 0 <= m < |turns| ensures !Breaks(cfg, turns, m) {
      assert !RoundEnds(cfg, turns, m);
      hide TextsEnd, EndsAt, Goes;
    }
  }

  /** The verdict of a run, whose rounds are all there is time for. */
  lemma RunOutcome(cfg: Config, turns: seq<Turn>, r: Step, places: seq<Place>, logged: seq<Place>)
    requires RoundsAre(cfg, turns, |turns|, r, places, logged)
    ensures Outcome(cfg, turns, r.state, if r.verdict.Some? then r.verdict.value else Verdict(Broken, WallClock))
  {
    hide RanAt, LoggedAt, Counted, Goes, RoundEnds, EndedBy, Delivers, Breaks, Reaches;
    forall at, b | Delivers(cfg, turns, at) && Reaches(cfg, turns, b) ensures b == at || Earlier(b, at) {
      LastCall(cfg, turns, at, b);
    }
    if r.verdict.None? {
      forall at ensures !Delivers(cfg, turns, at) { NothingEnds(cfg, turns, at); }
      NothingEnds(cfg, turns, Place(0, 0));
    } else {
      var m :| 0 <= m < |turns| && Goes(cfg, turns, m) && RoundEnds(cfg, turns, m)
        && EndedBy(cfg, turns, m, r.state, r.verdict.value);
      EndMeans(cfg, turns, m, r.state, r.verdict.value);
      forall l | 0 <= l < |turns| && Breaks(cfg, turns, l) ensures l == m {
        BreakEnds(cfg, turns, l);
        FirstEnd(cfg, turns, l, m);
      }
    }
  }

  lemma BreakEnds(cfg: Config, turns: seq<Turn>, l: nat)
    requires l < |turns| && Breaks(cfg, turns, l)
    ensures Goes(cfg, turns, l) && RoundEnds(cfg, turns, l)
  {
    hide TextsEnd, EndsAt, Goes;
  }

  // ---- What the requests carry ----

  lemma SentWhen(cfg: Config, b: Budget, initial: seq<Message>, turns: seq<Turn>, k: nat)
    requires k < |turns|
    ensures Sends(cfg, Start(b, initial), turns, k) <==> Goes(cfg, turns, k) && !turns[k].expired
  {
    var places, logged := RoundsMean(cfg, b, initial, turns, k);
    hide RanAt, LoggedAt, Counted, Goes, AfterRounds, AllAnswered, RoundEnds, EndedBy;
  }

  lemma AnswerSent(cfg: Config, call: Call, ran: bool, force: bool, s: State, turn: Turn)
    requires HasAnswer(cfg, call, ran, force, s.messages)
    ensures HasAnswer(cfg, call, ran, force, RequestOf(s, turn))
  {
    hide NoteText;
    var m :| m in s.messages && Answered(cfg, call, ran, force, m);
    assert m in WithoutNotes(s.messages);
    assert m in RequestOf(s, turn);
  }

  /** The answers to a reply's calls are in the next request. */
  ghost predicate AnswersSent(cfg: Config, turns: seq<Turn>, s: State, requests: seq<seq<Message>>,
                              places: seq<Place>) {
    forall at :: Reaches(cfg, turns, at) && at.round + 1 < |requests| ==>
      HasAnswer(cfg, CallAt(turns, at), at in places, s.force, requests[at.round + 1])
  }

  lemma AnswersArrive(cfg: Config, b: Budget, initial: seq<Message>, turns: seq<Turn>, s: State, places: seq<Place>)
    requires AllAnswered(cfg, Start(b, initial), turns, |turns|, s.force, places)
    ensures AnswersSent(cfg, turns, s, Requests(cfg, Start(b, initial), turns, |turns|), places)
  {
    var s0 := Start(b, initial);
    var rs := Requests(cfg, s0, turns, |turns|);
    RequestsAt(cfg, s0, turns, |turns|);
    hide *;
    forall at | Reaches(cfg, turns, at) && at.round + 1 < |rs|
      ensures AnswerAt(cfg, turns, s, rs, places, at)
    {
      SentWhen(cfg, b, initial, turns, at.round + 1);
      AnswerHere(cfg, s0, turns, s, rs, places, at);
    }
    assert AnswersSent(cfg, turns, s, rs, places) by { AnswersAll(cfg, turns, s, rs, places); }
  }

  ghost predicate AnswerAt(cfg: Config, turns: seq<Turn>, s: State, requests: seq<seq<Message>>, places: seq<Place>,
                           at: Place) {
    HasCall(turns, at) && at.round + 1 < |requests|
    && HasAnswer(cfg, CallAt(turns, at), at in places, s.force, requests[at.round + 1])
  }

  lemma AnswersAll(cfg: Config, turns: seq<Turn>, s: State, requests: seq<seq<Message>>, places: seq<Place>)
    requires forall at :: Reaches(cfg, turns, at) && at.round + 1 < |requests| ==>
      AnswerAt(cfg, turns, s, requests, places, at)
    ensures AnswersSent(cfg, turns, s, requests, places)
  {
    hide HasAnswer, Goes, Reached;
  }

  lemma AnswerHere(cfg: Config, s0: State, turns: seq<Turn>, s: State, rs: seq<seq<Message>>, places: seq<Place>,
                   at: Place)
    requires AllAnswered(cfg, s0, turns, |turns|, s.force, places)
    requires Reaches(cfg, turns, at) && at.round + 1 < |rs| <= |turns| && Goes(cfg, turns, at.round + 1)
    requires rs[at.round + 1] == RequestOf(AfterRounds(cfg, s0, turns, at.round + 1).state, turns[at.round + 1])
    ensures AnswerAt(cfg, turns, s, rs, places, at)
  {
    hide *;
    AnswerGot(cfg, s0, turns, s.force, places, at);
    AnswerSent(cfg, CallAt(turns, at), at in places, s.force, AfterRounds(cfg, s0, turns, at.round + 1).state,
               turns[at.round + 1]);
    assert AnswerAt(cfg, turns, s, rs, places, at) by { AnswerIs(cfg, turns, s, rs, places, at); }
  }

  lemma AnswerGot(cfg: Config, s0: State, turns: seq<Turn>, force: bool, places: seq<Place>, at: Place)
    requires AllAnswered(cfg, s0, turns, |turns|, force, places)
    requires Reaches(cfg, turns, at) && at.round + 1 <= |turns| && Goes(cfg, turns, at.round + 1)
    ensures HasCall(turns, at)
    ensures HasAnswer(cfg, CallAt(turns, at), at in places, force,
      AfterRounds(cfg, s0, turns, at.round + 1).state.messages)
  {
    var ms := AfterRounds(cfg, s0, turns, at.round + 1).state.messages;
    hide AfterRounds, HasAnswer, Goes, Reached;
    assert AnsweredIn(cfg, turns, at.round, ms, force, places);
    hide AllAnswered;
    assert Place(at.round, at.call) == at;
  }

  lemma AnswerIs(cfg: Config, turns: seq<Turn>, s: State, rs: seq<seq<Message>>, places: seq<Place>, at: Place)
    requires HasCall(turns, at) && at.round + 1 < |rs|
    requires HasAnswer(cfg, CallAt(turns, at), at in places, s.force, rs[at.round + 1])
    ensures AnswerAt(cfg, turns, s, rs, places, at)
  {
    hide HasAnswer;
  }

  /** What the run was started with stays at the head of the messages. */
  lemma {:induction false} InitialKept(cfg: Config, b: Budget, initial: seq<Message>, turns: seq<Turn>, n: nat)
    requires n <= |turns| && Plain(initial)
    ensures var r := AfterRounds(cfg, Start(b, initial), turns, n);
      r.verdict.None? ==> initial <= WithoutNotes(r.state.messages)
    decreases n
  {
    var s0 := Start(b, initial);
    NoRounds(cfg, s0, turns);
    if n == 0 {
      NoNotes(initial);
    } else {
      hide *;
      InitialKept(cfg, b, initial, turns, n - 1);
      OneRound(cfg, s0, turns, n - 1);
      RunAccounts(cfg, b, initial, turns, n - 1);
      var r, t := AfterRounds(cfg, s0, turns, n - 1), AfterRounds(cfg, s0, turns, n);
      if t.verdict.None? {
        RoundGrows(cfg, b, r.state, turns[n - 1]);
        PrefixTwice(initial, WithoutNotes(r.state.messages), WithoutNotes(t.state.messages));
      }
    }
  }

  lemma RunAccounts(cfg: Config, b: Budget, initial: seq<Message>, turns: seq<Turn>, n: nat)
    requires n <= |turns| && Plain(initial)
    ensures Inv(AfterRounds(cfg, Start(b, initial), turns, n).state, b)
  {
    hide *;
    RunKeeps(cfg, b, initial, turns, n);
  }

  lemma PrefixTwice(a: seq<Message>, b: seq<Message>, c: seq<Message>)
    requires a <= b && b <= c
    ensures a <= c
  {}

  lemma RoundGrows(cfg: Config, b: Budget, s: State, turn: Turn)
    requires Inv(s, b) && RoundStep(cfg, s, turn).verdict.None?
    ensures WithoutNotes(s.messages) <= WithoutNotes(RoundStep(cfg, s, turn).state.messages)
  {
    var q := s.(messages := RequestOf(s, turn));
    InvMessages(s, RequestOf(s, turn), b);
    hide Inv, ReplyStep, NoteText;
    var answers := ReplyShape(cfg, b, q, turn.reply);
    var more := [MessageOf(turn.reply)] + answers;
    var note := q.messages[|q.messages| - 1];
    assert q.messages == WithoutNotes(s.messages) + [note];
    hide WithoutNotes;
    WithoutNotesAppend(q.messages, more);
    WithoutNotesAppend(WithoutNotes(s.messages), [note]);
    NoNotes(WithoutNotes(s.messages)) by { NoNotesLeft(s.messages); }
  }

  lemma NoNotesLeft(ms: seq<Message>)
    ensures forall m :: m in WithoutNotes(ms) ==> !IsNote(m)
  {}

  lemma InitialSent(cfg: Config, b: Budget, initial: seq<Message>, turns: seq<Turn>)
    requires Plain(initial)
    ensures forall r :: r in Requests(cfg, Start(b, initial), turns, |turns|) ==> initial <= r
  {
    var s0 := Start(b, initial);
    var rs := Requests(cfg, s0, turns, |turns|);
    RequestsAt(cfg, s0, turns, |turns|);
    forall r | r in rs ensures initial <= r {
      var k :| 0 <= k < |rs| && rs[k] == r;
      assert Sends(cfg, s0, turns, k);
      InitialKept(cfg, b, initial, turns, k);
      hide Requests, AfterRounds, WithoutNotes, NoteText, Plain;
    }
  }

  /** The account of a whole run, told from its replies: which calls were executed and
      recorded, how it ended, which requests were sent and what they carry. */
  ghost predicate RunIs(cfg: Config, initial: seq<Message>, turns: seq<Turn>, v: Verdict, s: State,
                        requests: seq<seq<Message>>, places: seq<Place>, logged: seq<Place>) {
    && RanAt(cfg, turns, |turns|, s, places) && LoggedAt(cfg, turns, |turns|, s, places, logged)
    && Outcome(cfg, turns, s, v)
    && |requests| <= |turns|
    && (forall k :: 0 <= k < |turns| ==> (k < |requests| <==> Goes(cfg, turns, k) && !turns[k].expired))
    && AnswersSent(cfg, turns, s, requests, places)
    && (forall r :: r in requests ==> initial <= r)
  }

  lemma RunMeans(cfg: Config, b: Budget, initial: seq<Message>, turns: seq<Turn>)
      returns (places: seq<Place>, logged: seq<Place>)
    requires Plain(initial)
    ensures var r := AfterRounds(cfg, Start(b, initial), turns, |turns|);
      RunIs(cfg, initial, turns, if r.verdict.Some? then r.verdict.value else Verdict(Broken, WallClock), r.state,
            Requests(cfg, Start(b, initial), turns, |turns|), places, logged)
  {
    hide *;
    places, logged := RoundsMean(cfg, b, initial, turns, |turns|);
    var r := AfterRounds(cfg, Start(b, initial), turns, |turns|);
    RunOutcome(cfg, turns, r, places, logged);
    AnswersArrive(cfg, b, initial, turns, r.state, places);
    InitialSent(cfg, b, initial, turns);
    SentCount(cfg, b, initial, turns);
    RunPack(cfg, initial, turns, r, Requests(cfg, Start(b, initial), turns, |turns|), places, logged);
  }

  lemma SentCount(cfg: Config, b: Budget, initial: seq<Message>, turns: seq<Turn>)
    ensures var rs := Requests(cfg, Start(b, initial), turns, |turns|);
      && |rs| <= |turns|
      && forall k :: 0 <= k < |turns| ==> (k < |rs| <==> Goes(cfg, turns, k) && !turns[k].expired)
  {
    hide *;
    RequestsAt(cfg, Start(b, initial), turns, |turns|);
    forall k | 0 <= k < |turns|
      ensures Sends(cfg, Start(b, initial), turns, k) <==> Goes(cfg, turns, k) && !turns[k].expired
    {
      SentWhen(cfg, b, initial, turns, k);
    }
  }

  lemma RunPack(cfg: Config, initial: seq<Message>, turns: seq<Turn>, r: Step, rs: seq<seq<Message>>,
                places: seq<Place>, logged: seq<Place>)
    requires RoundsAre(cfg, turns, |turns|, r, places, logged)
    requires Outcome(cfg, turns, r.state, if r.verdict.Some? then r.verdict.value else Verdict(Broken, WallClock))
    requires |rs| <= |turns|
    requires forall k :: 0 <= k < |turns| ==> (k < |rs| <==> Goes(cfg, turns, k) && !turns[k].expired)
    requires AnswersSent(cfg, turns, r.state, rs, places) && forall m :: m in rs ==> initial <= m
    ensures RunIs(cfg, initial, turns, if r.verdict.Some? then r.verdict.value else Verdict(Broken, WallClock), r.state,
                  rs, places, logged)
  {
    hide RanAt, LoggedAt, Outcome, Goes, AnswersSent, EndedRounds, Counted;
  }
}
