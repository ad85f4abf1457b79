/** The tool-calling loop: internal/agent/tool_calling_engine.go, against a model and
    tools that may answer anything, with the budgets of registry.go and agent_runner.go. */
module Engine {
  import opened Text

  // ---- Budgets ----

  datatype Budget = Budget(calls: int, bytes: int, seconds: int)

  const DEFAULT_CAPS: Budget := Budget(8, 200 * 1024, 60)

  /** `ToolBudgetDefaults.Resolve`. */
  function ResolveCaps(b: Budget): Budget {
    Budget(if b.calls <= 0 then DEFAULT_CAPS.calls else b.calls,
           if b.bytes <= 0 then DEFAULT_CAPS.bytes else b.bytes,
           if b.seconds <= 0 then DEFAULT_CAPS.seconds else b.seconds)
  }

  /** `resolveBudget`: zero means the cap, more than the cap is refused. */
  function ResolveBudget(b: Budget, declared: Budget): Option<Budget> {
    var caps := ResolveCaps(declared);
    if b.calls < 0 || b.bytes < 0 || b.seconds < 0 then None
    else if b.calls > caps.calls || b.bytes > caps.bytes || b.seconds > caps.seconds then None
    else Some(Budget(if b.calls == 0 then caps.calls else b.calls,
                     if b.bytes == 0 then caps.bytes else b.bytes,
                     if b.seconds == 0 then caps.seconds else b.seconds))
  }

  /** `tightenSchedulerBudget`: a tick without a query gets half the calls, four at most. */
  function Tightened(b: Budget, tick: bool, query: string): Budget {
    if !tick || Trim(query) != "" || b.calls <= 1 then b
    else b.(calls := if b.calls / 2 < 4 then b.calls / 2 else 4)
  }

  lemma StartingBudget(b: Budget, declared: Budget, tick: bool, query: string)
    requires ResolveBudget(b, declared).Some?
    ensures var start := Tightened(ResolveBudget(b, declared).value, tick, query);
      && 1 <= start.calls <= ResolveCaps(declared).calls
      && 1 <= start.bytes <= ResolveCaps(declared).bytes
      && 1 <= start.seconds <= ResolveCaps(declared).seconds
      && (tick && Trim(query) == "" ==> start.calls <= 4)
  {
    hide Trim;
  }

  // ---- Messages ----

  datatype Role = System | User | Assistant | Tool | Other

  /** Calls are the ids of the tool calls a message carries. */
  datatype Message = Message(role: Role, content: string, calls: seq<string>, callId: string)

  predicate IsNote(m: Message) { m.role == System && HasPrefix(m.content, "[budget]") }

  function ToolMessage(id: string, content: string): Message { Message(Tool, content, [], id) }

  /** The messages `answers` answer the calls, one each, in order. */
  predicate Answers(calls: seq<string>, answers: seq<Message>) {
    && |calls| == |answers|
    && forall k :: 0 <= k < |calls| ==>
      answers[k].role == Tool && answers[k].callId == calls[k] && answers[k].calls == []
  }

  /** Every message with tool calls is followed at once by their answers. In the strict
      reading there is no other tool message. */
  predicate Paired(ms: seq<Message>, strict: bool)
    decreases |ms|
  {
    if ms == [] then true
    else
      var n := |ms[0].calls|;
      && (strict ==> ms[0].role != Tool)
      && n < |ms| && Answers(ms[0].calls, ms[1..1 + n]) && Paired(ms[1 + n..], strict)
  }

  lemma {:induction false} PairedAppend(a: seq<Message>, b: seq<Message>, strict: bool)
    requires Paired(a, strict) && Paired(b, strict)
    ensures Paired(a + b, strict)
    decreases |a|
  {
    hide Answers;
    if a == [] {
      assert a + b == b;
    } else {
      var n := |a[0].calls|;
      assert (a + b)[1 + n..] == a[1 + n..] + b;
      assert (a + b)[1..1 + n] == a[1..1 + n];
      PairedAppend(a[1 + n..], b, strict);
    }
  }

  lemma PairedOne(m: Message, answers: seq<Message>, strict: bool)
    requires Answers(m.calls, answers) && (strict ==> m.role != Tool)
    ensures Paired([m] + answers, strict)
  {
    var ms := [m] + answers;
    assert ms[1..] == answers && ms[1..1 + |m.calls|] == answers && ms[1 + |m.calls|..] == [];
  }

  lemma AnswersPlain(ms: seq<Message>, strict: bool)
    requires ms != [] && Paired(ms, strict)
    ensures forall q :: 1 <= q <= |ms[0].calls| ==> q < |ms| && ms[q].calls == []
  {
    var answers := ms[1..1 + |ms[0].calls|];
    forall q | 1 <= q <= |ms[0].calls| ensures q < |ms| && ms[q].calls == [] { assert answers[q - 1] == ms[q]; }
  }

  /** A message and its answers, found again by position. */
  lemma {:induction false} PairedAt(ms: seq<Message>, strict: bool, i: nat, k: nat)
    requires Paired(ms, strict) && i < |ms| && k < |ms[i].calls|
    ensures i + 1 + k < |ms| && ms[i + 1 + k].role == Tool && ms[i + 1 + k].callId == ms[i].calls[k]
    decreases |ms|
  {
    var n := |ms[0].calls|;
    var rest := ms[1 + n..];
    if i == 0 {
      assert ms[1..1 + n][k] == ms[1 + k];
    } else {
      AnswersPlain(ms, strict);
      assert rest[i - 1 - n] == ms[i];
      PairedAt(rest, strict, i - 1 - n, k);
      assert rest[i - n + k] == ms[i + 1 + k];
    }
  }

  /** Strictly, a tool message always answers a call of the message its block starts with. */
  lemma {:induction false} ToolsAnswer(ms: seq<Message>, i: nat) returns (j: nat)
    requires Paired(ms, true) && i < |ms| && ms[i].role == Tool
    ensures j < i && i - j - 1 < |ms[j].calls| && ms[j].calls[i - j - 1] == ms[i].callId
    decreases |ms|
  {
    var n := |ms[0].calls|;
    var rest := ms[1 + n..];
    if i <= n {
      assert ms[1..1 + n][i - 1] == ms[i];
      j := 0;
    } else {
      assert rest[i - 1 - n] == ms[i];
      j := ToolsAnswer(rest, i - 1 - n);
      assert rest[j] == ms[j + 1 + n];
      j := j + 1 + n;
    }
  }

  function WithoutNotes(ms: seq<Message>): (r: seq<Message>)
    ensures forall m :: m in r <==> m in ms && !IsNote(m)
  {
    if ms == [] then [] else (if IsNote(ms[0]) then [] else [ms[0]]) + WithoutNotes(ms[1..])
  }

  lemma {:induction false} WithoutNotesAppend(a: seq<Message>, b: seq<Message>)
    ensures WithoutNotes(a + b) == WithoutNotes(a) + WithoutNotes(b)
  {
    if a == [] {
      assert a + b == b;
    } else {
      assert (a + b)[1..] == a[1..] + b;
      WithoutNotesAppend(a[1..], b);
    }
  }

  lemma {:induction false} NoNotes(ms: seq<Message>)
    requires forall m :: m in ms ==> !IsNote(m)
    ensures WithoutNotes(ms) == ms
  {
    if ms != [] {
      assert ms[0] in ms && forall m :: m in ms[1..] ==> m in ms;
      NoNotes(ms[1..]);
    }
  }

  lemma AnswersStay(calls: seq<string>, answers: seq<Message>)
    requires Answers(calls, answers)
    ensures WithoutNotes(answers) == answers
    ensures Paired(answers, false)
  {
    NoNotes(answers);
    LonePaired(answers);
  }

  lemma {:induction false} LonePaired(ms: seq<Message>)
    requires forall m :: m in ms ==> m.calls == []
    ensures Paired(ms, false)
  {
    if ms != [] {
      assert ms[0] in ms && forall m :: m in ms[1..] ==> m in ms;
      LonePaired(ms[1..]);
    }
  }

  lemma WithoutNotesBlock(ms: seq<Message>, strict: bool)
    requires ms != [] && Paired(ms, strict)
    ensures var n := |ms[0].calls|;
      var answers, rest := ms[1..1 + n], ms[1 + n..];
      WithoutNotes(ms) == (if IsNote(ms[0]) then [] else [ms[0]]) + answers + WithoutNotes(rest)
  {
    var n := |ms[0].calls|;
    var answers, rest := ms[1..1 + n], ms[1 + n..];
    assert ms[1..] == answers + rest;
    AnswersStay(ms[0].calls, answers);
    WithoutNotesAppend(answers, rest);
    hide Paired, Answers, IsNote;
  }

  /** Taking the old notes out keeps calls and answers together, if no note carries calls
      or strays are allowed. */
  lemma {:induction false} PairedWithoutNotes(ms: seq<Message>, strict: bool)
    requires Paired(ms, strict) && (strict ==> forall m :: m in ms && IsNote(m) ==> m.calls == [])
    ensures Paired(WithoutNotes(ms), strict)
    decreases |ms|
  {
    if ms != [] {
      var m, n := ms[0], |ms[0].calls|;
      var answers, rest := ms[1..1 + n], ms[1 + n..];
      assert m in ms && forall x :: x in rest ==> x in ms;
      PairedWithoutNotes(rest, strict);
      WithoutNotesBlock(ms, strict);
      AnswersStay(m.calls, answers);
      PairedOne(m, answers, strict);
      hide WithoutNotes, Answers, IsNote, Paired;
      if IsNote(m) {
        assert WithoutNotes(ms) == answers + WithoutNotes(rest) by { assert [] + answers == answers; }
        if n == 0 {
          assert answers + WithoutNotes(rest) == WithoutNotes(rest);
        } else {
          PairedAppend(answers, WithoutNotes(rest), strict);
        }
      } else {
        PairedAppend([m] + answers, WithoutNotes(rest), strict);
      }
    }
  }

  // ---- What answers the loop ----

  /** What a vault tool does with a call. */
  datatype Exec = Exec(bytes: nat, failed: bool, content: string)

  /** A tool call: whether its arguments make a valid result, should it submit one, and
      what the tool would answer. */
  datatype Call = Call(id: string, name: string, submitOk: bool, exec: Exec)

  datatype Reply = ClientError(expired: bool) | NoChoices | Choice(role: Role, content: string, calls: seq<Call>)

  /** One round: is time up before it, what the model answers, the seconds shown, is time
      up after it. */
  datatype Turn = Turn(expired: bool, reply: Reply, wallLeft: nat, overAfter: bool)

  datatype Config = Config(maxViolations: int, tools: set<string>)

  const SUBMIT: string := "submit_result"

  function CallIds(calls: seq<Call>): (r: seq<string>)
    ensures |r| == |calls| && forall k :: 0 <= k < |r| ==> r[k] == calls[k].id
  {
    if calls == [] then [] else [calls[0].id] + CallIds(calls[1..])
  }

  // ---- The loop's state ----

  datatype Status = Finished | Partial | Broken

  datatype Termination = Natural | CallsExceeded | BytesExceeded | WallClock | Protocol | Error

  datatype Record = Record(number: nat, tool: string, error: bool, bytes: nat, callsLeft: nat, bytesLeft: nat)

  /** `executed` lists the vault calls made, for the account. */
  datatype State = State(
    messages: seq<Message>, calls: int, bytes: int, force: bool, violations: int,
    records: seq<Record>, termination: Termination, executed: seq<Exec>)

  datatype Verdict = Verdict(status: Status, termination: Termination)

  function Positive(n: int): nat { if n < 0 then 0 else n }

  function Total(execs: seq<Exec>): nat {
    if execs == [] then 0 else Total(execs[..|execs| - 1]) + execs[|execs| - 1].bytes
  }

  /** The budget is gone after the first `n` calls. */
  predicate Spent(b: Budget, execs: seq<Exec>, n: nat)
    requires n <= |execs|
  {
    b.calls - n <= 0 || b.bytes - Total(execs[..n]) <= 0
  }

  /** The budgets' account: what is left plus what was charged is what there was; no call
      follows a successful one that spent the budget; only such a call forces the end. */
  predicate Account(s: State, b: Budget) {
    && s.calls + |s.executed| == b.calls
    && s.bytes + Total(s.executed) == b.bytes
    && (forall k :: 0 <= k < |s.executed| - 1 && !s.executed[k].failed ==> !Spent(b, s.executed, k + 1))
    && (s.force <==> s.executed != [] && !s.executed[|s.executed| - 1].failed && Spent(b, s.executed, |s.executed|))
    && (s.force ==> s.termination == if s.calls <= 0 then CallsExceeded else BytesExceeded)
  }

  predicate Numbered(records: seq<Record>) {
    forall i :: 0 <= i < |records| ==> records[i].number == i + 1
  }

  predicate Inv(s: State, b: Budget) { Account(s, b) && Numbered(s.records) }

  predicate Fits(v: Verdict) {
    match v.status
    case Finished => v.termination == Natural
    case Partial => v.termination == CallsExceeded || v.termination == BytesExceeded
    case Broken => v.termination == WallClock || v.termination == Protocol || v.termination == Error
  }

  // ---- What the account means ----

  function Successes(execs: seq<Exec>): nat {
    if execs == [] then 0
    else Successes(execs[..|execs| - 1]) + (if execs[|execs| - 1].failed then 0 else 1)
  }

  function SuccessBytes(execs: seq<Exec>): nat {
    if execs == [] then 0
    else SuccessBytes(execs[..|execs| - 1]) + (if execs[|execs| - 1].failed then 0 else execs[|execs| - 1].bytes)
  }

  lemma {:induction false} SuccessBounds(execs: seq<Exec>)
    ensures Successes(execs) <= |execs| && SuccessBytes(execs) <= Total(execs)
  {
    if execs != [] { SuccessBounds(execs[..|execs| - 1]); }
  }

  /** The position after the last success among the first `n` calls. */
  function LastSuccess(execs: seq<Exec>, n: nat): (k: nat)
    requires n <= |execs|
    ensures k <= n && (k > 0 ==> !execs[k - 1].failed)
    ensures forall i :: k <= i < n ==> execs[i].failed
  {
    if n == 0 then 0 else if !execs[n - 1].failed then n else LastSuccess(execs, n - 1)
  }

  lemma {:induction false} FailuresAddNothing(execs: seq<Exec>, k: nat, n: nat)
    requires k <= n <= |execs| && forall i :: k <= i < n ==> execs[i].failed
    ensures Successes(execs[..n]) == Successes(execs[..k]) && SuccessBytes(execs[..n]) == SuccessBytes(execs[..k])
    decreases n
  {
    if k < n {
      FailuresAddNothing(execs, k, n - 1);
      assert execs[..n][..n - 1] == execs[..n - 1] && execs[..n][n - 1] == execs[n - 1];
    }
  }

  lemma SuccessCounts(execs: seq<Exec>, k: nat)
    requires 0 < k <= |execs| && !execs[k - 1].failed
    ensures Successes(execs[..k]) == Successes(execs[..k - 1]) + 1
  {
    assert execs[..k][..k - 1] == execs[..k - 1];
  }

  /** A success that was not the last one left something of both budgets. */
  lemma BelowLimit(s: State, b: Budget, j: nat, k: nat)
    requires Account(s, b) && b.calls >= 1 && b.bytes >= 1 && j < k <= |s.executed|
    requires j > 0 ==> !s.executed[j - 1].failed
    ensures Successes(s.executed[..j]) < b.calls && SuccessBytes(s.executed[..j]) < b.bytes
  {
    SuccessBounds(s.executed[..j]);
    if j > 0 { assert !Spent(b, s.executed, j); }
  }

  /** However calls fail in between: at most as many calls succeed as the budget allows,
      and all successful results but the last stay below the byte budget. */
  lemma BudgetHolds(s: State, b: Budget)
    requires Account(s, b) && b.calls >= 1 && b.bytes >= 1
    ensures Successes(s.executed) <= b.calls
    ensures var k := LastSuccess(s.executed, |s.executed|);
      k > 0 ==> SuccessBytes(s.executed[..k - 1]) < b.bytes
  {
    var execs := s.executed;
    var n := |execs|;
    var k := LastSuccess(execs, n);
    assert execs[..n] == execs && execs[..0] == [] && Successes([]) == 0;
    hide Successes, SuccessBytes, Account, Spent, Total, LastSuccess;
    FailuresAddNothing(execs, k, n);
    if k > 0 {
      SuccessCounts(execs, k);
      var j := LastSuccess(execs, k - 1);
      FailuresAddNothing(execs, j, k - 1);
      BelowLimit(s, b, j, k);
    }
  }

  // ---- Steps ----

  lemma TotalSnoc(execs: seq<Exec>, e: Exec)
    ensures Total(execs + [e]) == Total(execs) + e.bytes
  {
    assert (execs + [e])[..|execs|] == execs;
  }

  lemma SpentPrefix(b: Budget, execs: seq<Exec>, e: Exec, n: nat)
    requires n <= |execs|
    ensures Spent(b, execs + [e], n) == Spent(b, execs, n)
  {
    assert (execs + [e])[..n] == execs[..n];
  }

  /** One more vault call, made while the budget was not spent. */
  lemma Charge(s: State, b: Budget, e: Exec, t: State)
    requires Account(s, b) && !s.force
    requires t.executed == s.executed + [e] && t.calls == s.calls - 1 && t.bytes == s.bytes - e.bytes
    requires t.force == (!e.failed && (t.calls <= 0 || t.bytes <= 0))
    requires t.force ==> t.termination == if t.calls <= 0 then CallsExceeded else BytesExceeded
    ensures Account(t, b)
  {
    TotalSnoc(s.executed, e);
    var n := |s.executed|;
    assert t.executed[..n + 1] == t.executed;
    forall k | 0 <= k < n && !t.executed[k].failed ensures !Spent(b, t.executed, k + 1) {
      SpentPrefix(b, s.executed, e, k + 1);
      assert t.executed[k] == s.executed[k];
      if k == n - 1 { assert !Spent(b, s.executed, n); }
    }
  }

  function Recorded(s: State, tool: string, error: bool, bytes: nat): seq<Record> {
    s.records + [Record(|s.records| + 1, tool, error, bytes, Positive(s.calls), Positive(s.bytes))]
  }

  /** A call answered without being executed. */
  function Refused(s: State, call: Call, text: string): State {
    s.(messages := s.messages + [ToolMessage(call.id, text)], records := Recorded(s, call.name, true, 0))
  }

  /** A vault call: charged whatever comes of it; only a success meets the budget gate. */
  function Charged(s: State, call: Call): State {
    var e := call.exec;
    var left := s.(calls := s.calls - 1, bytes := s.bytes - e.bytes, executed := s.executed + [e]);
    var gone := !e.failed && (left.calls <= 0 || left.bytes <= 0);
    left.(records := Recorded(left, call.name, e.failed, e.bytes),
          messages := s.messages + [ToolMessage(call.id, e.content)],
          force := s.force || gone,
          termination := if !gone then s.termination else if left.calls <= 0 then CallsExceeded else BytesExceeded)
  }

  lemma ChargedKeeps(s: State, b: Budget, call: Call)
    requires Inv(s, b) && !s.force
    ensures Inv(Charged(s, call), b)
  {
    Charge(s, b, call.exec, Charged(s, call));
    hide Account;
  }

  // ---- What a call, a reply and a round amount to ----

  /** The state a step ends in, and the verdict if it ended the run. */
  datatype Step = Step(state: State, verdict: Option<Verdict>)

  const INVALID: string := "submit_result arguments invalid"
  const EXHAUSTED: string := "budget exhausted; call submit_result with what you have"
  const FORBIDDEN: string := "tool not allowed for this Skill"
  const REMINDER: string := "Reminder: this run requires structured output."

  function CallStep(cfg: Config, s: State, call: Call): Step {
    if call.name == SUBMIT then
      if call.submitOk then
        Step(s, Some(if s.force then Verdict(Partial, s.termination) else Verdict(Finished, Natural)))
      else if s.violations + 1 >= cfg.maxViolations then
        Step(s.(violations := s.violations + 1), Some(Verdict(Broken, Protocol)))
      else
        Step(s.(violations := s.violations + 1, messages := s.messages + [ToolMessage(call.id, INVALID)]), None)
    else if s.force then Step(Refused(s, call, EXHAUSTED), None)
    else if call.name !in cfg.tools then Step(Refused(s, call, FORBIDDEN), None)
    else Step(Charged(s, call), None)
  }

  function CallsStep(cfg: Config, s: State, calls: seq<Call>): Step {
    if calls == [] then Step(s, None)
    else
      var r := CallsStep(cfg, s, calls[..|calls| - 1]);
      if r.verdict.Some? then r else CallStep(cfg, r.state, calls[|calls| - 1])
  }

  function MessageOf(reply: Reply): Message
    requires reply.Choice?
  {
    Message(reply.role, reply.content, CallIds(reply.calls), "")
  }

  function ReplyStep(cfg: Config, s: State, reply: Reply): Step {
    if reply.ClientError? then Step(s, Some(Verdict(Broken, if reply.expired then WallClock else Error)))
    else if reply.NoChoices? then Step(s, Some(Verdict(Broken, Protocol)))
    else if reply.calls == [] then
      if s.violations + 1 >= cfg.maxViolations then
        Step(s.(violations := s.violations + 1), Some(Verdict(Broken, Protocol)))
      else
        var reminder := Message(System, REMINDER, [], "");
        Step(s.(violations := s.violations + 1, messages := s.messages + [MessageOf(reply), reminder]), None)
    else CallsStep(cfg, s.(violations := 0, messages := s.messages + [MessageOf(reply)]), reply.calls)
  }

  /** The request a round sends: no old note, and a new one at the end. */
  function RequestOf(s: State, turn: Turn): seq<Message> {
    WithoutNotes(s.messages)
    + [Message(System, NoteText(Positive(s.calls), Positive(s.bytes), turn.wallLeft, s.force), [], "")]
  }

  function RoundStep(cfg: Config, s: State, turn: Turn): Step {
    if turn.expired then Step(s, Some(Verdict(Broken, WallClock)))
    else
      var r := ReplyStep(cfg, s.(messages := RequestOf(s, turn)), turn.reply);
      if r.verdict.None? && turn.reply.Choice? && turn.reply.calls != [] && turn.overAfter
      then Step(r.state, Some(Verdict(Broken, WallClock))) else r
  }

  function Start(b: Budget, initial: seq<Message>): State {
    State(initial, b.calls, b.bytes, false, 0, [], Error, [])
  }

  /** Where the run is after `n` rounds, or where it ended before. */
  function AfterRounds(cfg: Config, s: State, turns: seq<Turn>, n: nat): Step
    requires n <= |turns|
  {
    if n == 0 then Step(s, None)
    else
      var r := AfterRounds(cfg, s, turns, n - 1);
      if r.verdict.Some? then r else RoundStep(cfg, r.state, turns[n - 1])
  }

  /** Round `k` gets as far as sending its request. */
  predicate Sends(cfg: Config, s: State, turns: seq<Turn>, k: nat)
    requires k < |turns|
  {
    AfterRounds(cfg, s, turns, k).verdict.None? && !turns[k].expired
  }

  /** The requests sent in the first `n` rounds. */
  function Requests(cfg: Config, s: State, turns: seq<Turn>, n: nat): (rs: seq<seq<Message>>)
    requires n <= |turns|
    ensures |rs| <= n
  {
    if n == 0 then []
    else
      var rs := Requests(cfg, s, turns, n - 1);
      if Sends(cfg, s, turns, n - 1)
      then rs + [RequestOf(AfterRounds(cfg, s, turns, n - 1).state, turns[n - 1])]
      else rs
  }

  /** The `k`-th request is that of round `k`, until the run is over. */
  lemma {:induction false} RequestsAt(cfg: Config, s: State, turns: seq<Turn>, n: nat)
    requires n <= |turns|
    ensures var rs := Requests(cfg, s, turns, n);
      && (forall k :: 0 <= k < n ==> (k < |rs| <==> Sends(cfg, s, turns, k)))
      && (forall k :: 0 <= k < |rs| ==> rs[k] == RequestOf(AfterRounds(cfg, s, turns, k).state, turns[k]))
      && (AfterRounds(cfg, s, turns, n).verdict.None? ==> |rs| == n)
    decreases n
  {
    hide RequestOf, RoundStep, AfterRounds, Requests;
    NoRounds(cfg, s, turns);
    if n > 0 {
      RequestsAt(cfg, s, turns, n - 1);
      OneRound(cfg, s, turns, n - 1);
      Onwards(cfg, s, turns, n - 1);
    }
  }

  lemma NoRounds(cfg: Config, s: State, turns: seq<Turn>)
    ensures AfterRounds(cfg, s, turns, 0) == Step(s, None) && Requests(cfg, s, turns, 0) == []
  {}

  lemma OneRound(cfg: Config, s: State, turns: seq<Turn>, n: nat)
    requires n < |turns|
    ensures var r, rs := AfterRounds(cfg, s, turns, n), Requests(cfg, s, turns, n);
      && AfterRounds(cfg, s, turns, n + 1) == (if r.verdict.Some? then r else RoundStep(cfg, r.state, turns[n]))
      && Requests(cfg, s, turns, n + 1) ==
         (if r.verdict.None? && !turns[n].expired then rs + [RequestOf(r.state, turns[n])] else rs)
  {
    hide RequestOf, RoundStep;
  }

  /** A run that goes on after `n` rounds got through all of them. */
  lemma Onwards(cfg: Config, s: State, turns: seq<Turn>, n: nat)
    requires n < |turns|
    ensures AfterRounds(cfg, s, turns, n + 1).verdict.None? ==> Sends(cfg, s, turns, n)
  {
    hide RequestOf, ReplyStep, AfterRounds, Requests;
    OneRound(cfg, s, turns, n);
  }

  lemma {:induction false} OverStays(cfg: Config, s: State, turns: seq<Turn>, n: nat, m: nat)
    requires n <= m <= |turns| && AfterRounds(cfg, s, turns, n).verdict.Some?
    ensures AfterRounds(cfg, s, turns, m) == AfterRounds(cfg, s, turns, n)
    ensures Requests(cfg, s, turns, m) == Requests(cfg, s, turns, n)
    decreases m
  {
    hide RequestOf, RoundStep, AfterRounds, Requests;
    if n < m {
      OverStays(cfg, s, turns, n, m - 1);
      OneRound(cfg, s, turns, m - 1);
    }
  }

  // ---- What the steps keep ----

  lemma CallKeeps(cfg: Config, b: Budget, s: State, call: Call)
    requires Inv(s, b)
    ensures var r := CallStep(cfg, s, call);
      && Inv(r.state, b) && s.executed <= r.state.executed
      && (s.force ==> r.state.force && r.state.executed == s.executed)
      && (r.verdict.Some? ==> Fits(r.verdict.value) && (r.verdict.value.status == Partial ==> r.state.force))
      && (r.verdict.None? ==> exists text :: r.state.messages == s.messages + [ToolMessage(call.id, text)])
  {
    hide Account;
    ForcedEnds(s, b);
    ViolationsApart(s, s.violations + 1, b);
    MessagesApart(s.(violations := s.violations + 1), s.messages + [ToolMessage(call.id, INVALID)], b);
    if call.name != SUBMIT {
      if s.force {
        RefusedKeeps(s, b, call, EXHAUSTED);
      } else if call.name !in cfg.tools {
        RefusedKeeps(s, b, call, FORBIDDEN);
      } else {
        ChargedKeeps(s, b, call);
      }
    }
  }

  lemma RefusedKeeps(s: State, b: Budget, call: Call, text: string)
    requires Inv(s, b)
    ensures Inv(Refused(s, call, text), b)
    ensures exists t :: Refused(s, call, text).messages == s.messages + [ToolMessage(call.id, t)]
  {}

  lemma {:induction false} CallsKeep(cfg: Config, b: Budget, s: State, calls: seq<Call>)
    requires Inv(s, b)
    ensures var r := CallsStep(cfg, s, calls);
      && Inv(r.state, b) && s.executed <= r.state.executed
      && (s.force ==> r.state.force && r.state.executed == s.executed)
      && (r.verdict.Some? ==> Fits(r.verdict.value) && (r.verdict.value.status == Partial ==> r.state.force))
      && (r.verdict.None? ==>
        s.messages <= r.state.messages && Answers(CallIds(calls), r.state.messages[|s.messages|..]))
    decreases |calls|
  {
    hide Inv, CallStep, Fits;
    if calls != [] {
      var n := |calls| - 1;
      CallsKeep(cfg, b, s, calls[..n]);
      var r := CallsStep(cfg, s, calls[..n]);
      if r.verdict.None? {
        CallKeeps(cfg, b, r.state, calls[n]);
        var t := CallStep(cfg, r.state, calls[n]);
        if t.verdict.None? {
          assert CallIds(calls)[..n] == CallIds(calls[..n]);
          assert CallIds(calls)[..n + 1] == CallIds(calls);
          AnswerMore(s.messages, r.state.messages, t.state.messages, CallIds(calls), n);
        }
      }
    }
  }

  lemma CallsOne(cfg: Config, s: State, calls: seq<Call>, i: nat)
    requires i < |calls|
    ensures var r := CallsStep(cfg, s, calls[..i]);
      CallsStep(cfg, s, calls[..i + 1]) == if r.verdict.Some? then r else CallStep(cfg, r.state, calls[i])
  {
    assert calls[..i + 1][..i] == calls[..i];
    hide CallStep;
  }

  lemma {:induction false} CallsOver(cfg: Config, s: State, calls: seq<Call>, n: nat)
    requires n <= |calls| && CallsStep(cfg, s, calls[..n]).verdict.Some?
    ensures CallsStep(cfg, s, calls) == CallsStep(cfg, s, calls[..n])
    decreases |calls|
  {
    hide CallStep;
    if n < |calls| {
      assert calls[..|calls| - 1][..n] == calls[..n];
      CallsOver(cfg, s, calls[..|calls| - 1], n);
    } else {
      assert calls[..n] == calls;
    }
  }

  lemma ForcedEnds(s: State, b: Budget)
    requires Account(s, b)
    ensures s.force ==> s.termination == CallsExceeded || s.termination == BytesExceeded
  {}

  lemma ViolationsApart(s: State, n: int, b: Budget)
    requires Account(s, b)
    ensures Account(s.(violations := n), b)
  {}

  lemma MessagesApart(s: State, ms: seq<Message>, b: Budget)
    requires Account(s, b)
    ensures Account(s.(messages := ms), b)
  {}

  lemma AnswerMore(base: seq<Message>, before: seq<Message>, after: seq<Message>, ids: seq<string>, i: nat)
    requires i < |ids| && base <= before && Answers(ids[..i], before[|base|..])
    requires exists text :: after == before + [ToolMessage(ids[i], text)]
    ensures base <= after && Answers(ids[..i + 1], after[|base|..])
  {
    var text :| after == before + [ToolMessage(ids[i], text)];
    assert after[|base|..] == before[|base|..] + [ToolMessage(ids[i], text)];
    assert ids[..i + 1] == ids[..i] + [ids[i]];
  }

  // ---- The loop ----

  const FINISH: string := "\nYou must call submit_result now with what you have."

  /** The budget line, and the order to finish once the budget is gone. */
  function NoteText(calls: nat, bytes: nat, seconds: nat, force: bool): (r: string)
    ensures HasPrefix(r, "[budget]") && (force <==> HasSuffix(r, FINISH))
  {
    var line := "[budget]" + (" tool_calls_left=" + Decimal(calls) + ", bytes_left=" + Decimal(bytes)
                              + ", wall_clock_left=" + Decimal(seconds) + "s");
    if force then
      assert (line + FINISH)[|line|..] == FINISH;
      line + FINISH
    else
      assert line[|line| - 1] == 's' && FINISH[|FINISH| - 1] == '.';
      assert |FINISH| <= |line| ==> line[|line| - |FINISH|..][|FINISH| - 1] == 's';
      line
  }

  /** A request as it should be: calls answered, one budget note, at the end. */
  predicate GoodRequest(ms: seq<Message>, strict: bool) {
    && Paired(ms, strict)
    && ms != [] && IsNote(ms[|ms| - 1])
    && forall i :: 0 <= i < |ms| - 1 ==> !IsNote(ms[i])
  }

  /** What the message list keeps between rounds. */
  predicate Tidy(ms: seq<Message>, strict: bool) {
    Paired(ms, strict) && (strict ==> forall m :: m in ms && IsNote(m) ==> m.calls == [])
  }

  lemma TidyAppend(ms: seq<Message>, m: Message, answers: seq<Message>, strict: bool)
    requires Tidy(ms, strict) && Answers(m.calls, answers)
    requires strict ==> m.role != Tool && (IsNote(m) ==> m.calls == [])
    ensures Tidy(ms + ([m] + answers), strict)
  {
    PairedOne(m, answers, strict);
    PairedAppend(ms, [m] + answers, strict);
    hide Paired;
    forall x | x in answers ensures !IsNote(x) {
      var k :| 0 <= k < |answers| && answers[k] == x;
    }
  }

  lemma Requested(ms: seq<Message>, text: string, strict: bool)
    requires Tidy(ms, strict) && HasPrefix(text, "[budget]")
    ensures var r := WithoutNotes(ms) + [Message(System, text, [], "")];
      GoodRequest(r, strict) && Tidy(r, strict)
  {
    PairedWithoutNotes(ms, strict);
    var note := Message(System, text, [], "");
    PairedOne(note, [], strict);
    assert [note] + [] == [note];
    PairedAppend(WithoutNotes(ms), [note], strict);
    hide Paired;
    var kept := WithoutNotes(ms);
    forall i | 0 <= i < |kept| ensures !IsNote((kept + [note])[i]) { assert kept[i] in kept; }
  }

  /** A reply after which calls and answers still belong together: it is no tool message,
      and if it looks like a budget note it carries no calls. */
  predicate Tame(reply: Reply) {
    reply.Choice? ==>
      reply.role != Tool && !(reply.role == System && HasPrefix(reply.content, "[budget]") && reply.calls != [])
  }

  /** What a reply that does not end the run leaves behind. */
  lemma ReplyShape(cfg: Config, b: Budget, s: State, reply: Reply) returns (answers: seq<Message>)
    requires Inv(s, b) && ReplyStep(cfg, s, reply).verdict.None?
    ensures reply.Choice? && ReplyStep(cfg, s, reply).state.messages == s.messages + ([MessageOf(reply)] + answers)
    ensures if reply.calls == [] then answers == [Message(System, REMINDER, [], "")]
            else Answers(CallIds(reply.calls), answers)
  {
    hide Inv, Answers;
    if reply.calls == [] {
      answers := [Message(System, REMINDER, [], "")];
      assert s.messages + [MessageOf(reply), answers[0]] == s.messages + ([MessageOf(reply)] + answers);
    } else {
      var m := MessageOf(reply);
      InvApart(s, 0, s.messages + [m], b);
      CallsKeep(cfg, b, s.(violations := 0, messages := s.messages + [m]), reply.calls);
      var all := CallsStep(cfg, s.(violations := 0, messages := s.messages + [m]), reply.calls).state.messages;
      answers := all[|s.messages| + 1..];
      SplitAfter(s.messages, m, all);
    }
  }

  lemma InvApart(s: State, n: int, ms: seq<Message>, b: Budget)
    requires Inv(s, b)
    ensures Inv(s.(violations := n, messages := ms), b)
  {}

  lemma SplitAfter(a: seq<Message>, m: Message, all: seq<Message>)
    requires a + [m] <= all
    ensures all == a + ([m] + all[|a| + 1..])
    ensures all[|a| + 1..] == all[|a + [m]|..]
  {}

  lemma ReplyKeeps(cfg: Config, b: Budget, s: State, reply: Reply)
    requires Inv(s, b)
    ensures var r := ReplyStep(cfg, s, reply);
      && Inv(r.state, b) && s.executed <= r.state.executed
      && (s.force ==> r.state.force && r.state.executed == s.executed)
      && (r.verdict.Some? ==> Fits(r.verdict.value) && (r.verdict.value.status == Partial ==> r.state.force))
  {
    hide Inv;
    InvApart(s, s.violations + 1, s.messages, b);
    if reply.Choice? {
      if reply.calls == [] {
        InvApart(s, s.violations + 1, s.messages + [MessageOf(reply), Message(System, REMINDER, [], "")], b);
        assert s.(violations := s.violations + 1) == s.(violations := s.violations + 1, messages := s.messages);
      } else {
        InvApart(s, 0, s.messages + [MessageOf(reply)], b);
        CallsKeep(cfg, b, s.(violations := 0, messages := s.messages + [MessageOf(reply)]), reply.calls);
        hide Fits;
      }
    }
  }

  lemma ReplyTidy(cfg: Config, b: Budget, s: State, reply: Reply, strict: bool)
    requires Inv(s, b) && ReplyStep(cfg, s, reply).verdict.None?
    requires Tidy(s.messages, strict) && (strict ==> Tame(reply))
    ensures Tidy(ReplyStep(cfg, s, reply).state.messages, strict)
  {
    hide Inv, Tidy, ReplyStep;
    var answers := ReplyShape(cfg, b, s, reply);
    var m := MessageOf(reply);
    if reply.calls == [] {
      TidyAppend(s.messages, m, [], strict);
      TidyAppend(s.messages + ([m] + []), answers[0], [], strict);
      assert s.messages + ([m] + []) + ([answers[0]] + []) == s.messages + ([m] + answers);
    } else {
      TidyAppend(s.messages, m, answers, strict);
    }
  }

  // ---- The whole run ----

  predicate Plain(initial: seq<Message>) {
    forall m :: m in initial ==> m.calls == [] && m.role != Tool && !IsNote(m)
  }

  lemma {:induction false} RunKeeps(cfg: Config, b: Budget, initial: seq<Message>, turns: seq<Turn>, n: nat)
    requires n <= |turns| && Plain(initial)
    ensures var r := AfterRounds(cfg, Start(b, initial), turns, n);
      && Inv(r.state, b)
      && (r.verdict.Some? ==> Fits(r.verdict.value) && (r.verdict.value.status == Partial ==> r.state.force))
      && (r.verdict.None? ==> Tidy(r.state.messages, false))
      && (r.verdict.None? && (forall k :: 0 <= k < n ==> Tame(turns[k].reply)) ==> Tidy(r.state.messages, true))
    decreases n
  {
    hide Inv, Tidy, Tame, Plain, Fits, RoundStep, Start, AfterRounds, Requests;
    var s0 := Start(b, initial);
    if n == 0 {
      NoRounds(cfg, s0, turns);
      StartKeeps(b, initial);
    } else {
      RunKeeps(cfg, b, initial, turns, n - 1);
      OneRound(cfg, s0, turns, n - 1);
      var r := AfterRounds(cfg, s0, turns, n - 1);
      if r.verdict.None? { RoundKeeps(cfg, b, r.state, turns[n - 1]); }
    }
  }

  lemma StartKeeps(b: Budget, initial: seq<Message>)
    requires Plain(initial)
    ensures var s := Start(b, initial); Inv(s, b) && Tidy(s.messages, false) && Tidy(s.messages, true)
  {
    StartTidy(initial, false);
    StartTidy(initial, true);
    hide Tidy, Plain;
  }

  lemma RoundKeeps(cfg: Config, b: Budget, s: State, turn: Turn)
    requires Inv(s, b)
    ensures var r := RoundStep(cfg, s, turn);
      && Inv(r.state, b)
      && (r.verdict.Some? ==> Fits(r.verdict.value) && (r.verdict.value.status == Partial ==> r.state.force))
      && (r.verdict.None? && Tidy(s.messages, false) ==> Tidy(r.state.messages, false))
      && (r.verdict.None? && Tidy(s.messages, true) && Tame(turn.reply) ==> Tidy(r.state.messages, true))
  {
    EarlyEnd();
    hide Inv, Tidy, Tame, Fits, ReplyStep;
    if !turn.expired {
      var q := s.(messages := RequestOf(s, turn));
      InvMessages(s, RequestOf(s, turn), b);
      ReplyKeeps(cfg, b, q, turn.reply);
      if Tidy(s.messages, false) { RequestGood(s, turn, false); }
      if Tidy(s.messages, true) { RequestGood(s, turn, true); }
      if ReplyStep(cfg, q, turn.reply).verdict.None? {
        if Tidy(q.messages, false) { ReplyTidy(cfg, b, q, turn.reply, false); }
        if Tidy(q.messages, true) && Tame(turn.reply) { ReplyTidy(cfg, b, q, turn.reply, true); }
      }
    }
  }

  lemma RequestGood(s: State, turn: Turn, strict: bool)
    requires Tidy(s.messages, strict)
    ensures GoodRequest(RequestOf(s, turn), strict) && Tidy(RequestOf(s, turn), strict)
  {
    hide GoodRequest, Tidy;
    Requested(s.messages, NoteText(Positive(s.calls), Positive(s.bytes), turn.wallLeft, s.force), strict);
  }

  lemma EarlyEnd()
    ensures Fits(Verdict(Broken, WallClock))
  {}

  lemma InvMessages(s: State, ms: seq<Message>, b: Budget)
    requires Inv(s, b)
    ensures Inv(s.(messages := ms), b)
  {}

  lemma {:induction false} StartTidy(ms: seq<Message>, strict: bool)
    requires Plain(ms)
    ensures Tidy(ms, strict)
  {
    hide IsNote;
    if ms != [] {
      assert ms[0] in ms && forall m :: m in ms[1..] ==> m in ms;
      StartTidy(ms[1..], strict);
      assert ms[1..1] == [];
    }
  }

  lemma {:induction false} PairedTail(a: seq<Message>, rest: seq<Message>)
    requires Paired(a, false) && Paired(a + rest, true)
    ensures Paired(rest, true)
    decreases |a|
  {
    hide Answers;
    if a == [] {
      assert a + rest == rest;
    } else {
      var n := |a[0].calls|;
      assert (a + rest)[1 + n..] == a[1 + n..] + rest;
      PairedTail(a[1 + n..], rest);
    }
  }

  /** After a reply that is not tame, the next request holds a tool message that answers
      nothing: the reply itself, or the answers to the calls of the reply taken out. */
  lemma UntameStrays(cfg: Config, b: Budget, s: State, turn: Turn, next: Turn)
    requires Inv(s, b) && Tidy(s.messages, false) && RoundStep(cfg, s, turn).verdict.None? && !Tame(turn.reply)
    ensures !Paired(RequestOf(RoundStep(cfg, s, turn).state, next), true)
  {
    var q := RequestOf(s, turn);
    RequestGood(s, turn, false);
    var kept := WithoutNotes(q);
    PairedWithoutNotes(q, false);
    hide Inv, Tidy, Paired, WithoutNotes, ReplyStep;
    InvMessages(s, q, b);
    var answers := ReplyShape(cfg, b, s.(messages := q), turn.reply);
    var m := MessageOf(turn.reply);
    var t := RoundStep(cfg, s, turn).state;
    WithoutNotesAppend(q, [m] + answers);
    StrayFirst(m, answers);
    assert WithoutNotes(t.messages) == kept + WithoutNotes([m] + answers);
    hide RequestOf, Tame, RoundStep;
    StrayRequest(kept, WithoutNotes([m] + answers), t, next);
  }

  lemma StrayRequest(kept: seq<Message>, stray: seq<Message>, t: State, next: Turn)
    requires Paired(kept, false) && WithoutNotes(t.messages) == kept + stray && stray != [] && stray[0].role == Tool
    ensures !Paired(RequestOf(t, next), true)
  {
    hide WithoutNotes, Paired, NoteText;
    var r := RequestOf(t, next);
    var note := r[|kept + stray|];
    assert r == kept + (stray + [note]);
    if Paired(r, true) {
      PairedTail(kept, stray + [note]);
      PairedFirst(stray + [note]);
    }
  }

  lemma PairedFirst(ms: seq<Message>)
    requires ms != [] && Paired(ms, true)
    ensures ms[0].role != Tool
  {}

  lemma StrayFirst(m: Message, answers: seq<Message>)
    requires m.role == Tool || (IsNote(m) && m.calls != [] && Answers(m.calls, answers))
    ensures var r := WithoutNotes([m] + answers); r != [] && r[0].role == Tool
  {
    assert ([m] + answers)[1..] == answers;
    if m.role != Tool { AnswersStay(m.calls, answers); }
  }

  /** The exact condition for every tool message of every request to answer a call: all
      replies that another request follows are tame. */
  lemma StrictIff(cfg: Config, b: Budget, initial: seq<Message>, turns: seq<Turn>)
    requires Plain(initial)
    ensures var rs := Requests(cfg, Start(b, initial), turns, |turns|);
      (forall r :: r in rs ==> GoodRequest(r, true)) <==> (forall k :: 0 <= k < |rs| - 1 ==> Tame(turns[k].reply))
  {
    var s := Start(b, initial);
    var rs := Requests(cfg, s, turns, |turns|);
    RequestsAt(cfg, s, turns, |turns|);
    hide RequestOf, Tame, Plain, Requests, Start, Inv, RoundStep, Sends;
    if forall k :: 0 <= k < |rs| - 1 ==> Tame(turns[k].reply) {
      forall r | r in rs ensures GoodRequest(r, true) {
        var k :| 0 <= k < |rs| && rs[k] == r;
        SentStrictly(cfg, b, initial, turns, k);
      }
    }
    if forall r :: r in rs ==> GoodRequest(r, true) {
      forall k | 0 <= k < |rs| - 1 ensures Tame(turns[k].reply) {
        assert rs[k + 1] in rs;
        if !Tame(turns[k].reply) { NextStrays(cfg, b, initial, turns, k); }
      }
    }
  }

  lemma SentStrictly(cfg: Config, b: Budget, initial: seq<Message>, turns: seq<Turn>, k: nat)
    requires Plain(initial) && k < |turns| && Sends(cfg, Start(b, initial), turns, k)
    requires forall j :: 0 <= j < k ==> Tame(turns[j].reply)
    ensures GoodRequest(RequestOf(AfterRounds(cfg, Start(b, initial), turns, k).state, turns[k]), true)
  {
    hide RequestOf, Tame, Plain, Inv, Tidy, GoodRequest, AfterRounds;
    RunKeeps(cfg, b, initial, turns, k);
    RequestGood(AfterRounds(cfg, Start(b, initial), turns, k).state, turns[k], true);
  }

  lemma NextStrays(cfg: Config, b: Budget, initial: seq<Message>, turns: seq<Turn>, k: nat)
    requires Plain(initial) && k + 1 < |turns| && Sends(cfg, Start(b, initial), turns, k + 1) && !Tame(turns[k].reply)
    ensures !GoodRequest(RequestOf(AfterRounds(cfg, Start(b, initial), turns, k + 1).state, turns[k + 1]), true)
  {
    hide RequestOf, Tame, Plain, Inv, Tidy, RoundStep, Paired;
    RunKeeps(cfg, b, initial, turns, k);
    UntameStrays(cfg, b, AfterRounds(cfg, Start(b, initial), turns, k).state, turns[k], turns[k + 1]);
  }

  lemma AtOnce(cfg: Config, s: State, turn: Turn)
    requires turn.expired
    ensures RoundStep(cfg, s, turn) == Step(s, Some(Verdict(Broken, WallClock)))
  {}

  lemma AllGood(cfg: Config, b: Budget, initial: seq<Message>, turns: seq<Turn>)
    requires Plain(initial)
    ensures forall r :: r in Requests(cfg, Start(b, initial), turns, |turns|) ==> GoodRequest(r, false)
  {
    var rs := Requests(cfg, Start(b, initial), turns, |turns|);
    RequestsAt(cfg, Start(b, initial), turns, |turns|);
    hide RequestOf, Plain, Requests, GoodRequest, AfterRounds, Start;
    forall r | r in rs ensures GoodRequest(r, false) {
      var k :| 0 <= k < |rs| && rs[k] == r;
      assert Sends(cfg, Start(b, initial), turns, k);
      SentWell(cfg, b, initial, turns, k);
    }
  }

  lemma SentWell(cfg: Config, b: Budget, initial: seq<Message>, turns: seq<Turn>, k: nat)
    requires Plain(initial) && k < |turns| && Sends(cfg, Start(b, initial), turns, k)
    ensures GoodRequest(RequestOf(AfterRounds(cfg, Start(b, initial), turns, k).state, turns[k]), false)
  {
    hide RequestOf, Tame, Plain, Inv, Tidy, GoodRequest, AfterRounds;
    RunKeeps(cfg, b, initial, turns, k);
    RequestGood(AfterRounds(cfg, Start(b, initial), turns, k).state, turns[k], false);
  }

  /** A run in which the model dresses up its first reply, with one call of any other tool,
      as a budget note: the second request is without the reply, but with its answer. */
  lemma DisguisedReplyStrays(cfg: Config, b: Budget, initial: seq<Message>, call: Call, left: nat, next: Turn)
    requires Plain(initial) && call.name != SUBMIT && !next.expired
    ensures var turns := [Turn(false, Choice(System, "[budget]", [call]), left, false), next];
      var rs := Requests(cfg, Start(b, initial), turns, 2);
      |rs| == 2 && GoodRequest(rs[0], true) && !GoodRequest(rs[1], true)
  {
    var turns := [Turn(false, Choice(System, "[budget]", [call]), left, false), next];
    var s := Start(b, initial);
    assert AfterRounds(cfg, s, turns, 0) == Step(s, None);
    var q := s.(messages := RequestOf(s, turns[0]));
    var asked := q.(violations := 0, messages := q.messages + [MessageOf(turns[0].reply)]);
    assert [call][..0] == [] && CallsStep(cfg, asked, []) == Step(asked, None);
    assert CallsStep(cfg, asked, [call]) == CallStep(cfg, asked, call);
    assert AfterRounds(cfg, s, turns, 1) == RoundStep(cfg, s, turns[0]);
    assert Sends(cfg, s, turns, 0) && Sends(cfg, s, turns, 1);
    RequestsAt(cfg, s, turns, 2);
    SentStrictly(cfg, b, initial, turns, 0);
    NextStrays(cfg, b, initial, turns, 0);
  }
}
