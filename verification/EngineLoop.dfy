/** The loop itself: Run of internal/agent/tool_calling_engine.go, step by step. */
module EngineLoop {
  import opened Text
  import opened Engine
  import opened EngineMeaning

  method Refuse(s: State, call: Call, text: string) returns (t: State)
    ensures t == Refused(s, call, text)
  {
    t := s.(messages := s.messages + [ToolMessage(call.id, text)]);
    t := t.(records := Recorded(s, call.name, true, 0));
  }

  method CallVault(s: State, b: Budget, call: Call) returns (t: State)
    requires Inv(s, b) && !s.force
    ensures t == Charged(s, call) && Inv(t, b)
  {
    var e := call.exec;
    t := s.(calls := s.calls - 1, bytes := s.bytes - e.bytes, executed := s.executed + [e]);
    t := t.(records := Recorded(t, call.name, e.failed, e.bytes));
    t := t.(messages := s.messages + [ToolMessage(call.id, e.content)]);
    if !e.failed && (t.calls <= 0 || t.bytes <= 0) {
      t := t.(force := true, termination := if t.calls <= 0 then CallsExceeded else BytesExceeded);
    }
    ChargedKeeps(s, b, call);
  }

  /** One call of a reply. */
  method Answer(cfg: Config, b: Budget, s: State, call: Call) returns (t: State, verdict: Option<Verdict>)
    requires Inv(s, b)
    ensures Step(t, verdict) == CallStep(cfg, s, call)
  {
    hide Inv, Charged, Refused;
    if call.name == SUBMIT {
      if call.submitOk {
        return s, Some(if s.force then Verdict(Partial, s.termination) else Verdict(Finished, Natural));
      }
      t := s.(violations := s.violations + 1);
      if t.violations >= cfg.maxViolations { return t, Some(Verdict(Broken, Protocol)); }
      t := t.(messages := t.messages + [ToolMessage(call.id, INVALID)]);
    } else if s.force {
      t := Refuse(s, call, EXHAUSTED);
    } else if call.name !in cfg.tools {
      t := Refuse(s, call, FORBIDDEN);
    } else {
      t := CallVault(s, b, call);
    }
    return t, None;
  }

  /** The calls of one reply, in order, until one of them ends the run. */
  method Dispatch(cfg: Config, b: Budget, s: State, calls: seq<Call>)
      returns (t: State, verdict: Option<Verdict>, ghost ran: seq<nat>, ghost logged: seq<nat>)
    requires Inv(s, b) && s.violations == 0
    ensures CallsAre(cfg, s, calls, |calls|, Step(t, verdict), ran, logged)
    ensures Step(t, verdict) == CallsStep(cfg, s, calls)
    ensures Inv(t, b) && s.executed <= t.executed && (s.force ==> t.executed == s.executed)
    ensures verdict.Some? ==> Fits(verdict.value) && (verdict.value.status == Partial ==> t.force)
    ensures verdict.None? ==> s.messages <= t.messages && Answers(CallIds(calls), t.messages[|s.messages|..])
  {
    t, verdict := s, None;
    assert calls[..0] == [] && calls[..|calls|] == calls && CallsStep(cfg, s, []) == Step(s, None);
    hide *;
    for i := 0 to |calls|
      invariant Inv(t, b) && CallsStep(cfg, s, calls[..i]) == Step(t, None) && verdict == None
    {
      CallsOne(cfg, s, calls, i);
      CallKeeps(cfg, b, t, calls[i]);
      t, verdict := Answer(cfg, b, t, calls[i]);
      if verdict.Some? {
        CallsOver(cfg, s, calls, i + 1);
        break;
      }
    }
    CallsKeep(cfg, b, s, calls);
    ran, logged := CallsMean(cfg, s, calls, |calls|);
  }

  /** One reply of the model: a text is answered by a reminder, calls are dispatched. */
  method Respond(cfg: Config, b: Budget, s: State, reply: Reply) returns (t: State, verdict: Option<Verdict>)
    requires Inv(s, b)
    ensures Step(t, verdict) == ReplyStep(cfg, s, reply)
    ensures Inv(t, b) && s.executed <= t.executed && (s.force ==> t.executed == s.executed)
    ensures verdict.Some? ==> Fits(verdict.value) && (verdict.value.status == Partial ==> t.force)
    ensures forall strict :: Tidy(s.messages, strict) && (strict ==> Tame(reply)) && verdict.None? ==>
      Tidy(t.messages, strict)
  {
    ReplyKeeps(cfg, b, s, reply);
    forall strict | Tidy(s.messages, strict) && (strict ==> Tame(reply)) && ReplyStep(cfg, s, reply).verdict.None?
      ensures Tidy(ReplyStep(cfg, s, reply).state.messages, strict)
    {
      ReplyTidy(cfg, b, s, reply, strict);
    }
    hide Inv, Tidy, Tame, Fits, CallsAre;
    if reply.ClientError? {
      return s, Some(Verdict(Broken, if reply.expired then WallClock else Error));
    }
    if reply.NoChoices? { return s, Some(Verdict(Broken, Protocol)); }
    var m := Message(reply.role, reply.content, CallIds(reply.calls), "");
    if reply.calls == [] {
      t := s.(violations := s.violations + 1);
      if t.violations >= cfg.maxViolations { return t, Some(Verdict(Broken, Protocol)); }
      t := t.(messages := t.messages + [m, Message(System, REMINDER, [], "")]);
      return t, None;
    }
    InvApart(s, 0, s.messages + [m], b);
    ghost var ran, logged;
    t, verdict, ran, logged := Dispatch(cfg, b, s.(violations := 0, messages := s.messages + [m]), reply.calls);
  }

  method SetBudgetSystemNote(messages: seq<Message>, text: string) returns (out: seq<Message>)
    ensures out == WithoutNotes(messages) + [Message(System, text, [], "")]
  {
    out := [];
    for i := 0 to |messages|
      invariant out == WithoutNotes(messages[..i])
    {
      assert messages[..i + 1] == messages[..i] + [messages[i]];
      WithoutNotesAppend(messages[..i], [messages[i]]);
      assert WithoutNotes([messages[i]]) == if IsNote(messages[i]) then [] else [messages[i]] by {
        assert [messages[i]][1..] == [];
      }
      if IsNote(messages[i]) { continue; }
      out := out + [messages[i]];
    }
    assert messages[..|messages|] == messages;
    out := out + [Message(System, text, [], "")];
  }

  /** A round in time: the request, the reply and what comes of it. */
  method Round(cfg: Config, b: Budget, s: State, turn: Turn)
      returns (t: State, verdict: Option<Verdict>, request: seq<Message>)
    requires Inv(s, b) && !turn.expired
    ensures request == RequestOf(s, turn) && Step(t, verdict) == RoundStep(cfg, s, turn)
  {
    hide Inv, Tidy, Fits, ReplyStep;
    request := SetBudgetSystemNote(s.messages, NoteText(Positive(s.calls), Positive(s.bytes), turn.wallLeft, s.force));
    InvMessages(s, request, b);
    t, verdict := Respond(cfg, b, s.(messages := request), turn.reply);
    if verdict.None? && turn.reply.Choice? && turn.reply.calls != [] && turn.overAfter {
      verdict := Some(Verdict(Broken, WallClock));
    }
  }

  /** Round after round, until one ends the run. */
  method Rounds(cfg: Config, b: Budget, initial: seq<Message>, turns: seq<Turn>)
      returns (s: State, ended: Option<Verdict>, requests: seq<seq<Message>>)
    requires Plain(initial)
    ensures Step(s, ended) == AfterRounds(cfg, Start(b, initial), turns, |turns|)
    ensures requests == Requests(cfg, Start(b, initial), turns, |turns|)
  {
    s := State(initial, b.calls, b.bytes, false, 0, [], Error, []);
    ghost var s0 := s;
    assert s0 == Start(b, initial);
    ended, requests := None, [];
    hide *;
    NoRounds(cfg, s0, turns);
    for i := 0 to |turns|
      invariant AfterRounds(cfg, s0, turns, i) == Step(s, None)
      invariant requests == Requests(cfg, s0, turns, i)
      invariant ended == None
    {
      RunKeeps(cfg, b, initial, turns, i);
      OneRound(cfg, s0, turns, i);
      if turns[i].expired {
        AtOnce(cfg, s, turns[i]);
        OverStays(cfg, s0, turns, i + 1, |turns|);
        return s, Some(Verdict(Broken, WallClock)), requests;
      }
      var request;
      s, ended, request := Round(cfg, b, s, turns[i]);
      requests := requests + [request];
      if ended.Some? {
        OverStays(cfg, s0, turns, i + 1, |turns|);
        return;
      }
    }
  }

  /** The whole run. The rounds listed are all there is time for; `places` are the calls
      executed and `logged` the calls recorded. */
  method Run(cfg: Config, b: Budget, initial: seq<Message>, turns: seq<Turn>)
      returns (verdict: Verdict, s: State, requests: seq<seq<Message>>,
               ghost places: seq<Place>, ghost logged: seq<Place>)
    requires Plain(initial)
    ensures RunIs(cfg, initial, turns, verdict, s, requests, places, logged)
    ensures var end := AfterRounds(cfg, Start(b, initial), turns, |turns|);
      s == end.state && verdict == if end.verdict.Some? then end.verdict.value else Verdict(Broken, WallClock)
    ensures requests == Requests(cfg, Start(b, initial), turns, |turns|)
    ensures Inv(s, b) && Fits(verdict) && (verdict.status == Partial ==> s.force)
    ensures forall r :: r in requests ==> GoodRequest(r, false)
    ensures (forall r :: r in requests ==> GoodRequest(r, true)) <==>
      (forall k :: 0 <= k < |requests| - 1 ==> Tame(turns[k].reply))
  {
    RunKeeps(cfg, b, initial, turns, |turns|);
    EarlyEnd();
    StrictIff(cfg, b, initial, turns);
    AllGood(cfg, b, initial, turns);
    places, logged := RunMeans(cfg, b, initial, turns);
    hide RunIs, Inv, Tidy, Fits, GoodRequest, Tame, Plain, AfterRounds, Requests, Start;
    var ended;
    s, ended, requests := Rounds(cfg, b, initial, turns);
    verdict := if ended.Some? then ended.value else Verdict(Broken, WallClock);
  }
}
