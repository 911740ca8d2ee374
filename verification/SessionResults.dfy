/** Main results on the session loop. */
module SessionResults {
  import opened Options
  import opened SessionLaws
  import opened SessionLoop
  import opened SessionState

  // ---------- trace ----------

  lemma AdvanceEvents(env: Env, mode: Mode, w: World, s: SessionState, message: Message)
    requires message.Assistant?
    ensures var next := Advance(env, mode, w, s, message);
            && w.events <= next.world.events
            && Sites(next.world.events) == Sites(w.events) + [ModelCall, ToolDispatch, TurnAdvance]
            && forall i | |w.events| <= i < |next.world.events| ::
                 var e := next.world.events[i]; s.messages <= e.1.messages && e.1.budget == s.budget
  {
    hide DispatchAll;
  }

  lemma FinishEvents(w: World, s: SessionState, message: Message, terminal: Terminal)
    ensures var out := Finish(w, s, message, terminal);
            && w.events <= out.world.events
            && Sites(out.world.events) == Sites(w.events) + [ModelCall, Terminate]
            && forall i | |w.events| <= i < |out.world.events| ::
                 var e := out.world.events[i]; s.messages <= e.1.messages && e.1.budget == s.budget
  {
  }

  /** The observer sees one regular trace; every snapshot extends the messages it started from. */
  lemma {:induction false} RunTrace(env: Env, mode: Mode, w: World, s: SessionState, left: nat)
    ensures var out := Run(env, mode, w, s, left);
            && w.events <= out.world.events
            && Rounds(s, out.state) >= 0
            && Sites(out.world.events) == Sites(w.events) + Trace(Rounds(s, out.state))
            && forall i | |w.events| <= i < |out.world.events| ::
                 var e := out.world.events[i]; s.messages <= e.1.messages && e.1.budget == s.budget
    decreases left
  {
    hide Run, Ask, AskFinal, Advance, Finish, Sites, DispatchAll, Answers, Trace;
    var out := Run(env, mode, w, s, left);
    AskFacts(env, mode, w, s.messages);
    var reply := if left == 0 then AskFinal(env, mode, w, s.messages) else Ask(env, mode, w, s.messages);
    if reply.dispatch {
      DispatchRun(env, mode, w, s, left);
      var tools := AdvanceFacts(env, mode, reply.world, s, reply.message);
      AdvanceEvents(env, mode, reply.world, s, reply.message);
      var next := Advance(env, mode, reply.world, s, reply.message);
      RunTrace(env, mode, next.world, next.state, left - 1);
      var rounds := Rounds(next.state, out.state);
      TraceStep(Sites(w.events), rounds);
    } else {
      FinishRun(env, mode, w, s, left);
      var terminal := if left == 0 then MaxToolRounds else Completed;
      FinishEvents(reply.world, s, reply.message, terminal);
      TraceStart();
    }
  }

  lemma TraceStep(before: seq<Transition>, rounds: nat)
    ensures before + [ModelCall, ToolDispatch, TurnAdvance] + Trace(rounds) == before + Trace(rounds + 1)
  {
  }

  lemma TraceStart()
    ensures Trace(0) == [ModelCall, Terminate]
  {
  }

  // ---------- streamed text ----------

  lemma AskYields(env: Env, mode: Mode, w: World, messages: seq<Message>)
    ensures forall reply <- [Ask(env, mode, w, messages), AskFinal(env, mode, w, messages)] ::
              if mode.Sync? then reply.world.yielded == w.yielded
              else reply.message.Assistant? && Concat(reply.world.yielded) == Concat(w.yielded) + reply.message.text
    ensures mode.Stream? ==> var reply := Ask(env, mode, w, messages); reply.dispatch == (reply.message.calls != [])
    ensures mode.Stream? ==> AskFinal(env, mode, w, messages).message.calls == []
  {
    hide TextDeltas, StreamCalls, Concat;
    if mode.Stream? {
      ConcatAppend(w.yielded, TextDeltas(env.stream(w.calls, messages, true)));
      ConcatAppend(w.yielded, TextDeltas(env.stream(w.calls, messages, false)));
    }
  }

  /**
   What streaming shows is the transcript's assistant texts, with a blank line after each dispatch
   round; the synchronous mode shows nothing.
   */
  lemma {:induction false} RunStreams(env: Env, mode: Mode, w: World, s: SessionState, left: nat)
    ensures var out := Run(env, mode, w, s, left);
            && s.messages <= out.state.messages
            && if mode.Sync? then out.world.yielded == w.yielded
               else Concat(out.world.yielded) == Concat(w.yielded) + Rendered(Added(s, out.state))
    decreases left
  {
    hide Ask, AskFinal, Advance, Concat, Transcript, Rendered, DispatchAll;
    var out := Run(env, mode, w, s, left);
    AskFacts(env, mode, w, s.messages);
    AskYields(env, mode, w, s.messages);
    RunTranscript(env, mode, w, s, left);
    var reply := if left == 0 then AskFinal(env, mode, w, s.messages) else Ask(env, mode, w, s.messages);
    if reply.dispatch {
      var next := Advance(env, mode, reply.world, s, reply.message);
      RunStreams(env, mode, next.world, next.state, left - 1);
      RoundYields(env, mode, reply.world, s, reply.message, out.state);
      Associate(Concat(w.yielded), reply.message.text, "\n\n", Rendered(Added(next.state, out.state)));
    } else {
      FinishRun(env, mode, w, s, left);
      assert Added(s, out.state) == [reply.message];
      SingleRendered(reply.message);
      assert reply.message.text + "" == reply.message.text;
    }
  }

  lemma Associate(a: string, b: string, c: string, d: string)
    ensures a + b + c + d == a + (b + c + d)
  {
    assert a + b + c == a + (b + c);
  }

  lemma RoundYields(env: Env, mode: Mode, w: World, s: SessionState, message: Message, out: SessionState)
    requires message.Assistant? && message.calls != []
    requires Advance(env, mode, w, s, message).state.messages <= out.messages
    ensures var next := Advance(env, mode, w, s, message);
            && s.messages <= out.messages
            && Rendered(Added(s, out)) == message.text + "\n\n" + Rendered(Added(next.state, out))
            && if mode.Sync? then next.world.yielded == w.yielded
               else Concat(next.world.yielded) == Concat(w.yielded) + "\n\n"
  {
    hide Advance, Concat, Rendered;
    var tools := AdvanceFacts(env, mode, w, s, message);
    var next := Advance(env, mode, w, s, message);
    assert Added(s, out) == [message] + tools + Added(next.state, out);
    RenderedRound(message, tools, Added(next.state, out));
    ConcatAppend(w.yielded, ["\n\n"]);
    SingleConcat("\n\n");
    assert w.yielded + [] == w.yielded;
  }

  lemma SingleConcat(part: string)
    ensures Concat([part]) == part
  {
    assert [part][1..] == [];
  }

  lemma SingleRendered(message: Message)
    requires message.Assistant?
    ensures Rendered([message]) == message.text + if message.calls == [] then "" else "\n\n"
  {
    assert [message][1..] == [];
  }

  lemma RenderedRound(message: Message, tools: seq<Message>, rest: seq<Message>)
    requires message.Assistant? && message.calls != [] && Answers(tools, message.calls)
    ensures Rendered([message] + tools + rest) == message.text + "\n\n" + Rendered(rest)
  {
    OnlyTools(tools);
    TextsCons(message, tools, rest);
  }

  // ---------- the chain cap ----------

  function Min(a: int, b: int): int {
    if a <= b then a else b
  }

  function Max(a: int, b: int): int {
    if a <= b then b else a
  }

  /** Names and arguments of the first `n` calls. */
  function Started(calls: seq<ToolCall>, n: nat): (r: seq<(string, string)>)
    requires n <= |calls|
    ensures |r| == n
  {
    seq(n, i requires 0 <= i < n => (calls[i].name, calls[i].arguments))
  }

  /** No budget, or one without a positive cap. */
  predicate Unlimited(budget: Option<Budget>) {
    budget.None? || budget.value.cap <= 0
  }

  /** What call `i` of a list is answered with when `free` dispatches are left under the cap. */
  function CappedAnswer(env: Env, runs: nat, b: Budget, free: nat, calls: seq<ToolCall>, i: nat): ToolContent
    requires i < |calls|
  {
    if i < free then Answer(env.runTool(runs + i, calls[i].name, calls[i].arguments))
    else Blocked(calls[i].name, b.cap, Max(b.cap, b.observed))
  }

  /** `messages` answers `calls` as the cap dictates. */
  predicate CappedAnswers(env: Env, runs: nat, b: Budget, free: nat, calls: seq<ToolCall>, messages: seq<Message>) {
    && |messages| == |calls|
    && forall i | 0 <= i < |calls| ::
         messages[i] == Tool(calls[i].id, CappedAnswer(env, runs, b, free, calls, i))
  }

  /** Every call is answered by its tool. */
  predicate AllAnswered(env: Env, runs: nat, calls: seq<ToolCall>, messages: seq<Message>) {
    && |messages| == |calls|
    && forall i | 0 <= i < |calls| ::
         messages[i] == Tool(calls[i].id, Answer(env.runTool(runs + i, calls[i].name, calls[i].arguments)))
  }

  lemma CappedCons(env: Env, runs: nat, b: Budget, b': Budget, free: nat, call: ToolCall, calls: seq<ToolCall>,
                   messages: seq<Message>)
    requires b'.cap == b.cap && Max(b'.cap, b'.observed) == Max(b.cap, b.observed)
    requires CappedAnswers(env, if free > 0 then runs + 1 else runs, b', if free > 0 then free - 1 else 0,
                           calls, messages)
    ensures var first := if free > 0 then Answer(env.runTool(runs, call.name, call.arguments))
                         else Blocked(call.name, b.cap, Max(b.cap, b.observed));
            CappedAnswers(env, runs, b, free, [call] + calls, [Tool(call.id, first)] + messages)
  {
  }

  lemma AnsweredCons(env: Env, runs: nat, call: ToolCall, calls: seq<ToolCall>, messages: seq<Message>)
    requires AllAnswered(env, runs + 1, calls, messages)
    ensures AllAnswered(env, runs, [call] + calls,
                        [Tool(call.id, Answer(env.runTool(runs, call.name, call.arguments)))] + messages)
  {
  }

  lemma StartedCons(call: ToolCall, calls: seq<ToolCall>, n: nat)
    requires n <= |calls|
    ensures Started([call] + calls, n + 1) == [(call.name, call.arguments)] + Started(calls, n)
  {
  }

  /** Closed form of dispatching a list under a positive cap, whatever the counter says. */
  lemma {:induction false} DispatchUnderCap(env: Env, l: Ledger, b: Budget, calls: seq<ToolCall>)
    requires l.budget == Some(b) && b.cap > 0
    ensures var (l', messages) := DispatchAll(env, l, calls);
            var free := Max(0, b.cap - b.observed);
            var n := Min(|calls|, free);
            && l'.runs == l.runs + Started(calls, n)
            && l'.budget == Some(Budget(b.cap, b.observed + n, b.tripped || |calls| > free))
            && l'.trips == l.trips + (if |calls| > free && !b.tripped then [(b.cap, Max(b.cap, b.observed))] else [])
            && CappedAnswers(env, |l.runs|, b, free, calls, messages)
    decreases |calls|
  {
    hide CappedAnswers, Started;
    var free := Max(0, b.cap - b.observed);
    if calls == [] {
      DispatchNone(env, l, b, free);
    } else {
      var (l1, content) := Dispatch(env, l, calls[0]);
      DispatchUnderCap(env, l1, l1.budget.value, calls[1..]);
      var messages := DispatchAll(env, l1, calls[1..]).1;
      assert calls == [calls[0]] + calls[1..];
      CappedCons(env, |l.runs|, b, l1.budget.value, free, calls[0], calls[1..], messages);
      if free > 0 {
        StartedCons(calls[0], calls[1..], Min(|calls| - 1, free - 1));
      } else {
        StartedNone(calls);
        StartedNone(calls[1..]);
      }
    }
  }

  /** Without a positive cap every call runs, and neither the counter nor the event moves. */
  lemma {:induction false} DispatchUnlimited(env: Env, l: Ledger, calls: seq<ToolCall>)
    requires Unlimited(l.budget)
    ensures var (l', messages) := DispatchAll(env, l, calls);
            && l' == l.(runs := l.runs + Started(calls, |calls|))
            && AllAnswered(env, |l.runs|, calls, messages)
    decreases |calls|
  {
    hide AllAnswered, Started;
    if calls == [] {
      DispatchNone(env, l, Budget(0, 0, false), 0);
      StartedNone(calls);
    } else {
      var (l1, content) := Dispatch(env, l, calls[0]);
      DispatchUnlimited(env, l1, calls[1..]);
      assert calls == [calls[0]] + calls[1..];
      AnsweredCons(env, |l.runs|, calls[0], calls[1..], DispatchAll(env, l1, calls[1..]).1);
      StartedCons(calls[0], calls[1..], |calls| - 1);
    }
  }

  lemma StartedNone(calls: seq<ToolCall>)
    ensures Started(calls, 0) == []
  {
  }

  lemma DispatchNone(env: Env, l: Ledger, b: Budget, free: nat)
    ensures DispatchAll(env, l, []) == (l, []) && CappedAnswers(env, |l.runs|, b, free, [], [])
    ensures Started([], 0) == [] && AllAnswered(env, |l.runs|, [], [])
  {
  }

  /**
   The cap over a whole session: of all requested dispatches exactly the first `cap` run, the rest
   are answered with the stub, and the cap event fires once, iff there is a rest.
   */
  lemma SessionCap(env: Env, mode: Mode, w: World, s: SessionState, left: nat, cap: int)
    requires cap > 0 && w.ledger == Ledger(Some(Budget(cap, 0, false)), [], [])
    ensures var out := Run(env, mode, w, s, left);
            && s.messages <= out.state.messages && Rounds(s, out.state) >= 0
            && Transcript(Added(s, out.state), Rounds(s, out.state))
            && var calls := Requested(Added(s, out.state), Rounds(s, out.state));
               var results := ToolResults(Added(s, out.state));
               var n := Min(|calls|, cap);
            && out.world.ledger.runs == Started(calls, n)
            && out.world.ledger.budget == Some(Budget(cap, n, |calls| > cap))
            && out.world.ledger.trips == (if |calls| > cap then [(cap, cap)] else [])
            && CappedAnswers(env, 0, Budget(cap, 0, false), cap, calls, results)
  {
    RunTranscript(env, mode, w, s, left);
    var out := Run(env, mode, w, s, left);
    var calls := Requested(Added(s, out.state), Rounds(s, out.state));
    DispatchUnderCap(env, w.ledger, Budget(cap, 0, false), calls);
    hide Run, DispatchAll, Transcript, Requested;
    assert [] + Started(calls, Min(|calls|, cap)) == Started(calls, Min(|calls|, cap));
  }

  /** A session without a cap runs every requested dispatch and fires no event. */
  lemma SessionWithoutCap(env: Env, mode: Mode, w: World, s: SessionState, left: nat)
    requires Unlimited(w.ledger.budget)
    ensures var out := Run(env, mode, w, s, left);
            && s.messages <= out.state.messages && Rounds(s, out.state) >= 0
            && Transcript(Added(s, out.state), Rounds(s, out.state))
            && var calls := Requested(Added(s, out.state), Rounds(s, out.state));
            && out.world.ledger == w.ledger.(runs := w.ledger.runs + Started(calls, |calls|))
            && AllAnswered(env, |w.ledger.runs|, calls, ToolResults(Added(s, out.state)))
  {
    RunTranscript(env, mode, w, s, left);
    var out := Run(env, mode, w, s, left);
    DispatchUnlimited(env, w.ledger, Requested(Added(s, out.state), Rounds(s, out.state)));
    hide Run, DispatchAll, Transcript, Requested;
  }

  /** A whole session: its turn count is the number of dispatch rounds and bounds everything else. */
  lemma WholeSession(env: Env, mode: Mode, w: World, history: seq<Message>, question: string, budget: ToolChainBudget?)
    requires w.events == [] && w.calls == 0
    ensures var s := InitialSessionState(history + [Plain("user", question)], budget);
            var out := Run(env, mode, w, s, env.maxToolRounds + 1);
            var turns := out.state.turnCount;
            && s.budget == budget && s.turnCount == 0 && s.transition == None && s.terminal == None
            && history + [Plain("user", question)] <= out.state.messages
            && turns <= env.maxToolRounds + 1
            && out.world.calls == turns + 1
            && Sites(out.world.events) == Trace(turns)
            && out.state.terminal == Some(if turns == env.maxToolRounds + 1 then MaxToolRounds else Completed)
            && forall i | 0 <= i < |out.world.events| :: s.messages <= out.world.events[i].1.messages
  {
    hide Run, Sites, Trace, Transcript, Requested, DispatchAll, ToolResults;
    var s := InitialSessionState(history + [Plain("user", question)], budget);
    RunTranscript(env, mode, w, s, env.maxToolRounds + 1);
    RunTrace(env, mode, w, s, env.maxToolRounds + 1);
    NoSites();
    assert [] + Trace(Run(env, mode, w, s, env.maxToolRounds + 1).state.turnCount)
        == Trace(Run(env, mode, w, s, env.maxToolRounds + 1).state.turnCount);
  }

  lemma NoSites()
    ensures Sites([]) == []
  {
  }

  // ---------- the two modes ----------

  /** The stream decomposes the response: same text in pieces, same calls in order. */
  predicate Decomposes(events: seq<LlmEvent>, response: Response) {
    Concat(TextDeltas(events)) == response.text && StreamCalls(events) == response.calls
  }

  ghost predicate Faithful(env: Env) {
    forall k: nat, messages: seq<Message>, tools: bool ::
      Decomposes(env.stream(k, messages, tools), env.chat(k, messages, tools))
  }

  /** A reply on which both modes take the same branch. */
  predicate Agrees(response: Response) {
    response.calls != [] ==> response.stop.ToolCalls?
  }

  /** Every reply of the synchronous run stops for its calls, and a forced answer has none. */
  predicate AgreesAlong(env: Env, w: World, s: SessionState, left: nat)
    decreases left
  {
    if left == 0 then env.chat(w.calls, s.messages, false).calls == []
    else
      var reply := Ask(env, Sync, w, s.messages);
      && Agrees(env.chat(w.calls, s.messages, true))
      && (reply.dispatch ==>
            (var next := Advance(env, Sync, reply.world, s, reply.message);
             AgreesAlong(env, next.world, next.state, left - 1)))
  }

  /** Everything but the streamed text. */
  predicate SameButYield(w: World, w': World) {
    w.ledger == w'.ledger && w.events == w'.events && w.calls == w'.calls
  }

  lemma AdvanceBoth(env: Env, w: World, w': World, s: SessionState, message: Message)
    requires SameButYield(w, w') && message.Assistant?
    ensures var sync, stream := Advance(env, Sync, w, s, message), Advance(env, Stream, w', s, message);
            SameButYield(sync.world, stream.world) && sync.state == stream.state
  {
    hide DispatchAll;
  }

  /** When the modes part, their traces differ at the place where the synchronous one terminates. */
  lemma TracesPart(env: Env, w: World, w': World, s: SessionState, left: nat)
    requires SameButYield(w, w') && left > 0
    requires !Ask(env, Sync, w, s.messages).dispatch && Ask(env, Stream, w', s.messages).dispatch
    ensures Run(env, Sync, w, s, left).world.events != Run(env, Stream, w', s, left).world.events
  {
    hide Ask, Advance, Finish, Sites, DispatchAll;
    var reply := Ask(env, Stream, w', s.messages);
    AskFacts(env, Stream, w', s.messages);
    AskFacts(env, Sync, w, s.messages);
    FinishRun(env, Sync, w, s, left);
    FinishEvents(Ask(env, Sync, w, s.messages).world, s, Ask(env, Sync, w, s.messages).message, Completed);
    AdvanceEvents(env, Stream, reply.world, s, reply.message);
    var next := Advance(env, Stream, reply.world, s, reply.message);
    RunTrace(env, Stream, next.world, next.state, left - 1);
    RunTranscript(env, Stream, next.world, next.state, left - 1);
    var n := |w.events|;
    var sync, stream := Run(env, Sync, w, s, left).world.events, Run(env, Stream, w', s, left).world.events;
    assert Sites(sync) == Sites(w.events) + [ModelCall, Terminate];
    assert Sites(sync)[n + 1] == Terminate;
    assert Sites(stream)[n + 1] == ToolDispatch;
  }

  /** The same state, dispatches, tool results, loop events and provider calls. */
  predicate SameOutcome(out: Outcome, out': Outcome) {
    SameButYield(out.world, out'.world) && out.state == out'.state
  }

  lemma AskBoth(env: Env, w: World, w': World, messages: seq<Message>)
    requires Faithful(env) && SameButYield(w, w')
    ensures var sync, stream := Ask(env, Sync, w, messages), Ask(env, Stream, w', messages);
            var r := env.chat(w.calls, messages, true);
            && sync.message == stream.message == Assistant(r.text, r.calls)
            && SameButYield(sync.world, stream.world)
            && stream.dispatch == (r.calls != []) && sync.dispatch == (r.calls != [] && Agrees(r))
    ensures var sync, stream := AskFinal(env, Sync, w, messages), AskFinal(env, Stream, w', messages);
            var r := env.chat(w.calls, messages, false);
            && SameButYield(sync.world, stream.world)
            && (sync.message == stream.message <==> r.calls == [])
  {
    hide Concat, TextDeltas, StreamCalls;
    assert Decomposes(env.stream(w.calls, messages, true), env.chat(w.calls, messages, true));
    assert Decomposes(env.stream(w.calls, messages, false), env.chat(w.calls, messages, false));
  }

  lemma FinishBoth(w: World, w': World, s: SessionState, m: Message, m': Message, terminal: Terminal)
    requires SameButYield(w, w')
    ensures SameOutcome(Finish(w, s, m, terminal), Finish(w', s, m', terminal)) <==> m == m'
  {
    var out, out' := Finish(w, s, m, terminal), Finish(w', s, m', terminal);
    assert out.state.messages[|s.messages|] == m && out'.state.messages[|s.messages|] == m';
  }

  /**
   Both modes end in the same state with the same dispatches, tool results and loop events exactly
   when every reply with calls stops for them and a forced answer has no calls.
   */
  lemma {:induction false} ModesAgree(env: Env, w: World, w': World, s: SessionState, left: nat)
    requires Faithful(env) && SameButYield(w, w')
    ensures SameOutcome(Run(env, Sync, w, s, left), Run(env, Stream, w', s, left))
       <==> AgreesAlong(env, w, s, left)
    decreases left
  {
    hide DispatchAll, Ask, AskFinal, Finish, Advance, Faithful;
    AskBoth(env, w, w', s.messages);
    var sync, stream := if left == 0 then AskFinal(env, Sync, w, s.messages) else Ask(env, Sync, w, s.messages),
                        if left == 0 then AskFinal(env, Stream, w', s.messages) else Ask(env, Stream, w', s.messages);
    if left == 0 || !stream.dispatch {
      FinishBoth(sync.world, stream.world, s, sync.message, stream.message,
                 if left == 0 then MaxToolRounds else Completed);
    } else if sync.dispatch {
      AdvanceBoth(env, sync.world, stream.world, s, sync.message);
      var next, next' := Advance(env, Sync, sync.world, s, sync.message),
                         Advance(env, Stream, stream.world, s, sync.message);
      ModesAgree(env, next.world, next'.world, next.state, left - 1);
    } else {
      TracesPart(env, w, w', s, left);
    }
  }

  /** A provider whose every reply, whole or streamed, carries one call but stops for another reason. */
  function StopsWithCall(call: ToolCall, runTool: (nat, string, string) -> string, rounds: nat): Env {
    Env((k, messages, tools) => Response("", [call], Stop),
        (k, messages, tools) => [Call(call), End(Stop)],
        runTool, rounds)
  }

  /** With such a provider the modes part in every session: the stream dispatches, the whole reply is the answer. */
  lemma ModesCanPart(call: ToolCall, runTool: (nat, string, string) -> string, rounds: nat,
                     w: World, s: SessionState, left: nat)
    ensures var env := StopsWithCall(call, runTool, rounds);
            && Faithful(env) && !AgreesAlong(env, w, s, left)
            && !SameOutcome(Run(env, Sync, w, s, left), Run(env, Stream, w, s, left))
  {
    hide Run;
    var env := StopsWithCall(call, runTool, rounds);
    var events := [Call(call), End(Stop)];
    assert TextDeltas(events) == [] && StreamCalls(events) == [call] by {
      assert events[1..] == [End(Stop)];
    }
    assert Faithful(env);
    ModesAgree(env, w, w, s, left);
  }
}
