/**
 The tool loop of one chat session, in its synchronous and its streaming mode. `Run` and its parts
 say what a session does as a function of provider and tools; the methods of `Session` are the loop.
 */
module SessionLoop {
  import opened Options
  import opened SessionState

  /** Everything outside the loop, as functions of how often it was asked before. */
  datatype Env = Env(
    chat: (nat, seq<Message>, bool) -> Response,
    stream: (nat, seq<Message>, bool) -> seq<LlmEvent>,
    runTool: (nat, string, string) -> string,
    maxToolRounds: nat)

  datatype Mode = Sync | Stream

  datatype Budget = Budget(cap: int, observed: int, tripped: bool)

  /** What dispatching reads and writes. */
  datatype Ledger = Ledger(
    budget: Option<Budget>,
    runs: seq<(string, string)>,          // `run_tool` invocations
    trips: seq<(int, int)>)               // cap and count of each cap-tripped event

  /** What a session has done so far. */
  datatype World = World(
    ledger: Ledger,
    events: seq<(Transition, SessionState)>,  // what `on_loop_event` was called with
    yielded: seq<string>,                 // streamed text
    calls: nat)                           // provider calls

  // ---------- dispatching under the cap ----------

  function RunTool(env: Env, l: Ledger, call: ToolCall): (Ledger, ToolContent) {
    (l.(runs := l.runs + [(call.name, call.arguments)]),
     Answer(env.runTool(|l.runs|, call.name, call.arguments)))
  }

  function Dispatch(env: Env, l: Ledger, call: ToolCall): (Ledger, ToolContent) {
    match l.budget
    case None => RunTool(env, l, call)
    case Some(b) =>
      if b.cap <= 0 then RunTool(env, l, call)
      else if b.observed >= b.cap then
        var l' := if b.tripped then l else
          l.(budget := Some(b.(tripped := true)), trips := l.trips + [(b.cap, b.observed)]);
        (l', Blocked(call.name, b.cap, b.observed))
      else RunTool(env, l.(budget := Some(b.(observed := b.observed + 1))), call)
  }

  function DispatchAll(env: Env, l: Ledger, calls: seq<ToolCall>): (Ledger, seq<Message>)
    decreases |calls|
  {
    if calls == [] then (l, [])
    else
      var (l1, content) := Dispatch(env, l, calls[0]);
      var (l2, rest) := DispatchAll(env, l1, calls[1..]);
      (l2, [Tool(calls[0].id, content)] + rest)
  }

  /** Dispatching what is left of a list starts with its next call. */
  lemma DispatchFrom(env: Env, l: Ledger, calls: seq<ToolCall>, i: nat)
    requires i < |calls|
    ensures var (l1, content) := Dispatch(env, l, calls[i]);
            var (l2, rest) := DispatchAll(env, l1, calls[i + 1..]);
            DispatchAll(env, l, calls[i..]) == (l2, [Tool(calls[i].id, content)] + rest)
  {
    hide Dispatch;
    assert calls[i..][1..] == calls[i + 1..];
  }

  lemma DispatchNothing(env: Env, l: Ledger)
    ensures DispatchAll(env, l, []) == (l, [])
  {
  }

  // ---------- one provider reply ----------

  /** The text deltas of a stream up to its first end event. */
  function TextDeltas(events: seq<LlmEvent>): seq<string> {
    if events == [] || events[0].End? then []
    else (if events[0].Text? then [events[0].content] else []) + TextDeltas(events[1..])
  }

  /** The tool calls of a stream up to its first end event. */
  function StreamCalls(events: seq<LlmEvent>): seq<ToolCall> {
    if events == [] || events[0].End? then []
    else (if events[0].Call? then [events[0].call] else []) + StreamCalls(events[1..])
  }

  /** What is left of a stream starts with its next event, which is not an end. */
  lemma StreamFrom(stream: seq<LlmEvent>, i: nat)
    requires i < |stream| && !stream[i].End?
    ensures TextDeltas(stream[i..]) ==
            (if stream[i].Text? then [stream[i].content] else []) + TextDeltas(stream[i + 1..])
    ensures StreamCalls(stream[i..]) ==
            (if stream[i].Call? then [stream[i].call] else []) + StreamCalls(stream[i + 1..])
  {
    assert stream[i..][1..] == stream[i + 1..];
  }

  lemma StreamEnds(stream: seq<LlmEvent>, i: nat)
    requires i <= |stream| && (i < |stream| ==> stream[i].End?)
    ensures TextDeltas(stream[i..]) == [] && StreamCalls(stream[i..]) == []
  {
  }

  function Concat(parts: seq<string>): string {
    if parts == [] then "" else parts[0] + Concat(parts[1..])
  }

  /** The assistant message of a reply, whether its calls are dispatched, and the world after it. */
  datatype Reply = Reply(message: Message, dispatch: bool, world: World)

  function Ask(env: Env, mode: Mode, w: World, messages: seq<Message>): Reply {
    var w' := w.(calls := w.calls + 1);
    match mode
    case Sync =>
      var r := env.chat(w.calls, messages, true);
      Reply(Assistant(r.text, r.calls), r.stop.ToolCalls? && r.calls != [], w')
    case Stream =>
      var events := env.stream(w.calls, messages, true);
      var deltas, calls := TextDeltas(events), StreamCalls(events);
      Reply(Assistant(Concat(deltas), calls), calls != [], w'.(yielded := w.yielded + deltas))
  }

  /** The forced answer after the last round: no tools offered, streamed calls are ignored. */
  function AskFinal(env: Env, mode: Mode, w: World, messages: seq<Message>): Reply {
    var w' := w.(calls := w.calls + 1);
    match mode
    case Sync =>
      var r := env.chat(w.calls, messages, false);
      Reply(Assistant(r.text, r.calls), false, w')
    case Stream =>
      var deltas := TextDeltas(env.stream(w.calls, messages, false));
      Reply(Assistant(Concat(deltas), []), false, w'.(yielded := w.yielded + deltas))
  }

  // ---------- the loop ----------

  /** A state transition that is reported to the loop observer. */
  function Fire(w: World, s: SessionState, t: Transition): World {
    w.(events := w.events + [(t, s)])
  }

  function At(s: SessionState, t: Transition): SessionState {
    s.(transition := Some(t))
  }

  datatype Outcome = Outcome(world: World, state: SessionState)

  /** Report the model call, append the last message and stop. */
  function Finish(w: World, s: SessionState, message: Message, terminal: Terminal): Outcome {
    var s1 := At(s, ModelCall);
    var s2 := At(s1, Terminate).(messages := s1.messages + [message], terminal := Some(terminal));
    Outcome(Fire(Fire(w, s1, ModelCall), s2, Terminate), s2)
  }

  /** Report the model call, dispatch the calls and advance the turn. */
  function Advance(env: Env, mode: Mode, w: World, s: SessionState, message: Message): Outcome
    requires message.Assistant?
  {
    var s1 := At(s, ModelCall);
    var (ledger, tools) := DispatchAll(env, w.ledger, message.calls);
    var w2 := Fire(w, s1, ModelCall).(ledger := ledger);
    var s2 := At(s1, ToolDispatch).(messages := s1.messages + [message] + tools);
    var s3 := At(s2, TurnAdvance).(turnCount := s2.turnCount + 1);
    var w3 := Fire(Fire(w2, s2, ToolDispatch), s3, TurnAdvance);
    Outcome(if mode.Stream? then w3.(yielded := w3.yielded + ["\n\n"]) else w3, s3)
  }

  /** A session with `left` tool rounds to go. */
  function Run(env: Env, mode: Mode, w: World, s: SessionState, left: nat): Outcome
    decreases left
  {
    if left == 0 then
      var reply := AskFinal(env, mode, w, s.messages);
      Finish(reply.world, s, reply.message, MaxToolRounds)
    else
      var reply := Ask(env, mode, w, s.messages);
      if !reply.dispatch then Finish(reply.world, s, reply.message, Completed)
      else
        var next := Advance(env, mode, reply.world, s, reply.message);
        Run(env, mode, next.world, next.state, left - 1)
  }

  // ---------- the loop as it runs ----------

  class Session {
    const env: Env
    var runs: seq<(string, string)>
    var trips: seq<(int, int)>
    var events: seq<(Transition, SessionState)>
    var yielded: seq<string>
    var calls: nat

    constructor (env: Env)
      ensures this.env == env
      ensures runs == [] && trips == [] && events == [] && yielded == [] && calls == 0
    {
      this.env := env;
      runs, trips, events, yielded, calls := [], [], [], [], 0;
    }

    function LedgerOf(budget: ToolChainBudget?): Ledger
      reads this, budget
    {
      var b := if budget == null then None else Some(Budget(budget.cap, budget.observed, budget.trippedEvent));
      Ledger(b, runs, trips)
    }

    function View(budget: ToolChainBudget?): World
      reads this, budget
    {
      World(LedgerOf(budget), events, yielded, calls)
    }

    method CallTool(call: ToolCall) returns (content: ToolContent)
      modifies this`runs
      ensures content == Answer(env.runTool(|old(runs)|, call.name, call.arguments))
      ensures runs == old(runs) + [(call.name, call.arguments)]
    {
      content := Answer(env.runTool(|runs|, call.name, call.arguments));
      runs := runs + [(call.name, call.arguments)];
    }

    method DispatchToolUnderCap(call: ToolCall, budget: ToolChainBudget?) returns (content: ToolContent)
      modifies this`runs, this`trips, budget
      ensures (LedgerOf(budget), content) == Dispatch(env, old(LedgerOf(budget)), call)
    {
      if budget == null || budget.cap <= 0 {
        content := CallTool(call);
        return;
      }
      if budget.observed >= budget.cap {
        if !budget.trippedEvent {
          budget.trippedEvent := true;
          trips := trips + [(budget.cap, budget.observed)];
        }
        return Blocked(call.name, budget.cap, budget.observed);
      }
      budget.observed := budget.observed + 1;
      content := CallTool(call);
    }

    /** The loop over one reply's calls, the same in both modes. */
    method DispatchCalls(toolCalls: seq<ToolCall>, budget: ToolChainBudget?) returns (messages: seq<Message>)
      modifies this`runs, this`trips, budget
      ensures (LedgerOf(budget), messages) == DispatchAll(env, old(LedgerOf(budget)), toolCalls)
    {
      hide Dispatch, DispatchAll;
      messages := [];
      ghost var all := DispatchAll(env, LedgerOf(budget), toolCalls);
      assert toolCalls[0..] == toolCalls;
      for i := 0 to |toolCalls|
        invariant var rest := DispatchAll(env, LedgerOf(budget), toolCalls[i..]);
                  all.0 == rest.0 && all.1 == messages + rest.1
      {
        DispatchFrom(env, LedgerOf(budget), toolCalls, i);
        var content := DispatchToolUnderCap(toolCalls[i], budget);
        messages := messages + [Tool(toolCalls[i].id, content)];
      }
      assert toolCalls[|toolCalls|..] == [] && messages + [] == messages;
      DispatchNothing(env, LedgerOf(budget));
    }

    method FireLoopEvent(t: Transition, state: SessionState)
      modifies this`events
      ensures events == old(events) + [(t, state)]
    {
      events := events + [(t, state)];
    }

    /** Consume one provider stream up to its first end event, yielding text as it comes. */
    method ReadStream(stream: seq<LlmEvent>) returns (textParts: seq<string>, toolCalls: seq<ToolCall>)
      modifies this`yielded
      ensures textParts == TextDeltas(stream) && toolCalls == StreamCalls(stream)
      ensures yielded == old(yielded) + textParts
    {
      hide TextDeltas, StreamCalls;
      textParts, toolCalls := [], [];
      var i := 0;
      assert stream[0..] == stream;
      while i < |stream| && !stream[i].End?
        invariant i <= |stream|
        invariant textParts + TextDeltas(stream[i..]) == TextDeltas(stream)
        invariant toolCalls + StreamCalls(stream[i..]) == StreamCalls(stream)
        invariant yielded == old(yielded) + textParts
        decreases |stream| - i
      {
        StreamFrom(stream, i);
        match stream[i] {
          case Text(content) =>
            textParts := textParts + [content];
            yielded := yielded + [content];
          case Call(call) =>
            toolCalls := toolCalls + [call];
        }
        i := i + 1;
      }
      StreamEnds(stream, i);
    }

    /** One tool round of the synchronous mode; `done` when the session terminated. */
    method SyncRound(state: SessionState) returns (next: SessionState, done: bool)
      modifies this, state.budget
      ensures var reply := Ask(env, Sync, old(View(state.budget)), state.messages);
              done == !reply.dispatch &&
              Outcome(View(state.budget), next) ==
                if done then Finish(reply.world, state, reply.message, Completed)
                else Advance(env, Sync, reply.world, state, reply.message)
    {
      hide DispatchAll;
      var response := env.chat(calls, state.messages, true);
      calls := calls + 1;
      var assistant := Assistant(response.text, response.calls);
      next := state.(transition := Some(ModelCall));
      FireLoopEvent(ModelCall, next);
      if !(response.stop.ToolCalls? && response.calls != []) {
        next := next.(messages := next.messages + [assistant], transition := Some(Terminate),
            terminal := Some(Completed));
        FireLoopEvent(Terminate, next);
        return next, true;
      }
      var toolMessages := DispatchCalls(response.calls, state.budget);
      next := next.(messages := next.messages + [assistant] + toolMessages, transition := Some(ToolDispatch));
      FireLoopEvent(ToolDispatch, next);
      next := next.(turnCount := next.turnCount + 1, transition := Some(TurnAdvance));
      FireLoopEvent(TurnAdvance, next);
      done := false;
    }

    /** One tool round of the streaming mode. */
    method StreamRound(state: SessionState) returns (next: SessionState, done: bool)
      modifies this, state.budget
      ensures var reply := Ask(env, Stream, old(View(state.budget)), state.messages);
              done == !reply.dispatch &&
              Outcome(View(state.budget), next) ==
                if done then Finish(reply.world, state, reply.message, Completed)
                else Advance(env, Stream, reply.world, state, reply.message)
    {
      hide DispatchAll, TextDeltas, StreamCalls, Concat;
      var stream := env.stream(calls, state.messages, true);
      calls := calls + 1;
      var textParts, toolCalls := ReadStream(stream);
      var assistant := Assistant(Concat(textParts), toolCalls);
      next := state.(transition := Some(ModelCall));
      FireLoopEvent(ModelCall, next);
      if toolCalls == [] {
        next := next.(messages := next.messages + [assistant], transition := Some(Terminate),
            terminal := Some(Completed));
        FireLoopEvent(Terminate, next);
        return next, true;
      }
      var toolMessages := DispatchCalls(toolCalls, state.budget);
      next := next.(messages := next.messages + [assistant] + toolMessages, transition := Some(ToolDispatch));
      FireLoopEvent(ToolDispatch, next);
      next := next.(turnCount := next.turnCount + 1, transition := Some(TurnAdvance));
      FireLoopEvent(TurnAdvance, next);
      yielded := yielded + ["\n\n"];
      done := false;
    }

    method ForcedAnswer(state: SessionState, mode: Mode) returns (next: SessionState)
      modifies this
      ensures var reply := AskFinal(env, mode, old(View(state.budget)), state.messages);
              Outcome(View(state.budget), next) == Finish(reply.world, state, reply.message, MaxToolRounds)
    {
      hide TextDeltas, StreamCalls, Concat;
      var assistant;
      if mode.Sync? {
        var final := env.chat(calls, state.messages, false);
        calls := calls + 1;
        assistant := Assistant(final.text, final.calls);
      } else {
        var stream := env.stream(calls, state.messages, false);
        calls := calls + 1;
        var textParts, _ := ReadStream(stream);
        assistant := Assistant(Concat(textParts), []);
      }
      next := state.(transition := Some(ModelCall));
      FireLoopEvent(ModelCall, next);
      next := next.(messages := next.messages + [assistant], transition := Some(Terminate),
          terminal := Some(MaxToolRounds));
      FireLoopEvent(Terminate, next);
    }

    method RunSessionLoop(initial: SessionState, mode: Mode) returns (state: SessionState)
      modifies this, initial.budget
      ensures Outcome(View(initial.budget), state) ==
              Run(env, mode, old(View(initial.budget)), initial, env.maxToolRounds + 1)
    {
      hide Ask, AskFinal, Finish, Advance;
      state := initial;
      ghost var result := Run(env, mode, View(initial.budget), initial, env.maxToolRounds + 1);
      for round := 0 to env.maxToolRounds + 1
        invariant state.budget == initial.budget
        invariant Run(env, mode, View(initial.budget), state, env.maxToolRounds + 1 - round) == result
      {
        BudgetKept(env, mode, View(initial.budget), state);
        var done;
        if mode.Sync? {
          state, done := SyncRound(state);
        } else {
          state, done := StreamRound(state);
        }
        if done {
          return;
        }
      }
      state := ForcedAnswer(state, mode);
    }
  }

  /** Every state of a session shares the initial state's budget object. */
  lemma BudgetKept(env: Env, mode: Mode, w: World, s: SessionState)
    ensures var reply := Ask(env, mode, w, s.messages);
            && reply.message.Assistant?
            && Advance(env, mode, reply.world, s, reply.message).state.budget == s.budget
  {
    hide DispatchAll;
  }
}
