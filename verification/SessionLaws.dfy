/** Laws of the session loop: transcript, trace, streamed text, chain cap, and the two modes. */
module SessionLaws {
  import opened Options
  import opened SessionLoop
  import opened SessionState

  // ---------- the transcript ----------

  /** Tool messages that answer `calls`, one each, in order. */
  predicate Answers(messages: seq<Message>, calls: seq<ToolCall>) {
    && |messages| == |calls|
    && forall i | 0 <= i < |calls| :: messages[i].Tool? && messages[i].callId == calls[i].id
  }

  /** Number of messages of the dispatch round that starts a transcript. */
  function RoundLength(messages: seq<Message>): (n: nat)
    requires messages != [] && messages[0].Assistant?
    ensures n > 0
  {
    1 + |messages[0].calls|
  }

  /**
   What a session appends with `rounds` dispatch rounds: assistant messages with calls, each
   followed by exactly its tool results in call order, and one last assistant message.
   */
  predicate Transcript(messages: seq<Message>, rounds: nat)
    decreases rounds
  {
    if rounds == 0 then |messages| == 1 && messages[0].Assistant?
    else
      && messages != [] && messages[0].Assistant? && messages[0].calls != []
      && RoundLength(messages) <= |messages|
      && Answers(messages[1..RoundLength(messages)], messages[0].calls)
      && Transcript(messages[RoundLength(messages)..], rounds - 1)
  }

  /** The calls of all dispatch rounds of a transcript, in order. */
  function Requested(messages: seq<Message>, rounds: nat): seq<ToolCall>
    requires Transcript(messages, rounds)
    decreases rounds
  {
    if rounds == 0 then []
    else messages[0].calls + Requested(messages[RoundLength(messages)..], rounds - 1)
  }

  /** The tool messages of a transcript, in order. */
  function ToolResults(messages: seq<Message>): seq<Message>
  {
    if messages == [] then []
    else if messages[0].Tool? then [messages[0]] + ToolResults(messages[1..])
    else ToolResults(messages[1..])
  }

  /** Every assistant text of a transcript, with a blank line after each one that has calls. */
  function Rendered(messages: seq<Message>): string {
    if messages == [] then ""
    else
      (match messages[0]
       case Assistant(text, calls) => text + (if calls == [] then "" else "\n\n")
       case _ => "") + Rendered(messages[1..])
  }

  /** `MODEL_CALL TOOL_DISPATCH TURN_ADVANCE` for every dispatch round, then the closing pair. */
  function Trace(rounds: nat): seq<Transition> {
    if rounds == 0 then [ModelCall, Terminate]
    else [ModelCall, ToolDispatch, TurnAdvance] + Trace(rounds - 1)
  }

  function Sites(events: seq<(Transition, SessionState)>): (r: seq<Transition>)
    ensures |r| == |events|
  {
    seq(|events|, i requires 0 <= i < |events| => events[i].0)
  }

  // ---------- concatenation ----------

  lemma {:induction false} ConcatAppend(xs: seq<string>, ys: seq<string>)
    ensures Concat(xs + ys) == Concat(xs) + Concat(ys)
  {
    if xs == [] {
      assert xs + ys == ys;
    } else {
      assert (xs + ys)[1..] == xs[1..] + ys;
      ConcatAppend(xs[1..], ys);
    }
  }

  lemma {:induction false} RenderedAppend(xs: seq<Message>, ys: seq<Message>)
    ensures Rendered(xs + ys) == Rendered(xs) + Rendered(ys)
  {
    if xs == [] {
      assert xs + ys == ys;
    } else {
      assert (xs + ys)[1..] == xs[1..] + ys;
      RenderedAppend(xs[1..], ys);
    }
  }

  lemma {:induction false} ToolResultsAppend(xs: seq<Message>, ys: seq<Message>)
    ensures ToolResults(xs + ys) == ToolResults(xs) + ToolResults(ys)
  {
    if xs == [] {
      assert xs + ys == ys;
    } else {
      assert (xs + ys)[1..] == xs[1..] + ys;
      ToolResultsAppend(xs[1..], ys);
    }
  }

  lemma {:induction false} OnlyTools(messages: seq<Message>)
    requires forall i | 0 <= i < |messages| :: messages[i].Tool?
    ensures Rendered(messages) == "" && ToolResults(messages) == messages
  {
    if messages == [] {
    } else {
      OnlyTools(messages[1..]);
      assert messages[0].Tool? && [messages[0]] + messages[1..] == messages;
    }
  }

  // ---------- dispatching ----------

  lemma {:induction false} DispatchAnswers(env: Env, l: Ledger, calls: seq<ToolCall>)
    ensures Answers(DispatchAll(env, l, calls).1, calls)
    decreases |calls|
  {
    if calls == [] {
    } else {
      DispatchAnswers(env, Dispatch(env, l, calls[0]).0, calls[1..]);
    }
  }

  lemma {:induction false} DispatchAppend(env: Env, l: Ledger, xs: seq<ToolCall>, ys: seq<ToolCall>)
    ensures var first := DispatchAll(env, l, xs);
            var second := DispatchAll(env, first.0, ys);
            DispatchAll(env, l, xs + ys) == (second.0, first.1 + second.1)
    decreases |xs|
  {
    hide Dispatch;
    var first := DispatchAll(env, l, xs);
    var second := DispatchAll(env, first.0, ys);
    if xs == [] {
      assert xs + ys == ys && first.1 + second.1 == second.1;
    } else {
      assert (xs + ys)[1..] == xs[1..] + ys;
      var (l1, content) := Dispatch(env, l, xs[0]);
      DispatchAppend(env, l1, xs[1..], ys);
      var rest := DispatchAll(env, l1, xs[1..]);
      FrontAppend(Tool(xs[0].id, content), rest.1, second.1);
    }
  }

  lemma FrontAppend(message: Message, xs: seq<Message>, ys: seq<Message>)
    ensures [message] + (xs + ys) == ([message] + xs) + ys
  {
  }

  // ---------- one round and one run ----------

  /** A transcript with one more round in front. */
  lemma TranscriptCons(message: Message, tools: seq<Message>, rest: seq<Message>, rounds: nat)
    requires message.Assistant? && message.calls != [] && Answers(tools, message.calls)
    requires Transcript(rest, rounds)
    ensures var all := [message] + tools + rest;
            && Transcript(all, rounds + 1)
            && Requested(all, rounds + 1) == message.calls + Requested(rest, rounds)
            && ToolResults(all) == tools + ToolResults(rest)
            && Rendered(all) == message.text + "\n\n" + Rendered(rest)
  {
    var all := [message] + tools + rest;
    assert all[1..RoundLength(all)] == tools && all[RoundLength(all)..] == rest;
    OnlyTools(tools);
    TextsCons(message, tools, rest);
  }

  lemma TextsCons(message: Message, tools: seq<Message>, rest: seq<Message>)
    requires message.Assistant? && message.calls != []
    requires Rendered(tools) == "" && ToolResults(tools) == tools
    ensures var all := [message] + tools + rest;
            && ToolResults(all) == tools + ToolResults(rest)
            && Rendered(all) == message.text + "\n\n" + Rendered(rest)
  {
    hide Rendered, ToolResults;
    var tail := tools + rest;
    ToolResultsAppend(tools, rest);
    RenderedAppend(tools, rest);
    AssistantInFront(message, tail);
    assert [message] + tools + rest == [message] + tail;
  }

  lemma AssistantInFront(message: Message, tail: seq<Message>)
    requires message.Assistant? && message.calls != []
    ensures ToolResults([message] + tail) == ToolResults(tail)
    ensures Rendered([message] + tail) == message.text + "\n\n" + Rendered(tail)
  {
    assert ([message] + tail)[1..] == tail;
  }

  /** What a run appended to the messages of its initial state. */
  function Added(s: SessionState, out: SessionState): seq<Message>
    requires |s.messages| <= |out.messages|
  {
    out.messages[|s.messages|..]
  }

  /** The dispatch rounds of a run. */
  function Rounds(s: SessionState, out: SessionState): int {
    out.turnCount - s.turnCount
  }

  lemma AskFacts(env: Env, mode: Mode, w: World, messages: seq<Message>)
    ensures forall reply <- [Ask(env, mode, w, messages), AskFinal(env, mode, w, messages)] ::
              && reply.message.Assistant? && reply.world.calls == w.calls + 1
              && reply.world.ledger == w.ledger && reply.world.events == w.events
              && (reply.dispatch ==> reply.message.calls != [])
    ensures !AskFinal(env, mode, w, messages).dispatch
  {
    hide TextDeltas, StreamCalls, Concat;
  }

  lemma AdvanceFacts(env: Env, mode: Mode, w: World, s: SessionState, message: Message) returns (tools: seq<Message>)
    requires message.Assistant? && message.calls != []
    ensures var next := Advance(env, mode, w, s, message);
            && DispatchAll(env, w.ledger, message.calls) == (next.world.ledger, tools)
            && Answers(tools, message.calls)
            && next.state.messages == s.messages + [message] + tools
            && next.state.turnCount == s.turnCount + 1
            && next.state.budget == s.budget
            && next.world.calls == w.calls
            && next.world.yielded == w.yielded + if mode.Stream? then ["\n\n"] else []
  {
    hide DispatchAll;
    tools := DispatchAll(env, w.ledger, message.calls).1;
    DispatchAnswers(env, w.ledger, message.calls);
  }

  lemma AddedCons(s: SessionState, next: SessionState, out: SessionState, message: Message, tools: seq<Message>)
    requires next.messages == s.messages + [message] + tools && next.messages <= out.messages
    ensures s.messages <= out.messages
    ensures Added(s, out) == [message] + tools + Added(next, out)
  {
  }

  /** A run without another dispatch is one reply. */
  lemma FinishRun(env: Env, mode: Mode, w: World, s: SessionState, left: nat)
    requires left > 0 ==> !Ask(env, mode, w, s.messages).dispatch
    ensures var reply := if left == 0 then AskFinal(env, mode, w, s.messages) else Ask(env, mode, w, s.messages);
            var out := Run(env, mode, w, s, left);
            && out == Finish(reply.world, s, reply.message, if left == 0 then MaxToolRounds else Completed)
            && out.state.turnCount == s.turnCount && out.state.messages == s.messages + [reply.message]
            && out.world.ledger == w.ledger && out.world.yielded == reply.world.yielded
            && out.world.calls == w.calls + 1
            && out.state.terminal == Some(if left == 0 then MaxToolRounds else Completed)
  {
    hide TextDeltas, StreamCalls, Concat;
  }

  /** A run that dispatches goes on from the next state. */
  lemma DispatchRun(env: Env, mode: Mode, w: World, s: SessionState, left: nat)
    requires left > 0 && Ask(env, mode, w, s.messages).dispatch
    ensures var reply := Ask(env, mode, w, s.messages);
            reply.message.Assistant? &&
            var next := Advance(env, mode, reply.world, s, reply.message);
            Run(env, mode, w, s, left) == Run(env, mode, next.world, next.state, left - 1)
  {
    hide Ask, Advance;
    AskFacts(env, mode, w, s.messages);
  }

  /** The messages a run adds, and how its provider calls, turns and terminal state are counted. */
  lemma {:induction false} RunTranscript(env: Env, mode: Mode, w: World, s: SessionState, left: nat)
    ensures var out := Run(env, mode, w, s, left);
            var rounds := Rounds(s, out.state);
            && s.messages <= out.state.messages
            && 0 <= rounds <= left
            && Transcript(Added(s, out.state), rounds)
            && out.world.calls == w.calls + rounds + 1
            && out.state.terminal == Some(if rounds == left then MaxToolRounds else Completed)
            && DispatchAll(env, w.ledger, Requested(Added(s, out.state), rounds))
               == (out.world.ledger, ToolResults(Added(s, out.state)))
    decreases left
  {
    hide Ask, AskFinal, Advance, Finish, Run, DispatchAll, Transcript, Requested, ToolResults, Answers;
    var out := Run(env, mode, w, s, left);
    AskFacts(env, mode, w, s.messages);
    var reply := if left == 0 then AskFinal(env, mode, w, s.messages) else Ask(env, mode, w, s.messages);
    if reply.dispatch {
      DispatchRun(env, mode, w, s, left);
      var tools := AdvanceFacts(env, mode, reply.world, s, reply.message);
      var next := Advance(env, mode, reply.world, s, reply.message);
      RunTranscript(env, mode, next.world, next.state, left - 1);
      var rest, rounds := Added(next.state, out.state), Rounds(next.state, out.state);
      AddedCons(s, next.state, out.state, reply.message, tools);
      TranscriptCons(reply.message, tools, rest, rounds);
      DispatchAppend(env, w.ledger, reply.message.calls, Requested(rest, rounds));
    } else {
      FinishRun(env, mode, w, s, left);
      assert Added(s, out.state) == [reply.message];
      LastOnly(env, w.ledger, reply.message);
    }
  }

  lemma LastOnly(env: Env, l: Ledger, message: Message)
    requires message.Assistant?
    ensures Transcript([message], 0) && ToolResults([message]) == []
    ensures DispatchAll(env, l, Requested([message], 0)) == (l, ToolResults([message]))
  {
    assert [message][1..] == [];
  }
}
