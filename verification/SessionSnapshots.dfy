/** What the observer of a session sees at each of its events. */
module SessionSnapshots {
  import opened Options
  import opened SessionLaws
  import opened SessionLoop
  import opened SessionState

  /** Messages of the first `k` dispatch rounds of a transcript. */
  function Span(messages: seq<Message>, rounds: nat, k: nat): (n: nat)
    requires Transcript(messages, rounds) && k <= rounds
    ensures n <= |messages|
    decreases k
  {
    if k == 0 then 0
    else RoundLength(messages) + Span(messages[RoundLength(messages)..], rounds - 1, k - 1)
  }

  /** How much of the transcript is there at event `i`: a model call sees the rounds before it, the last event all. */
  function Told(messages: seq<Message>, rounds: nat, i: nat): (n: nat)
    requires Transcript(messages, rounds) && i <= 3 * rounds + 1
    ensures n <= |messages|
  {
    if i == 3 * rounds + 1 then |messages| else Span(messages, rounds, (i + 2) / 3)
  }

  /** Event `i` of a run from `s`: its name, the turns so far, the messages so far, and how the session ended. */
  predicate Snapshot(e: (Transition, SessionState), s: SessionState, added: seq<Message>, rounds: nat,
                     terminal: Option<Terminal>, i: nat)
    requires Transcript(added, rounds) && i <= 3 * rounds + 1
  {
    && e.1.transition == Some(e.0)
    && e.0 == (if i == 3 * rounds + 1 then Terminate
               else if i % 3 == 0 then ModelCall else if i % 3 == 1 then ToolDispatch else TurnAdvance)
    && e.1.turnCount == s.turnCount + (i + 1) / 3
    && e.1.messages == s.messages + added[..Told(added, rounds, i)]
    && e.1.terminal == (if i == 3 * rounds + 1 then terminal else s.terminal)
    && e.1.budget == s.budget
  }

  ghost predicate Snapshots(events: seq<(Transition, SessionState)>, s: SessionState, out: SessionState, rounds: nat) {
    && s.messages <= out.messages && Transcript(Added(s, out), rounds)
    && |events| == 3 * rounds + 2 && events[3 * rounds + 1].1 == out
    && forall i | 0 <= i < |events| :: Snapshot(events[i], s, Added(s, out), rounds, out.terminal, i)
  }

  lemma ToldLater(all: seq<Message>, rounds: nat, i: nat)
    requires Transcript(all, rounds + 1) && Transcript(all[RoundLength(all)..], rounds)
    requires 3 <= i <= 3 * (rounds + 1) + 1
    ensures Told(all, rounds + 1, i) == RoundLength(all) + Told(all[RoundLength(all)..], rounds, i - 3)
  {
    var n := RoundLength(all);
    var tail, k := all[n..], (i + 2) / 3;
    assert (i - 3 + 2) / 3 == k - 1;
    if i < 3 * (rounds + 1) + 1 {
      assert Span(all, rounds + 1, k) == n + Span(tail, rounds, k - 1);
    }
  }

  lemma ToldFirst(all: seq<Message>, rounds: nat, i: nat)
    requires Transcript(all, rounds + 1) && Transcript(all[RoundLength(all)..], rounds) && i < 3
    ensures Told(all, rounds + 1, i) == if i == 0 then 0 else RoundLength(all)
  {
    hide Transcript, RoundLength;
    assert i > 0 ==> (i + 2) / 3 == 1;
  }

  /** An event of a later round, seen from one round before. */
  lemma LaterSnapshot(e: (Transition, SessionState), s: SessionState, next: SessionState, all: seq<Message>,
                      rounds: nat, terminal: Option<Terminal>, i: nat)
    requires Transcript(all, rounds + 1) && Transcript(all[RoundLength(all)..], rounds)
    requires next.messages == s.messages + all[..RoundLength(all)]
    requires next.turnCount == s.turnCount + 1 && next.terminal == s.terminal && next.budget == s.budget
    requires 3 <= i <= 3 * (rounds + 1) + 1
    requires Snapshot(e, next, all[RoundLength(all)..], rounds, terminal, i - 3)
    ensures Snapshot(e, s, all, rounds + 1, terminal, i)
  {
    ToldLater(all, rounds, i);
    hide Transcript, Told, RoundLength;
    var n := RoundLength(all);
    var k := Told(all[n..], rounds, i - 3);
    assert all[..n + k] == all[..n] + all[n..][..k];
    assert (i + 1) / 3 == (i - 3 + 1) / 3 + 1 && i % 3 == (i - 3) % 3;
  }

  lemma FirstSnapshots(events: seq<(Transition, SessionState)>, s: SessionState, next: SessionState,
                       all: seq<Message>, rounds: nat, terminal: Option<Terminal>, i: nat)
    requires Transcript(all, rounds + 1) && Transcript(all[RoundLength(all)..], rounds)
    requires next.messages == s.messages + all[..RoundLength(all)] && next.turnCount == s.turnCount + 1
    requires RoundEvents(events, s, next) && i < 3
    ensures Snapshot(events[i], s, all, rounds + 1, terminal, i)
  {
    ToldFirst(all, rounds, i);
    hide Transcript, Told, RoundLength;
    assert s.messages + all[..0] == s.messages;
  }

  /** The three events of a dispatch round that leads from `s` to `next`. */
  predicate RoundEvents(events: seq<(Transition, SessionState)>, s: SessionState, next: SessionState) {
    events == [
      (ModelCall, s.(transition := Some(ModelCall))),
      (ToolDispatch, s.(transition := Some(ToolDispatch), messages := next.messages)),
      (TurnAdvance, s.(transition := Some(TurnAdvance), messages := next.messages, turnCount := next.turnCount))]
  }

  lemma ThreeEvents(events: seq<(Transition, SessionState)>, s: SessionState, next: SessionState)
    requires RoundEvents(events, s, next)
    ensures |events| == 3
  {
  }

  lemma RoundAt(message: Message, tools: seq<Message>, tail: seq<Message>)
    requires message.Assistant? && Answers(tools, message.calls)
    ensures var all := [message] + tools + tail;
            && RoundLength(all) <= |all|
            && all[RoundLength(all)..] == tail && all[..RoundLength(all)] == [message] + tools
  {
  }

  /** The three events of a round, in front of those that follow. */
  lemma SnapshotsCons(events: seq<(Transition, SessionState)>, rest: seq<(Transition, SessionState)>, s: SessionState,
                      next: SessionState, out: SessionState, message: Message, tools: seq<Message>, rounds: nat)
    requires message.Assistant? && message.calls != [] && Answers(tools, message.calls)
    requires next.messages == s.messages + [message] + tools
    requires next.turnCount == s.turnCount + 1 && next.terminal == s.terminal && next.budget == s.budget
    requires RoundEvents(events, s, next) && Snapshots(rest, next, out, rounds)
    ensures Snapshots(events + rest, s, out, rounds + 1)
  {
    hide Transcript, Answers, RoundLength, Snapshot, RoundEvents;
    var tail, all := Added(next, out), Added(s, out);
    AddedCons(s, next, out, message, tools);
    TranscriptCons(message, tools, tail, rounds);
    RoundAt(message, tools, tail);
    assert s.messages + ([message] + tools) == next.messages;
    assert |events| == 3 by { ThreeEvents(events, s, next); }
    forall i | 0 <= i < |events + rest|
      ensures Snapshot((events + rest)[i], s, all, rounds + 1, out.terminal, i)
    {
      if i >= 3 {
        assert (events + rest)[i] == rest[i - 3];
        LaterSnapshot(rest[i - 3], s, next, all, rounds, out.terminal, i);
      } else {
        FirstSnapshots(events, s, next, all, rounds, out.terminal, i);
      }
    }
  }

  lemma FinishSnapshots(w: World, s: SessionState, message: Message, terminal: Terminal)
    requires message.Assistant?
    ensures var out := Finish(w, s, message, terminal);
            && w.events <= out.world.events
            && Snapshots(out.world.events[|w.events|..], s, out.state, 0)
  {
    var out := Finish(w, s, message, terminal);
    assert Added(s, out.state) == [message];
    assert out.world.events[|w.events|..] ==
      [(ModelCall, s.(transition := Some(ModelCall))), (Terminate, out.state)];
  }

  lemma AdvanceSnapshots(env: Env, mode: Mode, w: World, s: SessionState, message: Message)
    requires message.Assistant?
    ensures var next := Advance(env, mode, w, s, message);
            && next.state.terminal == s.terminal && next.state.budget == s.budget
            && w.events <= next.world.events && RoundEvents(next.world.events[|w.events|..], s, next.state)
  {
    hide DispatchAll;
  }

  /**
   Every snapshot of a run names its event, counts the turns before it and holds the messages of the rounds
   before it, with those of its own round from the dispatch on; only the last one says how the session ended.
   */
  lemma {:induction false} RunSnapshots(env: Env, mode: Mode, w: World, s: SessionState, left: nat)
    ensures var out := Run(env, mode, w, s, left);
            && w.events <= out.world.events
            && Rounds(s, out.state) >= 0
            && Snapshots(out.world.events[|w.events|..], s, out.state, Rounds(s, out.state))
    decreases left
  {
    hide Run, Ask, AskFinal, Advance, Finish, DispatchAll, Snapshots, Answers, RoundEvents;
    var out := Run(env, mode, w, s, left);
    AskFacts(env, mode, w, s.messages);
    var reply := if left == 0 then AskFinal(env, mode, w, s.messages) else Ask(env, mode, w, s.messages);
    if reply.dispatch {
      DispatchRun(env, mode, w, s, left);
      var tools := AdvanceFacts(env, mode, reply.world, s, reply.message);
      AdvanceSnapshots(env, mode, reply.world, s, reply.message);
      var next := Advance(env, mode, reply.world, s, reply.message);
      RunSnapshots(env, mode, next.world, next.state, left - 1);
      var rounds := Rounds(next.state, out.state);
      var events, rest := next.world.events[|w.events|..], out.world.events[|next.world.events|..];
      SnapshotsCons(events, rest, s, next.state, out.state, reply.message, tools, rounds);
      assert out.world.events[|w.events|..] == events + rest;
    } else {
      FinishRun(env, mode, w, s, left);
      FinishSnapshots(reply.world, s, reply.message, if left == 0 then MaxToolRounds else Completed);
    }
  }
}
