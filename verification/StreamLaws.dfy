/** Streaming and parsing whole give the same reply, however the deltas are cut and interleaved. */
module StreamLaws {
  import opened SessionLoop
  import opened SessionState
  import opened StreamAccumulator

  // ---------- the message a stream stands for, index by index ----------

  function ForIndex(deltas: seq<ToolDelta>, index: int): (r: seq<ToolDelta>)
    ensures forall d <- r :: d.index == index && d in deltas
  {
    if deltas == [] then []
    else
      var front, last := deltas[..|deltas| - 1], deltas[|deltas| - 1];
      if last.index == index then ForIndex(front, index) + [last] else ForIndex(front, index)
  }

  /** The id, name and arguments that the deltas of one call spell out. */
  function Spelled(deltas: seq<ToolDelta>): WireCall {
    if deltas == [] then WireCall("", "", "")
    else
      var front, last := Spelled(deltas[..|deltas| - 1]), deltas[|deltas| - 1];
      WireCall(if last.id != "" then last.id else front.id,
               if last.name != "" then last.name else front.name,
               front.arguments + last.arguments)
  }

  /** Indexes in order of first appearance. */
  function Indexes(deltas: seq<ToolDelta>): (r: seq<int>)
    ensures forall d <- deltas :: d.index in r
    ensures forall i, j | 0 <= i < j < |r| :: r[i] != r[j]
    ensures forall index <- r :: exists d :: d in deltas && d.index == index
  {
    if deltas == [] then []
    else
      var front, last := deltas[..|deltas| - 1], deltas[|deltas| - 1];
      var r := Indexes(front);
      assert deltas == front + [last];
      assert forall index <- r :: exists d :: d in front && d in deltas && d.index == index;
      assert last in deltas;
      if last.index in r then r else r + [last.index]
  }

  function SpelledCalls(deltas: seq<ToolDelta>): (r: seq<WireCall>)
    ensures |r| == |Indexes(deltas)|
  {
    var indexes := Indexes(deltas);
    seq(|indexes|, i requires 0 <= i < |indexes| => Spelled(ForIndex(deltas, indexes[i])))
  }

  /** The choices of a stream up to and including the first one with a finish reason. */
  function Live(chunks: seq<Chunk>): seq<Choice>
    decreases |chunks|
  {
    if chunks == [] then []
    else if chunks[0].None? then Live(chunks[1..])
    else if chunks[0].value.finish != "" then [chunks[0].value]
    else [chunks[0].value] + Live(chunks[1..])
  }

  function AllDeltas(choices: seq<Choice>): seq<ToolDelta> {
    if choices == [] then [] else choices[0].deltas + AllDeltas(choices[1..])
  }

  function AllContent(choices: seq<Choice>): string {
    if choices == [] then "" else choices[0].content + AllContent(choices[1..])
  }

  /** The finish reason of a stream, empty when it ends without one. */
  function FinishOf(chunks: seq<Chunk>): string
    decreases |chunks|
  {
    if chunks == [] then ""
    else if chunks[0].Some? && chunks[0].value.finish != "" then chunks[0].value.finish
    else FinishOf(chunks[1..])
  }

  /** The whole message that a chunk sequence stands for. */
  function Whole(chunks: seq<Chunk>): WireMessage {
    WireMessage(AllContent(Live(chunks)), SpelledCalls(AllDeltas(Live(chunks))), FinishOf(chunks))
  }

  // ---------- the accumulator spells every call ----------

  function Entries(deltas: seq<ToolDelta>): (r: seq<Entry>)
    ensures |r| == |Indexes(deltas)|
  {
    var indexes, calls := Indexes(deltas), SpelledCalls(deltas);
    seq(|indexes|, i requires 0 <= i < |indexes| => Entry(indexes[i], calls[i]))
  }

  lemma {:induction false} ForIndexNone(deltas: seq<ToolDelta>, index: int)
    requires forall d <- deltas :: d.index != index
    ensures ForIndex(deltas, index) == []
  {
    if deltas == [] {
    } else {
      ForIndexNone(deltas[..|deltas| - 1], index);
    }
  }

  lemma SpelledAppend(deltas: seq<ToolDelta>, d: ToolDelta, index: int)
    ensures var all := deltas + [d];
            Spelled(ForIndex(all, index)) ==
              if d.index == index then Extend(Spelled(ForIndex(deltas, index)), d)
              else Spelled(ForIndex(deltas, index))
  {
    var all := deltas + [d];
    assert all[..|all| - 1] == deltas;
    var old' := ForIndex(deltas, index);
    assert (old' + [d])[..|old'|] == old';
  }

  lemma EntryAfter(deltas: seq<ToolDelta>, d: ToolDelta, index: int)
    requires index in Indexes(deltas + [d])
    ensures Spelled(ForIndex(deltas + [d], index)) ==
            if index != d.index then Spelled(ForIndex(deltas, index))
            else if index in Indexes(deltas) then Extend(Spelled(ForIndex(deltas, index)), d)
            else Extend(WireCall(d.id, "", ""), d)
  {
    SpelledAppend(deltas, d, index);
    hide Spelled, Extend;
    if index == d.index && index !in Indexes(deltas) {
      ForIndexNone(deltas, index);
      FirstDelta(d);
    }
  }

  lemma IndexesAppend(deltas: seq<ToolDelta>, d: ToolDelta)
    ensures Indexes(deltas + [d]) ==
            if d.index in Indexes(deltas) then Indexes(deltas) else Indexes(deltas) + [d.index]
  {
    assert (deltas + [d])[..|deltas|] == deltas;
  }

  lemma PositionOfEntry(deltas: seq<ToolDelta>, index: int)
    ensures var p := Position(Entries(deltas), index);
            && (p < |Entries(deltas)| <==> index in Indexes(deltas))
            && (p < |Entries(deltas)| ==> Indexes(deltas)[p] == index)
  {
    var indexes, acc := Indexes(deltas), Entries(deltas);
    assert forall k | 0 <= k < |acc| :: acc[k].index == indexes[k];
  }

  lemma EntryOf(deltas: seq<ToolDelta>, i: nat)
    requires i < |Indexes(deltas)|
    ensures Entries(deltas)[i] == Entry(Indexes(deltas)[i], Spelled(ForIndex(deltas, Indexes(deltas)[i])))
  {
    hide ForIndex, Spelled;
  }

  lemma AbsorbSpells(deltas: seq<ToolDelta>, d: ToolDelta)
    ensures Absorb(Entries(deltas), d) == Entries(deltas + [d])
  {
    var all := deltas + [d];
    hide ForIndex, Spelled, Extend, Position, Entries, Indexes;
    PositionOfEntry(deltas, d.index);
    IndexesAppend(deltas, d);
    var acc, acc' := Absorb(Entries(deltas), d), Entries(all);
    EntryCount(deltas);
    EntryCount(all);
    forall i | 0 <= i < |acc'|
      ensures acc[i] == acc'[i]
    {
      EntryAfter(deltas, d, Indexes(all)[i]);
      EntryOf(all, i);
      if i < |Indexes(deltas)| {
        EntryOf(deltas, i);
      }
    }
  }

  lemma EntryCount(deltas: seq<ToolDelta>)
    ensures |Entries(deltas)| == |Indexes(deltas)|
    ensures forall i, j | 0 <= i < j < |Indexes(deltas)| :: Indexes(deltas)[i] != Indexes(deltas)[j]
  {
    hide SpelledCalls;
  }

  lemma FirstDelta(d: ToolDelta)
    ensures Extend(WireCall(d.id, "", ""), d) == Extend(Spelled([]), d)
  {
  }

  lemma {:induction false} FoldAppend(acc: seq<Entry>, deltas: seq<ToolDelta>, more: seq<ToolDelta>)
    ensures Fold(acc, deltas + more) == Fold(Fold(acc, deltas), more)
    decreases |deltas|
  {
    hide Absorb;
    if deltas == [] {
      assert deltas + more == more;
    } else {
      assert (deltas + more)[1..] == deltas[1..] + more;
      FoldAppend(Absorb(acc, deltas[0]), deltas[1..], more);
    }
  }

  /** Folding deltas in any interleaving spells every call, in order of first appearance. */
  lemma {:induction false} FoldSpells(deltas: seq<ToolDelta>)
    ensures Fold([], deltas) == Entries(deltas)
    decreases |deltas|
  {
    hide Absorb;
    if deltas == [] {
    } else {
      var front, last := deltas[..|deltas| - 1], deltas[|deltas| - 1];
      FoldSpells(front);
      assert deltas == front + [last];
      FoldAppend([], front, [last]);
      assert [last][1..] == [];
      AbsorbSpells(front, last);
    }
  }

  // ---------- the event stream ----------

  /** One end event, in last place. */
  predicate EndsOnce(events: seq<LlmEvent>) {
    && events != [] && events[|events| - 1].End?
    && forall i | 0 <= i < |events| - 1 :: !events[i].End?
  }

  lemma {:induction false} DeltasOf(front: seq<LlmEvent>, rest: seq<LlmEvent>)
    requires forall e <- front :: !e.End?
    ensures TextDeltas(front + rest) == TextDeltas(front) + TextDeltas(rest)
    ensures StreamCalls(front + rest) == StreamCalls(front) + StreamCalls(rest)
  {
    hide TextDeltas, StreamCalls;
    if front == [] {
      assert front + rest == rest;
      StreamEnds([], 0);
    } else {
      DeltasOf(front[1..], rest);
      assert (front + rest)[0..] == front + rest && front[0..] == front;
      assert (front + rest)[1..] == front[1..] + rest;
      StreamFrom(front + rest, 0);
      StreamFrom(front, 0);
    }
  }

  lemma {:induction false} DeltasOfCalls(events: seq<LlmEvent>, calls: seq<ToolCall>)
    requires |events| == |calls| && forall i | 0 <= i < |calls| :: events[i] == Call(calls[i])
    ensures TextDeltas(events) == [] && StreamCalls(events) == calls
  {
    if events == [] {
    } else {
      DeltasOfCalls(events[1..], calls[1..]);
      assert [calls[0]] + calls[1..] == calls;
    }
  }

  function CallsOf(acc: seq<Entry>): (r: seq<WireCall>)
    ensures |r| == |acc|
  {
    seq(|acc|, i requires 0 <= i < |acc| => acc[i].call)
  }

  /** The last live choice: its calls, then the end event. */
  lemma FinishingEvents(decode: Decoder, acc: seq<Entry>, stop: StopReason)
    ensures var events := CallEvents(decode, acc) + [End(stop)];
            && EndsOnce(events) && TextDeltas(events) == []
            && StreamCalls(events) == DecodeCalls(decode, CallsOf(acc))
  {
    var calls := DecodeCalls(decode, CallsOf(acc));
    DeltasOfCalls(CallEvents(decode, acc), calls);
    DeltasOf(CallEvents(decode, acc), [End(stop)]);
    assert StreamCalls([End(stop)]) == [] && TextDeltas([End(stop)]) == [];
    assert calls + [] == calls;
  }

  lemma TextThen(content: string, rest: seq<LlmEvent>)
    requires EndsOnce(rest)
    ensures var events := (if content == "" then [] else [Text(content)]) + rest;
            && EndsOnce(events)
            && Concat(TextDeltas(events)) == content + Concat(TextDeltas(rest))
            && StreamCalls(events) == StreamCalls(rest)
  {
    var text := if content == "" then [] else [Text(content)];
    DeltasOf(text, rest);
    if content == "" {
      assert text + rest == rest;
    } else {
      assert text[1..] == [] && (text + rest)[1..] == rest;
      assert (text + rest)[|text + rest| - 1] == rest[|rest| - 1];
    }
  }

  /** Events from any point of a stream on, given what was accumulated before. */
  lemma {:induction false} EventsSpell(decode: Decoder, acc: seq<Entry>, chunks: seq<Chunk>)
    ensures var events := Events(decode, acc, chunks);
            && EndsOnce(events)
            && Concat(TextDeltas(events)) == AllContent(Live(chunks))
            && StreamCalls(events) ==
                 if FinishOf(chunks) == "" then []
                 else DecodeCalls(decode, CallsOf(Fold(acc, AllDeltas(Live(chunks)))))
    decreases |chunks|
  {
    hide Absorb, EndsOnce, CallEvents, CallsOf, DecodeCalls, TextDeltas, StreamCalls, Concat, StopOf;
    if chunks == [] {
      EndAlone(Stop);
    } else if chunks[0].None? {
      EventsSpell(decode, acc, chunks[1..]);
    } else {
      var choice := chunks[0].value;
      var acc' := Fold(acc, choice.deltas);
      if choice.finish != "" {
        FinishingEvents(decode, acc', StopOf(choice.finish));
        var rest := CallEvents(decode, acc') + [End(StopOf(choice.finish))];
        TextThen(choice.content, rest);
        LiveOne(choice);
        EmptyConcat();
        var text := if choice.content == "" then [] else [Text(choice.content)];
        assert text + CallEvents(decode, acc') + [End(StopOf(choice.finish))] == text + rest;
        assert choice.content + "" == choice.content;
      } else {
        EventsSpell(decode, acc', chunks[1..]);
        TextThen(choice.content, Events(decode, acc', chunks[1..]));
        FoldAppend(acc, choice.deltas, AllDeltas(Live(chunks[1..])));
        LiveCons(choice, Live(chunks[1..]));
      }
    }
  }

  lemma EmptyConcat()
    ensures Concat([]) == ""
  {
  }

  lemma EndAlone(stop: StopReason)
    ensures EndsOnce([End(stop)]) && TextDeltas([End(stop)]) == [] && StreamCalls([End(stop)]) == []
    ensures Concat([]) == ""
  {
  }

  lemma LiveOne(choice: Choice)
    ensures AllDeltas([choice]) == choice.deltas && AllContent([choice]) == choice.content
  {
    LiveCons(choice, []);
  }

  lemma LiveCons(choice: Choice, rest: seq<Choice>)
    ensures AllDeltas([choice] + rest) == choice.deltas + AllDeltas(rest)
    ensures AllContent([choice] + rest) == choice.content + AllContent(rest)
  {
    assert ([choice] + rest)[1..] == rest;
  }

  // ---------- main results ----------

  /**
   A stream with a finish reason decomposes the response parsed from the whole message it stands
   for, and has exactly one end event, in last place, with the same stop reason.
   */
  lemma StreamDecomposesWhole(decode: Decoder, chunks: seq<Chunk>)
    ensures var events := Events(decode, [], chunks);
            && EndsOnce(events)
            && Concat(TextDeltas(events)) == Whole(chunks).content
            && (StreamCalls(events) == ParsedResponse(decode, Whole(chunks)).calls
                <==> FinishOf(chunks) != "" || AllDeltas(Live(chunks)) == [])
  {
    hide Absorb, EndsOnce, TextDeltas, StreamCalls, Concat, Spelled, ForIndex;
    var deltas := AllDeltas(Live(chunks));
    EventsSpell(decode, [], chunks);
    FoldSpells(deltas);
    assert CallsOf(Entries(deltas)) == SpelledCalls(deltas);
    if deltas != [] {
      assert deltas[0].index in Indexes(deltas);
    }
  }

  lemma {:induction false} EndOfEvents(decode: Decoder, acc: seq<Entry>, chunks: seq<Chunk>)
    ensures var events := Events(decode, acc, chunks);
            events != [] && events[|events| - 1] == End(StopOf(FinishOf(chunks)))
    decreases |chunks|
  {
    hide Fold, CallEvents;
    if chunks == [] {
    } else if chunks[0].None? {
      EndOfEvents(decode, acc, chunks[1..]);
    } else {
      EndOfEvents(decode, Fold(acc, chunks[0].value.deltas), chunks[1..]);
    }
  }

  /** The provider contract that the session loop's two modes rely on. */
  lemma FinishedStreamIsFaithful(decode: Decoder, chunks: seq<Chunk>)
    requires FinishOf(chunks) != ""
    ensures var events := Events(decode, [], chunks);
            && Concat(TextDeltas(events)) == ParsedResponse(decode, Whole(chunks)).text
            && StreamCalls(events) == ParsedResponse(decode, Whole(chunks)).calls
            && events != [] && events[|events| - 1] == End(ParsedResponse(decode, Whole(chunks)).stop)
  {
    hide Events, TextDeltas, StreamCalls, Concat, SpelledCalls, StopOf;
    StreamDecomposesWhole(decode, chunks);
    EndOfEvents(decode, [], chunks);
  }

  /** One call per index, in order of first appearance, as the deltas of that index spell it. */
  predicate ReportsSpelled(decode: Decoder, calls: seq<ToolCall>, deltas: seq<ToolDelta>) {
    var wires := SpelledCalls(deltas);
    |calls| == |wires| && forall i | 0 <= i < |wires| :: Reports(decode, calls[i], wires[i])
  }

  /** The calls of a finished stream, and the stop reason of every stream, field by field. */
  lemma StreamReportsSpelled(decode: Decoder, chunks: seq<Chunk>)
    ensures FinishOf(chunks) != "" ==>
              ReportsSpelled(decode, StreamCalls(Events(decode, [], chunks)), AllDeltas(Live(chunks)))
    ensures var events := Events(decode, [], chunks);
            && events != [] && events[|events| - 1].End?
            && (events[|events| - 1].stop.ToolCalls? <==> FinishOf(chunks) == "tool_calls")
  {
    EndOfEvents(decode, [], chunks);
    hide Events, TextDeltas, StreamCalls, Concat, SpelledCalls, Live, AllDeltas, FinishOf;
    if FinishOf(chunks) != "" {
      FinishedStreamIsFaithful(decode, chunks);
    }
  }

  /** Cutting one call's fragment in two does not change what is accumulated. */
  lemma SplitInvariant(before: seq<ToolDelta>, d: ToolDelta, cut: nat, after: seq<ToolDelta>)
    requires cut <= |d.arguments|
    ensures var d1, d2 := d.(arguments := d.arguments[..cut]), ToolDelta(d.index, "", "", d.arguments[cut..]);
            Fold([], before + [d1, d2] + after) == Fold([], before + [d] + after)
  {
    var d1, d2 := d.(arguments := d.arguments[..cut]), ToolDelta(d.index, "", "", d.arguments[cut..]);
    hide Absorb, Fold;
    FoldPair(before, d1, d2, after);
    FoldAppend([], before, [d] + after);
    FoldCons(Fold([], before), d, after);
    assert before + [d] + after == before + ([d] + after);
    AbsorbSplit(Fold([], before), d, cut);
  }

  lemma FoldCons(acc: seq<Entry>, d: ToolDelta, rest: seq<ToolDelta>)
    ensures Fold(acc, [d] + rest) == Fold(Absorb(acc, d), rest)
  {
    hide Absorb;
    assert ([d] + rest)[1..] == rest;
  }

  lemma AbsorbSplit(acc: seq<Entry>, d: ToolDelta, cut: nat)
    requires cut <= |d.arguments|
    ensures var d1, d2 := d.(arguments := d.arguments[..cut]), ToolDelta(d.index, "", "", d.arguments[cut..]);
            Absorb(Absorb(acc, d1), d2) == Absorb(acc, d)
  {
    var d1 := d.(arguments := d.arguments[..cut]);
    var p := Position(acc, d.index);
    var acc1 := Absorb(acc, d1);
    var p1 := Position(acc1, d.index);
    assert acc1[p].index == d.index;
    assert p1 == p;
    var call := if p == |acc| then WireCall(d.id, "", "") else acc[p].call;
    assert call.arguments + d.arguments[..cut] + d.arguments[cut..] == call.arguments + d.arguments by {
      assert d.arguments[..cut] + d.arguments[cut..] == d.arguments;
    }
  }

  /**
   Two neighbouring deltas of different calls may arrive in either order exactly when one of the calls has
   begun: the first deltas of two calls fix the order of the calls.
   */
  lemma InterleavingInvariant(before: seq<ToolDelta>, d: ToolDelta, e: ToolDelta, after: seq<ToolDelta>)
    requires d.index != e.index
    ensures Fold([], before + [d, e] + after) == Fold([], before + [e, d] + after)
       <==> d.index in Indexes(before) || e.index in Indexes(before)
  {
    hide Absorb, ForIndex, Spelled;
    var acc := Fold([], before);
    FoldPair(before, d, e, after);
    FoldPair(before, e, d, after);
    FoldSpells(before);
    PositionOfEntry(before, d.index);
    PositionOfEntry(before, e.index);
    if d.index in Indexes(before) {
      AbsorbSwap(acc, d, e);
    } else if e.index in Indexes(before) {
      AbsorbSwap(acc, e, d);
    } else {
      BothNew(acc, d, e);
      BothNew(acc, e, d);
      FoldKeepsIndex(Absorb(Absorb(acc, d), e), after, |acc|);
      FoldKeepsIndex(Absorb(Absorb(acc, e), d), after, |acc|);
    }
  }

  lemma FoldPair(before: seq<ToolDelta>, d: ToolDelta, e: ToolDelta, after: seq<ToolDelta>)
    ensures Fold([], before + [d, e] + after) == Fold(Absorb(Absorb(Fold([], before), d), e), after)
  {
    hide Absorb, Fold;
    var acc := Fold([], before);
    assert before + [d, e] + after == before + ([d, e] + after);
    FoldAppend([], before, [d, e] + after);
    assert [d, e] + after == [d] + ([e] + after);
    FoldCons(acc, d, [e] + after);
    FoldCons(Absorb(acc, d), e, after);
  }

  lemma BothNew(acc: seq<Entry>, d: ToolDelta, e: ToolDelta)
    requires d.index != e.index && Position(acc, d.index) == Position(acc, e.index) == |acc|
    ensures |acc| < |Absorb(Absorb(acc, d), e)| && Absorb(Absorb(acc, d), e)[|acc|].index == d.index
  {
    hide Extend;
  }

  lemma {:induction false} FoldKeepsIndex(acc: seq<Entry>, deltas: seq<ToolDelta>, k: nat)
    requires k < |acc|
    ensures k < |Fold(acc, deltas)| && Fold(acc, deltas)[k].index == acc[k].index
    decreases |deltas|
  {
    if deltas == [] {
    } else {
      FoldKeepsIndex(Absorb(acc, deltas[0]), deltas[1..], k);
    }
  }

  lemma AbsorbSwap(acc: seq<Entry>, d: ToolDelta, e: ToolDelta)
    requires d.index != e.index && Position(acc, d.index) < |acc|
    ensures Absorb(Absorb(acc, d), e) == Absorb(Absorb(acc, e), d)
  {
    hide Absorb, Position, Extend;
    AbsorbKnown(acc, d);
    PositionKept(acc, d, e.index);
    PositionKept(acc, e, d.index);
    AbsorbKnown(Absorb(acc, e), d);
    if Position(acc, e.index) < |acc| {
      AbsorbKnown(acc, e);
      AbsorbKnown(Absorb(acc, d), e);
    } else {
      AbsorbNew(acc, e);
      AbsorbNew(Absorb(acc, d), e);
    }
  }

  lemma AbsorbKnown(acc: seq<Entry>, d: ToolDelta)
    requires Position(acc, d.index) < |acc|
    ensures var p := Position(acc, d.index);
            acc[p].index == d.index && Absorb(acc, d) == acc[p := Entry(d.index, Extend(acc[p].call, d))]
  {
  }

  lemma AbsorbNew(acc: seq<Entry>, d: ToolDelta)
    requires Position(acc, d.index) >= |acc|
    ensures Absorb(acc, d) == acc + [Entry(d.index, Extend(WireCall(d.id, "", ""), d))]
  {
  }

  lemma PositionKept(acc: seq<Entry>, d: ToolDelta, index: int)
    requires d.index != index
    ensures var p := Position(acc, index);
            Position(Absorb(acc, d), index) == if p < |acc| then p else |Absorb(acc, d)|
    ensures |acc| <= |Absorb(acc, d)|
  {
    hide Extend;
    var acc' := Absorb(acc, d);
    var p := Position(acc, index);
    assert p < |acc| ==> acc'[p].index == index;
    assert forall k | 0 <= k < p :: acc'[k].index == acc[k].index;
    assert forall k | |acc| <= k < |acc'| :: acc'[k].index == d.index;
  }
}
