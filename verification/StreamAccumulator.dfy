/**
 The OpenAI-compatible adapter: tool calls arrive as deltas spread over stream chunks and are put
 together by index, or arrive whole in one message.
 */
module StreamAccumulator {
  import opened Options
  import opened SessionState

  /** An absent id, name or argument fragment is the empty string. */
  datatype ToolDelta = ToolDelta(index: int, id: string, name: string, arguments: string)

  /** `finish` is empty while the choice goes on. */
  datatype Choice = Choice(content: string, deltas: seq<ToolDelta>, finish: string)

  /** A chunk without choices is `None`. */
  type Chunk = Option<Choice>

  /** A tool call as the wire carries it, its arguments still undecoded. */
  datatype WireCall = WireCall(id: string, name: string, arguments: string)

  datatype WireMessage = WireMessage(content: string, calls: seq<WireCall>, finish: string)

  /** `json.loads`; `None` is a decode error. */
  type Decoder = string -> Option<string>

  const NO_ARGUMENTS := "{}"

  function Decode(decode: Decoder, text: string): string {
    if text == "" then NO_ARGUMENTS
    else match decode(text) case Some(value) => value case None => NO_ARGUMENTS
  }

  /** The arguments a text decodes to: its JSON value, or the empty object when there is none. */
  predicate Decoded(decode: Decoder, text: string, value: string) {
    value == if text != "" && decode(text).Some? then decode(text).value else "{}"
  }

  /** `call` is the reported form of `wire`: id and name as they are, arguments decoded. */
  predicate Reports(decode: Decoder, call: ToolCall, wire: WireCall) {
    call.id == wire.id && call.name == wire.name && Decoded(decode, wire.arguments, call.arguments)
  }

  function DecodeCall(decode: Decoder, call: WireCall): ToolCall {
    ToolCall(call.id, call.name, Decode(decode, call.arguments))
  }

  function DecodeCalls(decode: Decoder, calls: seq<WireCall>): (r: seq<ToolCall>)
    ensures |r| == |calls|
  {
    seq(|calls|, i requires 0 <= i < |calls| => DecodeCall(decode, calls[i]))
  }

  function StopOf(finish: string): StopReason {
    if finish == "tool_calls" then ToolCalls else Stop
  }

  // ---------- the whole message ----------

  function ParsedResponse(decode: Decoder, message: WireMessage): Response {
    Response(message.content, DecodeCalls(decode, message.calls), StopOf(message.finish))
  }

  method ParseResponse(decode: Decoder, message: WireMessage) returns (response: Response)
    ensures response == ParsedResponse(decode, message)
    ensures response.text == message.content && |response.calls| == |message.calls|
    ensures forall i | 0 <= i < |message.calls| :: Reports(decode, response.calls[i], message.calls[i])
    ensures response.stop.ToolCalls? <==> message.finish == "tool_calls"
  {
    var calls := [];
    for i := 0 to |message.calls|
      invariant calls == DecodeCalls(decode, message.calls)[..i]
    {
      calls := calls + [DecodeCall(decode, message.calls[i])];
    }
    response := Response(message.content, calls, StopOf(message.finish));
  }

  // ---------- the accumulator ----------

  /** Entries in insertion order, as an insertion-ordered dictionary keeps them. */
  datatype Entry = Entry(index: int, call: WireCall)

  function Position(acc: seq<Entry>, index: int): (p: nat)
    ensures p <= |acc| && forall k | 0 <= k < p :: acc[k].index != index
    ensures p < |acc| ==> acc[p].index == index
  {
    if acc == [] || acc[0].index == index then 0 else 1 + Position(acc[1..], index)
  }

  function Extend(call: WireCall, d: ToolDelta): WireCall {
    WireCall(if d.id != "" then d.id else call.id,
             if d.name != "" then d.name else call.name,
             call.arguments + d.arguments)
  }

  function Absorb(acc: seq<Entry>, d: ToolDelta): seq<Entry> {
    var p := Position(acc, d.index);
    if p == |acc| then acc + [Entry(d.index, Extend(WireCall(d.id, "", ""), d))]
    else acc[p := Entry(d.index, Extend(acc[p].call, d))]
  }

  function Fold(acc: seq<Entry>, deltas: seq<ToolDelta>): seq<Entry>
    decreases |deltas|
  {
    if deltas == [] then acc else Fold(Absorb(acc, deltas[0]), deltas[1..])
  }

  function CallEvents(decode: Decoder, acc: seq<Entry>): seq<LlmEvent> {
    seq(|acc|, i requires 0 <= i < |acc| => Call(DecodeCall(decode, acc[i].call)))
  }

  /** The events of a chunk sequence, from accumulator `acc` on. */
  function Events(decode: Decoder, acc: seq<Entry>, chunks: seq<Chunk>): seq<LlmEvent>
    decreases |chunks|
  {
    if chunks == [] then [End(Stop)]
    else if chunks[0].None? then Events(decode, acc, chunks[1..])
    else
      var choice := chunks[0].value;
      var text := if choice.content == "" then [] else [Text(choice.content)];
      var acc' := Fold(acc, choice.deltas);
      if choice.finish != "" then text + CallEvents(decode, acc') + [End(StopOf(choice.finish))]
      else text + Events(decode, acc', chunks[1..])
  }

  method AbsorbDeltas(start: seq<Entry>, deltas: seq<ToolDelta>) returns (acc: seq<Entry>)
    ensures acc == Fold(start, deltas)
  {
    hide Absorb;
    acc := start;
    assert deltas[0..] == deltas;
    for j := 0 to |deltas|
      invariant Fold(acc, deltas[j..]) == Fold(start, deltas)
    {
      assert deltas[j..][1..] == deltas[j + 1..];
      acc := Absorb(acc, deltas[j]);
    }
  }

  method EmitCalls(decode: Decoder, acc: seq<Entry>) returns (events: seq<LlmEvent>)
    ensures events == CallEvents(decode, acc)
    ensures |events| == |acc|
    ensures forall i | 0 <= i < |acc| :: events[i].Call? && Reports(decode, events[i].call, acc[i].call)
  {
    events := [];
    for j := 0 to |acc|
      invariant events == CallEvents(decode, acc)[..j]
    {
      events := events + [Call(DecodeCall(decode, acc[j].call))];
    }
  }

  /** The first chunk of a rest, then the events of what follows it. */
  lemma EventsFrom(decode: Decoder, acc: seq<Entry>, chunks: seq<Chunk>, i: nat)
    requires i < |chunks|
    ensures Events(decode, acc, chunks[i..]) ==
            if chunks[i].None? then Events(decode, acc, chunks[i + 1..])
            else
              var choice := chunks[i].value;
              var text, acc' := if choice.content == "" then [] else [Text(choice.content)], Fold(acc, choice.deltas);
              if choice.finish != "" then text + (CallEvents(decode, acc') + [End(StopOf(choice.finish))])
              else text + Events(decode, acc', chunks[i + 1..])
  {
    hide Fold, CallEvents;
    assert chunks[i..][1..] == chunks[i + 1..];
  }

  lemma NoEvents(decode: Decoder, acc: seq<Entry>)
    ensures Events(decode, acc, []) == [End(Stop)]
  {
  }

  lemma Emitted(before: seq<LlmEvent>, text: seq<LlmEvent>, rest: seq<LlmEvent>)
    ensures before + (text + rest) == before + text + rest
    ensures before + [] == before
  {
  }

  method ChatStream(decode: Decoder, chunks: seq<Chunk>) returns (events: seq<LlmEvent>)
    ensures events == Events(decode, [], chunks)
  {
    hide Fold, CallEvents, Events;
    events := [];
    var acc: seq<Entry> := [];
    assert chunks[0..] == chunks;
    for i := 0 to |chunks|
      invariant events + Events(decode, acc, chunks[i..]) == Events(decode, [], chunks)
    {
      EventsFrom(decode, acc, chunks, i);
      if chunks[i].None? {
        continue;
      }
      var choice := chunks[i].value;
      ghost var before, text := events, if choice.content == "" then [] else [Text(choice.content)];
      if choice.content != "" {
        events := events + [Text(choice.content)];
      }
      acc := AbsorbDeltas(acc, choice.deltas);
      Emitted(before, text, Events(decode, acc, chunks[i + 1..]));
      if choice.finish != "" {
        var calls := EmitCalls(decode, acc);
        Emitted(before, text, calls + [End(StopOf(choice.finish))]);
        Emitted(before + text, calls, [End(StopOf(choice.finish))]);
        events := events + calls + [End(StopOf(choice.finish))];
        return;
      }
    }
    assert chunks[|chunks|..] == [];
    NoEvents(decode, acc);
    events := events + [End(Stop)];
  }
}
