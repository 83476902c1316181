/**
 * The turn relay: for one inbound request, the responses written back while
 * the completion stream is read. A request that asks for no answer writes
 * nothing. Otherwise every chunk that carries a choice is relayed as one
 * fragment, and the first receive error ends the stream with exactly one
 * terminal marker. The completion stream is an abstract sequence of events.
 */
module Relay {
  import opened Messages

  /** What one receive on the completion stream yields. */
  datatype Event =
    | Chunk(choices: seq<string>)  // a chunk; each choice is the delta content it carries
    | EndOfStream                  // the stream ended normally
    | StreamError                  // any other receive error

  /** The stream eventually yields an error, so the receive loop ends. */
  predicate Terminates(events: seq<Event>) {
    exists j :: 0 <= j < |events| && !events[j].Chunk?
  }

  /** The position of the first receive error: every event before it is a chunk. */
  function FirstTerminal(events: seq<Event>): (n: nat)
    requires Terminates(events)
    ensures n < |events| && !events[n].Chunk?
    ensures forall j :: 0 <= j < n ==> events[j].Chunk?
  {
    if !events[0].Chunk? then 0
    else
      var j :| 0 <= j < |events| && !events[j].Chunk?;
      assert 0 <= j - 1 < |events[1..]| && !events[1..][j - 1].Chunk?;
      1 + FirstTerminal(events[1..])
  }

  /** A relayed response for the given request id: never complete, never ending the call. */
  function Fragment(id: int, content: string): Response {
    Response(id, content, false, false)
  }

  /** The content of the terminal marker, given how the stream ended and how many chunks came before. */
  function TerminalContent(end: Event, received: nat): (s: string)
    requires !end.Chunk?
    ensures s == END_MARKER <==> end.EndOfStream? && received > 0
    ensures s != END_MARKER ==> s == NO_RESPONSE_MARKER
  {
    match end
    case EndOfStream => if received == 0 then NO_RESPONSE_MARKER else END_MARKER
    case StreamError => NO_RESPONSE_MARKER
  }

  /**
   * The responses written for the remaining stream, after `received` chunks
   * have already been read: the Go handler's receive loop, one receive at a
   * time. Something is always written, every response echoes the id with both
   * flags false, and the last one is a terminal marker.
   */
  function RelayFrom(id: int, events: seq<Event>, received: nat): (out: seq<Response>)
    requires Terminates(events)
    ensures |out| > 0
    ensures forall r :: r in out ==> r.responseId == id && !r.contentComplete && !r.endCall
    ensures out[|out| - 1].content == END_MARKER || out[|out| - 1].content == NO_RESPONSE_MARKER
    decreases |events|
  {
    match events[0]
    case Chunk(choices) =>
      assert Terminates(events[1..]) by {
        var n := FirstTerminal(events);
        assert 0 <= n - 1 < |events[1..]| && !events[1..][n - 1].Chunk?;
      }
      (if |choices| > 0 then [Fragment(id, choices[0])] else []) + RelayFrom(id, events[1..], received + 1)
    case EndOfStream => [Fragment(id, TerminalContent(events[0], received))]
    case StreamError => [Fragment(id, TerminalContent(events[0], received))]
  }

  /**
   * Everything written for one request: nothing exactly when it asks for no
   * answer, and otherwise responses that all echo its id with both flags false.
   */
  function Responses(msg: Request, events: seq<Event>): (out: seq<Response>)
    requires Terminates(events)
    ensures out == [] <==> msg.interactionType == UPDATE_ONLY
    ensures forall r :: r in out ==> r.responseId == msg.responseId && !r.contentComplete && !r.endCall
  {
    if msg.interactionType == UPDATE_ONLY then [] else RelayFrom(msg.responseId, events, 0)
  }

  /**
   * The receive loop of main.go's handler, writing by appending to `out`. The loop
   * counter `i` counts every chunk received, with or without a choice, so it
   * is also the position of the next event to receive.
   */
  method HandleWebsocketMessages(msg: Request, events: seq<Event>) returns (out: seq<Response>)
    requires Terminates(events)
    ensures out == Responses(msg, events)
    ensures out == [] <==> msg.interactionType == UPDATE_ONLY
    ensures forall r :: r in out ==> r.responseId == msg.responseId && !r.contentComplete && !r.endCall
  {
    out := [];
    if msg.interactionType != UPDATE_ONLY {
      var i: nat := 0;
      while true
        invariant i <= FirstTerminal(events)
        invariant out == Fragments(msg.responseId, Deltas(events[..i]))
        decreases |events| - i
      {
        var response := events[i];
        if !response.Chunk? {
          var s := if response.EndOfStream? then (if i == 0 then NO_RESPONSE_MARKER else END_MARKER)
                   else NO_RESPONSE_MARKER;
          out := out + [Response(msg.responseId, s, false, false)];
          break;
        }
        FragmentsStep(msg.responseId, events, i);
        if |response.choices| > 0 {
          var s := response.choices[0];
          out := out + [Response(msg.responseId, s, false, false)];
        }
        i := i + 1;
      }
      RelayFromShape(msg.responseId, events, 0);
    }
  }

  /** The first-choice contents of the chunks that carry a choice, in stream order. */
  function Deltas(chunks: seq<Event>): (d: seq<string>)
    ensures |d| <= |chunks|
  {
    if chunks == [] then []
    else
      (if chunks[0].Chunk? && |chunks[0].choices| > 0 then [chunks[0].choices[0]] else [])
      + Deltas(chunks[1..])
  }

  /** How many events are chunks that carry a choice. */
  function CountWithChoices(chunks: seq<Event>): nat {
    |set j | 0 <= j < |chunks| && chunks[j].Chunk? && |chunks[j].choices| > 0|
  }

  /** One fragment per delta, all echoing the request id. */
  function Fragments(id: int, d: seq<string>): (out: seq<Response>)
    ensures |out| == |d|
  {
    seq(|d|, k requires 0 <= k < |d| => Fragment(id, d[k]))
  }

  /** Splitting the chunks splits their deltas. */
  lemma {:induction false} DeltasAppend(a: seq<Event>, b: seq<Event>)
    ensures Deltas(a + b) == Deltas(a) + Deltas(b)
  {
    if a == [] {
      assert a + b == b;
    } else {
      var e := a[0];
      var h := if e.Chunk? && |e.choices| > 0 then [e.choices[0]] else [];
      assert (a + b)[0] == e;
      assert (a + b)[1..] == a[1..] + b;
      assert Deltas(a + b) == h + Deltas(a[1..] + b);
      DeltasAppend(a[1..], b);
      assert Deltas(a) == h + Deltas(a[1..]);
    }
  }

  /** One received chunk adds its fragment, if it has a choice, after the earlier ones. */
  lemma FragmentsStep(id: int, events: seq<Event>, i: nat)
    requires i < |events| && events[i].Chunk?
    ensures Fragments(id, Deltas(events[..i + 1])) ==
            Fragments(id, Deltas(events[..i])) +
            (if |events[i].choices| > 0 then [Fragment(id, events[i].choices[0])] else [])
  {
    var e := events[i];
    var head := if |e.choices| > 0 then [e.choices[0]] else [];
    assert events[..i + 1] == events[..i] + [e];
    DeltasAppend(events[..i], [e]);
    assert Deltas([e]) == head;
    FragmentsAppend(id, Deltas(events[..i]), head);
  }

  /** Splitting the deltas splits their fragments. */
  lemma FragmentsAppend(id: int, d: seq<string>, e: seq<string>)
    ensures Fragments(id, d + e) == Fragments(id, d) + Fragments(id, e)
  {
    assert forall k :: 0 <= k < |d| + |e| ==> Fragments(id, d + e)[k] == (Fragments(id, d) + Fragments(id, e))[k];
  }

  /**
   * What the relay writes, stated by the stream's shape: one fragment per
   * chunk with a choice before the first receive error, in stream order, then
   * the terminal marker chosen by that error and the number of chunks
   * received in all.
   */
  function Written(id: int, events: seq<Event>, received: nat): seq<Response>
    requires Terminates(events)
  {
    var n := FirstTerminal(events);
    Fragments(id, Deltas(events[..n])) + [Fragment(id, TerminalContent(events[n], received + n))]
  }

  /** A stream split at an error event: some chunks, the error, and whatever follows it. */
  predicate SplitAt(events: seq<Event>, chunks: seq<Event>, end: Event, rest: seq<Event>) {
    events == chunks + [end] + rest && !end.Chunk? && forall k :: 0 <= k < |chunks| ==> chunks[k].Chunk?
  }

  /** Receiving a chunk: its fragment, if it has a choice, then what the rest of the stream writes. */
  lemma RelayFromCons(id: int, events: seq<Event>, received: nat)
    requires Terminates(events) && events[0].Chunk?
    ensures Terminates(events[1..])
    ensures RelayFrom(id, events, received) ==
            (if |events[0].choices| > 0 then [Fragment(id, events[0].choices[0])] else []) +
            RelayFrom(id, events[1..], received + 1)
  {
    var n := FirstTerminal(events);
    assert 0 <= n - 1 < |events[1..]| && !events[1..][n - 1].Chunk?;
  }

  /**
   * The shape of what the loop writes: one fragment per chunk with a choice
   * before the first receive error, in order, then the one terminal marker,
   * chosen from that error and the number of chunks received in all.
   */
  lemma {:induction false} RelayFromShape(id: int, events: seq<Event>, received: nat)
    requires Terminates(events)
    ensures RelayFrom(id, events, received) == Written(id, events, received)
    decreases |events|
  {
    if events[0].Chunk? {
      RelayFromCons(id, events, received);
      RelayFromShape(id, events[1..], received + 1);
      WrittenCons(id, events, received);
    }
  }

  /** Written, one chunk at a time: a leading chunk contributes its fragment, if it has a choice, in front. */
  lemma WrittenCons(id: int, events: seq<Event>, received: nat)
    requires Terminates(events) && events[0].Chunk?
    ensures Terminates(events[1..])
    ensures Written(id, events, received) ==
            (if |events[0].choices| > 0 then [Fragment(id, events[0].choices[0])] else []) +
            Written(id, events[1..], received + 1)
  {
    var tail := events[1..];
    var n := FirstTerminal(events);
    assert 0 <= n - 1 < |tail| && !tail[n - 1].Chunk?;
    assert FirstTerminal(tail) == n - 1;
    assert tail[n - 1] == events[n];
    var e := events[0];
    var head := if |e.choices| > 0 then [e.choices[0]] else [];
    assert events[..n][0] == e;
    assert events[..n][1..] == tail[..n - 1];
    assert Deltas(events[..n]) == head + Deltas(tail[..n - 1]);
    FragmentsAppend(id, head, Deltas(tail[..n - 1]));
    var h, f := Fragments(id, head), Fragments(id, Deltas(tail[..n - 1]));
    var m := [Fragment(id, TerminalContent(events[n], received + n))];
    assert h == if |e.choices| > 0 then [Fragment(id, e.choices[0])] else [];
    assert Written(id, tail, received + 1) == f + m;
    assert Written(id, events, received) == (h + f) + m;
    ConcatAssoc(h, f, m);
  }

  /** Concatenation is associative. */
  lemma ConcatAssoc<T>(a: seq<T>, b: seq<T>, c: seq<T>)
    ensures a + (b + c) == (a + b) + c
  {
  }

  /**
   * The loop over a split stream: the chunks write their deltas in order, the
   * error writes the marker chosen by the number of chunks received, and
   * nothing after it is read.
   */
  lemma RelayFromSplit(id: int, chunks: seq<Event>, end: Event, rest: seq<Event>, received: nat)
    requires SplitAt(chunks + [end] + rest, chunks, end, rest)
    ensures Terminates(chunks + [end] + rest)
    ensures RelayFrom(id, chunks + [end] + rest, received) ==
            Fragments(id, Deltas(chunks)) + [Fragment(id, TerminalContent(end, received + |chunks|))]
  {
    var events := chunks + [end] + rest;
    assert events[|chunks|] == end;
    assert FirstTerminal(events) == |chunks| by {
      assert forall j :: 0 <= j < |chunks| ==> events[j] == chunks[j];
    }
    assert events[..|chunks|] == chunks;
    RelayFromShape(id, events, received);
  }

  /**
   * A request that asks for an answer writes one fragment per chunk with a
   * choice before the first receive error, carrying that choice's content in
   * stream order, and then exactly one terminal marker as the last response.
   */
  lemma RelayShape(msg: Request, events: seq<Event>)
    requires Terminates(events)
    requires msg.interactionType != UPDATE_ONLY
    ensures var n := FirstTerminal(events);
            var out := Responses(msg, events);
            var d := Deltas(events[..n]);
            |out| == |d| + 1 &&
            (forall k :: 0 <= k < |d| ==> out[k].content == d[k]) &&
            out[|out| - 1].content == TerminalContent(events[n], n)
  {
    RelayFromShape(msg.responseId, events, 0);
  }

  /** Deltas keeps exactly the chunks that carry a choice. */
  lemma {:induction false} DeltasCount(chunks: seq<Event>)
    ensures |Deltas(chunks)| == CountWithChoices(chunks)
  {
    if chunks != [] {
      var last := |chunks| - 1;
      var init := chunks[..last];
      DeltasCount(init);
      assert chunks == init + [chunks[last]];
      DeltasAppend(init, [chunks[last]]);
      var sInit := set j | 0 <= j < |init| && init[j].Chunk? && |init[j].choices| > 0;
      var s := set j | 0 <= j < |chunks| && chunks[j].Chunk? && |chunks[j].choices| > 0;
      if chunks[last].Chunk? && |chunks[last].choices| > 0 {
        assert s == sInit + {last};
      } else {
        assert s == sInit;
      }
    }
  }

  /** The number of responses is the number of chunks with a choice before the first error, plus the marker. */
  lemma RelayCount(msg: Request, events: seq<Event>)
    requires Terminates(events)
    requires msg.interactionType != UPDATE_ONLY
    ensures |Responses(msg, events)| == CountWithChoices(events[..FirstTerminal(events)]) + 1
  {
    RelayShape(msg, events);
    DeltasCount(events[..FirstTerminal(events)]);
  }

  /**
   * How the terminal marker is chosen: a normal end after at least one chunk
   * gives the end marker; a normal end before any chunk, or any other error
   * whatever came before, gives the retry marker.
   */
  lemma TerminalMarker(msg: Request, events: seq<Event>)
    requires Terminates(events)
    requires msg.interactionType != UPDATE_ONLY
    ensures var n := FirstTerminal(events);
            var out := Responses(msg, events);
            |out| > 0 &&
            (events[n].EndOfStream? && n == 0 ==> out[|out| - 1].content == NO_RESPONSE_MARKER) &&
            (events[n].EndOfStream? && n > 0 ==> out[|out| - 1].content == END_MARKER) &&
            (events[n].StreamError? ==> out[|out| - 1].content == NO_RESPONSE_MARKER)
  {
    RelayShape(msg, events);
  }

  /** Processing stops at the first receive error: nothing after it is ever read. */
  lemma StopsAtFirstTerminal(msg: Request, events: seq<Event>, later: seq<Event>)
    requires Terminates(events)
    ensures Terminates(events[..FirstTerminal(events) + 1] + later)
    ensures Responses(msg, events[..FirstTerminal(events) + 1] + later) == Responses(msg, events)
  {
    var n := FirstTerminal(events);
    var cut := events[..n + 1] + later;
    assert cut[n] == events[n];
    assert Terminates(cut);
    assert FirstTerminal(cut) == n by {
      assert forall j :: 0 <= j < n ==> cut[j] == events[j];
    }
    assert cut[..n] == events[..n];
    if msg.interactionType != UPDATE_ONLY {
      RelayFromShape(msg.responseId, events, 0);
      RelayFromShape(msg.responseId, cut, 0);
    }
  }

  /**
   * A chunk without a choice writes nothing but is still counted: put in
   * front of a stream it changes no fragment, and a normal end then always
   * gives the end marker.
   */
  lemma EmptyChunkCounted(msg: Request, events: seq<Event>)
    requires Terminates(events)
    requires msg.interactionType != UPDATE_ONLY
    ensures Terminates([Chunk([])] + events)
    ensures var out := Responses(msg, [Chunk([])] + events);
            var plain := Responses(msg, events);
            |out| == |plain| > 0 && out[..|out| - 1] == plain[..|plain| - 1] &&
            (events[FirstTerminal(events)].EndOfStream? ==> out[|out| - 1].content == END_MARKER)
  {
    var id := msg.responseId;
    var n := FirstTerminal(events);
    var padded := [Chunk([])] + events;
    assert padded[1..] == events;
    var frags := Fragments(id, Deltas(events[..n]));
    var out := frags + [Fragment(id, TerminalContent(events[n], 1 + n))];
    var plain := frags + [Fragment(id, TerminalContent(events[n], 0 + n))];
    assert Terminates(padded) && Responses(msg, padded) == out by {
      WrittenCons(id, padded, 0);
      RelayFromShape(id, padded, 0);
    }
    assert Responses(msg, events) == plain by {
      RelayFromShape(id, events, 0);
    }
    assert out[..|out| - 1] == frags == plain[..|plain| - 1];
  }

  /**
   * The greeting written once when a connection is accepted: id 0, the
   * opening line, complete and not ending the call, so unlike any relayed
   * fragment.
   */
  function Greeting(): (r: Response)
    ensures r.responseId == 0 && r.content == GREETING_CONTENT && r.contentComplete && !r.endCall
    ensures forall id, c :: r != Fragment(id, c)
  {
    Response(0, GREETING_CONTENT, true, false)
  }

  /**
   * The greeting, with id 0 and marked complete, can never be confused with a
   * response the relay writes: those are never marked complete.
   */
  lemma GreetingDistinctFromRelay(msg: Request, events: seq<Event>)
    requires Terminates(events)
    ensures Greeting().responseId == 0 && Greeting().contentComplete && !Greeting().endCall
    ensures Greeting() !in Responses(msg, events)
  {
  }

  /** A two-chunk answer: each chunk relayed in order, then the end marker. */
  lemma ScenarioTwoChunks()
    ensures Terminates([Chunk(["Hel"]), Chunk(["lo"]), EndOfStream])
    ensures var msg := Request(1, [Transcripts(USER_ROLE, "hi")], "response_required");
            Responses(msg, [Chunk(["Hel"]), Chunk(["lo"]), EndOfStream]) ==
            [Response(1, "Hel", false, false), Response(1, "lo", false, false),
             Response(1, END_MARKER, false, false)]
  {
    var events := [Chunk(["Hel"]), Chunk(["lo"]), EndOfStream];
    assert !events[2].Chunk?;
    assert events[1..] == [Chunk(["lo"]), EndOfStream];
    assert events[1..][1..] == [EndOfStream];
  }

  /** A stream that ends before any chunk: the retry marker alone. */
  lemma ScenarioNoChunk(msg: Request)
    requires msg.interactionType != UPDATE_ONLY
    ensures Terminates([EndOfStream])
    ensures Responses(msg, [EndOfStream]) == [Response(msg.responseId, NO_RESPONSE_MARKER, false, false)]
  {
    var events: seq<Event> := [EndOfStream];
    assert !events[0].Chunk?;
  }
}
