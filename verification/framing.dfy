/** Frame assembly of the command-batch server: the body of the receive loop
    of one controller connection (`sock_thread` in l1_driver.py), reduced to
    a step function over receive events. The socket, its 10-second timeout
    and the thread are outside the model; what they deliver is an event. */
module Framing {
  import opened Wrappers
  import opened Text

  /** The closing tag whose arrival anywhere in the buffer completes a batch. */
  const Marker: string := "</Commands>"

  /** What one `recv(2048)` call yields: a timeout (the loop just polls
      again), any other exception (the loop ends), or data, where empty
      data means the peer closed the connection. */
  datatype RecvEvent = TimedOut | Broken | Received(data: string)

  /** The buffer after one event, the batch handed to the dispatcher (if
      the event completed one), and whether the loop ends. */
  datatype Step = Step(buffer: string, batch: Option<string>, stop: bool)

  /** One iteration of the receive loop. */
  function Feed(buffer: string, ev: RecvEvent): (r: Step)
    ensures ev.TimedOut? ==> r == Step(buffer, None, false)
    ensures ev.Broken? ==> r.stop && r.batch.None?
    ensures ev.Received? ==> (r.batch.Some? <==> Contains(buffer + ev.data, Marker))
    ensures r.batch.Some? ==> r.batch.value == buffer + ev.data && r.buffer == ""
    ensures ev.Received? && r.batch.None? ==> r.buffer == buffer + ev.data
    ensures ev.Received? ==> (r.stop <==> ev.data == "")
  {
    match ev
    case TimedOut => Step(buffer, None, false)
    case Broken => Step(buffer, None, true)
    case Received(data) =>
      var b := buffer + data;
      if Contains(b, Marker) then Step("", Some(b), data == "")
      else Step(b, None, data == "")
  }

  /** All data carried by a sequence of events, in arrival order. */
  function Payload(events: seq<RecvEvent>): string
  {
    if |events| == 0 then ""
    else (if events[0].Received? then events[0].data else "") + Payload(events[1..])
  }

  /** What the loop has done after a prefix of the events: the batches it
      dispatched in order, the buffer it holds, how many events it read, and
      whether it has ended. */
  datatype Run = Run(batches: seq<string>, buffer: string, consumed: nat, stopped: bool)

  /** The receive loop over a finite script of events; it stops at the
      first event that ends it, or when the script runs out (still waiting). */
  function Loop(buffer: string, events: seq<RecvEvent>): (r: Run)
    ensures r.consumed <= |events|
    ensures r.stopped ==> r.consumed >= 1
    ensures !r.stopped ==> r.consumed == |events|
    ensures forall k :: 0 <= k < |r.batches| ==> Contains(r.batches[k], Marker)
    decreases |events|
  {
    if |events| == 0 then Run([], buffer, 0, false)
    else
      var st := Feed(buffer, events[0]);
      var first := if st.batch.Some? then [st.batch.value] else [];
      if st.stop then Run(first, st.buffer, 1, true)
      else
        var rest := Loop(st.buffer, events[1..]);
        Run(first + rest.batches, rest.buffer, rest.consumed + 1, rest.stopped)
  }

  /** No byte is lost or invented: the dispatched batches followed by the
      buffer are exactly the starting buffer followed by the data of the
      events the loop read, except that a receive error ends the loop
      with its buffer discarded unprocessed. */
  lemma {:induction false} LoopConservesData(buffer: string, events: seq<RecvEvent>)
    ensures var r := Loop(buffer, events);
      Concat(r.batches) + r.buffer == buffer + Payload(events[..r.consumed])
    decreases |events|
  {
    if |events| > 0 {
      var st := Feed(buffer, events[0]);
      var first := if st.batch.Some? then [st.batch.value] else [];
      var own := if events[0].Received? then events[0].data else "";
      assert Concat(first) + st.buffer == buffer + own by {
        if st.batch.Some? {
          assert Concat(first) == st.batch.value + Concat([]);
        }
      }
      if st.stop {
        assert events[..1][1..] == [];
        assert Payload(events[..1]) == own + Payload([]);
      } else {
        LoopConservesData(st.buffer, events[1..]);
        var rest := Loop(st.buffer, events[1..]);
        ConcatAppend(first, rest.batches);
        PayloadFront(events, rest.consumed);
        StepConserves(Concat(first), st.buffer, Concat(rest.batches), rest.buffer, buffer, own,
                      Payload(events[1..][..rest.consumed]));
      }
    }
  }

  /** The string algebra of one inductive step of `LoopConservesData`. */
  lemma StepConserves(f: string, sb: string, rb: string, rbuf: string, buffer: string, own: string, tail: string)
    requires f + sb == buffer + own
    requires rb + rbuf == sb + tail
    ensures (f + rb) + rbuf == buffer + (own + tail)
  {
    calc {
      (f + rb) + rbuf;
      f + (rb + rbuf);
      f + (sb + tail);
      (f + sb) + tail;
    }
  }

  lemma PayloadFront(events: seq<RecvEvent>, n: nat)
    requires n < |events|
    ensures Payload(events[..n + 1])
         == (if events[0].Received? then events[0].data else "") + Payload(events[1..][..n])
  {
    var taken := events[..n + 1];
    assert taken[0] == events[0];
    assert taken[1..] == events[1..][..n];
  }

  /** The buffer the loop holds never contains a complete batch marker: a
      marker is acted on in the very step it arrives. */
  lemma {:induction false} LoopBufferHasNoMarker(buffer: string, events: seq<RecvEvent>)
    requires !Contains(buffer, Marker)
    ensures var r := Loop(buffer, events); r.stopped || !Contains(r.buffer, Marker)
    decreases |events|
  {
    if |events| > 0 {
      var st := Feed(buffer, events[0]);
      if !st.stop {
        assert !Contains(st.buffer, Marker) by {
          if st.batch.Some? {
            assert !StartsAt("", 0, Marker);
          }
        }
        LoopBufferHasNoMarker(st.buffer, events[1..]);
      }
    }
  }

  /** A batch whose only marker is its final bytes, arriving split across
      three reads, is dispatched exactly once, whole, and only after the
      third read. */
  lemma SplitBatchAssembledOnce(c1: string, c2: string, c3: string)
    requires |c1| > 0 && |c2| > 0 && |c3| > 0
    requires !Contains((c1 + c2 + c3)[..|c1 + c2 + c3| - 1], Marker)
    requires Contains(c1 + c2 + c3, Marker)
    ensures Loop("", [Received(c1), Received(c2), Received(c3)]) == Run([c1 + c2 + c3], "", 3, false)
  {
    var w := c1 + c2 + c3;
    var front := w[..|w| - 1];
    assert c1 + c2 == front[..|c1 + c2|];
    assert front == (c1 + c2) + front[|c1 + c2|..];
    assert c1 == (c1 + c2)[..|c1|];
    assert c1 + c2 == c1 + (c1 + c2)[|c1|..];
    if Contains(c1 + c2, Marker) {
      ContainsExtend(c1 + c2, front[|c1 + c2|..], Marker);
    }
    if Contains(c1, Marker) {
      ContainsExtend(c1, (c1 + c2)[|c1|..], Marker);
    }
    assert "" + c1 == c1;
    var events := [Received(c1), Received(c2), Received(c3)];
    assert events[1..] == [Received(c2), Received(c3)];
    assert events[1..][1..] == [Received(c3)];
    assert Loop(c1 + c2, [Received(c3)]) == Run([w], "", 1, false) by {
      assert Feed(c1 + c2, Received(c3)) == Step("", Some(w), false);
      assert Loop("", []) == Run([], "", 0, false);
      assert [Received(c3)][1..] == [];
    }
    assert Loop(c1, [Received(c2), Received(c3)]) == Run([w], "", 2, false) by {
      assert Feed(c1, Received(c2)) == Step(c1 + c2, None, false);
      assert [Received(c2), Received(c3)][1..] == [Received(c3)];
    }
    assert Feed("", Received(c1)) == Step(c1, None, false);
  }
}
