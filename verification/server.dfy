/** One controller connection end to end (`sock_thread` in l1_driver.py):
    receive events are framed into batches, each batch is decoded into
    command elements and dispatched, and the envelope is sent back. The XML
    decoder is a parameter; when it rejects a batch, or a batch aborts, the
    exception escapes the connection thread and the connection is
    abandoned without a reply. */
module Server {
  import opened Wrappers
  import opened Text
  import Framing
  import Dispatch

  /** The state of one connection after a prefix of its events. */
  datatype Session<S> = Session(
    state: S,                    // the handler state, shared by all batches
    buffer: string,              // received but not yet dispatched
    frames: seq<string>,         // batches handed to the dispatcher, in order
    replies: seq<Dispatch.Batch>,// envelopes sent back, in order
    consumed: nat,               // events read
    ended: bool,                 // the loop returned (peer closed or read error)
    crashed: bool)               // an exception escaped the thread

  /** The connection thread over a finite script of events. */
  function Serve<S>(h: (S, Dispatch.Call) -> (S, Dispatch.Outcome),
                    decode: string -> Option<seq<Dispatch.CommandNode>>,
                    s: S, buffer: string, events: seq<Framing.RecvEvent>): (r: Session<S>)
    ensures r.consumed <= |events|
    ensures !r.crashed ==> |r.replies| == |r.frames|
    ensures r.crashed ==> |r.frames| == |r.replies| + 1
    ensures !r.ended && !r.crashed ==> r.consumed == |events|
    ensures forall k :: 0 <= k < |r.frames| ==> Contains(r.frames[k], Framing.Marker)
    decreases |events|
  {
    if |events| == 0 then Session(s, buffer, [], [], 0, false, false)
    else
      var st := Framing.Feed(buffer, events[0]);
      if st.batch.None? then
        if st.stop then Session(s, st.buffer, [], [], 1, true, false)
        else
          var rest := Serve(h, decode, s, st.buffer, events[1..]);
          rest.(consumed := rest.consumed + 1)
      else
        var frame := st.batch.value;
        match decode(frame)
        case None => Session(s, st.buffer, [frame], [], 1, false, true)
        case Some(nodes) =>
          var (s', out) := Dispatch.ProcessCommands(h, s, nodes);
          match out
          case Err(_) => Session(s', st.buffer, [frame], [], 1, false, true)
          case Ok(reply) =>
            if st.stop then Session(s', st.buffer, [frame], [reply], 1, true, false)
            else
              var rest := Serve(h, decode, s', st.buffer, events[1..]);
              rest.(frames := [frame] + rest.frames, replies := [reply] + rest.replies,
                    consumed := rest.consumed + 1)
  }

  /** Dispatch never disturbs framing: the batches a connection hands to
      the dispatcher are those the bare receive loop assembles from the
      same events, all of them while nothing fails, and a prefix of them
      up to and including the one that failed otherwise. */
  lemma {:induction false} ServeFramesLikeLoop<S>(h: (S, Dispatch.Call) -> (S, Dispatch.Outcome),
                                                  decode: string -> Option<seq<Dispatch.CommandNode>>,
                                                  s: S, buffer: string, events: seq<Framing.RecvEvent>)
    ensures var r := Serve(h, decode, s, buffer, events);
      var l := Framing.Loop(buffer, events);
      (!r.crashed ==> r.frames == l.batches && r.consumed == l.consumed && r.ended == l.stopped && r.buffer == l.buffer) &&
      (r.crashed ==> r.consumed <= l.consumed && r.frames <= l.batches)
    decreases |events|
  {
    if |events| > 0 {
      var st := Framing.Feed(buffer, events[0]);
      if st.batch.None? {
        if !st.stop {
          ServeFramesLikeLoop(h, decode, s, st.buffer, events[1..]);
        }
      } else {
        var frame := st.batch.value;
        var rest := Framing.Loop(st.buffer, events[1..]);
        if decode(frame).Some? {
          var (s', out) := Dispatch.ProcessCommands(h, s, decode(frame).value);
          if out.Ok? && !st.stop {
            ServeFramesLikeLoop(h, decode, s', st.buffer, events[1..]);
          }
        }
        if !st.stop {
          assert [frame] <= [frame] + rest.batches;
        }
      }
    }
  }

  /** A connection whose events are all timeouts stays open, idle and
      silent. */
  lemma {:induction false} TimeoutsKeepConnectionIdle<S>(h: (S, Dispatch.Call) -> (S, Dispatch.Outcome),
                                                         decode: string -> Option<seq<Dispatch.CommandNode>>,
                                                         s: S, buffer: string, events: seq<Framing.RecvEvent>)
    requires forall k :: 0 <= k < |events| ==> events[k] == Framing.TimedOut
    ensures Serve(h, decode, s, buffer, events) == Session(s, buffer, [], [], |events|, false, false)
    decreases |events|
  {
    if |events| > 0 {
      TimeoutsKeepConnectionIdle(h, decode, s, buffer, events[1..]);
    }
  }
}
