/** The auto-reconnecting subscription of `PilotChannel`: a background loop that drains the current stream into
    a queue and, when the stream drops, tries to open the next one. */
module Reconnect {
  import opened Wire
  import opened Seqs
  import opened EventCodec

  type Chunk = b: bytes | b != [] witness [0]

  /** How a round ends. `NoStream`: connect or dial failed and the old stream stays. `NoSubscribe`: a new stream is in
      place but the subscribe write failed, so the buffer is not reset. `Closed`: `close` cancelled the loop at an
      await of this round, and there is no next one. */
  datatype Attempt = Resubscribed | NoStream | NoSubscribe | Closed

  /** One round of the outer loop: the non-empty chunks the stream yields before a read fails or is cancelled, then one
      attempt to reconnect, or none. */
  datatype Round = Round(chunks: seq<Chunk>, attempt: Attempt)

  datatype Drain = Drain(buf: bytes, events: seq<Event>)

  /** `_iterate_current_stream`: split, read, split again; a bad buffer ends it as a failed read does. */
  function DrainStream(buf: bytes, chunks: seq<Chunk>): Drain
    decreases |chunks|
  {
    match SplitAll(buf)
    case Raised(_) => Drain(buf, [])
    case Parsed(es, rest) =>
      if chunks == [] then Drain(rest, FromRaws(es))
      else
        var d := DrainStream(rest + chunks[0], chunks[1..]);
        Drain(d.buf, FromRaws(es) + d.events)
  }

  function AfterAttempt(buf: bytes, a: Attempt): bytes {
    if a == Resubscribed then [] else buf
  }

  /** What the loop queues over a run of rounds. */
  function Loop(buf: bytes, rounds: seq<Round>): seq<Event>
    decreases |rounds|
  {
    if rounds == [] then []
    else
      var d := DrainStream(buf, rounds[0].chunks);
      if rounds[0].attempt == Closed then d.events
      else d.events + Loop(AfterAttempt(d.buf, rounds[0].attempt), rounds[1..])
  }

  class PilotChannel {
    var buf: bytes
    var queue: seq<Event>

    constructor ()
      ensures buf == [] && queue == []
    {
      buf, queue := [], [];
    }

    /** `_reconnect_loop` fed by `_iterate_current_stream`. */
    method ReconnectLoop(rounds: seq<Round>)
      modifies this
      ensures queue == old(queue) + Loop(old(buf), rounds)
    {
      hide *;
      var i := 0;
      assert rounds[0..] == rounds;
      while i < |rounds|
        invariant 0 <= i <= |rounds|
        invariant old(queue) + Loop(old(buf), rounds) == queue + Loop(buf, rounds[i..])
      {
        LoopFrom(buf, rounds, i);
        ghost var before, d := queue, DrainStream(buf, rounds[i].chunks);
        DrainInto(rounds[i].chunks);
        if rounds[i].attempt == Closed {
          return;
        }
        if rounds[i].attempt == Resubscribed {
          buf := [];
        }
        Associate(before, d.events, Loop(buf, rounds[i + 1..]));
        i := i + 1;
      }
      LoopOver(buf, rounds[i..]);
    }

    /** `_iterate_current_stream`, its events going into the queue. */
    method DrainInto(chunks: seq<Chunk>)
      modifies this
      ensures Drain(buf, queue) ==
              var d := DrainStream(old(buf), chunks); Drain(d.buf, old(queue) + d.events)
    {
      hide *;
      var i := 0;
      assert chunks[0..] == chunks;
      while true
        invariant 0 <= i <= |chunks|
        invariant var d, e := DrainStream(old(buf), chunks), DrainStream(buf, chunks[i..]);
                  d.buf == e.buf && old(queue) + d.events == queue + e.events
        decreases |chunks| - i
      {
        DrainFrom(buf, chunks, i);
        var split := SplitEvents(buf);
        if split.ValueError? {
          return;
        }
        ghost var before := queue;
        buf := split.leftover;
        queue := queue + split.events;
        if i == |chunks| {
          return;
        }
        buf := buf + chunks[i];
        Associate(before, split.events, DrainStream(buf, chunks[i + 1..]).events);
        i := i + 1;
      }
    }
  }

  lemma LoopFrom(buf: bytes, rounds: seq<Round>, i: nat)
    requires i < |rounds|
    ensures var d := DrainStream(buf, rounds[i].chunks);
            Loop(buf, rounds[i..]) ==
            if rounds[i].attempt == Closed then d.events
            else d.events + Loop(if rounds[i].attempt == Resubscribed then [] else d.buf, rounds[i + 1..])
  {
    hide DrainStream;
    assert rounds[i..][0] == rounds[i] && rounds[i..][1..] == rounds[i + 1..];
  }

  lemma LoopOver(buf: bytes, rounds: seq<Round>)
    ensures rounds == [] ==> Loop(buf, rounds) == []
  {
  }

  lemma DrainFrom(buf: bytes, chunks: seq<Chunk>, i: nat)
    requires i <= |chunks|
    ensures var s := Decoded(SplitAll(buf));
            && (s.ValueError? ==> DrainStream(buf, chunks[i..]) == Drain(buf, []))
            && (s.Events? && i == |chunks| ==> DrainStream(buf, chunks[i..]) == Drain(s.leftover, s.events))
            && (s.Events? && i < |chunks| ==>
                  var d := DrainStream(s.leftover + chunks[i], chunks[i + 1..]);
                  DrainStream(buf, chunks[i..]) == Drain(d.buf, s.events + d.events))
  {
    hide SplitAll, FromRaw;
    if i < |chunks| {
      assert chunks[i..][0] == chunks[i] && chunks[i..][1..] == chunks[i + 1..];
    }
  }
}
