/** The two JSON readers under arbitrary chunking: the worker's request reader, and the client's reader of
    newline-delimited reply frames with its legacy fallback. */
module Frames {
  import opened Json
  import opened JsonText
  import opened Seqs

  predicate NonEmpty(chunks: seq<string>) {
    forall i :: 0 <= i < |chunks| ==> chunks[i] != []
  }

  // ---- the worker reads a request ----

  /** `Request`: parsed after `used` chunks. `Hangup`: the stream ended first. `Blocked`: still waiting. */
  datatype Reading = Request(value: Json, used: nat) | Hangup | Blocked

  function ReadFrom(buf: string, chunks: seq<string>): Reading
    decreases |chunks|
  {
    if chunks == [] then Blocked
    else if chunks[0] == [] then Hangup
    else
      var now := buf + chunks[0];
      if Loads(now).Loaded? then Request(Loads(now).value, 1)
      else
        var r := ReadFrom(now, chunks[1..]);
        if r.Request? then Request(r.value, r.used + 1) else r
  }

  /** The reading loop of `_handle_one`: accumulate until it parses. */
  method ReadRequest(chunks: seq<string>) returns (r: Reading)
    ensures r == ReadFrom([], chunks)
  {
    hide Loads;
    var buf := [];
    for i := 0 to |chunks|
      invariant var rest := ReadFrom(buf, chunks[i..]);
                ReadFrom([], chunks) == if rest.Request? then Request(rest.value, rest.used + i) else rest
    {
      assert chunks[i..][0] == chunks[i] && chunks[i..][1..] == chunks[i + 1..];
      if chunks[i] == [] {
        return Hangup;
      }
      buf := buf + chunks[i];
      var loaded := Loads(buf);
      if loaded.Loaded? {
        return Request(loaded.value, i + 1);
      }
    }
    return Blocked;
  }

  /** For every request object and every way of cutting its text into non-empty chunks: the worker succeeds when
      the last one arrives, not before, and has the request that was sent. */
  lemma {:induction false} RequestArrivesWhole(req: Json, buf: string, chunks: seq<string>)
    requires req.Obj? && Printable(req) && NonEmpty(chunks)
    requires buf + Concat(chunks) == Print(req) && buf != Print(req)
    ensures ReadFrom(buf, chunks) == Request(req, |chunks|)
    ensures forall k :: 0 <= k < |chunks| ==> ReadFrom(buf, chunks[..k]) == Blocked
    decreases |chunks|
  {
    hide Loads, Print, Printable;
    assert buf + [] == buf;
    var now := buf + chunks[0];
    assert now + Concat(chunks[1..]) == Print(req);
    if now == Print(req) {
      LoadsPrint(req);
      ConcatNothing(chunks[1..]);
    } else {
      assert Cut(now, Print(req));
      NoPrefixLoads(req, now);
      assert NonEmpty(chunks[1..]) by { assert forall i :: 0 <= i < |chunks| - 1 ==> chunks[1..][i] == chunks[i + 1]; }
      RequestArrivesWhole(req, now, chunks[1..]);
      forall k | 0 < k < |chunks| ensures ReadFrom(buf, chunks[..k]) == Blocked {
        assert chunks[..k][1..] == chunks[1..][..k - 1] && chunks[..k][0] == chunks[0];
      }
    }
  }

  lemma ConcatNothing(chunks: seq<string>)
    requires Concat(chunks) == [] && NonEmpty(chunks)
    ensures chunks == []
  {
  }

  // ---- the worker writes frames ----

  /** A dict lookup; the last of duplicate keys counts. */
  function Get(fields: seq<(string, Json)>, key: string): Option<Json> {
    if fields == [] then None
    else if fields[|fields| - 1].0 == key then Some(fields[|fields| - 1].1)
    else Get(fields[..|fields| - 1], key)
  }

  /** Python truth of a JSON value; a number is false when its digits before the exponent are all zero. */
  function Truthy(v: Json): bool {
    match v
    case Lit(name) => name != "null" && name != "false"
    case Num(l) => exists i :: 0 <= i < |l| && '1' <= l[i] <= '9' && 'e' !in l[..i] && 'E' !in l[..i]
    case Str(s) => s != []
    case Arr(items) => items != []
    case Obj(fields) => fields != []
  }

  predicate IsDone(f: Json) {
    f.Obj? && Get(f.fields, "done").Some? && Truthy(Get(f.fields, "done").value)
  }

  /** A frame as `_send_chunk` sends it: an object that says whether it is the last. */
  predicate IsFrame(f: Json) {
    f.Obj? && Printable(f) && Get(f.fields, "done").Some?
  }

  predicate AllFrames(fs: seq<Json>) {
    forall i :: 0 <= i < |fs| ==> IsFrame(fs[i])
  }

  /** The bytes of a run of frames: each text and its newline. */
  function Sent(fs: seq<Json>): string {
    if fs == [] then [] else Print(fs[0]) + "\n" + Sent(fs[1..])
  }

  // ---- the client reads frames ----

  /** How `_aframes` ends. `NoReply` is the connection error for a stream that closed before any frame; `Crashed`
      a frame that is not an object; `Running` a reader still waiting. */
  datatype End = Finished | NoReply | TimedOut | Crashed | Running

  datatype Read = Chunk(text: string) | Expired

  datatype Drained = Drained(frames: seq<Json>, buf: string, end: End)

  /** The inner loop: one line at a time. */
  function DrainLines(buf: string): Drained
    decreases |buf|
  {
    if '\n' !in buf then Drained([], buf, Running)
    else
      var i := IndexOf(buf, '\n');
      var line, rest := buf[..i], buf[i + 1..];
      if line == [] || Loads(line).DecodeError? then DrainLines(rest)
      else
        var v := Loads(line).value;
        if !v.Obj? then Drained([], rest, Crashed)
        else if IsDone(v) then Drained([v], rest, Finished)
        else
          var d := DrainLines(rest);
          d.(frames := [v] + d.frames)
  }

  /** The fallback: a frame without a `done` field counts as the last. */
  function Defaulted(v: Json): Json
    requires v.Obj?
  {
    if Get(v.fields, "done").Some? then v else Obj(v.fields + [("done", Lit("true"))])
  }

  /** One chunk: the complete lines, then the fallback on what is left. */
  function Digest(buf: string): Drained {
    var d := DrainLines(buf);
    if d.end != Running || d.buf == [] || Loads(d.buf).DecodeError? then d
    else
      var v := Loads(d.buf).value;
      if v.Obj? then d.(frames := d.frames + [Defaulted(v)], end := Finished) else d.(end := Crashed)
  }

  datatype Seen = Seen(frames: seq<Json>, end: End)

  function AFrames(buf: string, saw: bool, feed: seq<Read>): Seen
    decreases |feed|
  {
    if feed == [] then Seen([], Running)
    else if feed[0].Expired? then Seen([], TimedOut)
    else if feed[0].text == [] then Seen([], if saw then Finished else NoReply)
    else
      var d := Digest(buf + feed[0].text);
      if d.end != Running then Seen(d.frames, d.end)
      else
        var more := AFrames(d.buf, saw || d.frames != [], feed[1..]);
        Seen(d.frames + more.frames, more.end)
  }

  lemma DrainEnd(buf: string, seen: seq<Json>)
    requires '\n' !in buf
    ensures DrainLines(buf) == Drained([], buf, Running) && seen + [] == seen
  {
  }

  lemma DrainStep(buf: string)
    requires '\n' in buf
    ensures var i := IndexOf(buf, '\n'); var loaded := Loads(buf[..i]); var d := DrainLines(buf[i + 1..]);
            DrainLines(buf) ==
              if buf[..i] == [] || loaded.DecodeError? then d
              else if !loaded.value.Obj? then Drained([], buf[i + 1..], Crashed)
              else if IsDone(loaded.value) then Drained([loaded.value], buf[i + 1..], Finished)
              else d.(frames := [loaded.value] + d.frames)
  {
    hide Loads, IsDone, IndexOf;
  }

  lemma TakeOne(a: seq<Json>, v: Json, b: seq<Json>)
    ensures a + ([v] + b) == a + [v] + b
  {
  }

  class FrameReader {
    var buf: string
    var seen: seq<Json>

    constructor ()
      ensures buf == [] && seen == []
    {
      buf, seen := [], [];
    }

    method TakeLines() returns (end: End)
      modifies this
      ensures Drained(seen, buf, end) == var d := DrainLines(old(buf)); d.(frames := old(seen) + d.frames)
    {
      hide Loads, IsDone, DrainLines;
      while '\n' in buf
        invariant var d, e := DrainLines(old(buf)), DrainLines(buf);
                  d == e.(frames := d.frames) && old(seen) + d.frames == seen + e.frames
        decreases |buf|
      {
        DrainStep(buf);
        assert seen + [] == seen;
        var i := IndexOf(buf, '\n');
        var line := buf[..i];
        buf := buf[i + 1..];
        if line == [] {
          continue;
        }
        var loaded := Loads(line);
        if loaded.DecodeError? {
          continue;
        }
        if !loaded.value.Obj? {
          return Crashed;
        }
        TakeOne(seen, loaded.value, DrainLines(buf).frames);
        seen := seen + [loaded.value];
        if IsDone(loaded.value) {
          return Finished;
        }
      }
      DrainEnd(buf, seen);
      return Running;
    }

    /** `_aframes` from the first read on. */
    method Frames(feed: seq<Read>) returns (end: End)
      modifies this
      ensures var s := AFrames(old(buf), old(seen) != [], feed);
              end == s.end && seen == old(seen) + s.frames
    {
      hide Loads, DrainLines;
      for i := 0 to |feed|
        invariant var s, t := AFrames(old(buf), old(seen) != [], feed), AFrames(buf, seen != [], feed[i..]);
                  s.end == t.end && old(seen) + s.frames == seen + t.frames
      {
        ghost var before, left := seen, feed[i..];
        assert left[0] == feed[i] && left[1..] == feed[i + 1..];
        if feed[i].Expired? {
          return TimedOut;
        }
        if feed[i].text == [] {
          return if seen != [] then Finished else NoReply;
        }
        buf := buf + feed[i].text;
        ghost var d := Digest(buf);
        end := TakeLines();
        if end != Running {
          return;
        }
        if buf != [] {
          var loaded := Loads(buf);
          if loaded.Loaded? {
            if !loaded.value.Obj? {
              return Crashed;
            }
            seen := seen + [Defaulted(loaded.value)];
            return Finished;
          }
        }
        assert seen == before + d.frames;
        assert before + (d.frames + AFrames(buf, seen != [], left[1..]).frames) ==
            seen + AFrames(buf, seen != [], left[1..]).frames;
      }
      return Running;
    }
  }

  /** The values that count as false. */
  lemma FalseIff(v: Json)
    requires !v.Num?
    ensures !Truthy(v) <==> v == Lit("null") || v == Lit("false") || v == Str("") || v == Arr([]) || v == Obj([])
  {
  }

  /** A number counts as false when all its digits are zero, whatever its exponent. */
  lemma ZeroIsFalse(zeros: string, exponent: string)
    requires forall i :: 0 <= i < |zeros| ==> zeros[i] == '0' || zeros[i] == '.' || zeros[i] == '-'
    requires exponent == [] || exponent[0] == 'e' || exponent[0] == 'E'
    ensures !Truthy(Num(zeros + exponent))
  {
    var l := zeros + exponent;
    forall i | 0 <= i < |l| && '1' <= l[i] <= '9' ensures 'e' in l[..i] || 'E' in l[..i] {
      assert i >= |zeros|;
      assert l[..i][|zeros|] == exponent[0];
    }
  }

  lemma NonzeroIsTrue(front: string, digit: char, more: string)
    requires (forall i :: 0 <= i < |front| ==> front[i] != 'e' && front[i] != 'E') && '1' <= digit <= '9'
    ensures Truthy(Num(front + [digit] + more))
  {
    var l := front + [digit] + more;
    assert l[..|front|] == front && l[|front|] == digit;
  }

  /** A caller that hangs up inside its request, wherever and however it was cut, is noticed as such. */
  lemma {:induction false} HangupMidRequest(req: Json, buf: string, chunks: seq<string>, more: seq<string>)
    requires req.Obj? && Printable(req) && NonEmpty(chunks)
    requires Cut(buf + Concat(chunks), Print(req))
    ensures ReadFrom(buf, chunks + ([[]] + more)) == Hangup
    decreases |chunks|
  {
    hide Loads, Print, Printable;
    var all := chunks + ([[]] + more);
    if chunks == [] {
      assert all[0] == [];
    } else {
      var now := buf + chunks[0];
      assert all[0] == chunks[0] && all[1..] == chunks[1..] + ([[]] + more);
      assert now + Concat(chunks[1..]) == buf + Concat(chunks);
      PartOfPart(now, Concat(chunks[1..]), Print(req));
      NoPrefixLoads(req, now);
      assert NonEmpty(chunks[1..]) by { assert forall i :: 0 <= i < |chunks| - 1 ==> chunks[1..][i] == chunks[i + 1]; }
      HangupMidRequest(req, now, chunks[1..], more);
    }
  }

  lemma PartOfPart(a: string, b: string, whole: string)
    requires Cut(a + b, whole)
    ensures Cut(a, whole)
  {
    assert a <= a + b;
    assert b == [] ==> a + b == a;
  }
}
