/** What a client sees of a reply from what is delivered of it: any part of its bytes, in any chunks, and then the end
    of the stream, a timeout, or nothing more. */
module Deliveries {
  import opened Json
  import opened JsonText
  import opened Frames
  import opened FrameStreams
  import opened Seqs

  /** A feed after its chunks: at its end, at a timeout, or at the end of the stream. */
  predicate Stops(tail: seq<Read>) {
    tail == [] || tail[0].Expired? || tail[0].text == []
  }

  function StopEnd(tail: seq<Read>, saw: bool): End
    requires Stops(tail)
  {
    if tail == [] then Running else if tail[0].Expired? then TimedOut else if saw then Finished else NoReply
  }

  /** Every feed is some non-empty chunks and then stops. */
  lemma {:induction false} EveryFeedSplits(feed: seq<Read>) returns (chunks: seq<string>, tail: seq<Read>)
    ensures NonEmpty(chunks) && Stops(tail) && feed == Reads(chunks) + tail && Text(feed) == Concat(chunks)
  {
    hide Concat;
    if Stops(feed) {
      NoChunks();
      chunks, tail := [], feed;
      assert Reads([]) + feed == feed;
    } else {
      var more;
      more, tail := EveryFeedSplits(feed[1..]);
      chunks := [feed[0].text] + more;
      OneMoreChunk(feed[0].text, more, tail);
      assert Text(feed) == feed[0].text + Text(feed[1..]);
      assert feed == [feed[0]] + feed[1..];
    }
  }

  lemma NoChunks()
    ensures Concat<char>([]) == []
  {
  }

  lemma OneMoreChunk(c: string, more: seq<string>, tail: seq<Read>)
    requires c != [] && NonEmpty(more)
    ensures NonEmpty([c] + more) && Concat([c] + more) == c + Concat(more)
    ensures Reads([c] + more) + tail == [Chunk(c)] + (Reads(more) + tail)
  {
    assert ([c] + more)[1..] == more;
    hide Concat;
    assert Reads([c] + more) == [Chunk(c)] + Reads(more);
    Associate([Chunk(c)], Reads(more), tail);
  }

  /** The bytes up to and including the text of the first frame that is last; its newline is not needed. */
  function LastText(fs: seq<Json>): string {
    if fs == [] then []
    else if IsDone(fs[0]) then Print(fs[0])
    else Print(fs[0]) + "\n" + LastText(fs[1..])
  }

  /** How many leading frames are in `t` with their newlines. */
  function Lines(fs: seq<Json>, t: string): nat
    decreases |fs|
  {
    if fs == [] then 0
    else
      var line := Print(fs[0]) + "\n";
      if line <= t then 1 + Lines(fs[1..], t[|line|..]) else 0
  }

  /** How many frames the client sees when it has `t` and then gets the chunks. */
  function Shown(fs: seq<Json>, t: string, chunks: seq<string>): nat
    decreases |chunks|
  {
    if LastText(fs) <= t then |UpToDone(fs)|
    else if chunks == [] then Lines(fs, t)
    else if BadEnd(fs, t + chunks[0]) then Lines(fs, t + chunks[0]) + 1
    else Shown(fs, t + chunks[0], chunks[1..])
  }

  // ---- splitting off the frames consumed ----

  lemma PrefixShift(a: string, x: string, y: string)
    ensures a + x <= a + y <==> x <= y
  {
    if x <= y {
      assert a + y == a + x + y[|x|..];
    }
    if a + x <= a + y {
      PrefixCancel(a, x, y);
    }
  }

  lemma {:induction false} LastTextSplit(fs: seq<Json>, n: nat)
    requires n <= |fs| && NoneDone(fs[..n])
    ensures LastText(fs) == Sent(fs[..n]) + LastText(fs[n..])
    decreases n
  {
    hide IsDone, Print;
    if n == 0 {
      assert fs[..0] == [] && fs[0..] == fs;
    } else {
      NoneDoneTail(fs, n);
      LastTextSplit(fs[1..], n - 1);
      assert fs[..n][0] == fs[0] && fs[..n][1..] == fs[1..][..n - 1] && fs[1..][n - 1..] == fs[n..];
      var line, x, y := Print(fs[0]) + "\n", Sent(fs[1..][..n - 1]), LastText(fs[n..]);
      assert LastText(fs) == line + (x + y) && Sent(fs[..n]) == line + x;
      hide LastText, Sent;
      Associate(line, x, y);
    }
  }

  lemma LastTextFirst(fs: seq<Json>)
    requires fs != []
    ensures Print(fs[0]) <= LastText(fs) && (IsDone(fs[0]) ==> LastText(fs) == Print(fs[0]))
  {
    hide IsDone, Print;
  }

  lemma {:induction false} LinesSplit(fs: seq<Json>, n: nat, t: string)
    requires n <= |fs|
    ensures Lines(fs, Sent(fs[..n]) + t) == n + Lines(fs[n..], t)
    decreases n
  {
    hide Print;
    if n == 0 {
      assert fs[..0] == [] && fs[0..] == fs && [] + t == t;
    } else {
      LinesSplit(fs[1..], n - 1, t);
      var all, line := fs[..n], Print(fs[0]) + "\n";
      assert all[0] == fs[0] && all[1..] == fs[1..][..n - 1] && fs[1..][n - 1..] == fs[n..];
      assert Sent(all) == line + Sent(all[1..]);
      Associate(line, Sent(all[1..]), t);
      var rest := Sent(all[1..]) + t;
      assert (line + rest)[|line|..] == rest;
    }
  }

  lemma {:induction false} ShownSplit(fs: seq<Json>, n: nat, t: string, chunks: seq<string>)
    requires n <= |fs| && NoneDone(fs[..n])
    ensures Shown(fs, Sent(fs[..n]) + t, chunks) == n + Shown(fs[n..], t, chunks)
    decreases |chunks|
  {
    hide IsDone, Sent, NoneDone, LastText, Lines, BadEnd, UpToDone;
    var front := Sent(fs[..n]);
    LastTextSplit(fs, n);
    PrefixShift(front, LastText(fs[n..]), t);
    UpToDoneSplit(fs, n);
    LinesSplit(fs, n, t);
    if chunks != [] {
      Associate(front, t, chunks[0]);
      BadEndSplit(fs, n, t + chunks[0]);
      LinesSplit(fs, n, t + chunks[0]);
      ShownSplit(fs, n, t + chunks[0], chunks[1..]);
    }
  }

  // ---- what is seen ----

  /** All the frames that matter are delivered, and no chunk ends before an inner newline. */
  ghost predicate Whole(fs: seq<Json>, buf: string, chunks: seq<string>) {
    NeverBad(fs, buf, chunks) && LastText(fs) <= buf + Concat(chunks)
  }

  /** The reader ends by itself: it has a last frame, or takes an inner one for it. */
  ghost predicate Settled(fs: seq<Json>, buf: string, chunks: seq<string>) {
    !NeverBad(fs, buf, chunks) || LastText(fs) <= buf + Concat(chunks)
  }

  ghost predicate SeenAs(fs: seq<Json>, buf: string, saw: bool, chunks: seq<string>, tail: seq<Read>, s: Seen)
    requires fs != [] && Stops(tail)
  {
    && s.frames == Take(fs, Shown(fs, buf, chunks)) && Shown(fs, buf, chunks) <= |fs|
    && (s.frames == UpToDone(fs) <==> Whole(fs, buf, chunks))
    && (s.frames != [] <==> Print(fs[0]) <= buf + Concat(chunks))
    && s.end == if Settled(fs, buf, chunks) then Finished else StopEnd(tail, saw || s.frames != [])
  }

  lemma NothingLeft(fs: seq<Json>, buf: string, saw: bool, tail: seq<Read>)
    requires fs != [] && Waiting(fs, buf) && Stops(tail)
    ensures SeenAs(fs, buf, saw, [], tail, AFrames(buf, saw, tail))
  {
    hide Print, IsDone, UpToDone, LastText;
    LastTextFirst(fs);
    UpToDoneFirst(fs);
    assert buf + [] == buf;
    assert Lines(fs, buf) == 0;
  }

  /** No chunk has been enough for the first frame, and none ended badly yet. */
  lemma NotYet(fs: seq<Json>, buf: string, chunks: seq<string>)
    requires fs != [] && Waiting(fs, buf) && chunks != [] && !BadEnd(fs, buf + chunks[0])
    ensures Shown(fs, buf, chunks) == Shown(fs, buf + chunks[0], chunks[1..])
  {
    hide Print, BadEnd, UpToDone, LastText, Lines;
    LastTextFirst(fs);
  }

  lemma GotMore(buf: string, chunks: seq<string>)
    requires chunks != []
    ensures buf + Concat(chunks) == buf + chunks[0] + Concat(chunks[1..])
  {
    Associate(buf, chunks[0], Concat(chunks[1..]));
  }

  /** The chunk brings the last frame, with its newline or without. */
  lemma LastCame(fs: seq<Json>, n: nat, buf: string, saw: bool, chunks: seq<string>, tail: seq<Read>)
    requires 0 < n <= |fs| && NoneDone(fs[..n - 1]) && IsDone(fs[n - 1])
    requires Waiting(fs, buf) && chunks != [] && Stops(tail)
    requires Sent(fs[..n - 1]) + Print(fs[n - 1]) <= buf + chunks[0]
    ensures SeenAs(fs, buf, saw, chunks, tail, Seen(fs[..n], Finished))
  {
    hide Print, IsDone, NoneDone, Sent, BadEnd, UpToDone, LastText, Lines, Concat, NeverBad;
    var now := buf + chunks[0];
    UpToDoneEnds(fs, n);
    LastTextSplit(fs, n - 1);
    LastTextFirst(fs[n - 1..]);
    assert LastText(fs) <= now;
    PrefixTrans(Sent(fs[..n - 1]), LastText(fs), now);
    NoBadEndAfter(fs, n - 1, now);
    NeverBadEnd(fs, n - 1, buf, chunks);
    GotMore(buf, chunks);
    PrefixTrans(LastText(fs), now, buf + Concat(chunks));
    LastTextFirst(fs);
    PrefixTrans(Print(fs[0]), LastText(fs), buf + Concat(chunks));
    NotYet(fs, buf, chunks);
  }

  lemma PrefixTrans(a: string, b: string, c: string)
    ensures a <= b <= c ==> a <= c
    ensures |a| <= |b| && a == b[..|a|] ==> a <= b
  {
  }

  /** The chunk ends before an inner newline. */
  lemma CutHere(fs: seq<Json>, n: nat, buf: string, saw: bool, chunks: seq<string>, tail: seq<Read>)
    requires HasDone(fs) && n < |fs| && NoneDone(fs[..n]) && !IsDone(fs[n])
    requires Waiting(fs, buf) && chunks != [] && Stops(tail)
    requires Sent(fs[..n]) + Print(fs[n]) == buf + chunks[0]
    ensures SeenAs(fs, buf, saw, chunks, tail, Seen(fs[..n + 1], Finished))
  {
    hide Print, IsDone, NoneDone, Sent, BadEnd, UpToDone, LastText, Concat, HasDone;
    var now := buf + chunks[0];
    HasDoneLater(fs, n);
    UpToDoneSplit(fs, n);
    UpToDoneLonger(fs[n..]);
    BadEndSplit(fs, n, Print(fs[n]));
    BadEndHere(fs[n..]);
    ConcatStart(buf, chunks);
    assert !NeverBad(fs, buf, chunks);
    LinesSplit(fs, n, Print(fs[n]));
    LastTextFirst(fs);
    FirstOfText(fs, n);
    GotMore(buf, chunks);
    PrefixTrans(Print(fs[0]), now, buf + Concat(chunks));
  }

  lemma FirstOfText(fs: seq<Json>, n: nat)
    requires n < |fs|
    ensures Print(fs[0]) <= Sent(fs[..n]) + Print(fs[n]) && (n > 0 ==> Print(fs[0]) <= Sent(fs[..n]))
  {
    hide Print;
    if n > 0 {
      assert fs[..n][0] == fs[0];
    } else {
      assert fs[..0] == [] && [] + Print(fs[0]) == Print(fs[0]);
    }
  }

  /** The chunk brings `n` frames and perhaps a part of the next: the rest decides. */
  lemma GoesOn(fs: seq<Json>, n: nat, left: string, buf: string, saw: bool, chunks: seq<string>, tail: seq<Read>,
      s: Seen)
    requires n < |fs| && NoneDone(fs[..n]) && Waiting(fs, buf) && chunks != [] && Stops(tail)
    requires buf + chunks[0] == Sent(fs[..n]) + left && Waiting(fs[n..], left)
    requires SeenAs(fs[n..], left, saw || n > 0, chunks[1..], tail, s)
    ensures SeenAs(fs, buf, saw, chunks, tail, Seen(fs[..n] + s.frames, s.end))
  {
    hide Print, IsDone, NoneDone, Sent, BadEnd, UpToDone, LastText, Concat, NeverBad, Lines, Waiting, StopEnd, Shown;
    var rest := left + Concat(chunks[1..]);
    BadEndSplit(fs, n, left);
    WaitingIsNotBad(fs[n..], left);
    NotYet(fs, buf, chunks);
    ShownSplit(fs, n, left, chunks[1..]);
    UpToDoneSplit(fs, n);
    NeverBadLater(fs, n, buf, left, chunks);
    GotMore(buf, chunks);
    Associate(Sent(fs[..n]), left, Concat(chunks[1..]));
    LastTextSplit(fs, n);
    PrefixShift(Sent(fs[..n]), LastText(fs[n..]), rest);
    FirstGot(fs, n, rest);
    SamePrefix(fs[..n], s.frames, UpToDone(fs[n..]));
    assert Take(fs, n + Shown(fs[n..], left, chunks[1..])) ==
        fs[..n] + Take(fs[n..], Shown(fs[n..], left, chunks[1..]));
  }

  lemma FirstGot(fs: seq<Json>, n: nat, rest: string)
    requires n < |fs|
    ensures Print(fs[0]) <= Sent(fs[..n]) + rest <==> n > 0 || Print(fs[n..][0]) <= rest
  {
    hide Print, Sent;
    if n > 0 {
      FirstOfText(fs, n);
      PrefixTrans(Print(fs[0]), Sent(fs[..n]), Sent(fs[..n]) + rest);
    } else {
      NothingSent(fs);
      assert [] + rest == rest;
    }
  }

  lemma NothingSent(fs: seq<Json>)
    ensures Sent(fs[..0]) == []
  {
  }

  /** For every part of a reply that is delivered, in every chunking, and however the feed stops then: which frames the
      client has seen, when these are all of them, when there is none, and how the reading ends. */
  lemma {:induction false} SeenOfDelivered(fs: seq<Json>, buf: string, saw: bool, chunks: seq<string>, tail: seq<Read>)
    requires AllFrames(fs) && HasDone(fs) && fs != [] && Waiting(fs, buf) && NonEmpty(chunks) && Stops(tail)
    requires buf + Concat(chunks) <= Sent(fs)
    ensures SeenAs(fs, buf, saw, chunks, tail, AFrames(buf, saw, Reads(chunks) + tail))
    decreases |chunks|
  {
    hide *;
    if chunks == [] {
      NoReads(tail);
      NothingLeft(fs, buf, saw, tail);
    } else {
      var now := buf + chunks[0];
      GotMore(buf, chunks);
      PrefixTrans(now, buf + Concat(chunks), Sent(fs));
      NonEmptyParts(chunks);
      AFramesStep(buf, saw, chunks, tail);
      DigestSent(fs, now);
      var d, n := DrainLines(now), |DrainLines(now).frames|;
      DrainedFacts(fs, now, d);
      if d.end == Finished {
        LineOfLast(fs, n, now, d.buf);
        LastCame(fs, n, buf, saw, chunks, tail);
      } else {
        HasDoneLater(fs, n);
        if Digest(now).end == Running {
          StillWithin(fs, n, d.buf, now, Concat(chunks[1..]));
          SeenOfDelivered(fs[n..], d.buf, saw || n > 0, chunks[1..], tail);
          GoesOn(fs, n, d.buf, buf, saw, chunks, tail, AFrames(d.buf, saw || n > 0, Reads(chunks[1..]) + tail));
        } else if IsDone(fs[n]) {
          assert fs[..n + 1][..n] == fs[..n];
          LastCame(fs, n + 1, buf, saw, chunks, tail);
        } else {
          CutHere(fs, n, buf, saw, chunks, tail);
        }
      }
    }
  }

  lemma NoReads(tail: seq<Read>)
    ensures Reads([]) + tail == tail
  {
  }

  lemma NonEmptyParts(chunks: seq<string>)
    requires NonEmpty(chunks) && chunks != []
    ensures chunks[0] != [] && NonEmpty(chunks[1..])
  {
    assert forall i :: 0 <= i < |chunks| - 1 ==> chunks[1..][i] == chunks[i + 1];
  }

  lemma LineOfLast(fs: seq<Json>, n: nat, now: string, left: string)
    requires 0 < n <= |fs| && Sent(fs[..n]) + left == now
    ensures Sent(fs[..n - 1]) + Print(fs[n - 1]) <= now
  {
    hide Print, Sent;
    var all := fs[..n];
    SentSplit(all, n - 1);
    SentFirst(all[n - 1..]);
    assert all[..n - 1] == fs[..n - 1] && all[n - 1..][0] == fs[n - 1];
    var a, b, c := Sent(fs[..n - 1]), Print(fs[n - 1]), "\n" + Sent(all[n - 1..][1..]);
    Associate(a, b, c);
    Associate(a + b, c, left);
  }

  // ---- a reply that breaks off ----

  lemma {:induction false} AllDrained(fs: seq<Json>)
    requires AllFrames(fs) && NoneDone(fs)
    ensures Digest(Sent(fs)) == Drained(fs, [], Running)
  {
    hide Digest, Print, IsDone, NoneDone, DrainLines, Sent, DrainedTo, AllFrames;
    var t := Sent(fs);
    DigestSent(fs, t);
    var d, n := DrainLines(t), |DrainLines(t).frames|;
    DrainedFacts(fs, t, d);
    assert fs[..|fs|] == fs;
    LastDrained(fs, d);
    if n < |fs| {
      SentLonger(fs, n, |fs|);
    }
  }

  lemma LastDrained(fs: seq<Json>, d: Drained)
    requires NoneDone(fs) && |d.frames| <= |fs|
    ensures |d.frames| > 0 ==> !IsDone(fs[|d.frames| - 1])
  {
    hide IsDone;
  }

  /** Any reply that ends after some frames, none of them last: the reader finishes as if that were all. */
  lemma BrokenOff(fs: seq<Json>, n: nat)
    requires AllFrames(fs) && 0 < n <= |fs| && NoneDone(fs[..n])
    ensures AFrames([], false, [Chunk(Sent(fs[..n])), Chunk([])]) == Seen(fs[..n], Finished)
  {
    hide Digest, Print, IsDone, NoneDone, Sent, IsFrame, Reads;
    var gs := fs[..n];
    AllDrained(gs);
    SentNotEmpty(gs);
    var feed := [Chunk(Sent(gs)), Chunk([])];
    assert [] + Sent(gs) == Sent(gs);
    assert feed[1..] == [Chunk([])];
    assert AFrames([], true, [Chunk([])]) == Seen([], Finished);
    assert gs + [] == gs;
  }

  lemma SentNotEmpty(fs: seq<Json>)
    requires fs != []
    ensures Sent(fs) != []
  {
    hide Print;
  }

  // ---- legacy replies ----

  /** The frame read without a newline is the one sent, and says that it is last if it did not say. */
  ghost predicate SameButDone(f: Json, g: Json) {
    f.Obj? && g.Obj? &&
    forall key ::
      Get(g.fields, key) ==
        if key == "done" && Get(f.fields, "done").None? then Some(Lit("true")) else Get(f.fields, key)
  }

  lemma DefaultedSame(f: Json)
    requires f.Obj?
    ensures SameButDone(f, Defaulted(f))
  {
    hide Get;
    if Get(f.fields, "done").None? {
      assert Defaulted(f).fields == f.fields + [("done", Lit("true"))];
      forall key
        ensures Get(Defaulted(f).fields, key) == if key == "done" then Some(Lit("true")) else Get(f.fields, key)
      {
        LastField(f.fields, "done", Lit("true"), key);
      }
    }
  }

  lemma LastField(fields: seq<(string, Json)>, k: string, v: Json, key: string)
    ensures Get(fields + [(k, v)], key) == if k == key then Some(v) else Get(fields, key)
  {
    assert (fields + [(k, v)])[..|fields|] == fields;
  }

  lemma OneLinePart(f: Json, now: string)
    requires Printable(f) && now <= Print(f)
    ensures DrainLines(now) == Drained([], now, Running)
  {
    hide Print, Printable;
    PrintOneLine(f);
    assert forall i :: 0 <= i < |now| ==> now[i] == Print(f)[i];
  }

  /** A worker of old sends one object and no newline: for every object and every chunking the client has it whole with
      the last chunk, and finishes. */
  lemma {:induction false} LegacyReplyArrives(f: Json, buf: string, saw: bool, chunks: seq<string>, more: seq<Read>)
    requires f.Obj? && Printable(f) && NonEmpty(chunks) && buf + Concat(chunks) == Print(f) && buf != Print(f)
    ensures var s := AFrames(buf, saw, Reads(chunks) + more);
            |s.frames| == 1 && SameButDone(f, s.frames[0]) && s.end == Finished
    decreases |chunks|
  {
    hide *;
    NoChunks();
    assert buf + [] == buf;
    var now := buf + chunks[0];
    NonEmptyParts(chunks);
    GotMore(buf, chunks);
    SentPrefix(now, Concat(chunks[1..]), Print(f));
    AFramesStep(buf, saw, chunks, more);
    OneLinePart(f, now);
    FirstChar(f);
    DefaultedSame(f);
    if now == Print(f) {
      LoadsPrint(f);
      DigestWhole(now, f);
    } else {
      JsonText.NoPrefixLoads(f, now);
      DigestPart(now);
      LegacyReplyArrives(f, now, saw, chunks[1..], more);
      Alone(AFrames(now, saw, Reads(chunks[1..]) + more).frames);
    }
  }

  lemma Alone(frames: seq<Json>)
    ensures [] + frames == frames
  {
  }

  lemma DigestWhole(now: string, f: Json)
    requires DrainLines(now) == Drained([], now, Running) && now != [] && Loads(now) == Loaded(f) && f.Obj?
    ensures Digest(now) == Drained([Defaulted(f)], now, Finished)
  {
    hide DrainLines, Loads, Defaulted;
    Alone([Defaulted(f)]);
  }

  lemma DigestPart(now: string)
    requires DrainLines(now) == Drained([], now, Running) && Loads(now) == DecodeError
    ensures Digest(now) == Drained([], now, Running)
  {
    hide DrainLines, Loads;
  }
}
