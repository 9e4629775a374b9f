/** What a client sees of a worker's reply, for every way of cutting and truncating its bytes. */
module FrameStreams {
  import opened Json
  import opened JsonText
  import opened Frames
  import opened Seqs

  // ---- a printed value is ASCII, and one line ----

  predicate OneLine(t: string) {
    '\n' !in t
  }

  predicate Plain(t: string) {
    forall i :: 0 <= i < |t| ==> ' ' <= t[i] <= '~'
  }

  lemma PlainTwo(a: string, b: string)
    requires Plain(a) && Plain(b)
    ensures Plain(a + b)
  {
  }

  lemma {:induction false} EscapedPlain(s: string)
    ensures Plain(EscapeAll(s))
  {
    hide Escape;
    if s != [] {
      EscapePlain(s[0]);
      EscapedPlain(s[1..]);
      hide Plain;
      PlainTwo(Escape(s[0]), EscapeAll(s[1..]));
    }
  }

  lemma EscapePlain(c: char)
    ensures Plain(Escape(c))
  {
    hide HexDigit;
    if c as int < 0x1_0000 {
      HexPlain(c as int);
    } else {
      var v := c as int - 0x1_0000;
      HexPlain(0xD800 + v / 1024);
      HexPlain(0xDC00 + v % 1024);
    }
  }

  lemma HexPlain(n: nat)
    requires n < 0x1_0000
    ensures Plain(Hex4(n))
  {
    var h := Hex4(n);
    assert Plain([h[0]]) && Plain([h[1]]) && Plain([h[2]]) && Plain([h[3]]);
  }

  lemma Marks()
    ensures Plain("\"") && Plain(":") && Plain(",") && Plain("[") && Plain("]") && Plain("{") && Plain("}")
    ensures Plain("[]") && Plain("{}")
  {
  }

  lemma QuotePlain(s: string)
    ensures Plain(Quote(s))
  {
    EscapedPlain(s);
    Marks();
    hide Plain, EscapeAll;
    PlainTwo("\"", EscapeAll(s));
    PlainTwo("\"" + EscapeAll(s), "\"");
  }

  lemma LexemePlain(v: Json)
    requires Printable(v) && (v.Lit? || v.Num?)
    ensures Plain(Print(v))
  {
    hide NumberLen, PrintItems, PrintFields, EscapeAll;
    if v.Num? {
      NumberPlain(v.lexeme);
    } else {
      LiteralPlain(v.name);
    }
  }

  lemma NumberPlain(l: string)
    requires NumberLen(l) == |l|
    ensures Plain(l)
  {
    hide NumberLen;
    NumberClosed(l, []);
    assert forall i :: 0 <= i < |l| ==> NumberChar(l[i]);
  }

  lemma LiteralPlain(name: string)
    requires IsLiteral(name)
    ensures Plain(name)
  {
  }

  /** Whatever the value, its text is printable ASCII only, so the bytes of a frame are its characters. */
  lemma {:induction false} PrintIsAscii(v: Json)
    requires Printable(v)
    ensures Plain(Print(v))
    decreases v, 0
  {
    hide Plain, Quote, PrintItems, PrintFields, NumberLen;
    Marks();
    match v
    case Lit(_) => LexemePlain(v);
    case Num(_) => LexemePlain(v);
    case Str(s) => QuotePlain(s);
    case Arr(items) =>
      if items != [] {
        ItemsAscii(items);
        PlainTwo("[", PrintItems(items));
      }
    case Obj(fields) =>
      if fields != [] {
        FieldsAscii(fields);
        PlainTwo("{", PrintFields(fields));
      }
  }

  lemma {:induction false} ItemsAscii(items: seq<Json>)
    requires items != [] && AllPrintable(items)
    ensures Plain(PrintItems(items))
    decreases items, 1
  {
    hide Plain, Print;
    Marks();
    PrintIsAscii(items[0]);
    if |items| > 1 {
      ItemsAscii(items[1..]);
      PlainTwo(",", PrintItems(items[1..]));
    }
    PlainTwo(Print(items[0]), if |items| == 1 then "]" else "," + PrintItems(items[1..]));
  }

  lemma {:induction false} FieldsAscii(fields: seq<(string, Json)>)
    requires fields != [] && FieldsPrintable(fields)
    ensures Plain(PrintFields(fields))
    decreases fields, 1
  {
    hide Plain, PrintField;
    Marks();
    FieldAscii(fields[0]);
    if |fields| > 1 {
      FieldsAscii(fields[1..]);
      PlainTwo(",", PrintFields(fields[1..]));
    }
    PlainTwo(PrintField(fields[0]), if |fields| == 1 then "}" else "," + PrintFields(fields[1..]));
  }

  lemma {:induction false} FieldAscii(f: (string, Json))
    requires FieldPrintable(f)
    ensures Plain(PrintField(f))
    decreases f, 1
  {
    hide Plain, Quote, Print;
    Marks();
    QuotePlain(f.0);
    PrintIsAscii(f.1);
    PlainTwo(":", Print(f.1));
    PlainTwo(Quote(f.0), ":" + Print(f.1));
  }

  lemma PrintOneLine(v: Json)
    requires Printable(v)
    ensures OneLine(Print(v))
  {
    hide Print, Printable;
    PrintIsAscii(v);
  }

  // ---- draining a prefix of what was sent ----

  predicate NoneDone(fs: seq<Json>) {
    forall i :: 0 <= i < |fs| ==> !IsDone(fs[i])
  }

  /** The frames that matter: up to the first that says it is the last. */
  function UpToDone(fs: seq<Json>): (u: seq<Json>)
    ensures u <= fs
  {
    if fs == [] then []
    else if IsDone(fs[0]) then [fs[0]]
    else [fs[0]] + UpToDone(fs[1..])
  }

  /** The drained frames are the first few that were sent, and the buffer is the start of the next. */
  ghost predicate DrainedTo(fs: seq<Json>, t: string, d: Drained) {
    var n := |d.frames|;
    && n <= |fs| && d.frames == fs[..n]
    && Sent(fs[..n]) + d.buf == t
    && (d.end == Running || d.end == Finished)
    && (d.end == Running ==> NoneDone(fs[..n]) && (if n == |fs| then d.buf == [] else d.buf <= Print(fs[n])))
    && (d.end == Finished ==> n > 0 && NoneDone(fs[..n - 1]) && IsDone(fs[n - 1]))
  }

  lemma FirstLine(line: string, more: string, t: string)
    requires OneLine(line) && t <= line + "\n" + more
    ensures '\n' !in t ==> t <= line
    ensures '\n' in t ==> |line| < |t| && IndexOf(t, '\n') == |line| && t[..|line|] == line && t[|line| + 1..] <= more
  {
    var all, n := line + "\n" + more, |line|;
    assert forall j :: 0 <= j < n ==> all[j] == line[j];
    assert all[n] == '\n' && all[n + 1..] == more;
    if |t| <= n {
      PrefixOfPrefix(t, line, all);
      assert '\n' !in t;
    } else {
      assert t[n] == all[n];
      assert t[..n] == line;
      PrefixDrop(t, all, n + 1);
      IndexOfIs(t, '\n', n);
    }
  }

  lemma PrefixOfPrefix(t: string, u: string, all: string)
    requires t <= all && u <= all && |t| <= |u|
    ensures t <= u
  {
    assert forall j :: 0 <= j < |t| ==> t[j] == all[j] == u[j];
  }

  lemma PrefixDrop(t: string, all: string, n: nat)
    requires t <= all && n <= |t|
    ensures t[n..] <= all[n..]
  {
    assert forall j :: 0 <= j < |t| - n ==> t[n..][j] == t[j + n] == all[j + n] == all[n..][j];
  }

  lemma {:induction false} DrainSent(fs: seq<Json>, t: string)
    requires AllFrames(fs) && t <= Sent(fs)
    ensures DrainedTo(fs, t, DrainLines(t))
    decreases |fs|
  {
    hide Loads, Print, Printable, IsDone, IndexOf, NoneDone, DrainedTo;
    if fs == [] {
      NothingDrained(fs, t);
    } else {
      var f := fs[0];
      PrintOneLine(f);
      FirstLine(Print(f), Sent(fs[1..]), t);
      if '\n' !in t {
        NothingDrained(fs, t);
      } else {
        LoadsPrint(f);
        FirstChar(f);
        var rest := t[|Print(f)| + 1..];
        assert t == Print(f) + "\n" + rest;
        if IsDone(f) {
          DrainedDone(fs, t, rest);
        } else {
          DrainSent(fs[1..], rest);
          DrainedMore(fs, t, rest, DrainLines(rest));
        }
      }
    }
  }

  lemma NothingDrained(fs: seq<Json>, t: string)
    requires if fs == [] then t == [] else t <= Print(fs[0])
    ensures DrainedTo(fs, t, Drained([], t, Running))
  {
    hide Print, IsDone;
    assert fs[..0] == [];
  }

  lemma DrainedDone(fs: seq<Json>, t: string, rest: string)
    requires fs != [] && IsDone(fs[0]) && t == Print(fs[0]) + "\n" + rest
    ensures DrainedTo(fs, t, Drained([fs[0]], rest, Finished))
  {
    hide Print, IsDone;
    assert fs[..1] == [fs[0]] && fs[..0] == [] && [fs[0]][1..] == [];
    assert Sent([fs[0]]) == Print(fs[0]) + "\n";
  }

  lemma DrainedMore(fs: seq<Json>, t: string, rest: string, d: Drained)
    requires fs != [] && !IsDone(fs[0]) && t == Print(fs[0]) + "\n" + rest
    requires DrainedTo(fs[1..], rest, d)
    ensures DrainedTo(fs, t, d.(frames := [fs[0]] + d.frames))
  {
    hide Print, IsDone;
    var n := |d.frames|;
    var all := fs[..n + 1];
    assert all[0] == fs[0] && all[1..] == fs[1..][..n];
    NoneDoneMore(fs, n);
    if n > 0 {
      NoneDoneMore(fs, n - 1);
    }
    assert Print(fs[0]) + "\n" + (Sent(fs[1..][..n]) + d.buf) == Print(fs[0]) + "\n" + Sent(fs[1..][..n]) + d.buf;
  }

  lemma NoneDoneMore(fs: seq<Json>, n: nat)
    requires n < |fs| && !IsDone(fs[0])
    ensures NoneDone(fs[1..][..n]) ==> NoneDone(fs[..n + 1])
  {
    hide IsDone;
    if NoneDone(fs[1..][..n]) {
      var all := fs[..n + 1];
      forall i | 0 <= i < |all| ensures !IsDone(all[i]) {
        if i > 0 {
          assert all[i] == fs[1..][..n][i - 1];
        }
      }
    }
  }

  // ---- every cut and truncation: a prefix ----

  /** The bytes a feed delivers before it ends. */
  function Text(feed: seq<Read>): string {
    if feed == [] || feed[0].Expired? || feed[0].text == [] then [] else feed[0].text + Text(feed[1..])
  }

  /** What the reader holds between chunks: nothing, or the start of the next frame. */
  predicate Waiting(fs: seq<Json>, buf: string) {
    if fs == [] then buf == [] else Cut(buf, Print(fs[0]))
  }

  /** One chunk: either still waiting inside the next frame, or finished after `m` frames. */
  lemma DigestSent(fs: seq<Json>, t: string)
    requires AllFrames(fs) && t <= Sent(fs)
    ensures var d, n := DrainLines(t), |DrainLines(t).frames|;
            && DrainedTo(fs, t, d)
            && (if d.end == Running && n < |fs| && d.buf == Print(fs[n])
                then Digest(t).frames == fs[..n + 1] && Digest(t).end == Finished
                else Digest(t) == d && (d.end == Running ==> Waiting(fs[n..], d.buf)))
  {
    hide Loads, Print, Printable, DrainLines, NoneDone, DrainedTo, Truthy;
    DrainSent(fs, t);
    var d, n := DrainLines(t), |DrainLines(t).frames|;
    DrainedFacts(fs, t, d);
    if d.end == Running && n < |fs| {
      var f := fs[n];
      assert IsFrame(f) && fs[n..][0] == f;
      FirstChar(f);
      if d.buf == Print(f) {
        LoadsPrint(f);
        assert fs[..n + 1] == fs[..n] + [f];
      } else if d.buf != [] {
        NoPrefixLoads(f, d.buf);
      }
    }
  }

  lemma SentSplit(fs: seq<Json>, n: nat)
    requires n <= |fs|
    ensures Sent(fs) == Sent(fs[..n]) + Sent(fs[n..])
    decreases n
  {
    hide Print;
    if n == 0 {
      assert fs[..0] == [] && fs[0..] == fs;
    } else {
      SentSplit(fs[1..], n - 1);
      assert fs[..n][0] == fs[0] && fs[..n][1..] == fs[1..][..n - 1] && fs[1..][n - 1..] == fs[n..];
      var line, x, y := Print(fs[0]) + "\n", Sent(fs[1..][..n - 1]), Sent(fs[n..]);
      assert Sent(fs) == line + (x + y) && Sent(fs[..n]) == line + x;
      hide Sent;
      Associate(line, x, y);
    }
  }

  lemma NoneDoneTail(fs: seq<Json>, n: nat)
    requires 0 < n <= |fs| && NoneDone(fs[..n])
    ensures !IsDone(fs[0]) && NoneDone(fs[1..][..n - 1])
  {
    hide IsDone;
    var all, tail := fs[..n], fs[1..][..n - 1];
    assert all[0] == fs[0];
    forall i | 0 <= i < |tail| ensures !IsDone(tail[i]) {
      assert tail[i] == all[i + 1];
    }
  }

  lemma UpToDoneSplit(fs: seq<Json>, n: nat)
    requires n <= |fs| && NoneDone(fs[..n])
    ensures UpToDone(fs) == fs[..n] + UpToDone(fs[n..])
    decreases n
  {
    hide IsDone;
    if n == 0 {
      assert fs[0..] == fs;
    } else {
      NoneDoneTail(fs, n);
      UpToDoneSplit(fs[1..], n - 1);
      assert fs[1..][n - 1..] == fs[n..];
      assert fs[..n] == [fs[0]] + fs[1..][..n - 1];
      assert UpToDone(fs) == [fs[0]] + (fs[1..][..n - 1] + UpToDone(fs[n..]));
      hide UpToDone;
      Associate([fs[0]], fs[1..][..n - 1], UpToDone(fs[n..]));
    }
  }

  lemma DrainedFacts(fs: seq<Json>, t: string, d: Drained)
    requires DrainedTo(fs, t, d)
    ensures var n := |d.frames|;
            n <= |fs| && d.frames == fs[..n] && Sent(fs[..n]) + d.buf == t
            && (d.end == Running || d.end == Finished)
            && (d.end == Running ==> NoneDone(fs[..n]) && if n == |fs| then d.buf == [] else d.buf <= Print(fs[n]))
            && (d.end == Finished ==> n > 0 && NoneDone(fs[..n - 1]) && IsDone(fs[n - 1]) && Sent(fs[..n - 1]) <= t)
  {
    hide Print, IsDone, NoneDone;
    var n := |d.frames|;
    if d.end == Finished {
      SentSplit(fs[..n], n - 1);
      assert fs[..n][..n - 1] == fs[..n - 1];
    }
  }

  /** The reader has never seen more than the frames sent, in order and up to the first that is last, wherever the
      bytes were cut and wherever they stopped. */
  lemma {:induction false} FramesArePrefix(fs: seq<Json>, buf: string, saw: bool, feed: seq<Read>)
    requires AllFrames(fs) && Waiting(fs, buf) && buf + Text(feed) <= Sent(fs)
    ensures AFrames(buf, saw, feed).frames <= UpToDone(fs)
    ensures AFrames(buf, saw, feed).end != Crashed
    decreases |feed|
  {
    hide Digest, Print, Printable, IsDone, UpToDone, Waiting, NoneDone, DrainLines, Sent, AllFrames, DrainedTo;
    if feed != [] && feed[0].Chunk? && feed[0].text != [] {
      var now := buf + feed[0].text;
      assert now + Text(feed[1..]) == buf + Text(feed);
      assert now <= Sent(fs);
      DigestSent(fs, now);
      var d, n := DrainLines(now), |DrainLines(now).frames|;
      DrainedFacts(fs, now, d);
      if d.end == Finished {
        UpToDoneEnds(fs, n);
      } else {
        UpToDoneSplit(fs, n);
        if Digest(now).end == Running {
          StillWithin(fs, n, d.buf, now, Text(feed[1..]));
          FramesArePrefix(fs[n..], d.buf, saw || d.frames != [], feed[1..]);
        } else {
          UpToDoneFirst(fs[n..]);
          assert fs[..n + 1] == fs[..n] + [fs[n]];
        }
      }
    }
  }

  lemma StillWithin(fs: seq<Json>, n: nat, left: string, now: string, more: string)
    requires AllFrames(fs) && n <= |fs| && Sent(fs[..n]) + left == now && now + more <= Sent(fs)
    ensures AllFrames(fs[n..]) && left + more <= Sent(fs[n..])
  {
    hide IsFrame, Sent;
    SentSplit(fs, n);
    assert Sent(fs[..n]) + (left + more) == now + more;
    PrefixCancel(Sent(fs[..n]), left + more, Sent(fs[n..]));
  }

  lemma PrefixCancel(a: string, b: string, c: string)
    requires a + b <= a + c
    ensures b <= c
  {
    PrefixDrop(a + b, a + c, |a|);
    assert b == (a + b)[|a|..] && c == (a + c)[|a|..];
  }

  lemma UpToDoneFirst(fs: seq<Json>)
    requires fs != []
    ensures UpToDone(fs) != [] && UpToDone(fs)[0] == fs[0]
    ensures IsDone(fs[0]) ==> UpToDone(fs) == [fs[0]]
  {
    hide IsDone;
  }

  lemma UpToDoneEnds(fs: seq<Json>, n: nat)
    requires 0 < n <= |fs| && NoneDone(fs[..n - 1]) && IsDone(fs[n - 1])
    ensures UpToDone(fs) == fs[..n]
  {
    hide UpToDone, IsDone, NoneDone;
    UpToDoneSplit(fs, n - 1);
    UpToDoneFirst(fs[n - 1..]);
    assert fs[..n] == fs[..n - 1] + [fs[n - 1]];
  }

  // ---- nothing truncated: exactly when all of them arrive ----

  predicate HasDone(fs: seq<Json>) {
    exists i :: 0 <= i < |fs| && IsDone(fs[i])
  }

  /** `t` stops between a frame that is not last and its newline, with no last frame before. */
  predicate BadEnd(fs: seq<Json>, t: string)
    decreases |fs|
  {
    fs != [] && !IsDone(fs[0]) &&
    var line := Print(fs[0]) + "\n";
    (t == Print(fs[0]) || (line <= t && BadEnd(fs[1..], t[|line|..])))
  }

  function Reads(chunks: seq<string>): seq<Read> {
    seq(|chunks|, i requires 0 <= i < |chunks| => Chunk(chunks[i]))
  }

  lemma BadEndSplit(fs: seq<Json>, n: nat, t: string)
    requires n <= |fs| && NoneDone(fs[..n])
    ensures BadEnd(fs, Sent(fs[..n]) + t) == BadEnd(fs[n..], t)
    decreases n
  {
    hide IsDone, Print;
    if n == 0 {
      assert fs[..0] == [] && fs[0..] == fs && [] + t == t;
    } else {
      var all := fs[..n];
      assert all[0] == fs[0];
      assert all[1..] == fs[1..][..n - 1] && fs[1..][n - 1..] == fs[n..];
      NoneDoneTail(fs, n);
      BadEndSplit(fs[1..], n - 1, t);
      var line, whole := Print(fs[0]) + "\n", Sent(all) + t;
      assert whole == line + (Sent(all[1..]) + t);
      assert whole[|line|..] == Sent(all[1..]) + t;
    }
  }

  lemma NoBadEndAfter(fs: seq<Json>, n: nat, t: string)
    requires n < |fs| && NoneDone(fs[..n]) && IsDone(fs[n]) && Sent(fs[..n]) <= t
    ensures !BadEnd(fs, t)
  {
    hide IsDone, NoneDone, Print;
    var rest := t[|Sent(fs[..n])|..];
    assert t == Sent(fs[..n]) + rest;
    BadEndSplit(fs, n, rest);
  }

  /** No chunk ends between a frame that is not last and its newline. */
  ghost predicate NeverBad(fs: seq<Json>, buf: string, chunks: seq<string>) {
    forall k :: 0 < k <= |chunks| ==> !BadEnd(fs, buf + Concat(chunks[..k]))
  }

  lemma ConcatFirst(buf: string, chunks: seq<string>, k: nat)
    requires 0 < k <= |chunks|
    ensures buf + Concat(chunks[..k]) == buf + chunks[0] + Concat(chunks[1..][..k - 1])
  {
    assert chunks[..k][0] == chunks[0] && chunks[..k][1..] == chunks[1..][..k - 1];
  }

  lemma ConcatStart(buf: string, chunks: seq<string>)
    requires chunks != []
    ensures buf + Concat(chunks[..1]) == buf + chunks[0]
  {
    ConcatFirst(buf, chunks, 1);
    assert chunks[1..][..0] == [];
  }

  /** Once `n` frames are consumed, what is left decides. */
  lemma NeverBadLater(fs: seq<Json>, n: nat, buf: string, left: string, chunks: seq<string>)
    requires n <= |fs| && NoneDone(fs[..n]) && chunks != []
    requires buf + chunks[0] == Sent(fs[..n]) + left && Waiting(fs[n..], left)
    ensures NeverBad(fs, buf, chunks) == NeverBad(fs[n..], left, chunks[1..])
  {
    hide BadEnd, Concat, NoneDone, Sent, Print;
    ConcatStart(buf, chunks);
    BadEndSplit(fs, n, left);
    WaitingIsNotBad(fs[n..], left);
    forall k | 0 < k < |chunks|
      ensures BadEnd(fs, buf + Concat(chunks[..k + 1])) == BadEnd(fs[n..], left + Concat(chunks[1..][..k]))
    {
      ConcatFirst(buf, chunks, k + 1);
      assert buf + Concat(chunks[..k + 1]) == Sent(fs[..n]) + (left + Concat(chunks[1..][..k]));
      BadEndSplit(fs, n, left + Concat(chunks[1..][..k]));
    }
    if !NeverBad(fs, buf, chunks) {
      var k :| 0 < k <= |chunks| && BadEnd(fs, buf + Concat(chunks[..k]));
      assert k > 1;
      assert BadEnd(fs[n..], left + Concat(chunks[1..][..k - 1]));
    }
  }

  lemma WaitingIsNotBad(fs: seq<Json>, left: string)
    requires Waiting(fs, left)
    ensures !BadEnd(fs, left)
  {
    hide Print, IsDone;
  }

  lemma HasDoneLater(fs: seq<Json>, n: nat)
    requires HasDone(fs) && n <= |fs| && NoneDone(fs[..n])
    ensures n < |fs| && HasDone(fs[n..])
  {
    hide IsDone;
    var i :| 0 <= i < |fs| && IsDone(fs[i]);
    forall j | 0 <= j < n ensures !IsDone(fs[j]) {
      assert fs[..n][j] == fs[j];
    }
    assert fs[n..][i - n] == fs[i];
  }

  lemma NeverBadEnd(fs: seq<Json>, n: nat, buf: string, chunks: seq<string>)
    requires n < |fs| && NoneDone(fs[..n]) && IsDone(fs[n]) && chunks != []
    requires Sent(fs[..n]) <= buf + chunks[0]
    ensures NeverBad(fs, buf, chunks)
  {
    hide BadEnd, Concat, NoneDone, Sent, IsDone;
    forall k | 0 < k <= |chunks| ensures !BadEnd(fs, buf + Concat(chunks[..k])) {
      ConcatFirst(buf, chunks, k);
      NoBadEndAfter(fs, n, buf + Concat(chunks[..k]));
    }
  }

  lemma UpToDoneLonger(fs: seq<Json>)
    requires HasDone(fs) && fs != [] && !IsDone(fs[0])
    ensures |UpToDone(fs)| > 1
  {
    hide IsDone, UpToDone, HasDone;
    assert fs[..1] == [fs[0]];
    HasDoneLater(fs, 1);
    UpToDoneSplit(fs, 1);
    assert |fs| > 1;
    UpToDoneFirst(fs[1..]);
  }

  lemma AFramesStep(buf: string, saw: bool, chunks: seq<string>, more: seq<Read>)
    requires chunks != [] && chunks[0] != []
    ensures var d := Digest(buf + chunks[0]);
            AFrames(buf, saw, Reads(chunks) + more) ==
            if d.end != Running then Seen(d.frames, d.end)
            else
              var rest := AFrames(d.buf, saw || d.frames != [], Reads(chunks[1..]) + more);
              Seen(d.frames + rest.frames, rest.end)
  {
    hide Digest;
    var feed := Reads(chunks) + more;
    assert feed[0] == Chunk(chunks[0]) && feed[1..] == Reads(chunks[1..]) + more;
  }

  /** All the frames up to the last arrive if and only if no chunk ends between an earlier frame and its newline. */
  lemma {:induction false} FramesAreAllIff(fs: seq<Json>, buf: string, saw: bool, chunks: seq<string>, more: seq<Read>)
    requires AllFrames(fs) && HasDone(fs) && Waiting(fs, buf) && NonEmpty(chunks) && buf + Concat(chunks) == Sent(fs)
    ensures AFrames(buf, saw, Reads(chunks) + more).end == Finished
    ensures AFrames(buf, saw, Reads(chunks) + more).frames == UpToDone(fs) <==> NeverBad(fs, buf, chunks)
    ensures AFrames(buf, saw, Reads(chunks) + more).frames <= UpToDone(fs)
    decreases |chunks|
  {
    hide Digest, Print, Printable, IsDone, UpToDone, Waiting, NoneDone, DrainLines, HasDone, BadEnd, NeverBad, Sent,
        AllFrames, DrainedTo, AFrames, Reads, Concat;
    HasDoneShort(fs, buf, chunks);
    var now := buf + chunks[0];
    ConcatFirst(buf, chunks, |chunks|);
    assert chunks[..|chunks|] == chunks && chunks[1..][..|chunks| - 1] == chunks[1..];
    SentPrefix(now, Concat(chunks[1..]), Sent(fs));
    AFramesStep(buf, saw, chunks, more);
    DigestSent(fs, now);
    var d, n := DrainLines(now), |DrainLines(now).frames|;
    DrainedFacts(fs, now, d);
    if d.end == Finished {
      UpToDoneEnds(fs, n);
      NeverBadEnd(fs, n - 1, buf, chunks);
    } else {
      HasDoneLater(fs, n);
      UpToDoneSplit(fs, n);
      if Digest(now).end == Running {
        NeverBadLater(fs, n, buf, d.buf, chunks);
        StillSent(fs, n, d.buf, now, chunks[1..]);
        FramesAreAllIff(fs[n..], d.buf, saw || d.frames != [], chunks[1..], more);
      } else {
        StoppedEarly(fs, n, buf, chunks);
      }
    }
  }

  lemma SentPrefix(a: string, b: string, whole: string)
    requires a + b == whole
    ensures a <= whole
  {
  }

  lemma HasDoneShort(fs: seq<Json>, buf: string, chunks: seq<string>)
    requires HasDone(fs) && Waiting(fs, buf) && buf + Concat(chunks) == Sent(fs)
    ensures chunks != []
  {
    hide Print, IsDone;
    assert buf + [] == buf;
  }

  lemma StillSent(fs: seq<Json>, n: nat, left: string, now: string, chunks: seq<string>)
    requires AllFrames(fs) && n <= |fs| && Sent(fs[..n]) + left == now && now + Concat(chunks) == Sent(fs)
    ensures AllFrames(fs[n..]) && left + Concat(chunks) == Sent(fs[n..])
  {
    hide IsFrame, Sent, Concat;
    SentSplit(fs, n);
    assert Sent(fs[..n]) + (left + Concat(chunks)) == Sent(fs[..n]) + Sent(fs[n..]);
    assert left + Concat(chunks) == (Sent(fs[..n]) + (left + Concat(chunks)))[|Sent(fs[..n])|..];
  }

  /** The fallback took a frame whose newline had not come. */
  lemma StoppedEarly(fs: seq<Json>, n: nat, buf: string, chunks: seq<string>)
    requires HasDone(fs) && n < |fs| && NoneDone(fs[..n]) && chunks != [] && HasDone(fs[n..])
    requires buf + chunks[0] == Sent(fs[..n]) + Print(fs[n])
    ensures fs[..n + 1] == UpToDone(fs) <==> NeverBad(fs, buf, chunks)
    ensures fs[..n + 1] <= UpToDone(fs)
  {
    hide IsDone, UpToDone, NoneDone, BadEnd, Sent, HasDone, Print, Concat;
    UpToDoneSplit(fs, n);
    UpToDoneFirst(fs[n..]);
    assert fs[..n + 1] == fs[..n] + [fs[n]];
    if IsDone(fs[n]) {
      UpToDoneEnds(fs, n + 1);
      NeverBadEnd(fs, n, buf, chunks);
    } else {
      UpToDoneLonger(fs[n..]);
      ConcatStart(buf, chunks);
      BadEndSplit(fs, n, Print(fs[n]));
      BadEndHere(fs[n..]);
      assert !NeverBad(fs, buf, chunks);
    }
  }

  lemma BadEndHere(fs: seq<Json>)
    requires fs != [] && !IsDone(fs[0])
    ensures BadEnd(fs, Print(fs[0]))
  {
  }

  /** From the first read: the reply of a worker, wholly delivered in any chunks. */
  lemma ReplyIsWholeIff(fs: seq<Json>, chunks: seq<string>, more: seq<Read>)
    requires AllFrames(fs) && HasDone(fs) && NonEmpty(chunks) && Concat(chunks) == Sent(fs)
    ensures AFrames([], false, Reads(chunks) + more).frames == UpToDone(fs) <==> NeverBad(fs, [], chunks)
    ensures AFrames([], false, Reads(chunks) + more).end == Finished
    ensures AFrames([], false, Reads(chunks) + more).frames <= UpToDone(fs)
  {
    hide AFrames, Print, IsDone, NeverBad, Printable, Truthy, UpToDone;
    FirstChar(fs[0]);
    assert [] + Concat(chunks) == Sent(fs);
    FramesAreAllIff(fs, [], false, chunks, more);
  }

  lemma SentLonger(fs: seq<Json>, i: nat, n: nat)
    requires i < n <= |fs|
    ensures |Sent(fs[..n])| >= |Sent(fs[..i])| + |Print(fs[i])| + 1
  {
    hide Print;
    var all := fs[..n];
    SentSplit(all, i);
    assert all[..i] == fs[..i] && all[i..][0] == fs[i];
  }

  /** A chunk that ends just before the newline of a frame that is not last: the fallback takes that frame for the
      whole reply and drops all that follows. */
  lemma CutBeforeNewline(fs: seq<Json>, i: nat, chunks: seq<string>, more: seq<Read>)
    requires AllFrames(fs) && HasDone(fs) && i < |fs| && NoneDone(fs[..i + 1])
    requires chunks == [Sent(fs[..i]) + Print(fs[i]), "\n" + Sent(fs[i + 1..])]
    ensures NonEmpty(chunks) && Concat(chunks) == Sent(fs)
    ensures AFrames([], false, Reads(chunks) + more) == Seen(fs[..i + 1], Finished)
    ensures |UpToDone(fs)| > i + 1
  {
    hide Digest, Print, Printable, IsDone, UpToDone, DrainLines, HasDone, Sent, AFrames, Reads, DrainedTo, NoneDone,
        AllFrames, IsFrame;
    var now := chunks[0];
    CutTexts(fs, i, chunks);
    DigestSent(fs, now);
    var d, n := DrainLines(now), |DrainLines(now).frames|;
    DrainedFacts(fs, now, d);
    if n < i {
      SentLonger(fs, n, i);
    } else if i < n {
      SentLonger(fs, i, n);
    }
    NotFinished(fs, i, d);
    assert n == i && d.buf == now[|Sent(fs[..i])|..] == Print(fs[i]);
    assert [] + now == now;
    AFramesStep([], false, chunks, more);
    HasDoneLater(fs, i + 1);
    UpToDoneSplit(fs, i + 1);
    UpToDoneFirst(fs[i + 1..]);
  }

  lemma NotFinished(fs: seq<Json>, i: nat, d: Drained)
    requires i < |fs| && NoneDone(fs[..i + 1]) && |d.frames| <= i
    ensures d.end == Finished && |d.frames| > 0 ==> !IsDone(fs[|d.frames| - 1])
  {
    hide IsDone;
    if |d.frames| > 0 {
      assert fs[..i + 1][|d.frames| - 1] == fs[|d.frames| - 1];
    }
  }

  lemma CutTexts(fs: seq<Json>, i: nat, chunks: seq<string>)
    requires AllFrames(fs) && i < |fs|
    requires chunks == [Sent(fs[..i]) + Print(fs[i]), "\n" + Sent(fs[i + 1..])]
    ensures NonEmpty(chunks) && Concat(chunks) == Sent(fs) && chunks[0] <= Sent(fs)
  {
    hide Print, Printable, Sent, Concat, Get;
    var f := fs[i];
    assert IsFrame(f);
    FirstChar(f);
    SentSplit(fs, i);
    SentFirst(fs[i..]);
    assert fs[i..][1..] == fs[i + 1..];
    var a, b, c := Sent(fs[..i]), Print(f), "\n" + Sent(fs[i + 1..]);
    Associate(a, b, c);
    ConcatTwo(a + b, c);
    SentPrefix(a + b, c, Sent(fs));
  }

  lemma SentFirst(fs: seq<Json>)
    requires fs != []
    ensures Sent(fs) == Print(fs[0]) + ("\n" + Sent(fs[1..]))
  {
    hide Print;
    Associate(Print(fs[0]), "\n", Sent(fs[1..]));
  }

  /** A reply of one frame, as every refusal and every plain handler sends, arrives whole however it is cut. */
  lemma SingleReplyIsWhole(f: Json, chunks: seq<string>, more: seq<Read>)
    requires IsFrame(f) && IsDone(f) && NonEmpty(chunks) && Concat(chunks) == Sent([f])
    ensures AFrames([], false, Reads(chunks) + more) == Seen([f], Finished)
  {
    hide AFrames, Print, IsDone, IsFrame, BadEnd, Concat, Sent, UpToDone;
    var fs := [f];
    assert IsDone(fs[0]);
    ReplyIsWholeIff(fs, chunks, more);
    UpToDoneFirst(fs);
    forall k | 0 < k <= |chunks| ensures !BadEnd(fs, [] + Concat(chunks[..k])) {
      NotBadAtDone(fs, [] + Concat(chunks[..k]));
    }
  }

  lemma NotBadAtDone(fs: seq<Json>, t: string)
    requires fs != [] && IsDone(fs[0])
    ensures !BadEnd(fs, t)
  {
  }
}
