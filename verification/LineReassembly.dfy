/**
 From a byte stream to lines (the receive loop of lib/cmos/cmos_sub.c): a buffer of 2048 bytes that is
 split at newlines after every recv. However the stream is cut into pieces, the same lines come out.
 */
module LineReassembly {
  import opened Words

  const RX_BUF := 2048
  const LINE_BUF := 1024
  const NEWLINE: char := '\n'

  /** Complete lines, newline included, and what follows the last of them. */
  datatype Cut = Cut(lines: seq<string>, rest: string)

  // ---------------------------------------------------------------- the newline split

  function Split(s: string): Cut
    decreases |s|
  {
    if s == "" then Cut([], "")
    else
      Extended(Split(s[..|s| - 1]), s[|s| - 1])
  }

  /** One more byte. */
  function Extended(r: Cut, c: char): Cut {
    if c == NEWLINE then Cut(r.lines + [r.rest + [NEWLINE]], "") else Cut(r.lines, r.rest + [c])
  }

  predicate NoNewline(s: string) {
    NEWLINE !in s
  }

  /** One newline, at the end. */
  predicate IsLine(s: string) {
    |s| > 0 && s[|s| - 1] == NEWLINE && NoNewline(s[..|s| - 1])
  }

  predicate AreLines(lines: seq<string>) {
    forall j :: 0 <= j < |lines| ==> IsLine(lines[j])
  }

  /** The text a cut stands for, if its lines are lines and its rest is unfinished. */
  predicate Means(r: Cut, s: string) {
    Concat(r.lines) + r.rest == s && AreLines(r.lines) && NoNewline(r.rest)
  }

  /** The split loses nothing, and cuts at newlines only. */
  lemma {:induction false} SplitMeaning(s: string)
    ensures Means(Split(s), s)
    decreases |s|
  {
    if s != "" {
      var n := |s| - 1;
      SplitMeaning(s[..n]);
      ExtendedMeans(Split(s[..n]), s[..n], s[n]);
      assert s == s[..n] + [s[n]];
    }
  }

  lemma ExtendedMeans(r: Cut, s: string, c: char)
    requires Means(r, s)
    ensures Means(Extended(r, c), s + [c])
  {
    Glue(Concat(r.lines), r.rest, [c]);
    if c == NEWLINE {
      ConcatOneMore(r.lines, r.rest + [c]);
      assert (r.rest + [c])[..|r.rest|] == r.rest;
    }
  }

  lemma Glue(a: string, b: string, c: string)
    ensures (a + b) + c == a + (b + c) == a + (b + c) + ""
  {
  }

  lemma {:induction false} SplitPlain(s: string, t: string)
    requires NoNewline(t)
    ensures Split(s + t) == Cut(Split(s).lines, Split(s).rest + t)
    decreases |t|
  {
    if t == "" {
      assert s + t == s && Split(s).rest + t == Split(s).rest;
    } else {
      var u, c := t[..|t| - 1], t[|t| - 1];
      assert t == u + [c];
      SplitPlain(s, u);
      SplitSnoc(s + u, c);
      Glue(s, u, [c]);
      Glue(Split(s).rest, u, [c]);
    }
  }

  lemma SplitSnoc(s: string, c: char)
    ensures Split(s + [c]) == Extended(Split(s), c)
  {
    assert (s + [c])[..|s|] == s;
  }

  /** One byte further along a text whose unfinished line starts at start. */
  lemma SplitNext(s: string, start: nat, k: nat)
    requires start <= k < |s| && Split(s[..k]).rest == s[start..k]
    ensures Split(s[..k + 1]) ==
      var lines, so_far := Split(s[..k]).lines, s[start..k + 1];
      if s[k] == NEWLINE then Cut(lines + [so_far], "") else Cut(lines, so_far)
  {
    SplitSnoc(s[..k], s[k]);
    assert s[..k + 1] == s[..k] + [s[k]];
    assert s[start..k] + [s[k]] == s[start..k + 1];
  }

  lemma SplitLine(s: string, body: string)
    requires NoNewline(body) && Split(s).rest == ""
    ensures Split(s + (body + [NEWLINE])) == Cut(Split(s).lines + [body + [NEWLINE]], "")
  {
    var t := s + body;
    SplitPlain(s, body);
    Alone(body);
    SplitSnoc(t, NEWLINE);
    Glue(s, body, [NEWLINE]);
  }

  lemma Alone(body: string)
    ensures "" + body == body
  {
  }

  /** And it is the only such cut: lines followed by an unfinished one split back into themselves. */
  lemma {:induction false} SplitOfLines(lines: seq<string>, rest: string)
    requires AreLines(lines) && NoNewline(rest)
    ensures Split(Concat(lines) + rest) == Cut(lines, rest)
    decreases |lines|, |rest|
  {
    if rest != "" {
      SplitOfLines(lines, "");
      assert Concat(lines) + "" == Concat(lines);
      SplitPlain(Concat(lines), rest);
      assert "" + rest == rest;
    } else if lines != [] {
      var n := |lines| - 1;
      SplitOfLines(lines[..n], "");
      ConcatOneMore(lines[..n], lines[n]);
      assert Concat(lines[..n]) + "" == Concat(lines[..n]);
      var body := lines[n][..|lines[n]| - 1];
      assert lines[n] == body + [NEWLINE];
      SplitLine(Concat(lines[..n]), body);
      assert lines[..n] + [lines[n]] == lines;
      assert Concat(lines) + "" == Concat(lines);
    }
  }

  // ---------------------------------------------------------------- the receiver, byte by byte

  /** What fits into the line buffer. */
  function Clipped(line: string): string {
    if |line| < LINE_BUF then line else line[..LINE_BUF - 1]
  }

  function ClippedAll(lines: seq<string>): (r: seq<string>)
    ensures |r| == |lines|
    ensures forall j :: 0 <= j < |lines| ==> r[j] == Clipped(lines[j])
  {
    seq(|lines|, j requires 0 <= j < |lines| => Clipped(lines[j]))
  }

  lemma ClippedOneMore(lines: seq<string>, line: string)
    ensures ClippedAll(lines + [line]) == ClippedAll(lines) + [Clipped(line)]
  {
  }

  /** A pending line that fills the buffer is thrown away. */
  function Kept(pending: string): string {
    if |pending| >= RX_BUF - 1 then "" else pending
  }

  function Take(c: Cut, ch: char): Cut {
    if ch == NEWLINE then Cut(c.lines + [Clipped(c.rest + [NEWLINE])], "") else Cut(c.lines, Kept(c.rest + [ch]))
  }

  /** Feeding a stream one byte at a time into a receiver that holds p. */
  function Fed(p: string, s: string): Cut
    decreases |s|
  {
    if s == "" then Cut([], p) else Take(Fed(p, s[..|s| - 1]), s[|s| - 1])
  }

  lemma {:induction false} FedConcat(p: string, a: string, b: string)
    ensures var x := Fed(p, a); var y := Fed(x.rest, b);
      Fed(p, a + b) == Cut(x.lines + y.lines, y.rest)
    decreases |b|
  {
    var x := Fed(p, a);
    if b == "" {
      assert a + b == a && x.lines + [] == x.lines;
    } else {
      var n := |b| - 1;
      FedConcat(p, a, b[..n]);
      assert (a + b)[..|a + b| - 1] == a + b[..n];
      var y := Fed(x.rest, b[..n]);
      if b[n] == NEWLINE {
        assert (x.lines + y.lines) + [Clipped(y.rest + [NEWLINE])] == x.lines + (y.lines + [Clipped(y.rest + [NEWLINE])]);
      }
    }
  }

  /** What one recv does: append the piece, hand over the complete lines, keep the rest unless it fills the buffer. */
  function Received(p: string, piece: string): Cut {
    var r := Split(p + piece);
    Cut(ClippedAll(r.lines), Kept(r.rest))
  }

  lemma {:induction false} SplitRestLength(s: string)
    ensures |Split(s).rest| <= |s|
    ensures Split(s).lines != [] ==> |Split(s).rest| < |s|
    decreases |s|
  {
    if s != "" {
      SplitRestLength(s[..|s| - 1]);
    }
  }

  /** A piece that fits into the free space is the same as its bytes one after the other. */
  lemma {:induction false} ReceivedIsFed(p: string, piece: string)
    requires NoNewline(p) && |p| < RX_BUF - 1 && |p| + |piece| <= RX_BUF - 1
    ensures Received(p, piece) == Fed(p, piece)
    decreases |piece|
  {
    if piece == "" {
      SplitPlain("", p);
      assert "" + p == p && p + piece == p;
    } else {
      var n := |piece| - 1;
      ReceivedIsFed(p, piece[..n]);
      assert (p + piece)[..|p + piece| - 1] == p + piece[..n];
      SplitRestLength(p + piece[..n]);
      var r := Split(p + piece[..n]);
      if piece[n] == NEWLINE {
        assert ClippedAll(r.lines + [r.rest + [NEWLINE]]) == ClippedAll(r.lines) + [Clipped(r.rest + [NEWLINE])];
      }
    }
  }

  // ---------------------------------------------------------------- every way of cutting the stream

  /** recv never gives more than the free space, and never nothing. */
  predicate Admissible(p: string, pieces: seq<string>)
    decreases |pieces|
  {
    pieces == [] ||
      (0 < |pieces[0]| <= RX_BUF - 1 - |p| && Admissible(Received(p, pieces[0]).rest, pieces[1..]))
  }

  function ReceivedAll(p: string, pieces: seq<string>): Cut
    decreases |pieces|
  {
    if pieces == [] then Cut([], p)
    else
      var x := Received(p, pieces[0]);
      var y := ReceivedAll(x.rest, pieces[1..]);
      Cut(x.lines + y.lines, y.rest)
  }

  lemma {:induction false} FedKeepsRoom(p: string, s: string)
    requires NoNewline(p) && |p| < RX_BUF - 1
    ensures NoNewline(Fed(p, s).rest) && |Fed(p, s).rest| < RX_BUF - 1
    decreases |s|
  {
    if s != "" {
      FedKeepsRoom(p, s[..|s| - 1]);
    }
  }

  /** So there is always room for the next recv, and the pieces do not matter. */
  lemma {:induction false} PiecesDoNotMatter(p: string, pieces: seq<string>)
    requires NoNewline(p) && |p| < RX_BUF - 1 && Admissible(p, pieces)
    ensures ReceivedAll(p, pieces) == Fed(p, Concat(pieces))
    ensures |ReceivedAll(p, pieces).rest| < RX_BUF - 1
    decreases |pieces|
  {
    if pieces != [] {
      ReceivedIsFed(p, pieces[0]);
      FedKeepsRoom(p, pieces[0]);
      PiecesDoNotMatter(Received(p, pieces[0]).rest, pieces[1..]);
      FedConcat(p, pieces[0], Concat(pieces[1..]));
    }
  }

  // ---------------------------------------------------------------- which lines come out

  /** What is left of an over-long line: whole buffers of it are thrown away. */
  function Residue(s: string): (r: string)
    ensures |r| < RX_BUF - 1
    decreases |s|
  {
    if |s| >= RX_BUF - 1 then Residue(s[RX_BUF - 1..]) else s
  }

  lemma {:induction false} ResidueGrows(s: string, c: char)
    ensures Residue(s + [c]) == Kept(Residue(s) + [c])
    decreases |s|
  {
    if |s| >= RX_BUF - 1 {
      assert (s + [c])[RX_BUF - 1..] == s[RX_BUF - 1..] + [c];
      ResidueGrows(s[RX_BUF - 1..], c);
    } else if |s| == RX_BUF - 2 {
      assert (s + [c])[RX_BUF - 1..] == "";
    }
  }

  /** How a line reaches its handler. */
  function Seen(line: string): string
    requires line != ""
  {
    Clipped(Residue(line[..|line| - 1]) + [NEWLINE])
  }

  lemma {:induction false} ResidueExactly(s: string)
    ensures Residue(s) == s[(|s| / 2047) * 2047..]
    decreases |s|
  {
    if |s| >= 2047 {
      var t := s[2047..];
      assert |s| / 2047 == |t| / 2047 + 1;
      ResidueExactly(t);
    }
  }

  /**
   What is handed over for a line, by its text before the newline: whole buffers of 2047 bytes at its start are
   thrown away, and what is left, with its newline, is cut to 1023 bytes.
   */
  lemma SeenExactly(text: string)
    ensures var rest := text[(|text| / 2047) * 2047..];
      Seen(text + ['\n']) == if |rest| < 1023 then rest + ['\n'] else rest[..1023]
  {
    ResidueExactly(text);
    assert (text + [NEWLINE])[..|text|] == text;
    var rest := text[(|text| / 2047) * 2047..];
    if |rest| >= 1023 {
      assert (rest + [NEWLINE])[..1023] == rest[..1023];
    }
  }

  /** Every line comes out, in order, each as Seen makes it: for every stream, however long its lines. */
  lemma {:induction false} FedIsSplit(s: string)
    ensures Fed("", s).rest == Residue(Split(s).rest)
    ensures |Fed("", s).lines| == |Split(s).lines| && AreLines(Split(s).lines)
    ensures forall j :: 0 <= j < |Split(s).lines| ==> Fed("", s).lines[j] == Seen(Split(s).lines[j])
    decreases |s|
  {
    SplitMeaning(s);
    if s != "" {
      var n := |s| - 1;
      FedIsSplit(s[..n]);
      var r := Split(s[..n]);
      ResidueGrows(r.rest, s[n]);
      assert (r.rest + [NEWLINE])[..|r.rest|] == r.rest;
    }
  }

  /** A line is handed over unchanged exactly when it has at most 1023 bytes, newline included. */
  lemma SeenUnchangedExactly(line: string)
    requires IsLine(line)
    ensures Seen(line) == line <==> |line| <= 1023
  {
    var n := |line| - 1;
    assert line == line[..n] + [NEWLINE];
    if |line| <= LINE_BUF - 1 {
      assert Residue(line[..n]) == line[..n];
    } else {
      assert |Seen(line)| <= LINE_BUF - 1;
    }
  }

  /** Whatever the pieces, the lines handed over are the newline split of the stream, over-long ones shortened. */
  lemma LinesComeOut(pieces: seq<string>)
    requires Admissible("", pieces)
    ensures var want, got := Split(Concat(pieces)).lines, ReceivedAll("", pieces).lines;
      && |got| == |want| && AreLines(want)
      && (forall j :: 0 <= j < |want| ==> got[j] == Seen(want[j]))
      && (forall j :: 0 <= j < |want| ==> (got[j] == want[j] <==> |want[j]| <= 1023))
  {
    PiecesDoNotMatter("", pieces);
    FedIsSplit(Concat(pieces));
    var want := Split(Concat(pieces)).lines;
    forall j | 0 <= j < |want| ensures Seen(want[j]) == want[j] <==> |want[j]| <= LINE_BUF - 1 {
      SeenUnchangedExactly(want[j]);
    }
  }

  /** With all lines short enough the handler sees exactly the newline split of the stream. */
  lemma ShortLinesExactly(pieces: seq<string>)
    requires Admissible("", pieces)
    ensures ReceivedAll("", pieces).lines == Split(Concat(pieces)).lines <==>
            forall j :: 0 <= j < |Split(Concat(pieces)).lines| ==> |Split(Concat(pieces)).lines[j]| <= 1023
  {
    LinesComeOut(pieces);
  }

  /** Lines of at most 1023 bytes, the unfinished one included. */
  predicate Short(r: Cut) {
    |r.rest| < 1023 && forall j :: 0 <= j < |r.lines| ==> |r.lines[j]| <= 1023
  }

  /** A text with short lines has short lines all along. */
  lemma {:induction false} ShortAllAlong(s: string, t: string)
    requires Short(Split(s + t))
    ensures Short(Split(s))
    decreases |t|
  {
    if t == "" {
      assert s + t == s;
    } else {
      var u, c := t[..|t| - 1], t[|t| - 1];
      assert s + t == (s + u) + [c];
      SplitSnoc(s + u, c);
      ShortBefore(Split(s + u), c);
      ShortAllAlong(s, u);
    }
  }

  lemma ShortBefore(r: Cut, c: char)
    requires Short(Extended(r, c))
    ensures Short(r)
  {
    if c == NEWLINE {
      var lines := Extended(r, c).lines;
      assert |lines[|r.lines|]| <= LINE_BUF - 1;
      assert forall j :: 0 <= j < |r.lines| ==> lines[j] == r.lines[j];
    }
  }

  /**
   With short lines nothing is ever thrown away: after every recv the buffer holds exactly the unfinished line
   of the stream so far, and half of it is free.
   */
  lemma NothingDiscarded(pieces: seq<string>, more: seq<string>)
    requires Admissible("", pieces) && Short(Split(Concat(pieces) + Concat(more)))
    ensures ReceivedAll("", pieces).rest == Split(Concat(pieces)).rest
    ensures |ReceivedAll("", pieces).rest| < 1023
  {
    ShortAllAlong(Concat(pieces), Concat(more));
    PiecesDoNotMatter("", pieces);
    FedIsSplit(Concat(pieces));
  }

  // ---------------------------------------------------------------- the code

  class Connection {
    const rxbuf: array<char>
    var rxlen: nat

    ghost predicate Valid()
      reads this, rxbuf
    {
      rxbuf.Length == RX_BUF && rxlen < RX_BUF - 1 && NoNewline(rxbuf[..rxlen])
    }

    ghost function Pending(): string
      reads this, rxbuf
      requires Valid()
    {
      rxbuf[..rxlen]
    }

    constructor ()
      ensures Valid() && Pending() == "" && fresh(rxbuf)
    {
      rxbuf := new char[RX_BUF](_ => '\0');
      rxlen := 0;
    }

    /** recv into the free part of the buffer, and the terminator after it. */
    method Fill(piece: string)
      requires rxbuf.Length == RX_BUF && rxlen + |piece| <= RX_BUF - 1
      modifies this`rxlen, rxbuf
      ensures rxlen == old(rxlen) + |piece| && rxbuf[..rxlen] == old(rxbuf[..rxlen]) + piece
    {
      var i := 0;
      while i < |piece|
        invariant i <= |piece| && rxlen == old(rxlen)
        invariant rxbuf[..rxlen + i] == old(rxbuf[..rxlen]) + piece[..i]
      {
        rxbuf[rxlen + i] := piece[i];
        i := i + 1;
      }
      rxlen := rxlen + |piece|;
      rxbuf[rxlen] := '\0';
    }

    /** memmove: drop the first bytes. */
    method Shift(start: nat)
      requires rxbuf.Length == RX_BUF && start <= rxlen < RX_BUF
      modifies this`rxlen, rxbuf
      ensures rxlen == old(rxlen) - start && rxbuf[..rxlen] == old(rxbuf[start..rxlen])
    {
      var i := 0;
      while i < rxlen - start
        invariant i <= rxlen - start && rxlen == old(rxlen)
        invariant rxbuf[..i] == old(rxbuf[start..start + i])
        invariant rxbuf[start + i..] == old(rxbuf[start + i..])
      {
        rxbuf[i] := rxbuf[start + i];
        i := i + 1;
      }
      rxlen := rxlen - start;
    }

    /** memcpy of a complete line into the line buffer. */
    method CutLine(start: nat, k: nat) returns (line: string)
      requires start <= k < rxbuf.Length
      ensures line == Clipped(rxbuf[start..k + 1])
    {
      var len := k - start + 1;
      if len >= LINE_BUF {
        len := LINE_BUF - 1;
      }
      line := rxbuf[start..start + len];
      assert rxbuf[start..k + 1][..len] == line;
    }

    /** The scan for newlines; start is where the unfinished line begins. */
    method SplitBuffer() returns (lines: seq<string>, start: nat)
      requires rxlen <= rxbuf.Length
      ensures start <= rxlen
      ensures lines == ClippedAll(Split(rxbuf[..rxlen]).lines) && Split(rxbuf[..rxlen]).rest == rxbuf[start..rxlen]
    {
      ghost var whole := rxbuf[..rxlen];
      ghost var cut := Split("");
      lines, start := [], 0;
      var k := 0;
      while k < rxlen
        invariant start <= k <= rxlen
        invariant cut == Split(whole[..k]) && lines == ClippedAll(cut.lines) && cut.rest == whole[start..k]
      {
        SplitNext(whole, start, k);
        if rxbuf[k] == NEWLINE {
          var line := CutLine(start, k);
          assert rxbuf[start..k + 1] == whole[start..k + 1];
          ClippedOneMore(cut.lines, whole[start..k + 1]);
          lines := lines + [line];
          start := k + 1;
        }
        k := k + 1;
        cut := Split(whole[..k]);
      }
      assert whole[..k] == whole;
    }

    /** One readable event: recv, split, hand over, shift. The lines handed over are returned in order. */
    method Receive(piece: string) returns (lines: seq<string>)
      requires Valid() && |piece| <= RX_BUF - 1 - rxlen
      modifies this`rxlen, rxbuf
      ensures Valid()
      ensures Cut(lines, Pending()) == Received(old(Pending()), piece)
    {
      Fill(piece);
      SplitMeaning(rxbuf[..rxlen]);
      var start;
      lines, start := SplitBuffer();
      if start > 0 {
        Shift(start);
      }
      if rxlen >= RX_BUF - 1 {
        rxlen := 0;
        rxbuf[0] := '\0';
      }
    }
  }
}
