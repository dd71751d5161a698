/**
 What an incoming byte stream means: SASL lines until the exchange is over, then messages.
 This is the reference that the buffered, chunk by chunk reading is compared with.
 */
module Tokens {
  import opened Base
  import opened Bytes
  import InputQueue
  import Message
  import Sasl

  const HEADER_SIZE := Message.HEADER_SIZE
  const LINE_MAX := InputQueue.LINE_MAX

  // what the reader of the stream expects next
  datatype Mode = Lines(server: Sasl.Server) | Messages | Failed

  datatype Token = Line(text: seq<Byte>, reply: Sasl.Reply) | Whole(message: seq<Byte>)

  datatype Next = More | Token(token: Token, size: nat, after: Mode) | Broken

  // the length of the first line that ends within the limit
  ghost predicate ShortLine(s: seq<Byte>, n: nat) {
    InputQueue.LineOf(s, n) && n + 2 <= LINE_MAX
  }

  // the first token of s
  ghost function First(mode: Mode, uid: nat, s: seq<Byte>): Next {
    match mode
    case Failed => Broken
    case Lines(server) =>
      if exists n: nat :: ShortLine(s, n) then
        var n: nat :| ShortLine(s, n);
        var (after, reply) := Sasl.Step(server, uid, s[..n]);
        if reply == Sasl.Violation then Broken
        else Token(Line(s[..n], reply), n + 2, if after.state == Sasl.Done then Messages else Lines(after))
      else if |s| >= LINE_MAX then Broken
      else More
    case Messages =>
      if |s| < HEADER_SIZE then More
      else
        match Message.FrameOf(s[..HEADER_SIZE])
        case CorruptHeader | TooLarge => Broken
        case Frame(big, nHeader, nBody) =>
          var n := Message.Size(Message.Frame(big, nHeader, nBody));
          if |s| < n then More else Token(Whole(s[..n]), n, Messages)
  }

  lemma LineUnique(s: seq<Byte>, m: nat, n: nat)
    requires InputQueue.LineOf(s, m) && InputQueue.LineOf(s, n)
    ensures m == n
  {
    if m < n {
      NoEarlierLine(s, m, n);
    } else if n < m {
      NoEarlierLine(s, n, m);
    }
  }

  lemma NoEarlierLine(s: seq<Byte>, m: nat, n: nat)
    requires InputQueue.LineOf(s, n) && m < n
    ensures !InputQueue.EndsLine(s, m + 1)
  {
    var t := s[..n + 1];
    assert !InputQueue.EndsLine(t, m + 1);
    assert t[m + 1] == s[m + 1] && t[m] == s[m];
  }

  lemma LineStays(s: seq<Byte>, t: seq<Byte>, n: nat)
    requires n + 1 < |s|
    ensures InputQueue.LineOf(s, n) <==> InputQueue.LineOf(s + t, n)
    ensures (s + t)[..n] == s[..n]
  {
    assert (s + t)[..n + 1] == s[..n + 1];
  }

  lemma FirstLine(server: Sasl.Server, uid: nat, s: seq<Byte>, n: nat)
    requires InputQueue.LineOf(s, n) && n + 2 <= LINE_MAX
    ensures var (after, reply) := Sasl.Step(server, uid, s[..n]);
      First(Lines(server), uid, s) ==
        if reply == Sasl.Violation then Broken
        else Token(Line(s[..n], reply), n + 2, if after.state == Sasl.Done then Messages else Lines(after))
  {
    assert ShortLine(s, n);
    forall m: nat | ShortLine(s, m) ensures m == n {
      LineUnique(s, m, n);
    }
  }

  // Messages begin behind the line that ends the exchange, and before no other line.
  lemma SwitchIff(server: Sasl.Server, uid: nat, s: seq<Byte>)
    requires First(Lines(server), uid, s).Token? && server.state != Sasl.Done
    ensures var f := First(Lines(server), uid, s);
      && f.token.Line? && f.size == |f.token.text| + 2
      && (f.after == Messages <==> f.token.reply == Sasl.Silence)
      && (f.after != Messages ==> f.after == Lines(Sasl.Step(server, uid, f.token.text).0))
      && f.token.reply == Sasl.Step(server, uid, f.token.text).1
  {
    var n: nat :| ShortLine(s, n);
    FirstLine(server, uid, s, n);
    SilenceEnds(server, uid, s[..n]);
  }

  lemma SilenceEnds(server: Sasl.Server, uid: nat, line: seq<Byte>)
    requires server.state != Sasl.Done
    ensures Sasl.Step(server, uid, line).0.state == Sasl.Done <==> Sasl.Step(server, uid, line).1 == Sasl.Silence
  {
  }

  lemma FirstFits(mode: Mode, uid: nat, s: seq<Byte>)
    ensures var f := First(mode, uid, s); f.Token? ==> 0 < f.size <= |s|
  {
    if mode.Messages? && |s| >= HEADER_SIZE && Message.FrameOf(s[..HEADER_SIZE]).Frame? {
      assert Message.Size(Message.FrameOf(s[..HEADER_SIZE])) >= HEADER_SIZE;
    }
  }

  // More bytes do not change a token, nor a failure.
  lemma FirstStays(mode: Mode, uid: nat, s: seq<Byte>, t: seq<Byte>)
    requires First(mode, uid, s) != More
    ensures First(mode, uid, s + t) == First(mode, uid, s)
  {
    match mode
    case Failed =>
    case Messages =>
      assert (s + t)[..HEADER_SIZE] == s[..HEADER_SIZE];
      FirstFits(mode, uid, s);
      if First(mode, uid, s).Token? {
        var n := First(mode, uid, s).size;
        assert (s + t)[..n] == s[..n];
      }
    case Lines(server) =>
      if exists n: nat :: ShortLine(s, n) {
        var n: nat :| ShortLine(s, n);
        LineStays(s, t, n);
        assert ShortLine(s + t, n);
        forall m: nat | ShortLine(s + t, m) ensures m == n {
          LineUnique(s + t, m, n);
        }
        forall m: nat | ShortLine(s, m) ensures m == n {
          LineUnique(s, m, n);
        }
      } else {
        forall m: nat ensures !ShortLine(s + t, m) {
          if ShortLine(s + t, m) {
            LineStays(s, t, m);
            assert ShortLine(s, m);
          }
        }
      }
  }

  // ---------------------------------------------------------------- whole streams

  // all tokens of s, and what is left of it
  datatype Drained = Drained(tokens: seq<Token>, mode: Mode, rest: seq<Byte>)

  ghost function Drain(mode: Mode, uid: nat, s: seq<Byte>): Drained
    decreases |s|
  {
    match First(mode, uid, s)
    case More => Drained([], mode, s)
    case Broken => Drained([], Failed, [])
    case Token(token, size, after) =>
      FirstFits(mode, uid, s);
      Prepended(token, Drain(after, uid, s[size..]))
  }

  function AfterLine(after: Sasl.Server): Mode {
    if after.state == Sasl.Done then Messages else Lines(after)
  }

  function Prepended(token: Token, d: Drained): Drained {
    Drained([token] + d.tokens, d.mode, d.rest)
  }

  lemma DrainFirst(mode: Mode, uid: nat, s: seq<Byte>)
    ensures First(mode, uid, s).More? ==> Drain(mode, uid, s) == Drained([], mode, s)
    ensures First(mode, uid, s).Broken? ==> Drain(mode, uid, s) == Drained([], Failed, [])
    ensures First(mode, uid, s).Token? ==> First(mode, uid, s).size <= |s|
    ensures var f := First(mode, uid, s);
      f.Token? ==> Drain(mode, uid, s) == Prepended(f.token, Drain(f.after, uid, s[f.size..]))
  {
    FirstFits(mode, uid, s);
    hide First;
  }

  lemma DrainLine(server: Sasl.Server, uid: nat, s: seq<Byte>, n: nat)
    requires InputQueue.LineOf(s, n) && n + 2 <= LINE_MAX
    ensures n + 2 <= |s|
    ensures var (after, reply) := Sasl.Step(server, uid, s[..n]);
      Drain(Lines(server), uid, s) ==
        if reply == Sasl.Violation then Drained([], Failed, [])
        else Prepended(Line(s[..n], reply), Drain(AfterLine(after), uid, s[n + 2..]))
  {
    FirstLine(server, uid, s, n);
    DrainFirst(Lines(server), uid, s);
  }

  lemma DrainMessage(uid: nat, s: seq<Byte>, n: nat)
    requires HEADER_SIZE <= n <= |s| && Message.FrameOf(s[..HEADER_SIZE]).Frame?
    requires n == Message.Size(Message.FrameOf(s[..HEADER_SIZE]))
    ensures Drain(Messages, uid, s) == Prepended(Whole(s[..n]), Drain(Messages, uid, s[n..]))
  {
    DrainFirst(Messages, uid, s);
  }

  lemma FailedStays(uid: nat, s: seq<Byte>)
    ensures Drain(Failed, uid, s) == Drained([], Failed, []) && [] + s == s
  {
  }

  // Draining once at the end is the same as draining in between.
  lemma {:induction false} DrainInSteps(mode: Mode, uid: nat, s: seq<Byte>, t: seq<Byte>)
    ensures var d := Drain(mode, uid, s); var e := Drain(d.mode, uid, d.rest + t);
      Drain(mode, uid, s + t) == Drained(d.tokens + e.tokens, e.mode, e.rest)
    decreases |s|
  {
    hide First;
    match First(mode, uid, s)
    case More =>
      DrainMore(mode, uid, s, t);
    case Broken =>
      DrainBroken(mode, uid, s, t);
    case Token(token, size, after) =>
      FirstFits(mode, uid, s);
      DrainInSteps(after, uid, s[size..], t);
      DrainToken(mode, uid, s, t);
  }

  lemma DrainMore(mode: Mode, uid: nat, s: seq<Byte>, t: seq<Byte>)
    requires First(mode, uid, s) == More
    ensures Drain(mode, uid, s) == Drained([], mode, s)
    ensures var e := Drain(mode, uid, s + t); e == Drained([] + e.tokens, e.mode, e.rest)
  {
    hide First;
  }

  lemma DrainBroken(mode: Mode, uid: nat, s: seq<Byte>, t: seq<Byte>)
    requires First(mode, uid, s) == Broken
    ensures Drain(mode, uid, s) == Drain(mode, uid, s + t) == Drain(Failed, uid, [] + t) == Drained([], Failed, [])
  {
    FirstStays(mode, uid, s, t);
    FailedStays(uid, t);
    hide First;
  }

  // the token that comes first, and the rest in steps
  lemma DrainToken(mode: Mode, uid: nat, s: seq<Byte>, t: seq<Byte>)
    requires First(mode, uid, s).Token? && First(mode, uid, s).size <= |s|
    requires
      var f := First(mode, uid, s);
      var d := Drain(f.after, uid, s[f.size..]);
      var e := Drain(d.mode, uid, d.rest + t);
      Drain(f.after, uid, s[f.size..] + t) == Drained(d.tokens + e.tokens, e.mode, e.rest)
    ensures var d := Drain(mode, uid, s); var e := Drain(d.mode, uid, d.rest + t);
      Drain(mode, uid, s + t) == Drained(d.tokens + e.tokens, e.mode, e.rest)
  {
    hide First;
    hide Drain;
    FirstStays(mode, uid, s, t);
    DrainFirst(mode, uid, s);
    DrainFirst(mode, uid, s + t);
    var f := First(mode, uid, s);
    assert (s + t)[f.size..] == s[f.size..] + t;
    var d := Drain(f.after, uid, s[f.size..]);
    var e := Drain(d.mode, uid, d.rest + t);
    ConcatAssociates([f.token], d.tokens, e.tokens);
  }

  // draining whenever a chunk has arrived
  ghost function DrainChunks(mode: Mode, uid: nat, chunks: seq<seq<Byte>>): Drained {
    if chunks == [] then Drain(mode, uid, [])
    else
      var d := DrainChunks(mode, uid, chunks[..|chunks| - 1]);
      var e := Drain(d.mode, uid, d.rest + chunks[|chunks| - 1]);
      Drained(d.tokens + e.tokens, e.mode, e.rest)
  }

  function Joined(chunks: seq<seq<Byte>>): seq<Byte> {
    if chunks == [] then [] else Joined(chunks[..|chunks| - 1]) + chunks[|chunks| - 1]
  }

  // However a stream is cut, the same tokens come out.
  lemma {:induction false} ChunksDoNotMatter(mode: Mode, uid: nat, chunks: seq<seq<Byte>>)
    ensures DrainChunks(mode, uid, chunks) == Drain(mode, uid, Joined(chunks))
  {
    if chunks != [] {
      ChunksDoNotMatter(mode, uid, chunks[..|chunks| - 1]);
      DrainInSteps(mode, uid, Joined(chunks[..|chunks| - 1]), chunks[|chunks| - 1]);
    }
  }

  // A line is accepted up to LINE_MAX bytes with its end, and a longer one never is.
  lemma LineLimit(server: Sasl.Server, uid: nat, s: seq<Byte>, n: nat)
    requires InputQueue.LineOf(s, n)
    ensures n + 2 > 16384 ==> First(Lines(server), uid, s) == Broken
    ensures n + 2 <= 16384 && Sasl.Step(server, uid, s[..n]).1 != Sasl.Violation ==>
      First(Lines(server), uid, s).Token? && First(Lines(server), uid, s).token.text == s[..n]
  {
    forall m: nat | ShortLine(s, m) ensures m == n {
      LineUnique(s, m, n);
    }
    assert n + 2 <= LINE_MAX ==> ShortLine(s, n);
  }
}
