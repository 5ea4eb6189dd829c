/**
 When the division into packets depends on how the stream is cut into arrivals: the reader takes a
 command of zero for no command at all when it is called again.
 */
module Cutting {
  import opened Basics
  import opened Framing

  /** A byte behind others of the same call. */
  function Continue(p: Parse, b: Byte): Parse {
    if p.stage.Idle? then Parse(Length(b, 0, 1, 0), p.packets) else Feed(p, b)
  }

  function ContinueAll(p: Parse, s: Bytes): Parse {
    if s == [] then p else Continue(ContinueAll(p, s[..|s| - 1]), s[|s| - 1])
  }

  /** The first byte of a call; what becomes of a payload behind a zero command is left open. */
  function Resume(p: Parse, b: Byte): Parse {
    match p.stage
    case Length(0, count, mult, length) => Parse(Length(b, count, mult, length), p.packets)
    case Payload(0, _, _) => Parse(Zero, p.packets)
    case _ => Continue(p, b)
  }

  /** A call that finds these bytes, and then has to wait. */
  function Call(p: Parse, piece: Bytes): Parse {
    if piece == [] then p else ContinueAll(Resume(p, piece[0]), piece[1..])
  }

  /** One call after the other. */
  function Calls(p: Parse, pieces: seq<Bytes>): Parse {
    if pieces == [] then p else Call(Calls(p, pieces[..|pieces| - 1]), pieces[|pieces| - 1])
  }

  /** More bytes of a call that has taken these. */
  function Go(call: Bytes, p: Parse, bytes: Bytes): Parse {
    if call == [] then Call(p, bytes) else ContinueAll(p, bytes)
  }

  predicate ZeroCommand(p: Parse) {
    match p.stage
    case Length(command, _, _, _) => command == 0
    case Payload(command, _, _) => command == 0
    case _ => false
  }

  lemma FeedKeepsCommand(p: Parse, b: Byte)
    requires !ZeroCommand(p)
    ensures !ZeroCommand(Feed(p, b))
  {
  }

  lemma {:induction false} FedCommand(p: Parse, s: Bytes)
    requires !ZeroCommand(p)
    ensures !ZeroCommand(FeedAll(p, s))
  {
    if s != [] {
      FedCommand(p, s[..|s| - 1]);
      FeedKeepsCommand(FeedAll(p, s[..|s| - 1]), s[|s| - 1]);
    }
  }

  lemma {:induction false} ContinueIsFeed(p: Parse, s: Bytes)
    requires !Stuck(FeedAll(p, s)) || FeedAll(p, s).stage.Broken?
    ensures ContinueAll(p, s) == FeedAll(p, s)
  {
    if s != [] {
      var front, b := s[..|s| - 1], s[|s| - 1];
      assert FeedAll(p, front).stage.Zero? ==> Feed(FeedAll(p, front), b) == FeedAll(p, front);
      ContinueIsFeed(p, front);
    }
  }

  lemma CallIsFeed(p: Parse, piece: Bytes)
    requires !ZeroCommand(p) && !FeedAll(p, piece).stage.Zero?
    ensures Call(p, piece) == FeedAll(p, piece)
  {
    if piece != [] {
      var first, rest := piece[..1], piece[1..];
      assert piece == first + rest && first == [piece[0]] && first[..0] == [];
      FeedMore(p, first, rest);
      assert FeedAll(p, first) == Feed(p, piece[0]);
      if FeedAll(p, first).stage.Zero? {
        StuckStays(FeedAll(p, first), rest);
      }
      ContinueIsFeed(Feed(p, piece[0]), rest);
    }
  }

  /** Without a zero command, however the stream is cut, the calls divide it as a whole. */
  lemma {:induction false} CuttingIsImmaterial(pieces: seq<Bytes>)
    requires !FeedAll(START, Concat(pieces)).stage.Zero?
    ensures Calls(START, pieces) == FeedAll(START, Concat(pieces))
    decreases |pieces|
  {
    if pieces != [] {
      var front, last := pieces[..|pieces| - 1], pieces[|pieces| - 1];
      FeedMore(START, Concat(front), last);
      if FeedAll(START, Concat(front)).stage.Zero? {
        StuckStays(FeedAll(START, Concat(front)), last);
      }
      CuttingIsImmaterial(front);
      FedCommand(START, Concat(front));
      CallIsFeed(FeedAll(START, Concat(front)), last);
    }
  }

  lemma CallMore(p: Parse, piece: Bytes, b: Byte)
    requires piece != []
    ensures Call(p, piece + [b]) == Continue(Call(p, piece), b)
  {
    assert (piece + [b])[1..] == piece[1..] + [b];
    ContinueOne(Resume(p, piece[0]), piece[1..], b);
  }

  lemma ContinueOne(p: Parse, s: Bytes, b: Byte)
    ensures ContinueAll(p, s + [b]) == Continue(ContinueAll(p, s), b)
  {
    assert (s + [b])[..|s|] == s;
  }

  lemma {:induction false} ContinueMore(p: Parse, s: Bytes, t: Bytes)
    ensures ContinueAll(p, s + t) == ContinueAll(ContinueAll(p, s), t)
    decreases |t|
  {
    if t == [] {
      assert s + t == s;
    } else {
      var front := t[..|t| - 1];
      ContinueMore(p, s, front);
      assert s + t == (s + front) + [t[|t| - 1]];
      ContinueOne(p, s + front, t[|t| - 1]);
    }
  }

  /** A call takes its bytes one after the other. */
  lemma CallGoes(p: Parse, call: Bytes, bytes: Bytes)
    ensures Call(p, call + bytes) == Go(call, Call(p, call), bytes)
  {
    if call == [] {
      assert call + bytes == bytes;
    } else {
      assert (call + bytes)[1..] == call[1..] + bytes;
      ContinueMore(Resume(p, call[0]), call[1..], bytes);
    }
  }

  /** Behind a command other than zero, or in the same call, the machine takes bytes as they are fed. */
  lemma GoIsFeed(call: Bytes, p: Parse, bytes: Bytes)
    requires (call != [] || !ZeroCommand(p)) && !FeedAll(p, bytes).stage.Zero?
    ensures Go(call, p, bytes) == FeedAll(p, bytes)
  {
    if call == [] { CallIsFeed(p, bytes); } else { ContinueIsFeed(p, bytes); }
  }

  lemma GoOne(call: Bytes, p: Parse, b: Byte)
    ensures Go(call, p, [b]) == if call == [] then Resume(p, b) else Continue(p, b)
  {
    assert [b][1..] == [] && [b][..0] == [];
    assert ContinueAll(p, []) == p && ContinueAll(Resume(p, b), []) == Resume(p, b);
  }

  /** Wherever a command is due, a zero byte and another one give a packet if they arrive together, and none if not. */
  lemma ZeroCommandDivides(s: Bytes, packets: seq<Packet>)
    requires FeedAll(START, s) == Parse(Idle, packets)
    ensures Concat([s + [0, 0]]) == s + [0] + [0] == Concat([s + [0], [0]])
    ensures Calls(START, [s + [0, 0]]) == Parse(Idle, packets + [Packet(0, [])])
    ensures Calls(START, [s + [0], [0]]) == Parse(Length(0, 0, 1, 0), packets)
  {
    ZeroTaken(START, s, packets);
    CallMore(START, s + [0], 0);
    assert s + [0, 0] == (s + [0]) + [0];
    OnePiece(s + [0, 0]);
    OnePiece(s + [0]);
    assert [s + [0], [0]][..1] == [s + [0]];
    assert Concat([s + [0], [0]]) == Concat([s + [0]]) + [0];
    assert [0][1..] == [];
  }

  lemma OnePiece(piece: Bytes)
    ensures Calls(START, [piece]) == Call(START, piece) && Concat([piece]) == piece
  {
    assert [piece][..0] == [];
  }

  /** A zero byte at the end of a call, where a command is due. */
  lemma ZeroTaken(p: Parse, s: Bytes, packets: seq<Packet>)
    requires !ZeroCommand(p) && FeedAll(p, s) == Parse(Idle, packets)
    ensures Call(p, s + [0]) == Parse(Length(0, 0, 1, 0), packets)
  {
    if s == [] {
      assert s + [0] == [0] && [0][1..] == [];
    } else {
      CallIsFeed(p, s);
      CallMore(p, s, 0);
    }
  }

  // ---------------------------------------------------------------- exactly when

  ghost predicate Agree(a: seq<Bytes>, b: seq<Bytes>, s: Bytes) {
    Concat(a) == s == Concat(b) ==> Calls(START, a).packets == Calls(START, b).packets
  }

  /** However a stream is cut that goes at most one byte beyond a part of s, the same packets are handed over. */
  ghost predicate Indifferent(s: Bytes) {
    forall u, b, x, y | u <= s :: Agree(x, y, u + [b])
  }

  /** A zero command as the last byte is not yet noticed. */
  lemma {:induction false} LastZero(pieces: seq<Bytes>, s: Bytes, packets: seq<Packet>)
    requires Concat(pieces) == s + [0] && FeedAll(START, s) == Parse(Idle, packets)
    ensures Calls(START, pieces).packets == packets
    decreases |pieces|
  {
    var front, last := pieces[..|pieces| - 1], pieces[|pieces| - 1];
    if last == [] {
      assert Concat(front) == Concat(pieces);
      LastZero(front, s, packets);
    } else {
      var w := last[..|last| - 1];
      assert last == w + [last[|last| - 1]];
      assert Concat(front) + w == Concat(pieces)[..|s|] == s;
      assert last[|last| - 1] == Concat(pieces)[|s|] == 0;
      FeedMore(START, Concat(front), w);
      if FeedAll(START, Concat(front)).stage.Zero? {
        StuckStays(FeedAll(START, Concat(front)), w);
      }
      CuttingIsImmaterial(front);
      FedCommand(START, Concat(front));
      ZeroTaken(FeedAll(START, Concat(front)), w, packets);
    }
  }

  lemma CutAlike(pieces: seq<Bytes>, s: Bytes, b: Byte)
    requires Concat(pieces) == s + [b] && !FeedAll(START, s).stage.Zero?
    ensures Calls(START, pieces).packets == FeedAll(START, s + [b]).packets
  {
    FeedOne(START, s, b);
    if FeedAll(START, s + [b]).stage.Zero? {
      LastZero(pieces, s, FeedAll(START, s).packets);
    } else {
      CuttingIsImmaterial(pieces);
    }
  }

  /** The first zero command of a stream. */
  lemma {:induction false} FirstZero(s: Bytes) returns (u: Bytes)
    requires FeedAll(START, s).stage.Zero?
    ensures u + [0] <= s && FeedAll(START, u).stage.Idle?
  {
    var front := s[..|s| - 1];
    if FeedAll(START, front).stage.Zero? {
      u := FirstZero(front);
    } else {
      u := front;
      assert u + [0] == s;
    }
  }

  /** The packets handed over do not depend on the cutting if and only if no command byte is zero. */
  lemma CuttingMattersExactly(s: Bytes)
    ensures Indifferent(s) <==> !FeedAll(START, s).stage.Zero?
  {
    if FeedAll(START, s).stage.Zero? {
      var u := FirstZero(s);
      ZeroCommandDivides(u, FeedAll(START, u).packets);
      assert !Agree([u + [0, 0]], [u + [0], [0]], (u + [0]) + [0]);
    } else {
      forall u, b, x, y | u <= s
        ensures Agree(x, y, u + [b])
      {
        var rest := s[|u|..];
        assert s == u + rest;
        FeedMore(START, u, rest);
        if FeedAll(START, u).stage.Zero? {
          StuckStays(FeedAll(START, u), rest);
        }
        if Concat(x) == u + [b] == Concat(y) {
          CutAlike(x, u, b);
          CutAlike(y, u, b);
        }
      }
    }
  }
}
