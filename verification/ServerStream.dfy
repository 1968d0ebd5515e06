/**
 Whole streams on the server: what repeated `Unpack` calls make of everything a connection
 receives, by however many workers, and exactly when that is what was sent.
 */
module ServerStream {
  import opened Framing
  import opened ServerWire

  /** The frames that successive `Unpack` calls yield until one of them reports the end. */
  function Collect(s: Script): (frames: seq<Bytes>)
    decreases Weight(s)
  {
    var u := UnpackSpec(s);
    if u.ret == 0 then []
    else if u.ret < 0 then Collect(u.left)
    else [u.data] + Collect(u.left)
  }

  lemma CollectOnce(s: Script)
    ensures var u := UnpackSpec(s);
            Collect(s) == if u.ret == 0 then [] else (if u.ret < 0 then [] else [u.data]) + Collect(u.left)
  {
  }

  /** `pre` ends one, two or three bytes into a header. */
  predicate MidHeader(pre: Bytes) {
    0 < |Parse(pre).rest| < HEAD
  }

  /** Every EAGAIN of the script falls outside a header, and every other error falls between
      two frames; `pre` is what came before.  This speaks of the parser only. */
  predicate Lossless(pre: Bytes, s: Script)
    decreases |s|
  {
    if s == [] then true
    else
      match s[0]
      case Chunk(d) => Lossless(pre + d, s[1..])
      case Again => !MidHeader(pre) && Lossless(pre, s[1..])
      case Fault => Parse(pre).rest == [] && Lossless(pre, s[1..])
      case Reset => true
  }

  // ---------------------------------------------------------------- one call at a time

  /** Only the unfinished frame matters for what is still to come. */
  lemma {:induction false} LosslessFromRest(pre: Bytes, s: Script)
    ensures Lossless(pre, s) == Lossless(Parse(pre).rest, s)
    decreases |s|
  {
    hide HasFrame;
    var rest := Parse(pre).rest;
    ParseRest(pre);
    if s != [] {
      if s[0].Chunk? {
        var d := s[0].data;
        ParseResumes(pre, d);
        LosslessFromRest(pre + d, s[1..]);
        LosslessFromRest(rest + d, s[1..]);
      } else {
        LosslessFromRest(pre, s[1..]);
      }
    }
  }

  lemma {:induction false} ReadCallEffect(s: Script, k: nat, pre: Bytes)
    requires 0 < k
    ensures match ReadCall(s, k) {
              case Got(d, left) => Arriving(s) == d + Arriving(left) && Lossless(pre, s) == Lossless(pre + d, left)
              case EndOfFile(left) => Arriving(s) == [] && Lossless(pre, s)
              case Severed(left) => Arriving(s) == [] && Lossless(pre, s)
              case WouldBlock(left) =>
                Arriving(s) == Arriving(left) && Lossless(pre, s) == (!MidHeader(pre) && Lossless(pre, left))
              case Failed(left) =>
                Arriving(s) == Arriving(left) && Lossless(pre, s) == (Parse(pre).rest == [] && Lossless(pre, left))
            }
    decreases |s|
  {
    hide Parse, MidHeader;
    if s != [] && s[0].Chunk? {
      var d := s[0].data;
      if d == [] {
        assert pre + d == pre;
        ReadCallEffect(s[1..], k, pre);
      } else if k < |d| {
        var left := [Chunk(d[k..])] + s[1..];
        assert left[1..] == s[1..];
        assert d[..k] + d[k..] == d;
        assert pre + d[..k] + d[k..] == pre + d;
      }
    }
  }

  lemma ShortHasNoFrame(pre: Bytes)
    requires |pre| < HEAD
    ensures Parse(pre) == Parsed([], pre)
    ensures MidHeader(pre) <==> pre != []
  {
  }

  /** The header loop: either it delivers the next four bytes, or the stream ends before them,
      or it gives up and loses what it had read of them. */
  lemma {:induction false} TakeHeadEffect(s: Script, head: Bytes) returns (lost: Bytes)
    requires |head| <= HEAD
    ensures match TakeHead(s, head) {
              case Head(h, left) => head + Arriving(s) == h + Arriving(left) && Lossless(head, s) == Lossless(h, left)
              case Stop(ret, left) =>
                if ret == 0 then |head + Arriving(s)| < HEAD && Lossless(head, s)
                else
                  && ret == -1
                  && head + Arriving(s) == lost + Arriving(left)
                  && (Lossless(head, s) <==> lost == [] && Lossless([], left))
            }
    decreases Weight(s)
  {
    hide Parse, MidHeader, ReadCall, Arriving, Lossless, Weight;
    lost := head;
    if |head| < HEAD {
      ReadCallEffect(s, HEAD - |head|, head);
      ShortHasNoFrame(head);
      match ReadCall(s, HEAD - |head|) {
        case Got(d, left) =>
          ReadDecreases(s, HEAD - |head|);
          lost := TakeHeadEffect(left, head + d);
          assert head + Arriving(s) == head + d + Arriving(left);
        case _ =>
      }
    }
  }

  lemma ReadDecreases(s: Script, k: nat)
    requires 0 < k
    ensures ReadCall(s, k).Got? ==> 0 < |ReadCall(s, k).data| <= k
    ensures !ReadCall(s, k).EndOfFile? ==> Weight(ReadCall(s, k).left) < Weight(s)
  {
  }

  /** Inside a body the parser waits too. */
  lemma InsideBody(h: Bytes, body: Bytes)
    requires |h| == HEAD && |body| < Length(h)
    ensures Parse(h + body) == Parsed([], h + body) && !MidHeader(h + body)
  {
    LengthOfPrefix(h, body);
  }

  lemma WholeFrame(h: Bytes, data: Bytes, tail: Bytes)
    requires |h| == HEAD && 0 < |data| == Length(h)
    ensures HasFrame(h + data + tail) && Payload(h + data + tail) == data && Beyond(h + data + tail) == tail
    ensures Parse(h + data).rest == []
  {
    hide HasFrame, Payload, Beyond, Length, Parse;
    HeaderOfLength(h);
    assert h[..HEAD] == h;
    assert h + data == Encode(data);
    FrameOfEncode(data, tail);
    ParseEncode(data, []);
    assert Encode(data) + [] == Encode(data);
    ParseOfNothing();
  }

  lemma ParseOfNothing()
    ensures Parse([]) == Parsed([], [])
  {
  }

  lemma {:induction false} TakeBodyEffect(h: Bytes, s: Script, body: Bytes)
    requires |h| == HEAD && 0 < Length(h) && |body| <= Length(h)
    ensures var u := TakeBody(s, Length(h), body);
            if u.ret > 0 then
              && body + Arriving(s) == u.data + Arriving(u.left)
              && Lossless(h + body, s) == Lossless(h + u.data, u.left)
            else if u.ret == 0 then |body + Arriving(s)| < Length(h) && Lossless(h + body, s)
            else u.ret == -1 && |Arriving(u.left)| <= |body + Arriving(s)| && !Lossless(h + body, s)
    decreases Weight(s)
  {
    hide Parse, MidHeader, ReadCall, Arriving, Lossless, Weight, Length;
    var want := Length(h);
    if |body| < want {
      var pre := h + body;
      ReadCallEffect(s, want - |body|, pre);
      ReadDecreases(s, want - |body|);
      InsideBody(h, body);
      match ReadCall(s, want - |body|) {
        case Got(d, left) =>
          TakeBodyEffect(h, left, body + d);
          assert body + Arriving(s) == body + d + Arriving(left);
          assert pre + d == h + (body + d);
        case WouldBlock(left) =>
          TakeBodyEffect(h, left, body);
        case _ =>
      }
    }
  }

  /** One `Unpack` call against the parser, with the three ways it can lose bytes. */
  lemma UnpackEffect(s: Script)
    ensures var u, a := UnpackSpec(s), Arriving(s);
            var b := Arriving(u.left);
            if u.ret > 0 then
              && HasFrame(a) && u.data == Payload(a) && b == Beyond(a)
              && Lossless([], s) == Lossless([], u.left)
            else if u.ret == 0 then
              || (!HasFrame(a) && Lossless([], s))
              || (|a| >= HEAD && Length(a) == 0)
            else
              || (|a| >= HEAD && Length(a) < 0 && |b| < |a|)
              || (a == b && Lossless([], s) == Lossless([], u.left))
              || (|b| < |a| && !Lossless([], s))
  {
    hide Parse, MidHeader, ReadCall, Arriving, Lossless, Weight, HasFrame, Payload, Beyond, Length, TakeHead,
      TakeBody;
    var a := Arriving(s);
    var lost := TakeHeadEffect(s, []);
    assert [] + a == a;
    match TakeHead(s, []) {
      case Stop(ret, left) =>
        if ret == 0 {
          TooShort(a);
        } else if lost == [] {
          assert [] + Arriving(left) == Arriving(left);
        }
      case Head(h, left) =>
        assert a == h + Arriving(left);
        LengthOfPrefix(h, Arriving(left));
        if Length(h) == 0 {
          TakeBodyOfNothing(left);
        }
        if Length(h) > 0 {
          TakeBodyEffect(h, left, []);
          var u := TakeBody(left, Length(h), []);
          assert [] + Arriving(left) == Arriving(left) && h + [] == h;
          if u.ret > 0 {
            TakeBodyLength(left, Length(h));
            assert a == h + u.data + Arriving(u.left);
            WholeFrame(h, u.data, Arriving(u.left));
            LosslessFromRest(h + u.data, u.left);
          } else if u.ret == 0 {
            TooShort(a);
          }
        }
    }
  }

  lemma TakeBodyOfNothing(s: Script)
    ensures TakeBody(s, 0, []) == Unpacked(0, [], s)
  {
  }

  lemma TakeBodyLength(s: Script, want: nat)
    ensures TakeBody(s, want, []).ret > 0 ==> |TakeBody(s, want, []).data| == want
  {
  }

  lemma TooShort(a: Bytes)
    ensures |a| < HEAD || |a| - HEAD < Length(a) ==> !HasFrame(a)
  {
  }

  // ---------------------------------------------------------------- whole streams

  /** The server's decoder is the parser, for every fragmentation, as long as no EAGAIN hits a
      header and no other error hits a frame. */
  lemma {:induction false} ServerRefinesParser(s: Script)
    requires !Stuck(Arriving(s)) && Lossless([], s)
    ensures Collect(s) == Parse(Arriving(s)).frames
    decreases Weight(s)
  {
    hide Lossless, Arriving, Weight, UnpackSpec, HasFrame, Payload, Beyond, Length;
    var u, a := UnpackSpec(s), Arriving(s);
    UnpackEffect(s);
    UnpackDecreases(s);
    StuckAtOnce(a);
    if u.ret > 0 {
      StuckBeyond(a);
      ServerRefinesParser(u.left);
    } else if u.ret < 0 {
      ServerRefinesParser(u.left);
    }
  }

  lemma UnpackDecreases(s: Script)
    ensures UnpackSpec(s).ret != 0 ==> Weight(UnpackSpec(s).left) < Weight(s)
    ensures UnpackSpec(s).ret > 0 ==> UnpackSpec(s).ret == |UnpackSpec(s).data|
  {
  }

  lemma StuckAtOnce(a: Bytes)
    ensures |a| >= HEAD && Length(a) <= 0 ==> Stuck(a)
  {
  }

  lemma StuckBeyond(a: Bytes)
    requires HasFrame(a)
    ensures Stuck(Beyond(a)) == Stuck(a)
  {
  }

  /** How many bytes a list of frames takes on the wire. */
  function Wire(ps: seq<Bytes>): nat {
    if ps == [] then 0 else HEAD + |ps[0]| + Wire(ps[1..])
  }

  lemma {:induction false} WireOfEncoding(ps: seq<Bytes>)
    requires AllFit(ps)
    ensures |EncodeAll(ps)| == Wire(ps)
  {
    if ps != [] {
      WireOfEncoding(ps[1..]);
    }
  }

  /** Conservation: frames come out of bytes, and a script that is not lossless wastes some. */
  lemma {:induction false} BytesAreConserved(s: Script)
    ensures Wire(Collect(s)) <= |Arriving(s)|
    ensures !Lossless([], s) ==> Wire(Collect(s)) < |Arriving(s)|
    decreases Weight(s)
  {
    hide Lossless, Arriving, Weight, UnpackSpec, HasFrame, Payload, Length;
    var u, a := UnpackSpec(s), Arriving(s);
    UnpackEffect(s);
    UnpackDecreases(s);
    if u.ret > 0 {
      BytesAreConserved(u.left);
      EncodeOfFrame(a);
      assert ([u.data] + Collect(u.left))[1..] == Collect(u.left);
    } else if u.ret < 0 {
      BytesAreConserved(u.left);
    } else if !Lossless([], s) {
      assert |a| >= HEAD;
    }
  }

  /** The server hands on exactly what was sent if and only if the script is lossless: an
      EAGAIN inside a header costs frames, whatever the frames are. */
  lemma ServerDecodesExactly(s: Script, ps: seq<Bytes>)
    requires AllFit(ps) && NoneEmpty(ps)
    requires Arriving(s) == EncodeAll(ps)
    ensures Collect(s) == ps <==> Lossless([], s)
  {
    ParseEncodeAll(ps, []);
    assert EncodeAll(ps) + [] == EncodeAll(ps) && ps + [] == ps;
    assert Parse([]) == Parsed([], []);
    if Lossless([], s) {
      ServerRefinesParser(s);
    } else {
      BytesAreConserved(s);
      WireOfEncoding(ps);
    }
  }

  /** A one-byte frame whose header arrives in two halves with an EAGAIN between them is lost. */
  lemma SplitHeaderIsLost()
    ensures var s := [Chunk([0, 0]), Again, Chunk([0, 1, 65])];
            Arriving(s) == EncodeAll([[65]]) && !Lossless([], s) && Collect(s) != [[65]]
  {
    var front: Bytes, back: Bytes, p: Bytes := [0, 0], [0, 1, 65], [65];
    var s := [Chunk(front), Again, Chunk(back)];
    LengthExample();
    assert s[1..] == [Again, Chunk(back)] && s[1..][1..] == [Chunk(back)];
    assert Arriving([Chunk(back)]) == back + Arriving([]);
    assert Arriving(s) == front + back;
    assert front + back == Encode(p);
    ShortHasNoFrame(front);
    assert [] + front == front;
    assert !Lossless(front, s[1..]);
    EncodeAllNil();
    EncodeAllCons(p, []);
    assert [p] + [] == [p];
    ServerDecodesExactly(s, [p]);
  }

  lemma LengthExample()
    ensures Encode([65]) == [0, 0, 0, 1, 65]
  {
    assert Digits(0, 0) == [] && Digits(0, 1) == [0] && Digits(0, 2) == [0, 0] && Digits(0, 3) == [0, 0, 0];
    assert Digits(1, 4) == Digits(0, 3) + [1];
  }

  /** On a stream of frames `Unpack` reports the end only when no frame is left. */
  lemma ZeroMeansNoMoreFrames(s: Script)
    requires !Stuck(Arriving(s)) && UnpackSpec(s).ret == 0
    ensures Parse(Arriving(s)).frames == []
  {
    UnpackEffect(s);
    StuckAtOnce(Arriving(s));
  }

  // ---------------------------------------------------------------- several workers on one descriptor

  type Worker = nat

  /** Who got what, in the order in which the calls took the mutex. */
  datatype Take = Take(who: Worker, frame: Bytes)

  /** Each `Unpack` call holds the mutex for its whole frame, so a run of any workers on one
      descriptor is the sequence of their calls: `turns[i]` makes the i-th one. */
  function Workers(s: Script, turns: seq<Worker>): (log: seq<Take>)
    decreases |turns|
  {
    if turns == [] then []
    else
      var u := UnpackSpec(s);
      if u.ret == 0 then []
      else if u.ret < 0 then Workers(u.left, turns[1..])
      else [Take(turns[0], u.data)] + Workers(u.left, turns[1..])
  }

  function Frames(log: seq<Take>): seq<Bytes> {
    if log == [] then [] else [log[0].frame] + Frames(log[1..])
  }

  /** What one worker hands to its handler, in its own order. */
  function Share(log: seq<Take>, w: Worker): seq<Bytes> {
    if log == [] then []
    else (if log[0].who == w then [log[0].frame] else []) + Share(log[1..], w)
  }

  /** Enough calls for every event of the script to be met. */
  ghost predicate Enough(s: Script, turns: seq<Worker>) {
    |turns| > Weight(s)
  }

  lemma {:induction false} WorkersCollect(s: Script, turns: seq<Worker>)
    ensures Frames(Workers(s, turns)) <= Collect(s)
    ensures Enough(s, turns) ==> Frames(Workers(s, turns)) == Collect(s)
    decreases |turns|
  {
    hide Weight, UnpackSpec;
    if turns != [] {
      var u := UnpackSpec(s);
      UnpackDecreases(s);
      if u.ret > 0 {
        WorkersCollect(u.left, turns[1..]);
        assert Workers(s, turns)[1..] == Workers(u.left, turns[1..]);
      } else if u.ret < 0 {
        WorkersCollect(u.left, turns[1..]);
      }
    }
  }

  /** Each frame goes to one worker only: adding up the shares of the workers that took turns
      gives every frame back, once. */
  ghost function AllShares(log: seq<Take>, n: Worker): multiset<Bytes> {
    if n == 0 then multiset{} else AllShares(log, n - 1) + multiset(Share(log, n - 1))
  }

  lemma {:induction false} SharesOfOne(t: Take, log: seq<Take>, n: Worker)
    ensures AllShares([t] + log, n) == AllShares(log, n) + (if t.who < n then multiset{t.frame} else multiset{})
  {
    hide Share;
    if n > 0 {
      SharesOfOne(t, log, n - 1);
      ShareOfOne(t, log, n - 1);
    }
  }

  lemma ShareOfOne(t: Take, log: seq<Take>, w: Worker)
    ensures multiset(Share([t] + log, w))
         == multiset(Share(log, w)) + (if t.who == w then multiset{t.frame} else multiset{})
  {
    assert ([t] + log)[1..] == log;
    if t.who == w {
      assert multiset([t.frame] + Share(log, w)) == multiset{t.frame} + multiset(Share(log, w));
    } else {
      assert [] + Share(log, w) == Share(log, w);
    }
  }

  lemma {:induction false} EachFrameOnce(log: seq<Take>, n: Worker)
    requires forall t | t in log :: t.who < n
    ensures AllShares(log, n) == multiset(Frames(log))
  {
    if log == [] {
      NoShares(n);
    } else {
      assert log == [log[0]] + log[1..];
      EachFrameOnce(log[1..], n);
      SharesOfOne(log[0], log[1..], n);
      assert multiset([log[0].frame] + Frames(log[1..])) == multiset{log[0].frame} + multiset(Frames(log[1..]));
    }
  }

  lemma {:induction false} NoShares(n: Worker)
    ensures AllShares([], n) == multiset{}
  {
    if n > 0 {
      NoShares(n - 1);
    }
  }

  lemma {:induction false} WorkersTakeTurns(s: Script, turns: seq<Worker>, n: Worker)
    requires forall w | w in turns :: w < n
    ensures forall t | t in Workers(s, turns) :: t.who < n
    decreases |turns|
  {
    hide UnpackSpec;
    if turns != [] {
      assert turns[0] in turns;
      assert forall w | w in turns[1..] :: w in turns;
      WorkersTakeTurns(UnpackSpec(s).left, turns[1..], n);
    }
  }

  /** Any number of workers, in any interleaving, share out exactly the frames that were sent:
      in sending order over time, each to one worker. */
  lemma WorkersPartition(s: Script, turns: seq<Worker>, n: Worker, ps: seq<Bytes>)
    requires AllFit(ps) && NoneEmpty(ps)
    requires Arriving(s) == EncodeAll(ps) && Lossless([], s)
    requires Enough(s, turns) && forall w | w in turns :: w < n
    ensures Frames(Workers(s, turns)) == ps
    ensures AllShares(Workers(s, turns), n) == multiset(ps)
  {
    ServerDecodesExactly(s, ps);
    WorkersCollect(s, turns);
    WorkersTakeTurns(s, turns, n);
    EachFrameOnce(Workers(s, turns), n);
  }
}
