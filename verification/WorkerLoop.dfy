/**
 How long a worker stays: it takes frames until a call of `Unpack` yields none.  What that means is
 said of the stream here, apart from the loop.
 */
module WorkerLoop {
  import opened Framing
  import opened ServerWire
  import opened ServerStream

  /** What one worker takes, the result of the call that ends its loop, and what it leaves. */
  datatype Drained = Drained(frames: seq<Bytes>, ret: int, left: Script)

  function Drain(s: Script): (d: Drained)
    ensures d.ret <= 0
    decreases Weight(s)
  {
    var u := UnpackSpec(s);
    if u.ret > 0 then
      var d := Drain(u.left);
      Drained([u.data] + d.frames, d.ret, d.left)
    else Drained([], u.ret, u.left)
  }

  lemma DrainOnce(s: Script)
    ensures var u := UnpackSpec(s);
            var d := if u.ret > 0 then Drain(u.left) else Drained([], u.ret, u.left);
            Drain(s) == if u.ret > 0 then Drained([u.data] + d.frames, d.ret, d.left) else d
  {
  }

  /** What this worker takes and what later ones take is what the whole stream yields. */
  lemma {:induction false} CollectDrains(s: Script)
    ensures Collect(s) == Drain(s).frames + if Drain(s).ret == 0 then [] else Collect(Drain(s).left)
    decreases Weight(s)
  {
    hide UnpackSpec, Weight;
    UnpackDecreases(s);
    var u := UnpackSpec(s);
    if u.ret > 0 {
      CollectDrains(u.left);
      var d := Drain(u.left);
      var later := if d.ret == 0 then [] else Collect(d.left);
      assert [u.data] + (d.frames + later) == ([u.data] + d.frames) + later;
    }
  }

  /** After some frames have been taken, `now` is left of the script `all`. */
  ghost predicate Taken(all: Script, frames: seq<Bytes>, now: Script) {
    var d := Drain(now);
    Drain(all) == Drained(frames + d.frames, d.ret, d.left)
  }

  lemma TakenNothing(all: Script)
    ensures Taken(all, [], all)
  {
    hide Drain;
    assert [] + Drain(all).frames == Drain(all).frames;
  }

  lemma TakenOneMore(all: Script, frames: seq<Bytes>, now: Script)
    requires Taken(all, frames, now)
    ensures var u := UnpackSpec(now);
            if u.ret > 0 then Taken(all, frames + [u.data], u.left)
            else Drain(all) == Drained(frames, u.ret, u.left)
  {
    hide UnpackSpec, Drain;
    DrainOnce(now);
    var u := UnpackSpec(now);
    if u.ret > 0 {
      var rest := Drain(u.left).frames;
      assert frames + ([u.data] + rest) == (frames + [u.data]) + rest;
    } else {
      assert frames + [] == frames;
    }
  }

  lemma TakenCollects(all: Script, frames: seq<Bytes>, now: Script)
    requires Taken(all, frames, now)
    ensures frames + Collect(now) == Collect(all)
  {
    hide Drain, Collect;
    CollectDrains(all);
    CollectDrains(now);
    var d := Drain(now);
    var later := if d.ret == 0 then [] else Collect(d.left);
    assert frames + (d.frames + later) == (frames + d.frames) + later;
  }

  // ---------------------------------------------------------------- streams without errors

  /** Data only, in whatever pieces. */
  predicate Chunks(s: Script) {
    forall e | e in s :: e.Chunk?
  }

  lemma {:induction false} ChunksRead(s: Script, k: nat, tail: Script)
    requires Chunks(s) && 0 < k
    ensures var r := ReadCall(s, k);
            && (r.Got? || r.EndOfFile?)
            && Chunks(r.left)
            && (r.Got? ==> ReadCall(s + tail, k) == Got(r.data, r.left + tail))
            && (r.EndOfFile? ==> Arriving(s) == [])
            && (r.EndOfFile? && tail != [] && tail[0].Again? ==> ReadCall(s + tail, k) == WouldBlock(tail[1..]))
  {
    if s == [] {
      assert s + tail == tail;
    } else {
      assert s[0] in s;
      assert forall e | e in s[1..] :: e in s;
      assert (s + tail)[0] == s[0] && (s + tail)[1..] == s[1..] + tail;
      var d := s[0].data;
      if d == [] {
        ChunksRead(s[1..], k, tail);
      } else if |d| > k {
        assert [Chunk(d[k..])] + (s[1..] + tail) == ([Chunk(d[k..])] + s[1..]) + tail;
      }
    }
  }

  lemma {:induction false} ChunksHead(s: Script, head: Bytes, tail: Script)
    requires Chunks(s) && |head| <= HEAD
    ensures var r := TakeHead(s, head);
            && (r.Stop? ==> r.ret == 0)
            && (r.Head? ==> Chunks(r.left) && TakeHead(s + tail, head) == Head(r.bytes, r.left + tail))
    decreases Weight(s)
  {
    hide ReadCall, Weight, Chunks;
    if |head| < HEAD {
      ChunksRead(s, HEAD - |head|, tail);
      ReadDecreases(s, HEAD - |head|);
      var r := ReadCall(s, HEAD - |head|);
      if r.Got? {
        ChunksHead(r.left, head + r.data, tail);
      }
    }
  }

  lemma {:induction false} ChunksBody(s: Script, want: nat, body: Bytes, tail: Script)
    requires Chunks(s) && |body| <= want && 0 < want
    ensures var r := TakeBody(s, want, body);
            && r.ret >= 0
            && (r.ret > 0 ==>
                  Chunks(r.left) && TakeBody(s + tail, want, body) == Unpacked(r.ret, r.data, r.left + tail))
    decreases Weight(s)
  {
    hide ReadCall, Weight, Chunks;
    if |body| < want {
      ChunksRead(s, want - |body|, tail);
      ReadDecreases(s, want - |body|);
      var r := ReadCall(s, want - |body|);
      if r.Got? {
        ChunksBody(r.left, want, body + r.data, tail);
      }
    }
  }

  /** A frame that the chunks hold is taken from them, whatever comes behind; and no call fails but
      for a negative length. */
  lemma ChunksUnpack(s: Script, tail: Script)
    requires Chunks(s)
    ensures var u := UnpackSpec(s);
            && (u.ret > 0 ==> Chunks(u.left) && UnpackSpec(s + tail) == Unpacked(u.ret, u.data, u.left + tail))
            && (u.ret < 0 ==> Stuck(Arriving(s)))
  {
    hide TakeHead, TakeBody, Weight, Chunks, Stuck, Arriving, Length;
    ChunksHead(s, [], tail);
    match TakeHead(s, []) {
      case Stop(_, _) =>
      case Head(h, left) =>
        if Length(h) > 0 {
          ChunksBody(left, Length(h), [], tail);
        } else if Length(h) == 0 {
          TakeBodyOfNothing(left);
        } else {
          var lost := TakeHeadEffect(s, []);
          assert [] + Arriving(s) == Arriving(s);
          LengthOfPrefix(h, Arriving(left));
          StuckAtOnce(Arriving(s));
        }
    }
  }

  /** Chunks lose nothing. */
  lemma {:induction false} ChunksAreLossless(s: Script, pre: Bytes)
    requires Chunks(s)
    ensures Lossless(pre, s)
    decreases |s|
  {
    if s != [] {
      assert s[0] in s;
      assert forall e | e in s[1..] :: e in s;
      ChunksAreLossless(s[1..], pre + s[0].data);
    }
  }

  /** A stream of data up to its end: the worker takes every frame in it, and finds the end. */
  lemma {:induction false} DrainsToTheEnd(s: Script)
    requires Chunks(s) && !Stuck(Arriving(s))
    ensures Drain(s).ret == 0 && Drain(s).frames == Parse(Arriving(s)).frames
    decreases Weight(s)
  {
    hide Chunks, Stuck, UnpackSpec, Weight, HasFrame, Lossless, Arriving;
    var u, a := UnpackSpec(s), Arriving(s);
    ChunksAreLossless(s, []);
    ChunksUnpack(s, []);
    UnpackEffect(s);
    UnpackDecreases(s);
    StuckAtOnce(a);
    if u.ret > 0 {
      StuckBeyond(a);
      DrainsToTheEnd(u.left);
    }
  }

  /** Data that ends with a whole frame, and then nothing for now: the worker takes every frame in
      it and leaves exactly what comes later. */
  lemma {:induction false} DrainsToAgain(s: Script, later: Script)
    requires Chunks(s) && Parse(Arriving(s)).rest == []
    ensures Drain(s + [Again] + later) == Drained(Parse(Arriving(s)).frames, -1, later)
    decreases Weight(s)
  {
    hide Chunks, UnpackSpec, Weight, HasFrame, Lossless, Arriving, Payload, Beyond;
    var u, a, tail := UnpackSpec(s), Arriving(s), [Again] + later;
    assert s + [Again] + later == s + tail;
    ChunksAreLossless(s, []);
    ChunksUnpack(s, tail);
    UnpackEffect(s);
    UnpackDecreases(s);
    DrainOnce(s + tail);
    if u.ret > 0 {
      DrainsToAgain(u.left, later);
      assert u.left + [Again] + later == u.left + tail;
    } else {
      NothingParsed(a);
      NothingThenAgain(s, later);
    }
  }

  lemma NothingParsed(a: Bytes)
    requires Parse(a).rest == []
    ensures a == [] || (|a| >= HEAD && Length(a) > 0 && HasFrame(a))
  {
  }

  lemma NothingThenAgain(s: Script, later: Script)
    requires Chunks(s) && Arriving(s) == []
    ensures UnpackSpec(s + ([Again] + later)) == Unpacked(-1, [], later)
  {
    hide Chunks;
    var tail := [Again] + later;
    assert tail[1..] == later;
    ChunksRead(s, HEAD, tail);
    ReadCallEffect(s, HEAD, []);
  }
}
