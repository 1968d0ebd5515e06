/**
 The client's side of the wire: `send`, and the resumable decoder `on_readyRead`, which
 keeps an unfinished frame in `dataLen` and `buffer` from one event to the next and hands on
 at most one frame per event.
 */
module ClientWire {
  import opened Framing

  /** The decoder, the socket's own read buffer, and what was handed to `HandleReply`. */
  datatype Decoder = Decoder(dataLen: Int32, buffer: Bytes, avail: Bytes, delivered: seq<Bytes>)

  /** One run of `on_readyRead`. */
  function ReadyRead(c: Decoder): Decoder {
    if c.avail == [] then c
    else if c.dataLen == 0 then
      if |c.avail| <= HEAD then c
      else Receive(c.(dataLen := Length(c.avail), buffer := [], avail := c.avail[HEAD..]))
    else Receive(c)
  }

  /** How much of `avail` the frame in progress can take. */
  function Missing(dataLen: int, have: Bytes, avail: Bytes): (n: nat)
    ensures n <= |avail|
  {
    var m := Min(dataLen - |have|, |avail|);
    if m < 0 then 0 else m
  }

  /** Append what is missing, as far as it is there, and hand the frame on once it is whole. */
  function Receive(c: Decoder): Decoder {
    var n := Missing(c.dataLen, c.buffer, c.avail);
    var json := c.buffer + c.avail[..n];
    if |json| == c.dataLen
    then Decoder(0, [], c.avail[n..], c.delivered + [json])
    else c.(buffer := json, avail := c.avail[n..])
  }

  // ---------------------------------------------------------------- the imperative code

  class Client {
    var dataLen: Int32
    var buffer: Bytes
    var avail: Bytes            // tcpSocket->bytesAvailable() bytes wait here
    var delivered: seq<Bytes>   // the calls of HandleReply
    var wire: Bytes             // everything written to the socket
    var connected: bool

    ghost function State(): Decoder
      reads this
    {
      Decoder(dataLen, buffer, avail, delivered)
    }

    constructor ()
      ensures State() == Decoder(0, [], [], []) && wire == [] && !connected
    {
      dataLen, buffer, avail, delivered, wire, connected := 0, [], [], [], [], false;
    }

    /** tcpSocket->read(k): some of what is there, never nothing. */
    method Read(k: nat) returns (data: Bytes)
      requires 0 < k && avail != []
      modifies this`avail
      ensures 0 < |data| <= k && old(avail) == data + avail
    {
      var n: nat :| 0 < n <= k && n <= |avail|;
      data := avail[..n];
      avail := avail[n..];
    }

    /** Either of the two loops of the slot: append to `got` what the frame still misses, as far
        as the socket has it. */
    method Fill(before: Bytes) returns (got: Bytes)
      modifies this`avail
      ensures var n := Missing(dataLen, before, old(avail));
              got == before + old(avail)[..n] && avail == old(avail)[n..]
    {
      got := before;
      var recvLen := |got|;
      ghost var n := 0;
      while recvLen < dataLen && avail != []
        invariant 0 <= n <= |old(avail)| && recvLen == |got| == |before| + n
        invariant got == before + old(avail)[..n] && avail == old(avail)[n..]
        invariant n == 0 || recvLen <= dataLen
        decreases |avail|
      {
        var data := Read(dataLen - recvLen);
        assert old(avail)[n..n + |data|] == data;
        got := got + data;
        recvLen := |got|;
        n := n + |data|;
      }
    }

    method OnReadyRead()
      modifies this`dataLen, this`buffer, this`avail, this`delivered
      ensures State() == ReadyRead(old(State()))
    {
      if avail == [] {
        return;
      }
      var json: Bytes := [];
      if dataLen == 0 {
        if HEAD >= |avail| {
          return;
        }
        // the socket's buffer holds the whole header, and gives it in one read
        dataLen := Length(avail);
        avail := avail[HEAD..];
        json := Fill([]);
      } else {
        json := Fill(buffer);
        buffer := json;
      }
      if |json| != dataLen {
        buffer := json;
        return;
      }
      delivered := delivered + [json];
      dataLen := 0;
      buffer := [];
    }

    /** Put the text and its NUL in a frame; an empty text is not sent. */
    method Send(json: Bytes)
      requires |json| < MAX_PAYLOAD
      modifies this`wire
      ensures wire == if connected && json != [] then old(wire) + Encode(WithNul(json)) else old(wire)
      ensures connected && json != [] ==> wire == old(wire) + Header(|json| + 1) + json + [0]
    {
      if !connected {
        return;
      }
      var n := |json|;
      if n <= 0 {
        return;
      }
      var packJson := Header(n + 1);
      packJson := packJson + json;
      packJson := packJson + [0];
      assert packJson == Header(n + 1) + (json + [0]);
      assert wire + packJson == wire + Header(n + 1) + json + [0];
      wire := wire + packJson;
    }
  }

  // ---------------------------------------------------------------- what every event keeps

  /** The bytes of the frame in progress. */
  function Partial(c: Decoder): Bytes {
    if c.dataLen == 0 then [] else Header(c.dataLen) + c.buffer
  }

  /** `stream` is everything that arrived on this connection: the frames handed on, the frame
      in progress and what was not read yet make it up, without a gap or an overlap. */
  ghost predicate Inv(c: Decoder, stream: Bytes) {
    && AllFit(c.delivered)
    && (c.dataLen <= 0 ==> c.buffer == [])
    && (0 < c.dataLen ==> |c.buffer| < c.dataLen)
    && stream == EncodeAll(c.delivered) + (Partial(c) + c.avail)
  }

  lemma ReceiveKeeps(c: Decoder, stream: Bytes)
    requires AllFit(c.delivered)
    requires c.dataLen <= 0 ==> c.buffer == []
    requires 0 < c.dataLen ==> |c.buffer| < c.dataLen
    requires stream == EncodeAll(c.delivered) + (Header(c.dataLen) + c.buffer + c.avail)
    ensures Inv(Receive(c), stream)
  {
    hide Header, Length, AllFit;
    var n := Missing(c.dataLen, c.buffer, c.avail);
    var head, json, left := Header(c.dataLen), c.buffer + c.avail[..n], c.avail[n..];
    assert c.buffer + c.avail == json + left;
    assert head + c.buffer + c.avail == head + (c.buffer + c.avail);
    if |json| == c.dataLen {
      OneMore(c.delivered, json, left);
      assert head + (json + left) == Encode(json) + left;
    } else {
      assert head + (json + left) == head + json + left;
    }
  }

  lemma OneMore(ps: seq<Bytes>, p: Bytes, left: Bytes)
    requires AllFit(ps) && |p| < 0x8000_0000
    ensures AllFit(ps + [p])
    ensures EncodeAll(ps) + (Encode(p) + left) == EncodeAll(ps + [p]) + ([] + left)
  {
    hide Encode;
    EncodeAllNil();
    EncodeAllCons(p, []);
    assert [p] + [] == [p];
    EncodeAllAppend(ps, [p]);
    assert EncodeAll(ps) + (Encode(p) + left) == EncodeAll(ps) + Encode(p) + left;
  }

  lemma ReadyReadKeeps(c: Decoder, stream: Bytes)
    requires Inv(c, stream)
    ensures Inv(ReadyRead(c), stream)
  {
    hide Header, Length, Receive;
    if c.avail == [] || (c.dataLen == 0 && |c.avail| <= HEAD) {
    } else if c.dataLen == 0 {
      HeaderOfLength(c.avail);
      var d := c.(dataLen := Length(c.avail), buffer := [], avail := c.avail[HEAD..]);
      assert c.avail == Header(d.dataLen) + [] + d.avail;
      assert [] + c.avail == c.avail;
      ReceiveKeeps(d, stream);
    } else {
      ReceiveKeeps(c, stream);
    }
  }

  /** What can happen to a connected client: bytes come in, or the slot runs. */
  datatype Event = Arrive(data: Bytes) | Ready

  function Step(c: Decoder, e: Event): Decoder {
    match e
    case Arrive(d) => c.(avail := c.avail + d)
    case Ready => ReadyRead(c)
  }

  function Run(c: Decoder, events: seq<Event>): Decoder
    decreases |events|
  {
    if events == [] then c else Run(Step(c, events[0]), events[1..])
  }

  function Arrived(events: seq<Event>): Bytes {
    if events == [] then []
    else (if events[0].Arrive? then events[0].data else []) + Arrived(events[1..])
  }

  lemma {:induction false} RunKeeps(c: Decoder, events: seq<Event>, stream: Bytes)
    requires Inv(c, stream)
    ensures Inv(Run(c, events), stream + Arrived(events))
    decreases |events|
  {
    hide ReadyRead, Inv;
    if events == [] {
      assert stream + [] == stream;
    } else {
      var d, rest := Step(c, events[0]), Arrived(events[1..]);
      if events[0].Ready? {
        ReadyReadKeeps(c, stream);
        RunKeeps(d, events[1..], stream);
        assert [] + rest == rest;
      } else {
        var data := events[0].data;
        ArriveKeeps(c, stream, data);
        RunKeeps(d, events[1..], stream + data);
        assert (stream + data) + rest == stream + (data + rest);
      }
    }
  }

  lemma ArriveKeeps(c: Decoder, stream: Bytes, data: Bytes)
    requires Inv(c, stream)
    ensures Inv(c.(avail := c.avail + data), stream + data)
  {
    hide Header;
    assert Partial(c.(avail := c.avail + data)) == Partial(c);
    assert EncodeAll(c.delivered) + (Partial(c) + c.avail) + data
        == EncodeAll(c.delivered) + (Partial(c) + (c.avail + data));
  }

  function Fresh(): Decoder {
    Decoder(0, [], [], [])
  }

  lemma FreshInv()
    ensures Inv(Fresh(), [])
  {
    EncodeAllNil();
  }

  /** The frame in progress is not a frame yet. */
  lemma PartialHasNoFrame(c: Decoder, stream: Bytes)
    requires Inv(c, stream)
    ensures !HasFrame(Partial(c))
  {
    if c.dataLen != 0 {
      LengthOfHeader(c.dataLen, c.buffer);
    }
  }

  /** For every fragmentation of what the server sent and every timing of the events, the
      client hands on a prefix of the frames of what has arrived, in order, and never mixes
      two of them.  The parser does the rest from where the decoder stands. */
  lemma ClientRefinesParser(events: seq<Event>)
    requires !Stuck(Arrived(events))
    ensures var c, p := Run(Fresh(), events), Parse(Arrived(events));
            && c.delivered <= p.frames
            && p.frames == c.delivered + Parse(Pending(c)).frames
            && p.rest == Parse(Pending(c)).rest
  {
    var c := Run(Fresh(), events);
    FreshInv();
    RunKeeps(Fresh(), events, []);
    assert [] + Arrived(events) == Arrived(events);
    SplitAgreesWithParse(c.delivered, Partial(c) + c.avail);
  }

  // ---------------------------------------------------------------- progress

  /** What the decoder has not handed on yet. */
  function Pending(c: Decoder): Bytes {
    Partial(c) + c.avail
  }

  /** One event hands on the next frame if and only if all of it is there. */
  lemma OneEvent(c: Decoder, stream: Bytes)
    requires Inv(c, stream)
    requires !Stuck(Pending(c))
    ensures var d, q := ReadyRead(c), Pending(c);
            if HasFrame(q)
            then d.delivered == c.delivered + [Payload(q)] && Pending(d) == Beyond(q)
            else d.delivered == c.delivered && Pending(d) == q
  {
    hide Header, Length, HasFrame, Payload, Beyond, Stuck;
    var d, q := ReadyRead(c), Pending(c);
    ReadyReadKeeps(c, stream);
    if d.delivered == c.delivered {
      assert EncodeAll(c.delivered) + Pending(d) == EncodeAll(c.delivered) + q;
      SameTail(EncodeAll(c.delivered), Pending(d), q);
      if d.avail == [] {
        PartialHasNoFrame(d, stream);
        assert Pending(d) == Partial(d);
      } else if c.dataLen == 0 && |c.avail| <= HEAD {
        assert q == c.avail;
        NoFrameInFour(q);
      } else {
        assert d.dataLen < 0;
        assert q == Header(d.dataLen) + d.avail;
        LengthOfHeader(d.dataLen, d.avail);
        NegativeHeader(q);
      }
    } else {
      var j := d.delivered[|c.delivered|];
      assert d.delivered == c.delivered + [j];
      DeliveredNext(c.delivered, j, Pending(d), q);
    }
  }

  lemma SameTail(a: Bytes, b: Bytes, c: Bytes)
    requires a + b == a + c
    ensures b == c
  {
    assert (a + b)[|a|..] == b && (a + c)[|a|..] == c;
  }

  lemma NoFrameInFour(q: Bytes)
    ensures |q| <= HEAD ==> !HasFrame(q)
  {
  }

  lemma NegativeHeader(q: Bytes)
    ensures |q| >= HEAD && Length(q) < 0 ==> !HasFrame(q)
  {
  }

  lemma DeliveredNext(ps: seq<Bytes>, j: Bytes, left: Bytes, q: Bytes)
    requires AllFit(ps) && AllFit(ps + [j])
    requires EncodeAll(ps + [j]) + left == EncodeAll(ps) + q
    requires !Stuck(q)
    ensures HasFrame(q) && Payload(q) == j && Beyond(q) == left
  {
    hide HasFrame, Payload, Beyond, Stuck, Encode;
    assert j in ps + [j];
    OneMore(ps, j, left);
    assert [] + left == left;
    SameTail(EncodeAll(ps), Encode(j) + left, q);
    FirstNotEmpty(j, left);
    FrameOfEncode(j, left);
  }

  function Iterate(c: Decoder, k: nat): Decoder
    decreases k
  {
    if k == 0 then c else Iterate(ReadyRead(c), k - 1)
  }

  /** From any state, k events hand on the next k complete frames: the decoder needs exactly as
      many events as there are frames, however they arrived. */
  lemma {:induction false} Progress(c: Decoder, stream: Bytes, k: nat)
    requires Inv(c, stream)
    requires !Stuck(Pending(c))
    ensures var fs := Parse(Pending(c)).frames;
            Iterate(c, k).delivered == c.delivered + fs[..Min(k, |fs|)]
    ensures Inv(Iterate(c, k), stream)
    decreases k
  {
    hide HasFrame, Payload, Beyond, ReadyRead, Pending, Partial, Stuck, Inv, Parse;
    var q := Pending(c);
    NextFrame(q);
    var fs := Parse(q).frames;
    if k == 0 {
      assert c.delivered + fs[..0] == c.delivered;
    } else {
      OneEvent(c, stream);
      ReadyReadKeeps(c, stream);
      var d := ReadyRead(c);
      if HasFrame(q) {
        StillUnstuck(q);
        Progress(d, stream, k - 1);
        var gs := Parse(Beyond(q)).frames;
        var n := Min(k - 1, |gs|);
        assert fs[..n + 1] == [Payload(q)] + gs[..n];
        assert c.delivered + ([Payload(q)] + gs[..n]) == (c.delivered + [Payload(q)]) + gs[..n];
      } else {
        Progress(d, stream, k - 1);
      }
    }
  }

  lemma NextFrame(q: Bytes)
    ensures HasFrame(q) ==> Parse(q).frames == [Payload(q)] + Parse(Beyond(q)).frames
    ensures !HasFrame(q) ==> Parse(q).frames == []
  {
  }

  lemma StillUnstuck(q: Bytes)
    requires HasFrame(q)
    ensures Stuck(Beyond(q)) == Stuck(q)
  {
  }

  /** All frames that are there have been handed on exactly when there were enough events. */
  lemma AllDeliveredIff(c: Decoder, stream: Bytes, k: nat)
    requires Inv(c, stream)
    requires !Stuck(Pending(c))
    ensures Iterate(c, k).delivered == c.delivered + Parse(Pending(c)).frames <==> k >= |Parse(Pending(c)).frames|
  {
    Progress(c, stream, k);
    var fs := Parse(Pending(c)).frames;
    assert fs[..|fs|] == fs;
  }

  // ---------------------------------------------------------------- the next connection

  /** A new connection after a lost one: the slot that handles the disconnection resets neither
      `dataLen` nor `buffer`. */
  function Reconnected(c: Decoder): Decoder {
    c.(avail := [], delivered := [])
  }

  /** The next connection is decoded as it was sent, with nothing left over, exactly when the
      last one broke between two frames. */
  lemma NextConnection(c: Decoder, oldStream: Bytes, ps: seq<Bytes>)
    requires Inv(c, oldStream)
    requires ps != [] && AllFit(ps) && NoneEmpty(ps)
    ensures Iterate(Reconnected(c).(avail := EncodeAll(ps)), |ps|) == Decoder(0, [], [], ps) <==> c.dataLen == 0
  {
    hide Header, ReadyRead, Inv, Partial, Iterate, Encode, EncodeAll;
    if c.dataLen == 0 {
      AfterWholeFrame(c, oldStream, ps);
    } else {
      AfterPartOfFrame(c, oldStream, ps);
    }
  }

  lemma AfterWholeFrame(c: Decoder, oldStream: Bytes, ps: seq<Bytes>)
    requires Inv(c, oldStream) && c.dataLen == 0
    requires AllFit(ps) && NoneEmpty(ps)
    ensures Iterate(Reconnected(c).(avail := EncodeAll(ps)), |ps|) == Decoder(0, [], [], ps)
  {
    hide Header, ReadyRead, Iterate, Encode;
    var start := Reconnected(c).(avail := EncodeAll(ps));
    EncodeAllNil();
    EncodingIsNotStuck(ps);
    assert [] + ([] + EncodeAll(ps)) == EncodeAll(ps);
    assert Pending(start) == EncodeAll(ps);
    Progress(start, EncodeAll(ps), |ps|);
    var end := Iterate(start, |ps|);
    assert [] + ps[..|ps|] == ps;
    assert |Partial(end) + end.avail| == 0;
    assert |Partial(end)| == 0 && end.avail == [];
  }

  lemma AfterPartOfFrame(c: Decoder, oldStream: Bytes, ps: seq<Bytes>)
    requires Inv(c, oldStream) && c.dataLen != 0
    requires AllFit(ps)
    ensures Iterate(Reconnected(c).(avail := EncodeAll(ps)), |ps|) != Decoder(0, [], [], ps)
  {
    hide Header, ReadyRead, Iterate, Encode;
    var start := Reconnected(c).(avail := EncodeAll(ps));
    EncodeAllNil();
    var stream := Partial(c) + EncodeAll(ps);
    assert Partial(start) == Partial(c);
    assert [] + stream == stream;
    IterateKeeps(start, stream, |ps|);
  }

  lemma {:induction false} IterateKeeps(c: Decoder, stream: Bytes, k: nat)
    requires Inv(c, stream)
    ensures Inv(Iterate(c, k), stream)
    decreases k
  {
    hide ReadyRead, Inv;
    if k > 0 {
      ReadyReadKeeps(c, stream);
      IterateKeeps(ReadyRead(c), stream, k - 1);
    }
  }

  lemma EncodingIsNotStuck(ps: seq<Bytes>)
    requires AllFit(ps) && NoneEmpty(ps)
    ensures Parse(EncodeAll(ps)) == Parsed(ps, []) && !Stuck(EncodeAll(ps))
  {
    ParseEncodeAll(ps, []);
    assert EncodeAll(ps) + [] == EncodeAll(ps) && ps + [] == ps;
  }
}
