/**
 The server's side of the wire: `Pack`, `Send` and `Unpack`.

 A non-blocking socket is the script of what its `read` and `write` calls will meet: pieces
 of data of any length, EAGAIN, a reset, any other error; an exhausted read script is the
 end of the stream.  Every fragmentation of a byte stream is some script.
 */
module ServerWire {
  import opened Framing

  // ---------------------------------------------------------------- reading a socket

  datatype ReadEvent =
    | Chunk(data: Bytes)   // these bytes have arrived
    | Again                // nothing there yet: EAGAIN
    | Reset                // ECONNRESET
    | Fault                // any other errno

  type Script = seq<ReadEvent>

  datatype ReadResult =
    | Got(data: Bytes, left: Script)
    | EndOfFile(left: Script)
    | WouldBlock(left: Script)
    | Severed(left: Script)
    | Failed(left: Script)

  /** One call of read(2) for at most `k` bytes. */
  function ReadCall(s: Script, k: nat): (r: ReadResult)
    requires 0 < k
    ensures Weight(r.left) <= Weight(s)
    ensures !r.EndOfFile? ==> Weight(r.left) < Weight(s)
    ensures r.Got? ==> 0 < |r.data| <= k
  {
    if s == [] then EndOfFile([])
    else
      match s[0]
      case Chunk(d) =>
        if d == [] then ReadCall(s[1..], k)
        else if |d| <= k then Got(d, s[1..])
        else
          assert ([Chunk(d[k..])] + s[1..])[1..] == s[1..];
          Got(d[..k], [Chunk(d[k..])] + s[1..])
      case Again => WouldBlock(s[1..])
      case Reset => Severed(s[1..])
      case Fault => Failed(s[1..])
  }

  function Weight(s: Script): nat {
    if s == [] then 0 else 1 + (if s[0].Chunk? then |s[0].data| else 0) + Weight(s[1..])
  }

  /** The byte stream a script carries, up to a reset or its end. */
  function Arriving(s: Script): Bytes {
    if s == [] || s[0].Reset? then []
    else (if s[0].Chunk? then s[0].data else []) + Arriving(s[1..])
  }

  // ---------------------------------------------------------------- Unpack as a function

  datatype HeadResult =
    | Head(bytes: Bytes, left: Script)
    | Stop(ret: int, left: Script)

  /** Fill up the four header bytes, `head` being there already. */
  function TakeHead(s: Script, head: Bytes): (r: HeadResult)
    requires |head| <= HEAD
    ensures Weight(r.left) <= Weight(s)
    ensures r.Head? ==> |r.bytes| == HEAD
    ensures r.Stop? ==> r.ret <= 0
    ensures (r.Head? && |head| < HEAD) || (r.Stop? && r.ret != 0) ==> Weight(r.left) < Weight(s)
    decreases Weight(s)
  {
    if |head| == HEAD then Head(head, s)
    else
      match ReadCall(s, HEAD - |head|)
      case Got(d, left) => TakeHead(left, head + d)
      case EndOfFile(left) => Stop(0, left)
      case Severed(left) => Stop(0, left)
      case WouldBlock(left) => Stop(-1, left)
      case Failed(left) => Stop(-1, left)
  }

  datatype Unpacked = Unpacked(ret: int, data: Bytes, left: Script)

  /** Fill up a body of `want` bytes; EAGAIN only makes it wait. */
  function TakeBody(s: Script, want: nat, body: Bytes): (r: Unpacked)
    requires |body| <= want
    ensures Weight(r.left) <= Weight(s)
    ensures r.ret > 0 ==> r.ret == |r.data| == want
    decreases Weight(s)
  {
    if |body| == want then Unpacked(want, body, s)
    else
      match ReadCall(s, want - |body|)
      case Got(d, left) => TakeBody(left, want, body + d)
      case WouldBlock(left) => TakeBody(left, want, body)
      case EndOfFile(left) => Unpacked(0, [], left)
      case Severed(left) => Unpacked(0, [], left)
      case Failed(left) => Unpacked(-1, [], left)
  }

  function UnpackSpec(s: Script): (r: Unpacked)
    ensures Weight(r.left) <= Weight(s)
    ensures r.ret != 0 ==> Weight(r.left) < Weight(s)
    ensures r.ret > 0 ==> r.ret == |r.data|
  {
    match TakeHead(s, [])
    case Stop(ret, left) => Unpacked(ret, [], left)
    case Head(h, left) => if Length(h) < 0 then Unpacked(-1, [], left) else TakeBody(left, Length(h), [])
  }

  // ---------------------------------------------------------------- writing a socket

  datatype WriteEvent =
    | Wrote(count: nat)   // the kernel took at most this many bytes
    | WriteFailed         // write returned -1

  /** How many of `total` bytes get out before a write fails. */
  function Reach(w: seq<WriteEvent>, total: nat): (n: nat)
    ensures n <= total
  {
    if total == 0 || w == [] then total
    else if w[0].WriteFailed? then 0
    else Min(w[0].count, total) + Reach(w[1..], total - Min(w[0].count, total))
  }

  function BeforeFailure(w: seq<WriteEvent>): nat {
    if w == [] || w[0].WriteFailed? then 0 else w[0].count + BeforeFailure(w[1..])
  }

  /** Everything is written, in however small pieces, unless a write fails; then what got out
      is exactly what the writes before it took. */
  lemma {:induction false} ReachExactly(w: seq<WriteEvent>, total: nat)
    ensures Reach(w, total) == if WriteFailed in w then Min(total, BeforeFailure(w)) else total
  {
    if total == 0 || w == [] || w[0].WriteFailed? {
    } else {
      assert WriteFailed in w <==> WriteFailed in w[1..];
      ReachExactly(w[1..], total - Min(w[0].count, total));
    }
  }

  // ---------------------------------------------------------------- the imperative code

  /** The remaining writes are among those there were. */
  ghost predicate Within(rest: seq<WriteEvent>, all: seq<WriteEvent>) {
    forall w | w in rest :: w in all
  }

  lemma WithinTail(rest: seq<WriteEvent>, all: seq<WriteEvent>)
    ensures Within(all, all)
    ensures rest != [] && Within(rest, all) ==> Within(rest[1..], all)
  {
  }

  lemma ReachNothing(w: seq<WriteEvent>)
    ensures Reach(w, 0) == 0
  {
  }

  lemma ReachStep(w: seq<WriteEvent>, total: nat)
    requires 0 < total
    ensures w == [] ==> Reach(w, total) == total
    ensures w != [] && w[0].WriteFailed? ==> Reach(w, total) == 0
    ensures w != [] && !w[0].WriteFailed? ==>
              Reach(w, total) == Min(w[0].count, total) + Reach(w[1..], total - Min(w[0].count, total))
  {
  }

  lemma Piece(f: Bytes, i: nat, n: nat)
    requires i + n <= |f|
    ensures f[..i] + f[i..i + n] == f[..i + n]
  {
  }

  class Connection {
    var script: Script
    var writes: seq<WriteEvent>
    var wire: Bytes          // everything this side has written

    constructor (script: Script, writes: seq<WriteEvent>)
      ensures this.script == script && this.writes == writes && wire == []
    {
      this.script, this.writes, wire := script, writes, [];
    }

    /** read(fd, buf + off, k). */
    method Read(buf: array<byte>, off: nat, k: nat) returns (n: int, got: ReadResult)
      requires 0 < k && off + k <= buf.Length
      modifies this`script, buf
      ensures got == ReadCall(old(script), k) && script == got.left
      ensures got.Got? ==> 0 < n <= k && n == |got.data|
      ensures !got.EndOfFile? ==> Weight(script) < Weight(old(script))
      ensures got.Got? ==> buf[..off + n] == old(buf[..off]) + got.data
      ensures !got.Got? ==> buf[..] == old(buf[..])
      ensures n == match got { case Got(d, _) => |d| case EndOfFile(_) => 0 case _ => -1 }
    {
      got := ReadCall(script, k);
      script := got.left;
      match got {
        case Got(d, _) =>
          n := |d|;
          forall j | 0 <= j < n {
            buf[off + j] := d[j];
          }
        case EndOfFile(_) => n := 0;
        case _ => n := -1;
      }
    }

    /** The first loop of `Unpack`: the header, or 0 or -1 to be passed on. */
    method ReadHead() returns (ret: int, head: array<byte>)
      modifies this`script
      ensures fresh(head) && head.Length == HEAD
      ensures match TakeHead(old(script), []) {
                case Stop(code, left) => ret == code && script == left
                case Head(h, left) => ret == HEAD && head[..] == h && script == left
              }
    {
      hide ReadCall, Weight;
      head := new byte[HEAD];
      var recvLen := 0;
      while recvLen < HEAD
        invariant 0 <= recvLen <= HEAD
        invariant TakeHead(old(script), []) == TakeHead(script, head[..recvLen])
        decreases HEAD - recvLen
      {
        var retLen, got := Read(head, recvLen, HEAD - recvLen);
        if retLen == 0 {
          return 0, head;
        } else if retLen == -1 {
          if got.Severed? {
            return 0, head;
          }
          return -1, head;
        }
        recvLen := recvLen + retLen;
      }
      assert head[..recvLen] == head[..];
      ret := recvLen;
    }

    /** The second loop of `Unpack`: fill the buffer, waiting as long as it takes. */
    method ReadBody(body: array<byte>) returns (ret: int)
      modifies this`script, body
      ensures var u := TakeBody(old(script), body.Length, []);
              ret == u.ret && script == u.left && (0 < ret ==> body[..] == u.data)
    {
      hide ReadCall, Weight;
      var dataLen := body.Length;
      var recvLen := 0;
      while recvLen < dataLen
        invariant 0 <= recvLen <= dataLen
        invariant TakeBody(old(script), dataLen, []) == TakeBody(script, dataLen, body[..recvLen])
        decreases Weight(script)
      {
        label before:
        var retLen, got := Read(body, recvLen, dataLen - recvLen);
        if retLen == 0 {
          return 0;
        } else if retLen == -1 {
          if got.Severed? {
            return 0;
          }
          if got.WouldBlock? {
            assert body[..recvLen] == old@before(body[..recvLen]);
            continue;
          }
          return -1;
        }
        recvLen := recvLen + retLen;
      }
      assert body[..recvLen] == body[..];
      ret := recvLen;
    }

    /** Take one frame off the stream: its length, or 0 when the peer is gone, or -1 when there
        is nothing (more) to be had for now. */
    method Unpack() returns (ret: int, data: array?<byte>)
      modifies this`script
      ensures var u := UnpackSpec(old(script));
              && ret == u.ret
              && script == u.left
              && (0 < ret ==> data != null && data[..] == u.data)
    {
      hide ReadCall, Value;
      data := null;
      var got, head := ReadHead();
      if got <= 0 {
        return got, null;
      }
      var dataLen := Length(head[..]);
      if dataLen < 0 {
        return -1, null; // malloc of a length this size fails
      }
      var body := new byte[dataLen];
      ret := ReadBody(body);
      data := body;
    }

    /** write(fd, buf + off, k). */
    method Write(buf: array<byte>, off: nat, k: nat) returns (n: int)
      requires 0 < k && off + k <= buf.Length
      modifies this`writes, this`wire
      ensures old(writes) == [] ==> n == k && writes == []
      ensures old(writes) != [] ==> writes == old(writes)[1..]
      ensures old(writes) != [] ==> n == if old(writes)[0].WriteFailed? then -1 else Min(old(writes)[0].count, k)
      ensures wire == if n > 0 then old(wire) + buf[off..off + n] else old(wire)
    {
      if writes == [] {
        n := k;
      } else {
        n := if writes[0].WriteFailed? then -1 else Min(writes[0].count, k);
        writes := writes[1..];
      }
      if n > 0 {
        wire := wire + buf[off..off + n];
      }
    }

    /** Send one frame.  What reaches the wire is the frame up to the first failing write, and
        nothing at all for an empty text. */
    method Send(json: Bytes)
      requires |json| <= MAX_PAYLOAD
      modifies this`writes, this`wire
      ensures json == [] ==> wire == old(wire)
      ensures json != [] ==> wire == old(wire) + Encode(json)[..Reach(old(writes), |Encode(json)|)]
      ensures Within(writes, old(writes))
    {
      hide Encode, Within, Reach;
      WithinTail(writes, writes);
      var totalLen, packJson := Pack(json);
      if totalLen <= 0 {
        return;
      }
      ghost var f := Encode(json);
      var writeLen := 0;
      while writeLen < totalLen
        invariant 0 <= writeLen <= totalLen == packJson.Length == |f|
        invariant packJson[..] == f
        invariant wire == old(wire) + f[..writeLen]
        invariant Reach(old(writes), totalLen) == writeLen + Reach(writes, totalLen - writeLen)
        invariant Within(writes, old(writes))
        decreases |writes|, totalLen - writeLen
      {
        WithinTail(writes, old(writes));
        ReachStep(writes, totalLen - writeLen);
        var retLen := Write(packJson, writeLen, totalLen - writeLen);
        if retLen == 0 {
          continue;
        } else if retLen == -1 {
          return;
        }
        assert packJson[writeLen..writeLen + retLen] == packJson[..][writeLen..writeLen + retLen];
        Piece(f, writeLen, retLen);
        writeLen := writeLen + retLen;
      }
      assert f[..totalLen] == f;
      ReachNothing(writes);
    }
  }

  /** Build a frame in a fresh buffer; an empty text gives no frame. */
  method Pack(data: Bytes) returns (totalLen: int, packData: array<byte>)
    requires |data| <= MAX_PAYLOAD
    ensures data == [] ==> totalLen == 0
    ensures data != [] ==> totalLen == packData.Length > 0 && packData[..] == Encode(data)
    ensures fresh(packData)
  {
    var dataLen := |data|;
    if dataLen <= 0 {
      packData := new byte[0];
      return 0, packData;
    }
    var ndataLen := Header(dataLen);
    totalLen := HEAD + dataLen;
    packData := new byte[totalLen];
    forall j | 0 <= j < HEAD {
      packData[j] := ndataLen[j];
    }
    forall j | 0 <= j < dataLen {
      packData[HEAD + j] := data[j];
    }
    assert packData[..] == ndataLen + data;
  }
}
