/**
 Text and files from one program to the other, through both encoders and both decoders.

 JSON is an abstract pair of functions, a writer and a reader that undo each other.
 */
module EndToEnd {
  import opened Wrappers
  import opened Framing
  import opened ServerWire
  import opened ServerStream
  import opened ClientWire
  import FdTool
  import Handlers

  // ---------------------------------------------------------------- client to server

  /** The payloads of the frames `Client::send` makes of some texts. */
  function Sealed(texts: seq<Bytes>): (ps: seq<Bytes>)
    ensures |ps| == |texts|
    ensures forall i | 0 <= i < |texts| :: ps[i] == WithNul(texts[i])
  {
    if texts == [] then [] else [WithNul(texts[0])] + Sealed(texts[1..])
  }

  /** The strings the server's worker hands to `HandleRequest`. */
  function Requests(frames: seq<Bytes>): (rs: seq<Option<Bytes>>)
    ensures |rs| == |frames|
    ensures forall i | 0 <= i < |frames| :: rs[i] == CString(frames[i])
  {
    if frames == [] then [] else [CString(frames[0])] + Requests(frames[1..])
  }

  function Strings(texts: seq<Bytes>): (rs: seq<Option<Bytes>>)
    ensures |rs| == |texts|
    ensures forall i | 0 <= i < |texts| :: rs[i] == Some(texts[i])
  {
    if texts == [] then [] else [Some(texts[0])] + Strings(texts[1..])
  }

  predicate Sendable(text: Bytes) {
    0 < |text| < MAX_PAYLOAD
  }

  lemma SealedIsFramable(texts: seq<Bytes>)
    requires forall t | t in texts :: Sendable(t)
    ensures AllFit(Sealed(texts)) && NoneEmpty(Sealed(texts))
  {
    forall p | p in Sealed(texts)
      ensures Fits(p) && 0 < |p|
    {
      var i :| 0 <= i < |texts| && Sealed(texts)[i] == p;
      assert texts[i] in texts;
    }
  }

  /** Over any lossless script every payload makes a string for the server, and these are exactly the
      texts the client sent if and only if none of them contains a NUL. */
  lemma TextsReachServer(s: Script, texts: seq<Bytes>)
    requires forall t | t in texts :: Sendable(t)
    requires AllFit(Sealed(texts)) && Arriving(s) == EncodeAll(Sealed(texts))
    requires Lossless([], s)
    ensures forall r | r in Requests(Collect(s)) :: r.Some?
    ensures Requests(Collect(s)) == Strings(texts) <==> forall t | t in texts :: NulFree(t)
  {
    hide Lossless, Arriving, Collect;
    SealedIsFramable(texts);
    ServerDecodesExactly(s, Sealed(texts));
    UnsealedIff(texts);
  }

  lemma UnsealedIff(texts: seq<Bytes>)
    ensures forall r | r in Requests(Sealed(texts)) :: r.Some?
    ensures Requests(Sealed(texts)) == Strings(texts) <==> forall t | t in texts :: NulFree(t)
  {
    hide CString, WithNul, NulFree;
    var rs := Requests(Sealed(texts));
    forall i | 0 <= i < |texts|
      ensures rs[i].Some?
      ensures rs[i] == Some(texts[i]) <==> NulFree(texts[i])
    {
      NulComesOff(texts[i]);
    }
    if forall t | t in texts :: NulFree(t) {
      assert forall i | 0 <= i < |texts| :: texts[i] in texts;
      assert rs == Strings(texts);
    } else {
      var t :| t in texts && !NulFree(t);
      var i :| 0 <= i < |texts| && texts[i] == t;
      assert rs[i] != Strings(texts)[i];
    }
  }

  // ---------------------------------------------------------------- server to client

  /** Whatever pieces the server's frames arrive in and whenever the slot runs, enough further
      events hand all of them on. */
  lemma FramesReachClient(events: seq<Event>, ps: seq<Bytes>, k: nat)
    requires AllFit(ps) && NoneEmpty(ps)
    requires Arrived(events) == EncodeAll(ps)
    requires k >= |ps|
    ensures Iterate(Run(Fresh(), events), k).delivered == ps
  {
    hide HasFrame, Iterate, Run, Arrived, Inv, Pending, Stuck;
    var c := Run(Fresh(), events);
    FreshInv();
    RunKeeps(Fresh(), events, []);
    assert [] + Arrived(events) == Arrived(events);
    EncodingIsNotStuck(ps);
    ClientRefinesParser(events);
    RestOfRun(events);
    AllDeliveredIff(c, Arrived(events), k);
  }

  lemma RestOfRun(events: seq<Event>)
    requires !Stuck(Arrived(events))
    ensures Inv(Run(Fresh(), events), Arrived(events)) && !Stuck(Pending(Run(Fresh(), events)))
  {
    hide Run, Arrived, Parse, HasFrame, Partial, Encode;
    FreshInv();
    RunKeeps(Fresh(), events, []);
    assert [] + Arrived(events) == Arrived(events);
    var c := Run(Fresh(), events);
    SplitAgreesWithParse(c.delivered, Pending(c));
  }

  // ---------------------------------------------------------------- file transfer

  const BLOCK: nat := 1024

  type Text = Bytes

  datatype FileMsg = FileMsg(sender: int, receiver: int, group: bool, fileName: Text,
                             sendState: bool, data: Text, dataLen: nat)

  /** Bounded content, so that its JSON fits a frame. */
  predicate Small(m: FileMsg) {
    && |m.data| <= 3 * BLOCK && |m.fileName| <= 255 && m.dataLen <= BLOCK
    && -0x8000_0000 <= m.sender < 0x8000_0000 && -0x8000_0000 <= m.receiver < 0x8000_0000
  }

  /** The library code on the way: the JSON writer and reader, what becomes of bytes that are taken
      for UTF-8 and turned back into bytes, and which bytes are UTF-8. */
  datatype Codec = Codec(ser: FileMsg -> Bytes, par: Bytes -> Option<FileMsg>,
                         utf8: Bytes -> Text, isText: Bytes -> bool)

  /** 7-bit text, on which UTF-8 decoding and encoding are the identity. */
  predicate Ascii(b: Bytes) {
    forall x | x in b :: x < 128
  }

  /** Reader and writer undo each other on messages of bounded size whose strings are text. */
  ghost predicate JsonSound(cd: Codec) {
    forall m {:trigger cd.ser(m)} | Small(m) && cd.isText(m.data) && cd.isText(m.fileName) ::
      Sendable(cd.ser(m)) && NulFree(cd.ser(m)) && cd.par(cd.ser(m)) == Some(m)
  }

  /** The byte-order mark, which the decoder drops at the beginning of a text. */
  predicate Marked(b: Bytes) {
    [0xEF, 0xBB, 0xBF] <= b
  }

  /** What comes back is text, and 7-bit text comes back as it was.  Of other bytes each that is no
      UTF-8 may come back as a replacement character of three bytes; only a byte-order mark makes a
      text shorter. */
  ghost predicate Utf8Sound(cd: Codec) {
    forall b ::
      && cd.isText(cd.utf8(b))
      && |cd.utf8(b)| <= 3 * |b|
      && (Ascii(b) ==> cd.utf8(b) == b)
      && (NulFree(b) ==> NulFree(cd.utf8(b)))
      && (NulFree(b) && !Marked(b) ==> |b| <= |cd.utf8(b)|)
  }

  ghost predicate Sound(cd: Codec) {
    JsonSound(cd) && Utf8Sound(cd)
  }

  function Block(file: Bytes): (b: Bytes)
    requires file != []
    ensures 0 < |b| <= BLOCK && b <= file && file == b + file[|b|..]
  {
    if |file| <= BLOCK then file else file[..BLOCK]
  }

  /** The message for one block; a QString takes the block's text up to its first NUL. */
  function BlockMsg(cd: Codec, head: FileMsg, block: Bytes): FileMsg {
    head.(sendState := false, data := cd.utf8(UpToNul(block)), dataLen := |block|)
  }

  /** The JSON texts a file is sent as. */
  function FileTexts(cd: Codec, head: FileMsg, file: Bytes): (ts: seq<Bytes>)
    decreases |file|
  {
    if file == [] then []
    else
      var block := Block(file);
      [cd.ser(BlockMsg(cd, head, block))] + FileTexts(cd, head, file[|block|..])
  }

  predicate Valid(cd: Codec, head: FileMsg) {
    Small(head.(data := [], dataLen := 0)) && cd.isText(head.fileName)
  }

  lemma BlockIsSound(cd: Codec, head: FileMsg, block: Bytes)
    requires Sound(cd) && Valid(cd, head) && |block| <= BLOCK
    ensures var m := BlockMsg(cd, head, block);
            var t := cd.ser(m);
            Sendable(t) && NulFree(t) && cd.par(t) == Some(m)
  {
    hide UpToNul, Sendable, NulFree, JsonSound, Utf8Sound;
    Utf8Of(cd, UpToNul(block));
    JsonOf(cd, BlockMsg(cd, head, block));
  }

  lemma JsonOf(cd: Codec, m: FileMsg)
    requires JsonSound(cd) && Small(m) && cd.isText(m.data) && cd.isText(m.fileName)
    ensures Sendable(cd.ser(m)) && NulFree(cd.ser(m)) && cd.par(cd.ser(m)) == Some(m)
  {
  }

  lemma Utf8Of(cd: Codec, b: Bytes)
    requires Utf8Sound(cd)
    ensures cd.isText(cd.utf8(b)) && |cd.utf8(b)| <= 3 * |b| && (Ascii(b) ==> cd.utf8(b) == b)
    ensures NulFree(b) ==> NulFree(cd.utf8(b))
    ensures NulFree(b) && !Marked(b) ==> |b| <= |cd.utf8(b)|
  {
  }

  /** A file is sent in as many blocks as it takes. */
  lemma {:induction false} FileTextsNumber(cd: Codec, head: FileMsg, file: Bytes)
    ensures file == [] ==> FileTexts(cd, head, file) == []
    ensures file != [] ==>
              1024 * (|FileTexts(cd, head, file)| - 1) < |file| <= 1024 * |FileTexts(cd, head, file)|
    decreases |file|
  {
    hide BlockMsg;
    if file != [] {
      FileTextsNumber(cd, head, file[|Block(file)|..]);
    }
  }

  lemma FileTextsParts(cd: Codec, head: FileMsg, file: Bytes, i: nat)
    requires i < |FileTexts(cd, head, file)|
    ensures file != []
    ensures var rest := file[|Block(file)|..];
            FileTexts(cd, head, file)[i] ==
            if i == 0 then cd.ser(BlockMsg(cd, head, Block(file))) else FileTexts(cd, head, rest)[i - 1]
  {
    hide BlockMsg;
  }

  /** The blocks are of 1024 bytes, but for the last, in order, and their messages carry the
      particulars of the file. */
  lemma {:induction false} FileTextsAre(cd: Codec, head: FileMsg, file: Bytes, i: nat)
    requires Sound(cd) && Valid(cd, head)
    requires i < |FileTexts(cd, head, file)|
    ensures 1024 * i < |file|
    ensures var block := file[1024 * i..1024 * i + Min(1024, |file| - 1024 * i)];
            cd.par(FileTexts(cd, head, file)[i]) ==
            Some(FileMsg(head.sender, head.receiver, head.group, head.fileName,
                         false, cd.utf8(UpToNul(block)), |block|))
    decreases i
  {
    hide Sound, UpToNul, Valid, FileTexts;
    FileTextsParts(cd, head, file, i);
    FileTextsNumber(cd, head, file);
    var first := Block(file);
    var rest := file[|first|..];
    if i == 0 {
      BlockIsSound(cd, head, first);
      assert first == file[0..Min(1024, |file|)];
    } else {
      FileTextsNumber(cd, head, rest);
      FileTextsAre(cd, head, rest, i - 1);
      var n := Min(1024, |file| - 1024 * i);
      assert rest[1024 * (i - 1)..1024 * (i - 1) + n] == file[1024 * i..1024 * i + n];
    }
  }

  lemma AsciiPrefix(b: Bytes, p: Bytes)
    requires Ascii(b) && p <= b
    ensures Ascii(p) && Ascii(b[|p|..])
  {
    forall x | x in p
      ensures x < 128
    {
      assert x in b;
    }
    forall x | x in b[|p|..]
      ensures x < 128
    {
      assert x in b;
    }
  }

  lemma {:induction false} FileTextsAreSendable(cd: Codec, head: FileMsg, file: Bytes)
    requires Sound(cd) && Valid(cd, head)
    ensures forall t | t in FileTexts(cd, head, file) :: Sendable(t) && NulFree(t)
    decreases |file|
  {
    hide Sound, UpToNul;
    if file != [] {
      BlockIsSound(cd, head, Block(file));
      FileTextsAreSendable(cd, head, file[|Block(file)|..]);
    }
  }

  /** The frames a file is sent as. */
  ghost function OnWire(cd: Codec, head: FileMsg, file: Bytes): Bytes
    requires Sound(cd) && Valid(cd, head)
  {
    FileTextsAreSendable(cd, head, file);
    SealedIsFramable(FileTexts(cd, head, file));
    EncodeAll(Sealed(FileTexts(cd, head, file)))
  }

  lemma OneBlock(cd: Codec, head: FileMsg, file: Bytes)
    requires Sound(cd) && Valid(cd, head)
    ensures file == [] ==> OnWire(cd, head, file) == []
    ensures file != [] ==>
              var json := cd.ser(BlockMsg(cd, head, Block(file)));
              Sendable(json)
              && OnWire(cd, head, file) == Encode(WithNul(json)) + OnWire(cd, head, file[|Block(file)|..])
  {
    hide Encode, Sound, UpToNul;
    EncodeAllNil();
    if file != [] {
      var json, rest := cd.ser(BlockMsg(cd, head, Block(file))), FileTexts(cd, head, file[|Block(file)|..]);
      BlockIsSound(cd, head, Block(file));
      FileTextsAreSendable(cd, head, file[|Block(file)|..]);
      SealedIsFramable(rest);
      assert ([json] + rest)[1..] == rest;
      EncodeAllCons(WithNul(json), Sealed(rest));
    }
  }

  /** The loop of `on_sendChatFile`, while the connection lasts. */
  method SendFile(c: Client, file: Bytes, head: FileMsg, cd: Codec)
    requires Sound(cd) && Valid(cd, head)
    requires c.connected
    modifies c`wire
    ensures c.wire == old(c.wire) + OnWire(cd, head, file)
  {
    hide Encode, UpToNul, Sound, Valid, BlockMsg, OnWire;
    var left := file;
    while left != []
      invariant c.connected
      invariant c.wire + OnWire(cd, head, left) == old(c.wire) + OnWire(cd, head, file)
      decreases |left|
    {
      var byteData := Block(left);
      var json := cd.ser(BlockMsg(cd, head, byteData));
      OneBlock(cd, head, left);
      label before:
      c.Send(json);
      left := left[|byteData|..];
      assert old@before(c.wire) + (Encode(WithNul(json)) + OnWire(cd, head, left)) == c.wire + OnWire(cd, head, left);
    }
    OneBlock(cd, head, left);
    assert c.wire + [] == c.wire;
  }

  // ---------------------------------------------------------------- the server in the middle

  /** Case 103: pass the text on as it is to a receiver who is online.  The other branch answers
      too, with the message written anew, but to the receiver's descriptor, that is, to none. */
  function Relay(cd: Codec, data: Bytes, m: FileMsg, receiverFd: int): (out: seq<(int, Bytes)>) {
    if receiverFd > 0 then [(receiverFd, data)]
    else if !m.sendState then [(receiverFd, cd.ser(m))]
    else []
  }

  /** This is what the server's state machine does with request 103. */
  lemma RelayIsHandle(s: Handlers.Srv, cd: Codec, fd: int, data: Bytes, m: FileMsg)
    ensures var to := FdTool.FdOf(s.online, m.receiver);
            var out := Relay(cd, data, m, to);
            var sent := Handlers.Handle(s, fd, Handlers.SendFile(m.receiver, m.sendState, data)).sent;
            && |sent| == |s.sent| + |out| <= |s.sent| + 1
            && s.sent <= sent
            && (out != [] ==> sent[|s.sent|].fd == out[0].0)
            && (out != [] && to > 0 ==>
                  out[0].1 == data && sent[|s.sent|].packet == Handlers.FileData(m.receiver, data))
            && (out != [] && to <= 0 ==> sent[|s.sent|].packet == Handlers.FileReturned(data))
  {
  }

  /** All that the server sends for some requests, `online[i]` being the registry at the i-th. */
  function RelayAll(cd: Codec, online: seq<FdTool.Registry>, requests: seq<Option<Bytes>>): seq<(int, Bytes)>
    requires |online| == |requests|
    decreases |requests|
  {
    if requests == [] then []
    else
      var now := match requests[0]
        case None => []
        case Some(text) =>
          match cd.par(text) {
            case None => []
            case Some(m) => Relay(cd, text, m, FdTool.FdOf(online[0], m.receiver))
          };
      now + RelayAll(cd, online[1..], requests[1..])
  }

  /** The texts sent to one descriptor. */
  function To(fd: int, out: seq<(int, Bytes)>): seq<Bytes> {
    if out == [] then [] else (if out[0].0 == fd then [out[0].1] else []) + To(fd, out[1..])
  }

  /** One user's descriptor never changes. */
  predicate StaysAt(online: seq<FdTool.Registry>, usr: int, fd: int) {
    forall i | 0 <= i < |online| :: FdTool.FdOf(online[i], usr) == fd
  }

  lemma {:induction false} RelayKeepsAll(cd: Codec, online: seq<FdTool.Registry>, head: FileMsg, file: Bytes, fd: int)
    requires Sound(cd) && Valid(cd, head)
    requires |online| == |FileTexts(cd, head, file)| && StaysAt(online, head.receiver, fd) && fd > 0
    ensures To(fd, RelayAll(cd, online, Strings(FileTexts(cd, head, file)))) == FileTexts(cd, head, file)
    decreases |file|
  {
    hide Sound, UpToNul;
    if file != [] {
      var block := Block(file);
      var t, rest := cd.ser(BlockMsg(cd, head, block)), FileTexts(cd, head, file[|block|..]);
      BlockIsSound(cd, head, block);
      assert FileTexts(cd, head, file)[1..] == rest;
      RelayKeepsAll(cd, online[1..], head, file[|block|..], fd);
      var out := RelayAll(cd, online, Strings(FileTexts(cd, head, file)));
      assert Strings(FileTexts(cd, head, file))[1..] == Strings(rest);
      assert out == [(fd, t)] + RelayAll(cd, online[1..], Strings(rest));
      assert out[1..] == RelayAll(cd, online[1..], Strings(rest));
    }
  }

  /** What successive `Send` calls put on a connection whose writes do not fail. */
  method SendAll(c: Connection, texts: seq<Bytes>)
    requires forall t | t in texts :: Sendable(t)
    requires WriteFailed !in c.writes
    modifies c`writes, c`wire
    ensures AllFit(texts) && c.wire == old(c.wire) + EncodeAll(texts)
  {
    hide Encode;
    assert texts[..0] == [];
    EncodeAllNil();
    for i := 0 to |texts|
      invariant AllFit(texts[..i]) && c.wire == old(c.wire) + EncodeAll(texts[..i])
      invariant WriteFailed !in c.writes
    {
      var t := texts[i];
      assert t in texts;
      ReachExactly(c.writes, |Encode(t)|);
      Appended(texts[..i], t, old(c.wire));
      assert texts[..i] + [t] == texts[..i + 1];
      c.Send(t);
    }
    assert texts[..|texts|] == texts;
  }

  lemma Appended(ps: seq<Bytes>, p: Bytes, before: Bytes)
    requires AllFit(ps) && Fits(p)
    ensures AllFit(ps + [p]) && before + EncodeAll(ps + [p]) == before + EncodeAll(ps) + Encode(p)
    ensures Encode(p)[..|Encode(p)|] == Encode(p)
  {
    hide Encode;
    EncodeAllNil();
    EncodeAllCons(p, []);
    assert [p] + [] == [p] && Encode(p) + [] == Encode(p);
    EncodeAllAppend(ps, [p]);
    assert before + (EncodeAll(ps) + Encode(p)) == before + EncodeAll(ps) + Encode(p);
  }

  // ---------------------------------------------------------------- at the receiver

  /** Case 103 at the receiver: append the data to the file. */
  function AppendAll(cd: Codec, file: Bytes, frames: seq<Bytes>): Bytes
    decreases |frames|
  {
    if frames == [] then file
    else
      match cd.par(frames[0])
      case None => AppendAll(cd, file, frames[1..])
      case Some(m) => AppendAll(cd, if m.sendState then file else file + m.data, frames[1..])
  }

  /** What comes of a file: of each block what precedes its first NUL, decoded and encoded. */
  function Recoded(cd: Codec, file: Bytes): Bytes
    decreases |file|
  {
    if file == [] then [] else cd.utf8(UpToNul(Block(file))) + Recoded(cd, file[|Block(file)|..])
  }

  lemma {:induction false} AppendedText(cd: Codec, head: FileMsg, file: Bytes, before: Bytes)
    requires Sound(cd) && Valid(cd, head)
    ensures AppendAll(cd, before, FileTexts(cd, head, file)) == before + Recoded(cd, file)
    decreases |file|
  {
    hide Sound, UpToNul, AppendAll, Valid, FileTexts, Block, BlockMsg;
    if file == [] {
      assert before + [] == before;
    } else {
      BlockIsProper(file);
      var now, rest := cd.utf8(UpToNul(Block(file))), file[|Block(file)|..];
      AppendedText(cd, head, rest, before + now);
      assert before + now + Recoded(cd, rest) == before + (now + Recoded(cd, rest));
    }
    AppendStep(cd, head, file, before);
  }

  lemma BlockIsProper(file: Bytes)
    requires file != []
    ensures 0 < |Block(file)| && Block(file) <= file
  {
  }

  lemma AppendStep(cd: Codec, head: FileMsg, file: Bytes, before: Bytes)
    requires Sound(cd) && Valid(cd, head)
    ensures file == [] ==> AppendAll(cd, before, FileTexts(cd, head, file)) == before
    ensures file != [] ==>
              AppendAll(cd, before, FileTexts(cd, head, file)) ==
              AppendAll(cd, before + cd.utf8(UpToNul(Block(file))), FileTexts(cd, head, file[|Block(file)|..]))
  {
    hide Sound, UpToNul, Valid;
    if file != [] {
      var block, rest := Block(file), file[|Block(file)|..];
      BlockIsSound(cd, head, block);
      var t, ts := cd.ser(BlockMsg(cd, head, block)), FileTexts(cd, head, rest);
      assert ([t] + ts)[1..] == ts;
    }
  }

  // ---------------------------------------------------------------- which files survive

  /** No block begins with a byte-order mark. */
  predicate Unmarked(file: Bytes)
    decreases |file|
  {
    file == [] || (!Marked(Block(file)) && Unmarked(file[|Block(file)|..]))
  }

  /** Every block is NUL-free and, by itself, text that decoding keeps. */
  predicate Textual(cd: Codec, file: Bytes)
    decreases |file|
  {
    file == [] ||
    (NulFree(Block(file)) && cd.utf8(Block(file)) == Block(file) && Textual(cd, file[|Block(file)|..]))
  }

  lemma {:induction false} RecodedIsNulFree(cd: Codec, file: Bytes)
    requires Utf8Sound(cd)
    ensures NulFree(Recoded(cd, file))
    decreases |file|
  {
    hide Utf8Sound;
    if file != [] {
      Utf8Of(cd, UpToNul(Block(file)));
      RecodedIsNulFree(cd, file[|Block(file)|..]);
    }
  }

  lemma NulFreeParts(a: Bytes, b: Bytes)
    ensures NulFree(a + b) <==> NulFree(a) && NulFree(b)
  {
    assert forall x :: x in a + b <==> x in a || x in b;
  }

  lemma NulFreeWhole(b: Bytes)
    requires NulFree(b)
    ensures UpToNul(b) == b
  {
  }

  lemma {:induction false} RecodedIsNoShorter(cd: Codec, file: Bytes)
    requires Utf8Sound(cd) && Unmarked(file) && NulFree(file)
    ensures |file| <= |Recoded(cd, file)|
    decreases |file|
  {
    hide Utf8Sound, UpToNul, NulFree, Marked;
    if file != [] {
      var block, rest := Block(file), file[|Block(file)|..];
      NulFreeParts(block, rest);
      NulFreeWhole(block);
      Utf8Of(cd, block);
      RecodedIsNoShorter(cd, rest);
    }
  }

  lemma SamePrefix(a: Bytes, b: Bytes, c: Bytes, d: Bytes)
    requires a + b == c + d && |c| <= |a| && |d| <= |b|
    ensures a == c && b == d
  {
    assert |a| == |c|;
    assert a == (a + b)[..|a|] && c == (c + d)[..|c|];
    assert b == (a + b)[|a|..] && d == (c + d)[|c|..];
  }

  /** A file comes out as it was exactly when all its blocks are text. */
  lemma {:induction false} RecodedIff(cd: Codec, file: Bytes)
    requires Utf8Sound(cd) && Unmarked(file)
    ensures Recoded(cd, file) == file <==> Textual(cd, file)
    decreases |file|
  {
    hide Utf8Sound, UpToNul, NulFree, Marked;
    if file != [] {
      var block, rest := Block(file), file[|Block(file)|..];
      RecodedIff(cd, rest);
      NulFreeParts(block, rest);
      if Recoded(cd, file) == file {
        RecodedIsNulFree(cd, file);
        NulFreeWhole(block);
        Utf8Of(cd, block);
        RecodedIsNoShorter(cd, rest);
        SamePrefix(cd.utf8(block), Recoded(cd, rest), block, rest);
      } else if Textual(cd, file) {
        NulFreeWhole(block);
      }
    }
  }

  /** For a 7-bit file, when it is NUL-free. */
  lemma {:induction false} AsciiIsTextualIff(cd: Codec, file: Bytes)
    requires Utf8Sound(cd) && Ascii(file)
    ensures Unmarked(file)
    ensures Textual(cd, file) <==> NulFree(file)
    decreases |file|
  {
    hide Utf8Sound, NulFree;
    if file != [] {
      var block, rest := Block(file), file[|Block(file)|..];
      AsciiPrefix(file, block);
      Utf8Of(cd, block);
      NulFreeParts(block, rest);
      AsciiIsTextualIff(cd, rest);
      MarkedIsNotAscii(block);
    } else {
      assert NulFree([]) by {
        NulFreeEmpty();
      }
    }
  }

  lemma MarkedIsNotAscii(b: Bytes)
    ensures Marked(b) ==> !Ascii(b)
  {
    if Marked(b) {
      assert b[0] == 0xEF && b[0] in b;
    }
  }

  lemma NulFreeEmpty()
    ensures NulFree([])
  {
  }

  /** A file of any content and length, cut into blocks, framed by the sender, relayed by the
      server, framed again, and appended by a receiver who keeps his descriptor, for every
      fragmentation of both connections: it arrives recoded block by block.  Unless a block begins
      with a byte-order mark, it arrives as it was if and only if every block is NUL-free text;
      and so a 7-bit file does if and only if it is NUL-free. */
  lemma FileArrives(cd: Codec, head: FileMsg, file: Bytes, before: Bytes, online: seq<FdTool.Registry>, fd: int,
                    s: Script, events: seq<Event>, k: nat)
    requires Sound(cd) && Valid(cd, head)
    requires Arriving(s) == OnWire(cd, head, file) && Lossless([], s)
    requires |online| == |Requests(Collect(s))| && StaysAt(online, head.receiver, fd) && fd > 0
    requires var relayed := To(fd, RelayAll(cd, online, Requests(Collect(s))));
             AllFit(relayed) && Arrived(events) == EncodeAll(relayed)
    requires k >= |FileTexts(cd, head, file)|
    ensures var arrived := AppendAll(cd, before, Iterate(Run(Fresh(), events), k).delivered);
            && arrived == before + Recoded(cd, file)
            && (Unmarked(file) ==> (arrived == before + file <==> Textual(cd, file)))
            && (Ascii(file) ==> (arrived == before + file <==> NulFree(file)))
  {
    hide Lossless, Arriving, Arrived, Iterate, Run, Sound, FileTexts, AppendAll, RelayAll, Encode, EncodeAll,
      Recoded, Unmarked, Textual, Ascii, NulFree;
    var texts := FileTexts(cd, head, file);
    FileTextsAreSendable(cd, head, file);
    SealedIsFramable(texts);
    TextsReachServer(s, texts);
    RelayKeepsAll(cd, online, head, file, fd);
    assert NoneEmpty(texts);
    FramesReachClient(events, texts, k);
    AppendedText(cd, head, file, before);
    if before + Recoded(cd, file) == before + file {
      SameTail(before, Recoded(cd, file), file);
    }
    assert Utf8Sound(cd) by {
      SoundMeans(cd);
    }
    if Ascii(file) {
      AsciiIsTextualIff(cd, file);
    }
    if Unmarked(file) {
      RecodedIff(cd, file);
    }
  }

  lemma SoundMeans(cd: Codec)
    requires Sound(cd)
    ensures Utf8Sound(cd)
  {
  }
}
