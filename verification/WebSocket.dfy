/**
  The WebSocket client of tools/devtools_browser.py (`_WS`): the frame it builds to send, and the
  frames it reads out of a reassembly buffer.  The format is that of sections 5.2 and 5.3 of
  RFC 6455.
 */
module WebSocket {
  import opened Common

  // -------------------------------------------------------------- arithmetic

  function Pow(base: nat, n: nat): nat {
    if n == 0 then 1 else base * Pow(base, n - 1)
  }

  /** Exclusive or of the low n bits. */
  function XorBits(a: nat, b: nat, n: nat): (r: nat)
    ensures r < Pow(2, n)
  {
    if n == 0 then 0 else (if a % 2 != b % 2 then 1 else 0) + 2 * XorBits(a / 2, b / 2, n - 1)
  }

  function Xor(a: Byte, b: Byte): Byte {
    assert Pow(2, 8) == 256 by { Pow2Of8(); }
    XorBits(a, b, 8)
  }

  lemma Pow2Of8()
    ensures Pow(2, 8) == 256
  {
    assert Pow(2, 4) == 16;
  }

  lemma {:induction false} XorBitsTwice(a: nat, b: nat, n: nat)
    requires a < Pow(2, n)
    ensures XorBits(XorBits(a, b, n), b, n) == a
  {
    if n > 0 {
      XorBitsTwice(a / 2, b / 2, n - 1);
    }
  }

  lemma XorTwice(a: Byte, b: Byte)
    ensures Xor(Xor(a, b), b) == a
  {
    Pow2Of8();
    XorBitsTwice(a, b, 8);
  }

  /** struct.pack(">H" or ">Q"): k bytes, most significant first. */
  function BigEndian(n: nat, k: nat): (b: Bytes)
    ensures |b| == k
  {
    if k == 0 then [] else BigEndian(n / 256, k - 1) + [n % 256]
  }

  function Number(b: Bytes): nat {
    if b == [] then 0 else 256 * Number(Init(b)) + Last(b)
  }

  lemma {:induction false} NumberOfBigEndian(n: nat, k: nat)
    requires n < Pow(256, k)
    ensures Number(BigEndian(n, k)) == n
  {
    if k > 0 {
      NumberOfBigEndian(n / 256, k - 1);
      assert Init(BigEndian(n, k)) == BigEndian(n / 256, k - 1);
    }
  }

  const LIMIT_16: nat := 0x1_0000
  const LIMIT_63: nat := 0x8000_0000_0000_0000

  lemma PowersOf256()
    ensures Pow(256, 2) == LIMIT_16 && LIMIT_63 < Pow(256, 8)
  {
    assert Pow(256, 2) == LIMIT_16;
    assert Pow(256, 4) == LIMIT_16 * LIMIT_16;
    assert Pow(256, 8) == LIMIT_16 * LIMIT_16 * LIMIT_16 * LIMIT_16;
  }

  // ----------------------------------------------------- frames, by the RFC

  /** A frame as section 5.2 lays it out, with its payload unmasked. */
  datatype Frame = Frame(fin: bool, reserved: nat, opcode: nat, masked: bool, payload: Bytes)

  const TEXT: nat := 1
  const CLOSE: nat := 8

  /** Section 5.3: octet i of the payload is combined with octet i mod 4 of the key. */
  function Masked(payload: Bytes, key: Bytes): (m: Bytes)
    requires |key| == 4
    ensures |m| == |payload|
  {
    seq(|payload|, i requires 0 <= i < |payload| => Xor(payload[i], key[i % 4]))
  }

  /** How many bytes the length takes after the second header byte, for a 7-bit length field. */
  function ExtraLength(field: nat): nat {
    if field == 126 then 2 else if field == 127 then 8 else 0
  }

  /** The shortest encoding must be used, and a 64-bit length has its top bit clear. */
  predicate MinimalLength(field: nat, length: nat) {
    (field == 126 ==> 126 <= length) && (field == 127 ==> LIMIT_16 <= length < LIMIT_63)
  }

  /** The payload length a header gives, and what follows the header. */
  function DecodeLength(s: Bytes): Option<(nat, Bytes)>
    requires |s| >= 2
  {
    var field := s[1] % 128;
    var extra := ExtraLength(field);
    if |s| < 2 + extra then None
    else
      var length := if extra == 0 then field else Number(s[2..2 + extra]);
      if MinimalLength(field, length) then Some((length, s[2 + extra..])) else None
  }

  /** The payload, unmasked with the key before it if there is one, and what follows it. */
  function DecodePayload(masked: bool, length: nat, body: Bytes): Option<(Bytes, Bytes)> {
    var keyed := if masked then 4 else 0;
    if |body| < keyed + length then None
    else
      var data := body[keyed..keyed + length];
      Some((if masked then Masked(data, body[..4]) else data, body[keyed + length..]))
  }

  /** The first frame of a byte sequence and what follows it. */
  function Decode(s: Bytes): Option<(Frame, Bytes)> {
    if |s| < 2 || DecodeLength(s).None? then None
    else
      var (length, body) := DecodeLength(s).value;
      match DecodePayload(s[1] >= 128, length, body)
      case None => None
      case Some((payload, rest)) => Some((Frame(s[0] >= 128, s[0] / 16 % 8, s[0] % 16, s[1] >= 128, payload), rest))
  }

  // ----------------------------------------------------------------- sending

  /** The length part of a header, for a mask bit. */
  function LengthBytes(maskBit: nat, length: nat): Bytes
    requires maskBit == 0 || maskBit == 128
  {
    if length < 126 then [maskBit + length]
    else if length < LIMIT_16 then [maskBit + 126] + BigEndian(length, 2)
    else [maskBit + 127] + BigEndian(length, 8)
  }

  /** What `send` writes for a payload and the four random bytes of its mask. */
  function ClientFrame(payload: Bytes, key: Bytes): Bytes
    requires |key| == 4
  {
    [0x81] + LengthBytes(128, |payload|) + key + Masked(payload, key)
  }

  /** The frame building of `send`: the header grows byte by byte, and the payload is masked in a loop. */
  method BuildFrame(payload: Bytes, key: Bytes) returns (frame: Bytes)
    requires |key| == 4
    ensures frame == ClientFrame(payload, key)
  {
    var head: Bytes := [0x81];
    var length := |payload|;
    if length < 126 {
      head := head + [0x80 + length];
    } else if length < 65536 {
      head := head + ([0x80 + 126] + BigEndian(length, 2));
    } else {
      head := head + ([0x80 + 127] + BigEndian(length, 8));
    }
    var masked: Bytes := [];
    var i := 0;
    while i < |payload|
      invariant 0 <= i <= |payload| && masked == Masked(payload, key)[..i]
    {
      masked := masked + [Xor(payload[i], key[i % 4])];
      i := i + 1;
    }
    frame := head + key + masked;
  }

  lemma MaskedTwice(payload: Bytes, key: Bytes)
    requires |key| == 4
    ensures Masked(Masked(payload, key), key) == payload
  {
    forall i | 0 <= i < |payload|
      ensures Xor(Xor(payload[i], key[i % 4]), key[i % 4]) == payload[i]
    {
      XorTwice(payload[i], key[i % 4]);
    }
  }

  lemma SixteenBits(n: nat)
    requires n < LIMIT_16
    ensures Number(BigEndian(n, 2)) == n
  {
    PowersOf256();
    NumberOfBigEndian(n, 2);
  }

  lemma SixtyFourBits(n: nat)
    requires n < LIMIT_63
    ensures Number(BigEndian(n, 8)) == n
  {
    PowersOf256();
    NumberOfBigEndian(n, 8);
  }

  /** The length part reads back as the length, in its shortest form. */
  lemma LengthReadsBack(maskBit: nat, length: nat)
    requires (maskBit == 0 || maskBit == 128) && length < LIMIT_63
    ensures var b := LengthBytes(maskBit, length); var field := b[0] % 128;
            && (b[0] >= 128 <==> maskBit == 128) && |b| == 1 + ExtraLength(field) && MinimalLength(field, length)
            && (if ExtraLength(field) == 0 then field else Number(b[1..])) == length
  {
    var b := LengthBytes(maskBit, length);
    if 126 <= length < LIMIT_16 {
      SixteenBits(length);
      assert b[1..] == BigEndian(length, 2);
    } else if LIMIT_16 <= length {
      SixtyFourBits(length);
      assert b[1..] == BigEndian(length, 8);
    }
  }

  lemma HeaderParts(first: Byte, length: Bytes, body: Bytes)
    requires length != []
    ensures var s := [first] + length + body;
            s[0] == first && s[1] == length[0] && s[2..1 + |length|] == length[1..] && s[1 + |length|..] == body
  {}

  lemma PayloadParts(masked: bool, key: Bytes, data: Bytes, rest: Bytes)
    requires |key| == if masked then 4 else 0
    ensures DecodePayload(masked, |data|, key + data + rest) == Some((if masked then Masked(data, key) else data, rest))
  {
    var body := key + data + rest;
    assert body[|key|..|key| + |data|] == data && body[|key| + |data|..] == rest;
    assert masked ==> body[..4] == key;
  }

  /** The length field of a frame reads as the length of its data. */
  lemma LengthParts(first: Byte, length: Bytes, size: nat, body: Bytes)
    requires length != [] && |length| == 1 + ExtraLength(length[0] % 128)
    requires var field := length[0] % 128;
             MinimalLength(field, size) && size == if ExtraLength(field) == 0 then field else Number(length[1..])
    ensures DecodeLength([first] + length + body) == Some((size, body))
  {
    HeaderParts(first, length, body);
  }

  lemma FrameRegroups(first: Byte, length: Bytes, key: Bytes, data: Bytes, rest: Bytes)
    ensures [first] + length + key + data + rest == [first] + length + (key + data + rest)
  {}

  /** Decoding, given the header and the payload after it. */
  lemma DecodeBody(first: Byte, length: Bytes, size: nat, body: Bytes, payload: Bytes, rest: Bytes)
    requires length != [] && |length| == 1 + ExtraLength(length[0] % 128)
    requires var field := length[0] % 128;
             MinimalLength(field, size) && size == if ExtraLength(field) == 0 then field else Number(length[1..])
    requires DecodePayload(length[0] >= 128, size, body) == Some((payload, rest))
    ensures Decode([first] + length + body) ==
            Some((Frame(first >= 128, first / 16 % 8, first % 16, length[0] >= 128, payload), rest))
  {
    LengthParts(first, length, size, body);
    HeaderParts(first, length, body);
  }

  /** Decoding, given the parts a frame is made of. */
  lemma DecodeParts(first: Byte, length: Bytes, key: Bytes, data: Bytes, rest: Bytes)
    requires length != [] && |length| == 1 + ExtraLength(length[0] % 128)
    requires |key| == if length[0] >= 128 then 4 else 0
    requires var field := length[0] % 128;
             MinimalLength(field, |data|) && |data| == if ExtraLength(field) == 0 then field else Number(length[1..])
    ensures Decode([first] + length + key + data + rest) ==
            Some((Frame(first >= 128, first / 16 % 8, first % 16, length[0] >= 128,
                        if length[0] >= 128 then Masked(data, key) else data), rest))
  {
    var body, payload := key + data + rest, if length[0] >= 128 then Masked(data, key) else data;
    FrameRegroups(first, length, key, data, rest);
    PayloadParts(length[0] >= 128, key, data, rest);
    DecodeBody(first, length, |data|, body, payload, rest);
  }

  /** What `send` writes is one final, masked text frame with exactly the payload, in any stream. */
  lemma ClientFrameDecodes(payload: Bytes, key: Bytes, rest: Bytes)
    requires |key| == 4 && |payload| < LIMIT_63
    ensures Decode(ClientFrame(payload, key) + rest) == Some((Frame(true, 0, TEXT, true, payload), rest))
  {
    LengthReadsBack(128, |payload|);
    DecodeParts(0x81, LengthBytes(128, |payload|), key, Masked(payload, key), rest);
    MaskedTwice(payload, key);
  }

  // --------------------------------------------------------------- receiving

  /** What `recv` makes of a frame: the text, nothing of interest, or the end of the connection. */
  datatype Message = Text(payload: Bytes) | Other | Closed

  function Meaning(opcode: nat, payload: Bytes): Message {
    if opcode == CLOSE then Closed else if opcode == TEXT then Text(payload) else Other
  }

  /** The reads of `recv`: two bytes, the extended length, and as many bytes as that says. */
  function ReadMessage(s: Bytes): Option<(Message, Bytes)> {
    if |s| < 2 then None
    else
      var field := s[1] % 128;
      var extra := ExtraLength(field);
      if |s| < 2 + extra then None
      else
        var length := if extra == 0 then field else Number(s[2..2 + extra]);
        var body := s[2 + extra..];
        if |body| < length then None else Some((Meaning(s[0] % 16, body[..length]), body[length..]))
  }

  /** The bytes still to come before the connection closes: an empty chunk is the end. */
  function Flatten(chunks: seq<Bytes>): Bytes {
    if chunks == [] || chunks[0] == [] then [] else chunks[0] + Flatten(chunks[1..])
  }

  class Socket {
    var buf: Bytes
    var incoming: seq<Bytes>

    /** All bytes not yet consumed, wherever the network happened to cut them. */
    function Stream(): Bytes
      reads this
    {
      buf + Flatten(incoming)
    }

    constructor (buf: Bytes, incoming: seq<Bytes>)
      ensures this.buf == buf && this.incoming == incoming
    {
      this.buf, this.incoming := buf, incoming;
    }

    /** `_recv`: exactly k bytes, or None when the connection closes first. */
    method Read(k: nat) returns (out: Option<Bytes>)
      modifies this
      ensures k <= |old(Stream())| ==> out == Some(old(Stream())[..k]) && Stream() == old(Stream())[k..]
      ensures k > |old(Stream())| ==> out == None
    {
      while |buf| < k
        invariant Stream() == old(Stream())
        decreases |incoming|
      {
        if incoming == [] || incoming[0] == [] {
          return None;
        }
        assert Flatten(incoming) == incoming[0] + Flatten(incoming[1..]);
        buf, incoming := buf + incoming[0], incoming[1..];
        assert Stream() == old(Stream());
      }
      assert Stream()[..k] == buf[..k] && Stream()[k..] == buf[k..] + Flatten(incoming);
      out := Some(buf[..k]);
      buf := buf[k..];
    }

    /** `recv`: None when the connection ends inside a frame. */
    method Recv() returns (m: Option<Message>)
      modifies this
      ensures match ReadMessage(old(Stream()))
              case None => m == None
              case Some((message, rest)) => m == Some(message) && Stream() == rest
    {
      ghost var s := Stream();
      var header := Read(2);
      if header.None? {
        return None;
      }
      var opcode := header.value[0] % 16;
      var length := header.value[1] % 128;
      if length == 126 {
        var extended := Read(2);
        if extended.None? {
          return None;
        }
        assert s[2..][..2] == s[2..4];
        length := Number(extended.value);
      } else if length == 127 {
        var extended := Read(8);
        if extended.None? {
          return None;
        }
        assert s[2..][..8] == s[2..10];
        length := Number(extended.value);
      }
      var data := Read(length);
      if data.None? {
        return None;
      }
      m := Some(Meaning(opcode, data.value));
    }

    /** The loop at the end of `send`: the first message with this id; all before it are dropped. */
    method AwaitReply(id: int, idOf: Bytes -> Option<int>) returns (reply: Option<Bytes>)
      modifies this
      ensures match FirstReply(old(Stream()), id, idOf)
              case None => reply == None
              case Some((payload, rest)) => reply == Some(payload) && Stream() == rest
    {
      while true
        invariant FirstReply(Stream(), id, idOf) == FirstReply(old(Stream()), id, idOf)
        decreases |Stream()|
      {
        ghost var s := Stream();
        var m := Recv();
        if m.None? || m.value.Closed? {
          return None;
        }
        if m.value.Text? && idOf(m.value.payload) == Some(id) {
          return Some(m.value.payload);
        }
        ReadConsumes(s);
      }
    }
  }

  lemma ReadConsumes(s: Bytes)
    ensures ReadMessage(s).Some? ==> |ReadMessage(s).value.1| < |s|
  {}

  /** The first text whose id is the expected one, and the bytes after its frame. */
  function FirstReply(s: Bytes, id: int, idOf: Bytes -> Option<int>): Option<(Bytes, Bytes)>
    decreases |s|
  {
    match ReadMessage(s)
    case None => None
    case Some((m, rest)) =>
      if m.Closed? then None
      else if m.Text? && idOf(m.payload) == Some(id) then Some((m.payload, rest))
      else FirstReply(rest, id, idOf)
  }

  // ----------------------------------------------------- streams of frames

  /** A frame as a server sends it: final and unmasked. */
  datatype ServerFrame = ServerFrame(opcode: nat, payload: Bytes)

  predicate ValidFrame(f: ServerFrame) {
    f.opcode < 16 && |f.payload| < LIMIT_63
  }

  function Encode(f: ServerFrame): Bytes
    requires ValidFrame(f)
  {
    [128 + f.opcode] + LengthBytes(0, |f.payload|) + [] + f.payload
  }

  function EncodeAll(fs: seq<ServerFrame>): Bytes
    requires forall i :: 0 <= i < |fs| ==> ValidFrame(fs[i])
  {
    if fs == [] then [] else Encode(fs[0]) + EncodeAll(fs[1..])
  }

  /** The server's frames are frames by the RFC, and `recv` reads each as what it is. */
  lemma ServerFrameReads(f: ServerFrame, rest: Bytes)
    requires ValidFrame(f)
    ensures Decode(Encode(f) + rest) == Some((Frame(true, 0, f.opcode, false, f.payload), rest))
    ensures ReadMessage(Encode(f) + rest) == Some((Meaning(f.opcode, f.payload), rest))
  {
    LengthReadsBack(0, |f.payload|);
    DecodeParts(128 + f.opcode, LengthBytes(0, |f.payload|), [], f.payload, rest);
  }

  lemma NextFrame(fs: seq<ServerFrame>, i: nat, rest: Bytes)
    requires i < |fs| && forall j :: 0 <= j < |fs| ==> ValidFrame(fs[j])
    ensures EncodeAll(fs[i..]) + rest == Encode(fs[i]) + (EncodeAll(fs[i + 1..]) + rest)
  {
    assert fs[i..][1..] == fs[i + 1..];
  }

  /**
    However the network cuts the bytes of a sequence of frames into chunks, `recv` yields the
    frames in order and consumes their bytes and no others.
   */
  method ReceiveAll(socket: Socket, ghost fs: seq<ServerFrame>, ghost rest: Bytes, n: nat)
    returns (messages: seq<Message>)
    requires n == |fs| && forall i :: 0 <= i < |fs| ==> ValidFrame(fs[i])
    requires socket.Stream() == EncodeAll(fs) + rest
    modifies socket
    ensures |messages| == n && forall i :: 0 <= i < n ==> messages[i] == Meaning(fs[i].opcode, fs[i].payload)
    ensures socket.Stream() == rest
  {
    messages := [];
    var i := 0;
    while i < n
      invariant 0 <= i <= n && |messages| == i
      invariant forall j :: 0 <= j < i ==> messages[j] == Meaning(fs[j].opcode, fs[j].payload)
      invariant socket.Stream() == EncodeAll(fs[i..]) + rest
    {
      NextFrame(fs, i, rest);
      ServerFrameReads(fs[i], EncodeAll(fs[i + 1..]) + rest);
      var m := socket.Recv();
      messages := messages + [m.value];
      i := i + 1;
    }
  }

  /** One frame is the reply, or is dropped, or ends the connection. */
  lemma FirstReplyStep(f: ServerFrame, tail: Bytes, id: int, idOf: Bytes -> Option<int>)
    requires ValidFrame(f) && f.opcode != CLOSE
    ensures FirstReply(Encode(f) + tail, id, idOf) ==
            if f.opcode == TEXT && idOf(f.payload) == Some(id) then Some((f.payload, tail))
            else FirstReply(tail, id, idOf)
  {
    ServerFrameReads(f, tail);
  }

  /** Whatever events come first, the reply awaited is the first one with its id, and the frames after it stay. */
  lemma {:induction false} RepliesInOrder(fs: seq<ServerFrame>, j: nat, id: int, idOf: Bytes -> Option<int>,
                                          rest: Bytes)
    requires (forall i :: 0 <= i < |fs| ==> ValidFrame(fs[i])) && j < |fs|
    requires fs[j].opcode == TEXT && idOf(fs[j].payload) == Some(id)
    requires forall i :: 0 <= i < j ==>
             fs[i].opcode != CLOSE && !(fs[i].opcode == TEXT && idOf(fs[i].payload) == Some(id))
    ensures FirstReply(EncodeAll(fs) + rest, id, idOf) == Some((fs[j].payload, EncodeAll(fs[j + 1..]) + rest))
    decreases j
  {
    assert fs[0..] == fs;
    NextFrame(fs, 0, rest);
    FirstReplyStep(fs[0], EncodeAll(fs[1..]) + rest, id, idOf);
    if j > 0 {
      RepliesInOrder(fs[1..], j - 1, id, idOf, rest);
      assert fs[1..][j..] == fs[j + 1..];
    }
  }
}
