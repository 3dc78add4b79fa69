/**
  How the Bash frontend talks to its suggestion helper
  (packages/synos-bash-guess-command/upstream/native/synos_ghost.c).

  A helper incarnation answers each complete line it is sent with exactly one line, in order,
  and says nothing else; that is all that is assumed of it.  How many bytes a send accepts or
  a recv delivers, whether poll reports readiness, when the deadline passes and whether a new
  helper can be started are all left open.
 */
module GhostExchange {
  import opened Common

  const NEWLINE: Byte := 10
  const NUL: Byte := 0

  predicate IsLine(l: Bytes) {
    l != [] && Last(l) == NEWLINE && NEWLINE !in Init(l)
  }

  // ------------------------------------------------------------- the helper

  /** What an incarnation answers to the last of the lines it has been sent. */
  type Answers = (nat, seq<Bytes>) -> Bytes

  ghost predicate AnswersLines(answer: Answers) {
    forall id, lines :: lines != [] ==> IsLine(answer(id, lines))
  }

  /** The complete lines heard, the bytes of the line in progress, and the answers not yet delivered. */
  datatype Talk = Talk(history: seq<Bytes>, partial: Bytes, owed: Bytes)

  function HearByte(answer: Answers, id: nat, t: Talk, b: Byte): Talk {
    if b == NEWLINE then
      var history := t.history + [t.partial + [b]];
      Talk(history, [], t.owed + answer(id, history))
    else
      t.(partial := t.partial + [b])
  }

  function Hear(answer: Answers, id: nat, t: Talk, bytes: Bytes): Talk
    decreases |bytes|
  {
    if bytes == [] then t else Hear(answer, id, HearByte(answer, id, t, bytes[0]), bytes[1..])
  }

  /** A helper that has been told nothing and owes nothing. */
  predicate IsNew(t: Talk) {
    t == Talk([], [], [])
  }

  /** A helper has answered all it heard and all its answers were received. */
  predicate Quiet(t: Talk) {
    t.partial == [] && t.owed == []
  }

  lemma {:induction false} HearPartial(answer: Answers, id: nat, t: Talk, bytes: Bytes)
    requires NEWLINE !in bytes
    ensures Hear(answer, id, t, bytes) == t.(partial := t.partial + bytes)
    decreases |bytes|
  {
    if bytes == [] {
      assert t.partial + bytes == t.partial;
    } else {
      var t' := HearByte(answer, id, t, bytes[0]);
      HearPartial(answer, id, t', bytes[1..]);
      assert t.partial + [bytes[0]] + bytes[1..] == t.partial + bytes;
    }
  }

  lemma {:induction false} HearAppend(answer: Answers, id: nat, t: Talk, a: Bytes, b: Bytes)
    ensures Hear(answer, id, t, a + b) == Hear(answer, id, Hear(answer, id, t, a), b)
    decreases |a|
  {
    if a == [] {
      assert a + b == b;
    } else {
      assert (a + b)[0] == a[0] && (a + b)[1..] == a[1..] + b;
      HearAppend(answer, id, HearByte(answer, id, t, a[0]), a[1..], b);
    }
  }

  /** However a line is cut, its last piece completes it and makes the helper owe one answer. */
  lemma HearRestOfLine(answer: Answers, id: nat, t: Talk, bytes: Bytes)
    requires IsLine(bytes)
    ensures var history := t.history + [t.partial + bytes];
            Hear(answer, id, t, bytes) == Talk(history, [], t.owed + answer(id, history))
  {
    var t' := t.(partial := t.partial + Init(bytes));
    HearPartial(answer, id, t, Init(bytes));
    HearAppend(answer, id, t, Init(bytes), [NEWLINE]);
    assert bytes == Init(bytes) + [NEWLINE];
    assert t.partial + Init(bytes) + [NEWLINE] == t.partial + bytes;
    assert Hear(answer, id, t', [NEWLINE]) == HearByte(answer, id, t', NEWLINE);
  }

  datatype SendResult = Accepted(count: nat) | SendWouldBlock | SendFailed

  datatype RecvResult = Delivered(bytes: Bytes) | RecvWouldBlock | RecvFailed

  /** One incarnation of the helper, at the other end of its socket. */
  class Helper {
    const id: nat
    const answer: Answers
    var talk: Talk

    constructor (id: nat, answer: Answers)
      ensures this.id == id && this.answer == answer && talk == Talk([], [], [])
    {
      this.id, this.answer := id, answer;
      talk := Talk([], [], []);
    }

    /** send(): any non-empty piece may be accepted. */
    method Send(bytes: Bytes) returns (r: SendResult)
      requires bytes != []
      modifies this
      ensures r.Accepted? ==> 0 < r.count <= |bytes| && talk == Hear(answer, id, old(talk), bytes[..r.count])
      ensures !r.Accepted? ==> talk == old(talk)
    {
      var willBlock: bool, fails: bool := *, *;
      if willBlock {
        return SendWouldBlock;
      }
      if fails {
        return SendFailed;
      }
      var count :| 0 < count <= |bytes|;
      talk := Hear(answer, id, talk, bytes[..count]);
      r := Accepted(count);
    }

    /** recv(): any non-empty piece of what is owed, of at most `limit` bytes, may be delivered. */
    method Recv(limit: nat) returns (r: RecvResult)
      requires limit > 0
      modifies this
      ensures r.Delivered? ==> r.bytes != [] && |r.bytes| <= limit && r.bytes <= old(talk).owed
                               && talk == old(talk).(owed := old(talk).owed[|r.bytes|..])
      ensures !r.Delivered? ==> talk == old(talk)
    {
      var willBlock: bool, fails: bool := *, *;
      if willBlock {
        return RecvWouldBlock;
      }
      if fails || talk.owed == [] {
        return RecvFailed;
      }
      var count :| 0 < count <= limit && count <= |talk.owed|;
      r := Delivered(talk.owed[..count]);
      talk := talk.(owed := talk.owed[count..]);
    }
  }

  // ------------------------------------------------------------- the client

  /** A successful exchange: which incarnation answered, what it was asked and what it replied. */
  datatype Exchanged = Exchanged(id: nat, request: Bytes, reply: Bytes)

  /** What an incarnation has been asked so far. */
  function Asked(log: seq<Exchanged>, id: nat): seq<Bytes> {
    if log == [] then []
    else Asked(Init(log), id) + (if Last(log).id == id then [Last(log).request] else [])
  }

  /** Every reply that was accepted is the answer to the request it was accepted for. */
  ghost predicate PairedUp(answer: Answers, log: seq<Exchanged>) {
    forall i :: 0 <= i < |log| ==>
      log[i].reply == answer(log[i].id, Asked(log[..i], log[i].id) + [log[i].request])
  }

  lemma PairedUpAppend(answer: Answers, log: seq<Exchanged>, e: Exchanged)
    requires PairedUp(answer, log) && e.reply == answer(e.id, Asked(log, e.id) + [e.request])
    ensures PairedUp(answer, log + [e])
    ensures Asked(log + [e], e.id) == Asked(log, e.id) + [e.request]
  {
    var log' := log + [e];
    assert Init(log') == log;
    forall i | 0 <= i < |log'|
      ensures log'[i].reply == answer(log'[i].id, Asked(log'[..i], log'[i].id) + [log'[i].request])
    {
      assert log'[..i] == log[..i];
      assert i == |log| ==> log[..i] == log;
    }
  }

  lemma {:induction false} NeverAsked(log: seq<Exchanged>, id: nat)
    requires forall i :: 0 <= i < |log| ==> log[i].id != id
    ensures Asked(log, id) == []
  {
    if log != [] {
      NeverAsked(Init(log), id);
    }
  }

  /** memchr: where a byte first occurs. */
  method FindByte(bytes: Bytes, b: Byte) returns (at: int)
    ensures at == -1 ==> b !in bytes
    ensures at != -1 ==> 0 <= at < |bytes| && bytes[at] == b && b !in bytes[..at]
  {
    var i := 0;
    while i < |bytes|
      invariant 0 <= i <= |bytes| && b !in bytes[..i]
    {
      if bytes[i] == b {
        return i;
      }
      i := i + 1;
    }
    at := -1;
  }

  // ---------------------------------------------- what requests and replies say

  const GHOST_MAX_LINE: nat := 32768
  const TAB: Byte := 9
  const RETURN: Byte := 13
  const DELETE: Byte := 127
  const LETTER_Q: Byte := 81
  const LETTER_S: Byte := 83

  function HexDigit(v: nat): Byte
    requires v < 16
  {
    if v < 10 then 48 + v else 87 + v
  }

  function Nibble(b: Byte): int {
    if 48 <= b <= 57 then b - 48
    else if 97 <= b <= 102 then b - 87
    else if 65 <= b <= 70 then b - 55
    else -1
  }

  /** Two lower-case digits a byte. */
  function Hex(value: Bytes): (h: Bytes)
    ensures |h| == 2 * |value|
    ensures forall i :: 0 <= i < |h| ==> Nibble(h[i]) != -1
  {
    if value == [] then [] else [HexDigit(value[0] / 16), HexDigit(value[0] % 16)] + Hex(value[1..])
  }

  function Unhex(h: Bytes): Option<Bytes> {
    if h == [] then Some([])
    else if |h| == 1 || Nibble(h[0]) == -1 || Nibble(h[1]) == -1 then None
    else
      match Unhex(h[2..])
      case None => None
      case Some(rest) => Some([16 * Nibble(h[0]) + Nibble(h[1])] + rest)
  }

  lemma {:induction false} HexRoundTrip(value: Bytes)
    ensures Unhex(Hex(value)) == Some(value)
  {
    if value != [] {
      HexRoundTrip(value[1..]);
      assert Hex(value)[2..] == Hex(value[1..]);
      assert [value[0]] + value[1..] == value;
    }
  }

  /** Decoding succeeds on exactly the even-length strings of hexadecimal digits of either case. */
  lemma {:induction false} UnhexDomain(h: Bytes)
    ensures Unhex(h).Some? <==> |h| % 2 == 0 && forall i :: 0 <= i < |h| ==> Nibble(h[i]) != -1
  {
    if |h| >= 2 {
      UnhexDomain(h[2..]);
      assert forall i :: 0 <= i < |h[2..]| ==> h[2..][i] == h[i + 2];
      assert forall i :: 2 <= i < |h| ==> h[i] == h[2..][i - 2];
    }
  }

  method HexEncode(value: Bytes) returns (encoded: Option<Bytes>)
    ensures encoded == if 2 * |value| > GHOST_MAX_LINE - 64 then None else Some(Hex(value))
  {
    if |value| > (GHOST_MAX_LINE - 64) / 2 {
      return None;
    }
    var out: Bytes := [];
    var i := 0;
    while i < |value|
      invariant 0 <= i <= |value|
      invariant out + Hex(value[i..]) == Hex(value)
    {
      assert value[i..][1..] == value[i + 1..];
      out := out + [HexDigit(value[i] / 16), HexDigit(value[i] % 16)];
      i := i + 1;
    }
    assert out + [] == out;
    encoded := Some(out);
  }

  /** Decoding goes two digits at a time and gives up at the first that is none. */
  method HexDecode(value: Bytes) returns (decoded: Option<Bytes>)
    ensures decoded == Unhex(value)
  {
    if |value| % 2 != 0 {
      UnhexDomain(value);
      return None;
    }
    var out: Bytes := [];
    var i := 0;
    assert value[0..] == value && (Unhex(value).Some? ==> [] + Unhex(value).value == Unhex(value).value);
    while i < |value|
      invariant 0 <= i <= |value| && i % 2 == 0
      invariant Prefixed(out, Unhex(value[i..])) == Unhex(value)
    {
      var high, low := Nibble(value[i]), Nibble(value[i + 1]);
      assert value[i..][2..] == value[i + 2..];
      if high < 0 || low < 0 {
        return None;
      }
      PrefixedTwice(out, [16 * high + low], Unhex(value[i + 2..]));
      out := out + [16 * high + low];
      i := i + 2;
    }
    assert out + [] == out;
    decoded := Some(out);
  }

  /** What is decoded already, before the rest if that can be decoded too. */
  function Prefixed(bytes: Bytes, rest: Option<Bytes>): Option<Bytes> {
    match rest
    case None => None
    case Some(more) => Some(bytes + more)
  }

  lemma PrefixedTwice(a: Bytes, b: Bytes, rest: Option<Bytes>)
    ensures Prefixed(a, Prefixed(b, rest)) == Prefixed(a + b, rest)
  {
    assert rest.Some? ==> a + (b + rest.value) == a + b + rest.value;
  }

  predicate HasControl(text: Bytes) {
    RETURN in text || NEWLINE in text || TAB in text || DELETE in text
  }

  /** A C string ends at its first NUL. */
  function CString(b: Bytes): (s: Bytes)
    ensures NUL !in s
  {
    if b == [] || b[0] == NUL then [] else [b[0]] + CString(b[1..])
  }

  lemma {:induction false} CStringStops(a: Bytes, rest: Bytes)
    ensures CString(a + [NUL] + rest) == CString(a)
  {
    var b := a + [NUL] + rest;
    if a != [] {
      CStringStops(a[1..], rest);
      assert b[0] == a[0] && b[1..] == a[1..] + [NUL] + rest;
    }
  }

  lemma {:induction false} CStringWhole(a: Bytes)
    requires NUL !in a
    ensures CString(a) == a
  {
    if a != [] {
      CStringWhole(a[1..]);
    }
  }

  /** Where the first tab is; the length if there is none. */
  function TabAt(b: Bytes): (i: nat)
    ensures i <= |b| && TAB !in b[..i] && (i < |b| ==> b[i] == TAB)
  {
    if b == [] || b[0] == TAB then 0
    else
      assert b[..1 + TabAt(b[1..])] == [b[0]] + b[1..][..TabAt(b[1..])];
      1 + TabAt(b[1..])
  }

  /** The text suggested by a reply: its first field, decoded, unless empty or with a control character. */
  function Suggestion(reply: Bytes): Option<Bytes> {
    var text := CString(reply);
    if |text| < 2 || text[0] != LETTER_S || text[1] != TAB || TabAt(text[2..]) == |text| - 2 then None
    else
      match Unhex(text[2..][..TabAt(text[2..])])
      case None => None
      case Some(decoded) =>
        if HasControl(CString(decoded)) || CString(decoded) == [] then None else Some(CString(decoded))
  }

  /** What `query` makes of the buffer after an exchange. */
  method ReadSuggestion(response: Bytes) returns (suggestion: Option<Bytes>)
    ensures suggestion == Suggestion(response)
  {
    var text := CString(response);
    if |text| < 2 || text[0] != LETTER_S || text[1] != TAB {
      return None;
    }
    var field := text[2..];
    var tab := FindByte(field, TAB);
    if tab == -1 {
      return None;
    }
    assert TabAt(field) == tab;
    var decoded := HexDecode(field[..tab]);
    if decoded.None? || HasControl(CString(decoded.value)) || CString(decoded.value) == [] {
      return None;
    }
    suggestion := Some(CString(decoded.value));
  }

  /** Only the bytes of the buffer before the NUL matter. */
  lemma SuggestionStopsAtNul(buffer: Bytes, reply: Bytes)
    requires |reply| < |buffer| && buffer[..|reply|] == reply && buffer[|reply|] == NUL
    ensures Suggestion(buffer) == Suggestion(reply)
  {
    var rest := buffer[|reply| + 1..];
    assert buffer == reply + [NUL] + rest;
    CStringStops(reply, rest);
  }

  lemma TabAtUnique(a: Bytes, rest: Bytes)
    requires TAB !in a
    ensures TabAt(a + [TAB] + rest) == |a|
  {
    var b := a + [TAB] + rest;
    var i := TabAt(b);
    assert b[|a|] == TAB;
    assert forall k :: 0 <= k < |a| ==> b[k] == a[k] && a[k] != TAB;
  }

  lemma FirstField(reply: Bytes, field: Bytes, rest: Bytes)
    requires NUL !in reply && TAB !in field
    requires |reply| > 2 && reply[0] == LETTER_S && reply[1] == TAB && reply[2..] == field + [TAB] + rest
    ensures Suggestion(reply) ==
            match Unhex(field)
            case None => None
            case Some(decoded) =>
              if HasControl(CString(decoded)) || CString(decoded) == [] then None else Some(CString(decoded))
  {
    CStringWhole(reply);
    TabAtUnique(field, rest);
    assert reply[2..][..|field|] == field;
  }

  /** A suggestion the helper encodes in the first field of its reply is the one offered, if it can be shown. */
  lemma SuggestionRoundTrip(text: Bytes, rest: Bytes)
    requires NUL !in text && NUL !in rest
    ensures Suggestion([LETTER_S, TAB] + Hex(text) + [TAB] + rest) ==
            if text == [] || HasControl(text) then None else Some(text)
  {
    var reply := [LETTER_S, TAB] + Hex(text) + [TAB] + rest;
    assert reply[2..] == Hex(text) + [TAB] + rest;
    FirstField(reply, Hex(text), rest);
    HexRoundTrip(text);
    CStringWhole(text);
  }

  function Decimal(n: nat): (d: Bytes)
    ensures forall i :: 0 <= i < |d| ==> 48 <= d[i] <= 57
  {
    if n < 10 then [48 + n] else Decimal(n / 10) + [48 + n % 10]
  }

  function QueryRequest(now: nat, encoded: Bytes): Bytes {
    [LETTER_Q, TAB] + Decimal(now) + [TAB] + encoded + [NEWLINE]
  }

  /** Whatever the user typed, the request is one line: it cannot smuggle in a second one. */
  lemma QueryIsLine(now: nat, line: Bytes)
    ensures IsLine(QueryRequest(now, Hex(line)))
  {
    var r := QueryRequest(now, Hex(line));
    assert Init(r) == [LETTER_Q, TAB] + Decimal(now) + [TAB] + Hex(line);
  }

  class Client {
    const answer: Answers
    var daemon: Helper?
    var started: nat
    var suggestion: Option<Bytes>
    ghost var log: seq<Exchanged>

    /** Between calls the helper, if there is one, is quiet and has heard exactly its logged requests. */
    ghost predicate Valid()
      reads this, daemon
    {
      && AnswersLines(answer)
      && PairedUp(answer, log)
      && (forall i :: 0 <= i < |log| ==> log[i].id < started)
      && (daemon != null ==>
            daemon.id < started && daemon.answer == answer
            && Quiet(daemon.talk) && daemon.talk.history == Asked(log, daemon.id))
    }

    constructor (answer: Answers)
      requires AnswersLines(answer)
      ensures Valid() && this.answer == answer && log == [] && daemon == null && suggestion == None
    {
      this.answer := answer;
      daemon, started, suggestion, log := null, 0, None, [];
    }

    /** Returns 0 with a helper to talk to, or -1; a helper that is there is kept as it is. */
    method StartDaemon(predictionsEnabled: bool) returns (rc: int)
      requires Valid()
      modifies this`daemon, this`started
      ensures Valid()
      ensures rc == 0 || rc == -1
      ensures rc == 0 ==> daemon != null
      ensures old(daemon) != null ==> daemon == old(daemon) && (rc == 0 <==> predictionsEnabled)
      ensures old(daemon) == null ==>
              (rc == 0 <==> daemon != null) && (daemon != null ==> fresh(daemon) && IsNew(daemon.talk))
    {
      if !predictionsEnabled {
        return -1;
      }
      if daemon != null {
        return 0;
      }
      var canStart: bool := *;
      if !canStart {
        return -1;
      }
      var helper := SpawnHelper();
      return 0;
    }

    /** fork and exec of a new incarnation, which has been told nothing yet. */
    method SpawnHelper() returns (helper: Helper)
      requires Valid() && daemon == null
      modifies this`daemon, this`started
      ensures Valid() && daemon == helper && fresh(helper) && IsNew(helper.talk)
    {
      helper := new Helper(started, answer);
      NeverAsked(log, started);
      daemon := helper;
      started := started + 1;
    }

    /** The incarnation is given up for good, whatever state it was left in. */
    method ForceStop()
      requires AnswersLines(answer) && PairedUp(answer, log) && forall i :: 0 <= i < |log| ==> log[i].id < started
      modifies this`daemon
      ensures Valid() && daemon == null
    {
      daemon := null;
    }

    method PrewarmFresh(predictionsEnabled: bool)
      requires AnswersLines(answer) && PairedUp(answer, log) && forall i :: 0 <= i < |log| ==> log[i].id < started
      modifies this`daemon, this`started
      ensures Valid() && (daemon != null ==> fresh(daemon) && IsNew(daemon.talk))
    {
      ForceStop();
      var rc := StartDaemon(predictionsEnabled);
    }

    /**
      Sends one request line and waits for its reply line.  On success the buffer holds, NUL
      terminated, exactly the answer this incarnation gives to this request after those it was
      asked before; on failure no trace of the attempt is left in any helper still in use.
     */
    method Exchange(request: Bytes, response: array<Byte>, predictionsEnabled: bool) returns (rc: int)
      requires Valid() && IsLine(request)
      modifies this`daemon, this`started, this`log, daemon, response
      ensures Valid()
      ensures rc == 0 || rc == -1
      ensures rc == 0 ==>
                && daemon != null && (daemon == old(daemon) || (old(daemon) == null && fresh(daemon)))
                && |log| > 0 && log == old(log) + [Last(log)]
                && Last(log).id == daemon.id && Last(log).request == request
                && Last(log).reply == answer(daemon.id, Asked(old(log), daemon.id) + [request])
                && |Last(log).reply| < response.Length
                && response[..|Last(log).reply|] == Last(log).reply && response[|Last(log).reply|] == NUL
      ensures rc == -1 ==> log == old(log)
      ensures rc == -1 && daemon != null && daemon == old(daemon) ==> !predictionsEnabled
    {
      rc := StartDaemon(predictionsEnabled);
      if rc != 0 {
        return;
      }
      ghost var asked := Asked(log, daemon.id);
      var sent := SendLine(request);
      if !sent {
        PrewarmFresh(predictionsEnabled);
        return -1;
      }
      ghost var reply := answer(daemon.id, asked + [request]);
      assert IsLine(reply);
      var received := ReceiveLine(response, reply);
      if !received {
        PrewarmFresh(predictionsEnabled);
        return -1;
      }
      ghost var e := Exchanged(daemon.id, request, reply);
      PairedUpAppend(answer, log, e);
      log := log + [e];
      assert Init(log) == old(log);
      rc := 0;
    }

    /**
      Asks for a suggestion.  What is suggested afterwards is what the helper's answer to this
      very line says, and nothing if there was no answer; an older suggestion never survives.
     */
    method Query(line: Bytes, now: nat, predictionsEnabled: bool)
      requires Valid() && NUL !in line
      modifies this`daemon, this`started, this`log, this`suggestion, daemon
      ensures Valid()
      ensures log == old(log) ==> suggestion == None
      ensures log != old(log) ==>
                && |log| == |old(log)| + 1 && log[..|old(log)|] == old(log)
                && Last(log).request == QueryRequest(now, Hex(line))
                && Last(log).reply ==
                    answer(Last(log).id, Asked(old(log), Last(log).id) + [QueryRequest(now, Hex(line))])
                && suggestion == Suggestion(Last(log).reply)
    {
      suggestion := None;
      var encoded := HexEncode(line);
      if encoded.None? {
        return;
      }
      var request := QueryRequest(now, encoded.value);
      if |request| >= GHOST_MAX_LINE {
        return;
      }
      QueryIsLine(now, line);
      var response := new Byte[GHOST_MAX_LINE];
      var rc := Exchange(request, response, predictionsEnabled);
      if rc != 0 {
        return;
      }
      suggestion := ReadSuggestion(response[..]);
      SuggestionStopsAtNul(response[..], Last(log).reply);
    }

    /** The send loop: true once every byte of the request was accepted. */
    method SendLine(request: Bytes) returns (sent: bool)
      requires daemon != null && Quiet(daemon.talk) && IsLine(request)
      modifies daemon
      ensures sent ==> daemon.talk == Talk(old(daemon.talk).history + [request], [],
                                           daemon.answer(daemon.id, old(daemon.talk).history + [request]))
    {
      // How often the clock can still be read before the deadline.
      var ticks: nat := *;
      var done := 0;
      ghost var t := daemon.talk;
      while done < |request|
        invariant 0 <= done <= |request|
        invariant daemon.talk == Hear(daemon.answer, daemon.id, t, request[..done])
        decreases |request| - done, ticks
      {
        var r := daemon.Send(request[done..]);
        match r
        case Accepted(count) =>
          HearAppend(daemon.answer, daemon.id, t, request[..done], request[done..][..count]);
          assert request[..done] + request[done..][..count] == request[..done + count];
          done := done + count;
        case SendWouldBlock =>
          var ready: bool := *;
          if ticks == 0 || !ready {
            return false;
          }
          ticks := ticks - 1;
        case SendFailed =>
          return false;
      }
      assert request[..done] == request;
      HearRestOfLine(daemon.answer, daemon.id, t, request);
      assert t.partial + request == request;
      sent := true;
    }

    /** What recv writes into the buffer. */
    method CopyInto(response: array<Byte>, at: nat, bytes: Bytes)
      requires at + |bytes| <= response.Length
      modifies response
      ensures response[..at + |bytes|] == old(response[..at]) + bytes
    {
      forall k | 0 <= k < |bytes| {
        response[at + k] := bytes[k];
      }
      assert response[..at] == old(response[..at]);
      assert response[at..at + |bytes|] == bytes;
    }

    /** The receive loop: true once a newline arrived; the buffer then holds the reply line. */
    method ReceiveLine(response: array<Byte>, ghost reply: Bytes) returns (received: bool)
      requires daemon != null && daemon.talk.owed == reply && IsLine(reply)
      modifies daemon, response
      ensures received ==>
                && daemon.talk == old(daemon.talk).(owed := [])
                && |reply| < response.Length && response[..|reply|] == reply && response[|reply|] == NUL
    {
      var ticks: nat := *;
      var used := 0;
      while used + 1 < response.Length
        invariant 0 <= used && (used < response.Length || used == 0)
        invariant used <= |reply| && response[..used] == reply[..used] && NEWLINE !in reply[..used]
        invariant daemon.talk == old(daemon.talk).(owed := reply[used..])
        decreases response.Length - used, ticks
      {
        var ready: bool := *;
        if ticks == 0 || !ready {
          return false;
        }
        ticks := ticks - 1;
        var r := daemon.Recv(response.Length - used - 1);
        match r
        case RecvWouldBlock =>
        case RecvFailed =>
          return false;
        case Delivered(bytes) =>
          var before := used;
          CopyInto(response, used, bytes);
          assert reply[..used + |bytes|] == reply[..used] + bytes;
          var newline := FindByte(bytes, NEWLINE);
          used := used + |bytes|;
          if newline != -1 {
            NewlineEndsLine(reply, before + newline);
            response[before + newline + 1] := NUL;
            return true;
          }
          if used + 1 >= response.Length {
            return false;
          }
      }
      received := false;
    }
  }

  /** A line has no newline but its last byte. */
  lemma NewlineEndsLine(l: Bytes, i: nat)
    requires IsLine(l) && i < |l| && l[i] == NEWLINE
    ensures i == |l| - 1
  {
    forall k | 0 <= k < |l| - 1
      ensures l[k] != NEWLINE
    {
      assert Init(l)[k] == l[k];
    }
  }
}
