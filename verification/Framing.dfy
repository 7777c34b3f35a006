/** Length-prefixed packets: the read loops of CSocketServer and CSocketServerEx, and the framing
    their senders do. */
module Framing {
  import opened Pieces

  newtype Byte = x: int | 0 <= x < 0x100

  const BUFFER_SIZE: nat := 20480

  /** The two read loops differ in how many bytes they want before reading a header, in what they
      take off the header to get the packet length, and in the number of known packet types. */
  datatype Rules = Rules(need: nat, overhead: int, types: nat)

  /** CSocketServer::OnRead: three bytes, and header + 1 - PacketSizeType; types below AS_MAX. */
  function ServerRules(packetSizeType: int, types: nat): Rules {
    Rules(3, packetSizeType - 1, types)
  }

  /** CSocketServerEx::OnRead: two bytes, and header - 2; types below AQ_MAX. */
  function ServerExRules(types: nat): Rules {
    Rules(2, 2, types)
  }

  datatype Mode = ReadLen | ReadBody(packetLen: nat)

  /** What a connection is left with when a read returns: a mode and the bytes kept for the next
      read, or the error that closed it. */
  datatype Conn = Open(mode: Mode, kept: seq<Byte>) | Broken(error: nat)

  datatype Outcome = Outcome(packets: seq<seq<Byte>>, conn: Conn)

  const BAD_SIZE: nat := 1
  const UNKNOWN_TYPE: nat := 2

  ghost predicate Sound(mode: Mode) {
    mode.ReadBody? ==> 1 <= mode.packetLen <= BUFFER_SIZE
  }

  ghost predicate ValidRules(rules: Rules) {
    2 <= rules.need <= 3
  }

  function Header(bytes: seq<Byte>): (h: nat)
    requires |bytes| >= 2
    ensures h < 0x1_0000
  {
    bytes[0] as int + 0x100 * (bytes[1] as int)
  }

  /** Everything one read finds in a buffer, as a function of the mode and the bytes. */
  function Scan(rules: Rules, mode: Mode, bytes: seq<Byte>): (r: Outcome)
    requires ValidRules(rules) && Sound(mode)
    ensures r.conn.Open? ==> Sound(r.conn.mode)
    decreases |bytes|
  {
    if |bytes| == 0 then Outcome([], Open(mode, []))
    else match mode
      case ReadLen =>
        if |bytes| < rules.need then Outcome([], Open(mode, bytes))
        else
          var packetLen := Header(bytes) - rules.overhead;
          if packetLen <= 0 || packetLen > BUFFER_SIZE then Outcome([], Broken(BAD_SIZE))
          else Scan(rules, ReadBody(packetLen), bytes[2..])
      case ReadBody(packetLen) =>
        if packetLen > |bytes| then Outcome([], Open(mode, bytes))
        else if bytes[0] as int >= rules.types then Outcome([], Broken(UNKNOWN_TYPE))
        else
          var rest := Scan(rules, ReadLen, bytes[packetLen..]);
          Outcome([bytes[..packetLen]] + rest.packets, rest.conn)
  }

  // ----- one step of a scan

  lemma ScanHeader(rules: Rules, bytes: seq<Byte>)
    requires ValidRules(rules) && |bytes| > 0
    ensures |bytes| < rules.need ==> Scan(rules, ReadLen, bytes) == Outcome([], Open(ReadLen, bytes))
    ensures |bytes| >= rules.need ==>
              var packetLen := Header(bytes) - rules.overhead;
              Scan(rules, ReadLen, bytes) ==
              if packetLen <= 0 || packetLen > BUFFER_SIZE then Outcome([], Broken(BAD_SIZE))
              else Scan(rules, ReadBody(packetLen), bytes[2..])
  {
    hide Header;
  }

  lemma ScanBody(rules: Rules, packetLen: nat, bytes: seq<Byte>)
    requires ValidRules(rules) && 1 <= packetLen <= BUFFER_SIZE && |bytes| > 0
    ensures packetLen > |bytes| ==>
              Scan(rules, ReadBody(packetLen), bytes) == Outcome([], Open(ReadBody(packetLen), bytes))
    ensures packetLen <= |bytes| && bytes[0] as int >= rules.types ==>
              Scan(rules, ReadBody(packetLen), bytes) == Outcome([], Broken(UNKNOWN_TYPE))
    ensures packetLen <= |bytes| && (bytes[0] as int) < rules.types ==>
              var rest := Scan(rules, ReadLen, bytes[packetLen..]);
              Scan(rules, ReadBody(packetLen), bytes) == Outcome([bytes[..packetLen]] + rest.packets, rest.conn)
  {
    hide Header;
  }

  lemma ScanNothing(rules: Rules, mode: Mode)
    requires ValidRules(rules) && Sound(mode)
    ensures Scan(rules, mode, []) == Outcome([], Open(mode, []))
  {
  }

  // ----- the objects that read

  /** A connection object; `mode` and `packetLen` are fields, and the parse position is local. */
  class Reader {
    const rules: Rules
    var reading: bool // SM_READ_LEN when false, SM_READ_BODY when true
    var packetLen: int

    ghost predicate Valid()
      reads this
    {
      ValidRules(rules) && (reading ==> 1 <= packetLen <= BUFFER_SIZE)
    }

    ghost function TheMode(): Mode
      requires Valid()
      reads this
    {
      if reading then ReadBody(packetLen) else ReadLen
    }

    constructor (rules: Rules)
      requires ValidRules(rules)
      ensures Valid() && this.rules == rules && TheMode() == ReadLen
    {
      this.rules := rules;
      reading := false;
      packetLen := 0;
    }

    /** `OnRead`: packets posted in order, then how many bytes at the end of the buffer to keep, or
        the error that closes the connection. */
    method OnRead(inBuf: seq<Byte>) returns (packets: seq<seq<Byte>>, keep: nat, errorNum: nat)
      requires Valid()
      modifies this
      ensures Valid() && keep <= |inBuf|
      ensures Outcome(packets, if errorNum == 0 then Open(TheMode(), inBuf[|inBuf| - keep..]) else Broken(errorNum))
              == Scan(rules, old(TheMode()), inBuf)
    {
      hide Scan, Header;
      var pi, ri := 0, |inBuf|;
      packets, keep, errorNum := [], 0, 0;
      ghost var whole := Scan(rules, TheMode(), inBuf);
      assert inBuf[0..] == inBuf;
      while true
        invariant Valid() && 0 <= pi <= ri == |inBuf| && errorNum == 0 && keep == 0
        invariant whole.packets == packets + Scan(rules, TheMode(), inBuf[pi..]).packets
        invariant whole.conn == Scan(rules, TheMode(), inBuf[pi..]).conn
        decreases ri - pi
      {
        ghost var bytes := inBuf[pi..];
        if pi >= ri {
          ScanNothing(rules, TheMode());
          assert bytes == [] == inBuf[ri - keep..];
          return;
        }
        if !reading {
          ScanHeader(rules, bytes);
          if pi + rules.need <= ri {
            packetLen := HeaderAt(inBuf, pi) - rules.overhead;
            if packetLen <= 0 || packetLen > BUFFER_SIZE {
              errorNum := BAD_SIZE;
              return;
            }
            assert bytes[2..] == inBuf[pi + 2..];
            pi := pi + 2;
            reading := true;
          } else {
            keep := ri - pi;
            return;
          }
        } else {
          ScanBody(rules, packetLen, bytes);
          if pi + packetLen <= ri {
            if inBuf[pi] as int >= rules.types {
              errorNum := UNKNOWN_TYPE;
              return;
            }
            assert bytes[packetLen..] == inBuf[pi + packetLen..];
            assert bytes[..packetLen] == inBuf[pi..pi + packetLen];
            packets := packets + [inBuf[pi..pi + packetLen]];
            pi := pi + packetLen;
            reading := false;
          } else {
            keep := ri - pi;
            return;
          }
        }
      }
    }
  }

  function HeaderAt(inBuf: seq<Byte>, pi: nat): (h: nat)
    requires pi + 2 <= |inBuf|
    ensures h == Header(inBuf[pi..])
  {
    inBuf[pi] as int + 0x100 * (inBuf[pi + 1] as int)
  }

  // ----- bytes arrive in pieces

  /** One more piece: it is read after the bytes kept; a broken connection reads nothing. */
  function Feed(rules: Rules, conn: Conn, piece: seq<Byte>): (r: Outcome)
    requires ValidRules(rules) && (conn.Open? ==> Sound(conn.mode))
    ensures r.conn.Open? ==> Sound(r.conn.mode)
  {
    if conn.Open? then Scan(rules, conn.mode, conn.kept + piece) else Outcome([], conn)
  }

  function FeedAll(rules: Rules, conn: Conn, pieces: seq<seq<Byte>>): (r: Outcome)
    requires ValidRules(rules) && (conn.Open? ==> Sound(conn.mode))
    ensures r.conn.Open? ==> Sound(r.conn.mode)
    decreases |pieces|
  {
    if pieces == [] then Outcome([], conn)
    else
      var first := Feed(rules, conn, pieces[0]);
      var rest := FeedAll(rules, first.conn, pieces[1..]);
      Outcome(first.packets + rest.packets, rest.conn)
  }

  /** Scanning two runs of bytes at once is scanning the first and then what it kept with the second;
      once broken, the second does not matter. */
  lemma {:induction false} ScanInTwo(rules: Rules, mode: Mode, a: seq<Byte>, b: seq<Byte>)
    requires ValidRules(rules) && Sound(mode)
    ensures var first := Scan(rules, mode, a);
            var next := Feed(rules, first.conn, b);
            Scan(rules, mode, a + b) == Outcome(first.packets + next.packets, next.conn)
    decreases |a|
  {
    hide Scan, Header;
    if |a| == 0 {
      ScanNothing(rules, mode);
      assert [] + b == b && a + b == b;
    } else if mode == ReadLen {
      ScanHeader(rules, a);
      ScanHeader(rules, a + b);
      if |a| >= rules.need {
        SameHeader(a, b);
        var packetLen := Header(a) - rules.overhead;
        if 0 < packetLen <= BUFFER_SIZE {
          assert (a + b)[2..] == a[2..] + b;
          ScanInTwo(rules, ReadBody(packetLen), a[2..], b);
        }
      }
    } else {
      var packetLen := mode.packetLen;
      ScanBody(rules, packetLen, a);
      ScanBody(rules, packetLen, a + b);
      if packetLen <= |a| && (a[0] as int) < rules.types {
        assert (a + b)[packetLen..] == a[packetLen..] + b;
        assert (a + b)[..packetLen] == a[..packetLen];
        ScanInTwo(rules, ReadLen, a[packetLen..], b);
        var rest := Scan(rules, ReadLen, a[packetLen..]);
        var next := Feed(rules, rest.conn, b);
        assert [a[..packetLen]] + (rest.packets + next.packets) == [a[..packetLen]] + rest.packets + next.packets;
      }
    }
  }

  lemma SameHeader(a: seq<Byte>, b: seq<Byte>)
    requires |a| >= 2
    ensures Header(a + b) == Header(a)
  {
  }

  lemma FeedInTwo(rules: Rules, conn: Conn, a: seq<Byte>, b: seq<Byte>)
    requires ValidRules(rules) && (conn.Open? ==> Sound(conn.mode))
    ensures var first := Feed(rules, conn, a);
            var next := Feed(rules, first.conn, b);
            Feed(rules, conn, a + b) == Outcome(first.packets + next.packets, next.conn)
  {
    if conn.Open? {
      assert conn.kept + (a + b) == conn.kept + a + b;
      ScanInTwo(rules, conn.mode, conn.kept + a, b);
    }
  }

  /** In how many pieces the bytes come makes no difference to the packets, to the bytes kept or to
      the error: for both read loops, any connection and any cutting of any stream. */
  lemma {:induction false} ChunkingDoesNotMatter(rules: Rules, conn: Conn, pieces: seq<seq<Byte>>)
    requires ValidRules(rules) && (conn.Open? ==> Sound(conn.mode))
    requires conn.Open? ==> Settled(rules, conn)
    ensures FeedAll(rules, conn, pieces) == Feed(rules, conn, Joined(pieces))
    decreases |pieces|
  {
    if pieces == [] {
      assert conn.Open? ==> conn.kept + [] == conn.kept;
    } else {
      var first := Feed(rules, conn, pieces[0]);
      FeedSettles(rules, conn, pieces[0]);
      JoinedFirst(pieces[0], pieces[1..]);
      assert pieces == [pieces[0]] + pieces[1..];
      ChunkingDoesNotMatter(rules, first.conn, pieces[1..]);
      FeedInTwo(rules, conn, pieces[0], Joined(pieces[1..]));
    }
  }

  /** A connection that has read all it can: reading the kept bytes again finds nothing new. */
  ghost predicate Settled(rules: Rules, conn: Conn)
    requires ValidRules(rules) && conn.Open? && Sound(conn.mode)
  {
    Scan(rules, conn.mode, conn.kept) == Outcome([], conn)
  }

  lemma {:induction false} ScanSettles(rules: Rules, mode: Mode, bytes: seq<Byte>)
    requires ValidRules(rules) && Sound(mode)
    ensures var r := Scan(rules, mode, bytes); r.conn.Open? ==> Settled(rules, r.conn)
    decreases |bytes|
  {
    if |bytes| > 0 {
      match mode {
        case ReadLen =>
          if |bytes| >= rules.need {
            var packetLen := Header(bytes) - rules.overhead;
            if 0 < packetLen <= BUFFER_SIZE {
              ScanSettles(rules, ReadBody(packetLen), bytes[2..]);
            }
          }
        case ReadBody(packetLen) =>
          if packetLen <= |bytes| && bytes[0] as int < rules.types {
            ScanSettles(rules, ReadLen, bytes[packetLen..]);
          }
      }
    }
  }

  lemma FeedSettles(rules: Rules, conn: Conn, piece: seq<Byte>)
    requires ValidRules(rules) && (conn.Open? ==> Sound(conn.mode))
    ensures var r := Feed(rules, conn, piece); conn.Open? && r.conn.Open? ==> Settled(rules, r.conn)
  {
    if conn.Open? {
      ScanSettles(rules, conn.mode, conn.kept + piece);
    }
  }

  /** There is always room for at least one more byte behind the bytes kept. */
  lemma {:induction false} KeptFits(rules: Rules, mode: Mode, bytes: seq<Byte>)
    requires ValidRules(rules) && Sound(mode)
    ensures var r := Scan(rules, mode, bytes); r.conn.Open? ==> |r.conn.kept| < BUFFER_SIZE
    decreases |bytes|
  {
    if |bytes| > 0 {
      match mode {
        case ReadLen =>
          if |bytes| >= rules.need {
            var packetLen := Header(bytes) - rules.overhead;
            if 0 < packetLen <= BUFFER_SIZE {
              KeptFits(rules, ReadBody(packetLen), bytes[2..]);
            }
          }
        case ReadBody(packetLen) =>
          if packetLen <= |bytes| && bytes[0] as int < rules.types {
            KeptFits(rules, ReadLen, bytes[packetLen..]);
          }
      }
    }
  }

  // ----- sending

  /** The two header bytes: the low sixteen bits, low byte first. */
  function HeaderBytes(len: int): (h: seq<Byte>)
    ensures |h| == 2
  {
    [(len % 0x100) as Byte, (len / 0x100 % 0x100) as Byte]
  }

  lemma ByteRead(x: int)
    requires 0 <= x < 0x100
    ensures (x as Byte) as int == x
  {
  }

  lemma TwoDigits(len: int)
    ensures len % 0x100 + 0x100 * (len / 0x100 % 0x100) == len % 0x1_0000
  {
    var q, hi := len / 0x100, len / 0x100 % 0x100;
    assert q == 0x100 * (q / 0x100) + hi;
    assert len == 0x1_0000 * (q / 0x100) + 0x100 * hi + len % 0x100;
  }

  lemma HeaderRead(len: int, rest: seq<Byte>)
    ensures Header(HeaderBytes(len) + rest) == len % 0x1_0000
  {
    ByteRead(len % 0x100);
    ByteRead(len / 0x100 % 0x100);
    TwoDigits(len);
  }

  /** The frame `Send` puts around an assembled packet. */
  function Frame(packetSizeType: int, payload: seq<Byte>): seq<Byte> {
    HeaderBytes(|payload| - 1 + packetSizeType) + payload
  }

  function FrameAll(packetSizeType: int, payloads: seq<seq<Byte>>): seq<Byte> {
    if payloads == [] then [] else Frame(packetSizeType, payloads[0]) + FrameAll(packetSizeType, payloads[1..])
  }

  /** What `Assemble` leaves behind the header, if it fits and is of a known type. */
  ghost predicate Sendable(rules: Rules, payload: seq<Byte>) {
    1 <= |payload| <= BUFFER_SIZE - 2 && payload[0] as int < rules.types
  }

  /** `CSocketServer::Send` on a buffer that `Assemble` has filled from offset 2; the result is the
      size written to the socket. */
  method Send(buffer: array<Byte>, assembled: nat, packetSizeType: int) returns (size: int)
    requires buffer.Length == BUFFER_SIZE && assembled <= BUFFER_SIZE - 2
    modifies buffer
    ensures buffer[2..] == old(buffer[2..])
    ensures assembled > 0 ==>
              size == assembled + 2 && buffer[..size] == Frame(packetSizeType, old(buffer[2..2 + assembled]))
    ensures assembled == 0 ==> size == 3 - packetSizeType && buffer[..] == old(buffer[..])
  {
    var len: int := assembled;
    if len != 0 {
      len := len - 1;
      len := len + packetSizeType;
      buffer[0] := (len % 0x100) as Byte;
      buffer[1] := (len / 0x100 % 0x100) as Byte;
      assert buffer[..assembled + 2] == [buffer[0], buffer[1]] + buffer[2..2 + assembled];
    }
    size := len + 3 - packetSizeType;
  }

  /** `CSocketServerEx::Send`: the same frame, but nothing at all is sent when `Assemble` fails. */
  method SendEx(buffer: array<Byte>, assembled: nat, packetSizeType: int) returns (sent: bool, size: int)
    requires buffer.Length == BUFFER_SIZE && assembled <= BUFFER_SIZE - 2
    modifies buffer
    ensures buffer[2..] == old(buffer[2..]) && sent == (assembled > 0)
    ensures sent ==> size == assembled + 2 && buffer[..size] == Frame(packetSizeType, old(buffer[2..2 + assembled]))
    ensures !sent ==> buffer[..] == old(buffer[..])
  {
    var len: int := assembled;
    sent, size := false, 0;
    if len != 0 {
      len := len - 1 + packetSizeType;
      var tmplen := len + 1 - packetSizeType;
      len := tmplen - 1 + packetSizeType;
      buffer[0] := (len % 0x100) as Byte;
      buffer[1] := (len / 0x100 % 0x100) as Byte;
      assert buffer[..assembled + 2] == [buffer[0], buffer[1]] + buffer[2..2 + assembled];
      sent, size := true, tmplen + 2;
    }
  }

  ghost predicate ReadsBack(rules: Rules, packetSizeType: int, payload: seq<Byte>)
    requires ValidRules(rules)
  {
    Scan(rules, ReadLen, Frame(packetSizeType, payload)) == Outcome([payload], Open(ReadLen, []))
  }

  /** Exactly when a lone frame is read back: the header value must fit in sixteen bits and match
      what the reader takes off. */
  lemma FrameReadIff(rules: Rules, packetSizeType: int, payload: seq<Byte>)
    requires ValidRules(rules) && Sendable(rules, payload)
    ensures ReadsBack(rules, packetSizeType, payload)
            <==> (|payload| - 1 + packetSizeType) % 0x1_0000 - rules.overhead == |payload|
  {
    hide Scan, Header, HeaderBytes;
    var frame := Frame(packetSizeType, payload);
    HeaderRead(|payload| - 1 + packetSizeType, payload);
    assert frame[2..] == payload;
    ScanHeader(rules, frame);
    var packetLen := Header(frame) - rules.overhead;
    if 0 < packetLen <= BUFFER_SIZE {
      ScanBody(rules, packetLen, payload);
      if packetLen == |payload| {
        ScanNothing(rules, ReadLen);
        assert payload[packetLen..] == [] && payload[..packetLen] == payload;
      } else if packetLen < |payload| {
        var rest := Scan(rules, ReadLen, payload[packetLen..]);
        assert ([payload[..packetLen]] + rest.packets)[0] == payload[..packetLen];
      }
    }
  }

  /** For CSocketServer the two agree for any packet size type that keeps the header in range. */
  ghost predicate HeaderFits(packetSizeType: int, payload: seq<Byte>) {
    0 <= |payload| - 1 + packetSizeType < 0x1_0000
  }

  lemma ServerFrameReadIff(packetSizeType: int, types: nat, payload: seq<Byte>)
    requires Sendable(ServerRules(packetSizeType, types), payload)
    ensures ReadsBack(ServerRules(packetSizeType, types), packetSizeType, payload)
            <==> HeaderFits(packetSizeType, payload)
  {
    hide ReadsBack;
    FrameReadIff(ServerRules(packetSizeType, types), packetSizeType, payload);
  }

  /** CSocketServerEx reads what it sends only if the packet size type is 3, the value Config sets. */
  lemma ServerExFrameReadIff(packetSizeType: int, types: nat, payload: seq<Byte>)
    requires Sendable(ServerExRules(types), payload) && HeaderFits(packetSizeType, payload)
    ensures ReadsBack(ServerExRules(types), packetSizeType, payload) <==> packetSizeType == 3
  {
    hide ReadsBack;
    FrameReadIff(ServerExRules(types), packetSizeType, payload);
  }

  /** Any sequence of sendable payloads is recovered exactly and in order, with nothing left. */
  lemma {:induction false} FramesRecovered(rules: Rules, packetSizeType: int, payloads: seq<seq<Byte>>)
    requires ValidRules(rules) && rules.overhead == packetSizeType - 1
    requires forall i :: 0 <= i < |payloads| ==> Sendable(rules, payloads[i]) && HeaderFits(packetSizeType, payloads[i])
    ensures Scan(rules, ReadLen, FrameAll(packetSizeType, payloads)) == Outcome(payloads, Open(ReadLen, []))
  {
    hide Scan, Frame, Sendable;
    if payloads == [] {
      ScanNothing(rules, ReadLen);
    } else {
      var frame, rest := Frame(packetSizeType, payloads[0]), FrameAll(packetSizeType, payloads[1..]);
      FrameReadIff(rules, packetSizeType, payloads[0]);
      ScanInTwo(rules, ReadLen, frame, rest);
      assert [] + rest == rest;
      FramesRecovered(rules, packetSizeType, payloads[1..]);
      assert payloads == [payloads[0]] + payloads[1..];
    }
  }

  /** And so in whatever pieces the frames arrive. */
  lemma FramesRecoveredInPieces(rules: Rules, packetSizeType: int, payloads: seq<seq<Byte>>, pieces: seq<seq<Byte>>)
    requires ValidRules(rules) && rules.overhead == packetSizeType - 1
    requires forall i :: 0 <= i < |payloads| ==> Sendable(rules, payloads[i]) && HeaderFits(packetSizeType, payloads[i])
    requires Joined(pieces) == FrameAll(packetSizeType, payloads)
    ensures FeedAll(rules, Open(ReadLen, []), pieces) == Outcome(payloads, Open(ReadLen, []))
  {
    ChunkingDoesNotMatter(rules, Open(ReadLen, []), pieces);
    FramesRecovered(rules, packetSizeType, payloads);
    assert [] + Joined(pieces) == Joined(pieces);
  }

  /** Five bytes in front of the message, the length counting all of it. */
  function ResourceFrame(cmdId: Byte, keyLow: Byte, keyHigh: Byte, message: seq<Byte>): (frame: seq<Byte>)
    ensures |frame| == |message| + 5
  {
    HeaderBytes(|message| + 1 + 2 + 2) + [cmdId, keyLow, keyHigh] + message
  }

  /** `SendResource`: the message first, behind the five bytes, and then those; the command and the
      key by their low bits. */
  method SendResource(buffer: array<Byte>, cmdId: int, key: int, message: seq<Byte>) returns (size: nat)
    requires buffer.Length == BUFFER_SIZE && |message| <= BUFFER_SIZE - 5
    modifies buffer
    ensures size == |message| + 5 && buffer[size..] == old(buffer[size..])
    ensures buffer[..size] ==
            ResourceFrame((cmdId % 0x100) as Byte, (key % 0x100) as Byte, (key / 0x100 % 0x100) as Byte, message)
  {
    for i := 0 to |message|
      invariant buffer[5..5 + i] == message[..i]
      invariant buffer[5 + |message|..] == old(buffer[5 + |message|..])
    {
      buffer[5 + i] := message[i];
      assert buffer[5..5 + i + 1] == buffer[5..5 + i] + [message[i]];
    }
    size := |message| + 1 + 2 + 2;
    buffer[0] := (size % 0x100) as Byte;
    buffer[1] := (size / 0x100 % 0x100) as Byte;
    buffer[2] := (cmdId % 0x100) as Byte;
    buffer[3] := (key % 0x100) as Byte;
    buffer[4] := (key / 0x100 % 0x100) as Byte;
    assert buffer[..size] == [buffer[0], buffer[1]] + [buffer[2], buffer[3], buffer[4]] + buffer[5..size];
    assert message[..|message|] == message;
  }

  /** A resource frame is read by CSocketServerEx as one packet: command, key, message. */
  lemma ResourceFrameRead(types: nat, cmdId: Byte, keyLow: Byte, keyHigh: Byte, message: seq<Byte>)
    requires |message| <= BUFFER_SIZE - 5 && cmdId as int < types
    ensures Scan(ServerExRules(types), ReadLen, ResourceFrame(cmdId, keyLow, keyHigh, message))
            == Outcome([[cmdId, keyLow, keyHigh] + message], Open(ReadLen, []))
  {
    var payload := [cmdId, keyLow, keyHigh] + message;
    assert ResourceFrame(cmdId, keyLow, keyHigh, message) == Frame(3, payload);
    ServerExFrameReadIff(3, types, payload);
  }
}
