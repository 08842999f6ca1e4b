/** The three messages between GUI and daemon: their layout, the datagram channel that sends only the
    bytes before the first NUL, the receivers' reused buffer, and what is read back out of it. */
module IpcMessages {
  import opened CText

  datatype Option<+T> = None | Some(value: T)

  const MSG_ADD_SYNC_FILE: Byte := 1
  const MSG_NOTIFY_PROTOCOL: Byte := 2
  const GUI_MSG_PROGRESS_NOTIFY: Byte := 1
  const PROTOCOL_TCP: Byte := 1
  const PROTOCOL_UDP: Byte := 2

  /** Both receivers read into a buffer of 300 bytes. */
  const BUFFER: nat := 300

  /** The GUI's file-name array, terminator included. */
  const NAME_ARRAY: nat := 50

  /** The size that the GUI sends with every added file. */
  const DUMMY_SIZE: int := 20000

  // ---------------------------------------------------------------- layout

  function AddFileMsg(path: Bytes, size: int): Bytes
    requires IsInt32(size)
  {
    [MSG_ADD_SYNC_FILE, (10 + |path|) % 256] + Hex8(size) + path
  }

  const DUMMY_PATH: Bytes := Ascii("/home/aniu/zcd.c")

  function ModeMsg(mode: Byte, port: int): Bytes {
    [MSG_NOTIFY_PROTOCOL, 10 + |DUMMY_PATH|, mode, (port / 256) % 256, port % 256] + Hex8(2000)[3..] + DUMMY_PATH
  }

  /** Sixteen bytes for the address, filled up with the padding byte. */
  function IpField(ip: Bytes, pad: Byte): (s: Bytes)
    ensures |s| == 16
    ensures forall i :: 0 <= i < 16 ==> s[i] == if i < |ip| then ip[i] else pad
  {
    (ip + Repeat(pad, 16))[..16]
  }

  function ProgressMsg(bytesSent: int, size: int, name: Bytes, port: int, ip: Bytes, pad: Byte): (msg: Bytes)
    requires IsInt32(bytesSent) && IsInt32(size)
    ensures |msg| == 36 + |name|
  {
    [GUI_MSG_PROGRESS_NOTIFY, (36 + |name|) % 256, (port / 256) % 256, port % 256]
    + IpField(ip, pad) + Hex8(bytesSent) + Hex8(size) + name
  }

  // ---------------------------------------------------------------- channel

  /** What `sendto(..., strlen(buf), ...)` sends: the message has no terminator of its own, so memory
      behind it may follow. */
  function Datagram(msg: Bytes, junk: Bytes): (d: Bytes)
    ensures |d| <= |msg| + |CString(junk)|
  {
    CStringBound(msg, junk);
    CString(msg + junk)
  }

  /** A datagram overwrites the front of the buffer and a NUL goes behind it. */
  function Received(stale: Bytes, datagram: Bytes): (buf: Bytes)
    requires |stale| == BUFFER && |datagram| < BUFFER
    ensures |buf| == BUFFER
  {
    datagram + [NUL] + stale[|datagram| + 1..]
  }

  // ---------------------------------------------------------------- decoding

  /** The bytes copied out as the path; `None` when the copy leaves the buffer. */
  function DecodePath(buf: Bytes): Option<Bytes>
    requires |buf| == BUFFER
  {
    var len := ToUnsigned(SignedChar(buf[1]));
    if 10 <= len <= BUFFER then Some(buf[10..len]) else None
  }

  function DecodePort(buf: Bytes): nat
    requires |buf| == BUFFER
  {
    Word(buf[3], buf[4])
  }

  function Word(high: int, low: int): int {
    256 * high + low
  }

  datatype Progress = Progress(bytesSent: int, size: int, name: Bytes, port: nat)

  /** What the GUI reads. `a` and `b` are what lies behind the eight digits in its two scratch
      arrays; `None` when the file name leaves its array. */
  function DecodeProgress(buf: Bytes, a: Bytes, b: Bytes): Option<Progress>
    requires |buf| == BUFFER
  {
    var len := SignedChar(buf[1]);
    if 36 <= len < 36 + NAME_ARRAY then
      Some(Progress(ToInt32(Strtol(buf[20..28] + a, 16)), ToInt32(Strtol(buf[28..36] + b, 16)),
                    CString(buf[36..len]), Word(buf[2], buf[3])))
    else None
  }

  // ---------------------------------------------------------------- add-file round trip

  lemma DatagramOfNulFree(msg: Bytes, junk: Bytes)
    requires NulFree(msg)
    ensures Datagram(msg, junk) == msg + CString(junk)
  {
    CStringOfNulFree(msg, junk);
  }

  /** Where the message has its first NUL, the datagram ends, whatever follows in memory. */
  lemma DatagramIsCut(msg: Bytes, junk: Bytes, k: nat)
    requires k < |msg| && NulFree(msg[..k]) && msg[k] == NUL
    ensures Datagram(msg, junk) == msg[..k]
  {
    assert msg + junk == msg[..k] + (msg[k..] + junk);
    CStringOfNulFree(msg[..k], msg[k..] + junk);
  }

  lemma ReceivedFront(stale: Bytes, datagram: Bytes)
    requires |stale| == BUFFER && |datagram| < BUFFER
    ensures Received(stale, datagram)[..|datagram|] == datagram
    ensures Received(stale, datagram)[|datagram|] == NUL
    ensures Received(stale, datagram)[|datagram| + 1..] == stale[|datagram| + 1..]
  {
  }

  /** The layout, byte by byte: type 1, length, size, path. */
  lemma AddFileLayout(path: Bytes, size: int)
    requires IsInt32(size)
    ensures var msg := AddFileMsg(path, size);
            && |msg| == 10 + |path| && msg[0] == 1 && msg[1] == |msg| % 256
            && msg[2..10] == Hex8(size) && msg[10..] == path
  {
    var msg := AddFileMsg(path, size);
    assert msg[2..10] == Hex8(size);
    assert msg[10..] == path;
  }

  /** The path survives the channel, from every stale buffer and with any junk behind the message,
      exactly when its length is at most 117, the largest for which the signed length byte is right. */
  lemma AddFileRoundTrip(path: Bytes, size: int, junk: Bytes, stale: Bytes)
    requires NulFree(path) && IsInt32(size) && |stale| == BUFFER
    requires |Datagram(AddFileMsg(path, size), junk)| < BUFFER
    ensures var buf := Received(stale, Datagram(AddFileMsg(path, size), junk));
            && buf[0] == MSG_ADD_SYNC_FILE
            && (DecodePath(buf) == Some(path) <==> |path| <= 117)
  {
    var buf := Received(stale, Datagram(AddFileMsg(path, size), junk));
    DecodePathByLengthByte(buf);
    if (10 + |path|) % 256 == 0 {
      DatagramIsCut(AddFileMsg(path, size), junk, 1);
    } else {
      AddFileArrives(path, size, junk, stale);
    }
  }

  /** The length byte is a signed char: above 127 the copy runs out of the buffer. */
  lemma DecodePathByLengthByte(buf: Bytes)
    requires |buf| == BUFFER
    ensures DecodePath(buf) == if 10 <= buf[1] < 128 then Some(buf[10..buf[1]]) else None
  {
    assert SignedChar(buf[1]) < 0 ==> ToUnsigned(SignedChar(buf[1])) > BUFFER;
  }

  /** A length byte that is not zero keeps the message whole, and the receiver sees it in front. */
  lemma AddFileArrives(path: Bytes, size: int, junk: Bytes, stale: Bytes)
    requires NulFree(path) && IsInt32(size) && |stale| == BUFFER && (10 + |path|) % 256 != 0
    requires |Datagram(AddFileMsg(path, size), junk)| < BUFFER
    ensures var buf := Received(stale, Datagram(AddFileMsg(path, size), junk));
            && 10 + |path| < BUFFER && buf[0] == MSG_ADD_SYNC_FILE
            && buf[1] == (10 + |path|) % 256 && buf[10..10 + |path|] == path
  {
    var msg := AddFileMsg(path, size);
    NulFreeAppend([MSG_ADD_SYNC_FILE, (10 + |path|) % 256], Hex8(size));
    NulFreeAppend([MSG_ADD_SYNC_FILE, (10 + |path|) % 256] + Hex8(size), path);
    DatagramOfNulFree(msg, junk);
    var buf := Received(stale, Datagram(msg, junk));
    assert buf[10..10 + |path|] == msg[10..] == path;
  }

  /** The copied path has no terminator of its own: used as a string, it goes on with what the heap
      holds behind it, and is the path sent exactly if that is nothing or starts with a NUL. */
  lemma PathRunsOn(path: Bytes, heap: Bytes)
    requires NulFree(path)
    ensures CString(path + heap) == path + CString(heap)
    ensures CString(path + heap) == path <==> heap == [] || heap[0] == NUL
  {
    CStringOfNulFree(path, heap);
    assert CString(heap) == [] <==> heap == [] || heap[0] == NUL;
    assert |path + CString(heap)| == |path| + |CString(heap)|;
  }

  // ---------------------------------------------------------------- mode and port

  /** The layout, byte by byte: type 2, length 26, mode, port with its high byte first, the end of a size
      field for 2000, and a fixed path. */
  lemma ModeLayout(mode: Byte, port: int)
    ensures var msg := ModeMsg(mode, port);
            && |msg| == 26 && msg[0] == 2 && msg[1] == 26 && msg[2] == mode
            && msg[3] == (port / 256) % 256 && msg[4] == port % 256
            && msg[5..10] == Hex8(2000)[3..] && msg[10..] == Ascii("/home/aniu/zcd.c")
  {
    var msg := ModeMsg(mode, port);
    assert msg[5..10] == Hex8(2000)[3..];
    assert msg[10..] == DUMMY_PATH;
  }

  /** The mode and port message for every int port: the mode arrives; the port arrives modulo 2^16
      if its high byte is not zero, a zero low byte included; otherwise the daemon takes whatever byte
      an earlier message left at position 4. */
  lemma ModeRoundTrip(mode: Byte, port: int, junk: Bytes, stale: Bytes)
    requires mode != NUL && |stale| == BUFFER
    requires |Datagram(ModeMsg(mode, port), junk)| < BUFFER
    ensures var buf := Received(stale, Datagram(ModeMsg(mode, port), junk));
            && buf[0] == MSG_NOTIFY_PROTOCOL && buf[2] == mode
            && DecodePort(buf) == if (port / 256) % 256 != 0 then port % 0x1_0000 else stale[4]
  {
    var msg := ModeMsg(mode, port);
    var hi, lo := (port / 256) % 256, port % 256;
    assert port % 0x1_0000 == 256 * hi + lo;
    if hi == 0 {
      DatagramIsCut(msg, junk, 3);
    } else if lo == 0 {
      DatagramIsCut(msg, junk, 4);
    } else {
      FrontSurvives(msg, junk, 5);
    }
    ReceivedFront(stale, Datagram(msg, junk));
  }

  lemma FrontSurvives(msg: Bytes, junk: Bytes, k: nat)
    requires k <= |msg| && NulFree(msg[..k])
    ensures msg[..k] <= Datagram(msg, junk)
  {
    assert msg + junk == msg[..k] + (msg[k..] + junk);
    CStringOfNulFree(msg[..k], msg[k..] + junk);
  }

  /** For a port number proper, the round trip holds exactly from 256 up, or by luck. */
  lemma PortArrivesIff(mode: Byte, port: int, junk: Bytes, stale: Bytes)
    requires mode != NUL && |stale| == BUFFER && 0 <= port < 0x1_0000
    requires |Datagram(ModeMsg(mode, port), junk)| < BUFFER
    ensures DecodePort(Received(stale, Datagram(ModeMsg(mode, port), junk))) == port
            <==> 256 <= port || stale[4] == port
  {
    ModeRoundTrip(mode, port, junk, stale);
  }

  /** The luck depends on the history: after an added file a small port is read as 32, the blank in
      the file-size field; after a mode message with a large port, as that port's low byte. */
  lemma SmallPortReadsHistory(mode: Byte, port: int, junk: Bytes, stale: Bytes,
                              path: Bytes, earlierMode: Byte, earlierPort: int, earlierJunk: Bytes)
    requires mode != NUL && earlierMode != NUL && 0 <= port < 256 <= earlierPort < 0x1_0000
    requires |stale| == BUFFER && NulFree(path) && |path| <= 117
    requires |Datagram(ModeMsg(mode, port), junk)| < BUFFER
    requires |Datagram(AddFileMsg(path, 20000), earlierJunk)| < BUFFER
    requires |Datagram(ModeMsg(earlierMode, earlierPort), earlierJunk)| < BUFFER
    ensures var afterAdd := Received(stale, Datagram(AddFileMsg(path, 20000), earlierJunk));
            DecodePort(Received(afterAdd, Datagram(ModeMsg(mode, port), junk))) == 32
    ensures var afterMode := Received(stale, Datagram(ModeMsg(earlierMode, earlierPort), earlierJunk));
            DecodePort(Received(afterMode, Datagram(ModeMsg(mode, port), junk))) == earlierPort % 256
  {
    var add := AddFileMsg(path, DUMMY_SIZE);
    DatagramOfNulFree(add, earlierJunk);
    var afterAdd := Received(stale, Datagram(add, earlierJunk));
    assert |Digits(DUMMY_SIZE, 16)| == 4;
    assert Hex8(DUMMY_SIZE)[2] == SPACE;
    assert afterAdd[4] == add[4] == SPACE;
    ModeRoundTrip(mode, port, junk, afterAdd);
    var afterMode := Received(stale, Datagram(ModeMsg(earlierMode, earlierPort), earlierJunk));
    ModeRoundTrip(earlierMode, earlierPort, earlierJunk, stale);
    assert DecodePort(afterMode) == earlierPort;
    ModeRoundTrip(mode, port, junk, afterMode);
  }

  // ---------------------------------------------------------------- progress

  lemma IpFieldNulFree(ip: Bytes, pad: Byte)
    requires NulFree(ip) && pad != NUL
    ensures NulFree(IpField(ip, pad))
  {
    forall i | 0 <= i < 16 ensures IpField(ip, pad)[i] != NUL {
      assert i < |ip| ==> ip[i] in ip;
    }
  }

  predicate BothBytes(port: int) {
    (port / 256) % 256 != 0 && port % 256 != 0
  }

  lemma ProgressMsgNulFree(bytesSent: int, size: int, name: Bytes, port: int, ip: Bytes, pad: Byte)
    requires IsInt32(bytesSent) && IsInt32(size) && NulFree(name) && NulFree(ip) && pad != NUL
    requires BothBytes(port) && (36 + |name|) % 256 != 0
    ensures NulFree(ProgressMsg(bytesSent, size, name, port, ip, pad))
  {
    IpFieldNulFree(ip, pad);
    var front := [GUI_MSG_PROGRESS_NOTIFY, (36 + |name|) % 256, (port / 256) % 256, port % 256];
    assert NulFree(front);
    NulFreeAppend(front, IpField(ip, pad));
    NulFreeAppend(front + IpField(ip, pad), Hex8(bytesSent));
    NulFreeAppend(front + IpField(ip, pad) + Hex8(bytesSent), Hex8(size));
    NulFreeAppend(front + IpField(ip, pad) + Hex8(bytesSent) + Hex8(size), name);
  }

  lemma NulFreeAppend(a: Bytes, b: Bytes)
    requires NulFree(a) && NulFree(b)
    ensures NulFree(a + b)
  {
  }

  /** The layout, byte by byte: type 1, length, port with its high byte first, address filled up with the
      padding byte, bytes sent, file length, name. */
  lemma ProgressFields(bytesSent: int, size: int, name: Bytes, port: int, ip: Bytes, pad: Byte)
    requires IsInt32(bytesSent) && IsInt32(size)
    ensures var msg := ProgressMsg(bytesSent, size, name, port, ip, pad);
            && |msg| == 36 + |name|
            && msg[0] == 1 && msg[1] == |msg| % 256
            && (forall i :: 0 <= i < 16 ==> msg[4 + i] == if i < |ip| then ip[i] else pad)
            && msg[2] == (port / 256) % 256 && msg[3] == port % 256
            && msg[20..28] == Hex8(bytesSent) && msg[28..36] == Hex8(size) && msg[36..] == name
  {
    var front := [GUI_MSG_PROGRESS_NOTIFY, (36 + |name|) % 256, (port / 256) % 256, port % 256];
    FiveParts(front, IpField(ip, pad), Hex8(bytesSent), Hex8(size), name);
    var msg := ProgressMsg(bytesSent, size, name, port, ip, pad);
    assert forall i :: 0 <= i < 16 ==> msg[4..20][i] == msg[4 + i];
  }

  lemma FiveParts(front: Bytes, ip: Bytes, a: Bytes, b: Bytes, name: Bytes)
    requires |front| == 4 && |ip| == 16 && |a| == 8 && |b| == 8
    ensures var msg := front + ip + a + b + name;
            msg[..4] == front && msg[4..20] == ip && msg[20..28] == a && msg[28..36] == b && msg[36..] == name
            && msg[0] == front[0] && msg[1] == front[1] && msg[2] == front[2] && msg[3] == front[3]
  {
  }

  /** The progress report arrives whole, from every stale buffer and with any junk behind it, when the
      name fits its array and neither byte of the port is zero. Negative counts survive as well. */
  lemma ProgressRoundTrip(p: Progress, ip: Bytes, pad: Byte, junk: Bytes, stale: Bytes, a: Bytes, b: Bytes)
    requires IsInt32(p.bytesSent) && IsInt32(p.size) && NulFree(p.name) && |p.name| < NAME_ARRAY
    requires NulFree(ip) && pad != NUL && p.port < 0x1_0000 && BothBytes(p.port)
    requires |stale| == BUFFER && Stops(p.bytesSent, a) && Stops(p.size, b)
    requires |Datagram(ProgressMsg(p.bytesSent, p.size, p.name, p.port, ip, pad), junk)| < BUFFER
    ensures var buf := Received(stale, Datagram(ProgressMsg(p.bytesSent, p.size, p.name, p.port, ip, pad), junk));
            buf[0] == GUI_MSG_PROGRESS_NOTIFY && DecodeProgress(buf, a, b) == Some(p)
  {
    var msg := ProgressMsg(p.bytesSent, p.size, p.name, p.port, ip, pad);
    var d := Datagram(msg, junk);
    ProgressMsgNulFree(p.bytesSent, p.size, p.name, p.port, ip, pad);
    DatagramOfNulFree(msg, junk);
    ProgressFields(p.bytesSent, p.size, p.name, p.port, ip, pad);
    ProgressDecodesFrom(Received(stale, d), msg, p, a, b);
  }

  /** Decoding a buffer whose front is the message. */
  lemma ProgressDecodesFrom(buf: Bytes, msg: Bytes, p: Progress, a: Bytes, b: Bytes)
    requires |buf| == BUFFER && |msg| == 36 + |p.name| <= BUFFER && msg <= buf
    requires IsInt32(p.bytesSent) && IsInt32(p.size) && NulFree(p.name) && |p.name| < NAME_ARRAY
    requires p.port < 0x1_0000 && Stops(p.bytesSent, a) && Stops(p.size, b)
    requires msg[1] == |msg| && msg[2] == p.port / 256 && msg[3] == p.port % 256
    requires msg[20..28] == Hex8(p.bytesSent) && msg[28..36] == Hex8(p.size) && msg[36..] == p.name
    ensures DecodeProgress(buf, a, b) == Some(p)
  {
    assert buf[20..28] == msg[20..28];
    assert buf[28..36] == msg[28..36];
    assert buf[36..|msg|] == msg[36..];
    StrtolInvertsHex8(p.bytesSent, a);
    StrtolInvertsHex8(p.size, b);
    CStringOfNulFree(p.name, []);
    assert p.name + [] == p.name;
  }

  /** With a zero byte in the port the message is cut before its counts, and the GUI shows those of
      an earlier message. */
  lemma CutProgressShowsStaleCounts(p: Progress, ip: Bytes, pad: Byte, junk: Bytes, stale: Bytes)
    requires IsInt32(p.bytesSent) && IsInt32(p.size) && p.port < 0x1_0000 && !BothBytes(p.port)
    requires |stale| == BUFFER
    ensures var d := Datagram(ProgressMsg(p.bytesSent, p.size, p.name, p.port, ip, pad), junk);
            |d| < 4 && Received(stale, d)[4..] == stale[4..]
  {
    var msg := ProgressMsg(p.bytesSent, p.size, p.name, p.port, ip, pad);
    var cut := if (36 + |p.name|) % 256 == 0 then 1 else if (p.port / 256) % 256 == 0 then 2 else 3;
    DatagramIsCut(msg, junk, cut);
  }

  /** The exact condition for all stale buffers at once: a name of at most 49 bytes and no zero byte in
      the port. */
  lemma ProgressRoundTripIff(p: Progress, ip: Bytes, pad: Byte, junk: Bytes, a: Bytes, b: Bytes)
    requires IsInt32(p.bytesSent) && IsInt32(p.size) && NulFree(p.name) && p.port < 0x1_0000
    requires NulFree(ip) && pad != NUL && Stops(p.bytesSent, a) && Stops(p.size, b)
    requires |Datagram(ProgressMsg(p.bytesSent, p.size, p.name, p.port, ip, pad), junk)| < BUFFER
    ensures var d := Datagram(ProgressMsg(p.bytesSent, p.size, p.name, p.port, ip, pad), junk);
            (forall stale: Bytes :: |stale| == 300 ==> DecodeProgress(Received(stale, d), a, b) == Some(p))
            <==> |p.name| <= 49 && BothBytes(p.port)
  {
    var d := Datagram(ProgressMsg(p.bytesSent, p.size, p.name, p.port, ip, pad), junk);
    if |p.name| < NAME_ARRAY && BothBytes(p.port) {
      forall stale: Bytes | |stale| == BUFFER ensures DecodeProgress(Received(stale, d), a, b) == Some(p) {
        ProgressRoundTrip(p, ip, pad, junk, stale, a, b);
      }
    } else {
      var stale := StaleCounter(if p.bytesSent == 1 then 2 else 1);
      if !BothBytes(p.port) {
        CutProgressShowsStaleCounts(p, ip, pad, junk, stale);
        StaleCountIsRead(p, d, stale, a, b);
      } else {
        LongNameIsLost(p, ip, pad, junk, stale, a, b);
      }
      assert |stale| == BUFFER;
    }
  }

  /** A buffer in which an earlier report left the count `n`. */
  function StaleCounter(n: int): (s: Bytes)
    requires IsInt32(n)
    ensures |s| == BUFFER && s[20..28] == Hex8(n)
  {
    var s := Repeat(SPACE, 20) + Hex8(n) + Repeat(SPACE, BUFFER - 28);
    assert s[20..28] == Hex8(n);
    s
  }

  lemma StaleCountIsRead(p: Progress, d: Bytes, stale: Bytes, a: Bytes, b: Bytes)
    requires IsInt32(p.bytesSent) && Stops(p.bytesSent, a) && |d| < 4
    requires |stale| == BUFFER && stale[20..28] == Hex8(if p.bytesSent == 1 then 2 else 1)
    ensures DecodeProgress(Received(stale, d), a, b) != Some(p)
  {
    var n := if p.bytesSent == 1 then 2 else 1;
    assert Received(stale, d)[20..28] == stale[20..28];
    StrtolInvertsHex8(n, a);
  }

  lemma LongNameIsLost(p: Progress, ip: Bytes, pad: Byte, junk: Bytes, stale: Bytes, a: Bytes, b: Bytes)
    requires IsInt32(p.bytesSent) && IsInt32(p.size) && NulFree(p.name) && p.port < 0x1_0000
    requires NulFree(ip) && pad != NUL && BothBytes(p.port) && |p.name| >= NAME_ARRAY
    requires |stale| == BUFFER
    requires |Datagram(ProgressMsg(p.bytesSent, p.size, p.name, p.port, ip, pad), junk)| < BUFFER
    ensures var d := Datagram(ProgressMsg(p.bytesSent, p.size, p.name, p.port, ip, pad), junk);
            DecodeProgress(Received(stale, d), a, b) != Some(p)
  {
    var msg := ProgressMsg(p.bytesSent, p.size, p.name, p.port, ip, pad);
    var d := Datagram(msg, junk);
    if (36 + |p.name|) % 256 == 0 {
      DatagramIsCut(msg, junk, 1);
    } else {
      ProgressMsgNulFree(p.bytesSent, p.size, p.name, p.port, ip, pad);
      DatagramOfNulFree(msg, junk);
      ProgressFields(p.bytesSent, p.size, p.name, p.port, ip, pad);
      assert Received(stale, d)[1] == msg[1];
    }
  }
}
