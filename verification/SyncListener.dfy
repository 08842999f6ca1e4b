/** Both ends of the local message channel, as the code runs them: the encoders that fill a message
    byte by byte, the daemon's listener and the GUI's listener with their reused buffers. */
module SyncListener {
  import opened CText
  import opened IpcMessages
  import opened SyncRepos
  import opened SyncWorkers

  const SLASH: Byte := 47

  /** The part behind the last slash. */
  function BaseName(path: Bytes): (name: Bytes)
    ensures 47 !in name && |name| <= |path| && path[|path| - |name|..] == name
    ensures name == path || path[|path| - |name| - 1] == 47
  {
    if SLASH !in path then path else BaseName(path[1..])
  }

  // ---------------------------------------------------------------- encoders

  /** The copying loop that every encoder and decoder uses. */
  method CopyInto(dst: array<Byte>, at: nat, src: Bytes)
    requires at + |src| <= dst.Length
    modifies dst
    ensures dst[at..at + |src|] == src
    ensures forall k :: 0 <= k < dst.Length && !(at <= k < at + |src|) ==> dst[k] == old(dst[k])
  {
    for i := 0 to |src|
      invariant forall k :: 0 <= k < dst.Length ==> dst[k] == if at <= k < at + i then src[k - at] else old(dst[k])
    {
      dst[at + i] := src[i];
    }
  }

  method SetAddSyncFileMsg(path: Bytes, fileLen: int) returns (res: array<Byte>)
    requires IsInt32(fileLen)
    ensures fresh(res) && res[..] == AddFileMsg(path, fileLen)
  {
    var buffer := Hex8(fileLen);
    var msgLen := 10 + |path|;
    res := new Byte[msgLen];
    res[0] := MSG_ADD_SYNC_FILE;
    res[1] := msgLen % 256;
    CopyInto(res, 2, buffer);
    CopyInto(res, 10, path);
    assert res[2..10] == buffer;
    assert res[..] == res[..2] + res[2..10] + res[10..10 + |path|];
  }

  /** The port is given as text. */
  method SetTransModeMsg(mode: Byte, port: Bytes) returns (res: array<Byte>)
    ensures fresh(res) && res[..] == ModeMsg(mode, Atoi(port))
  {
    var portNum := Atoi(port);
    res := FillTransModeMsg(mode, (portNum / 256) % 256, portNum % 256, Hex8(2000));
  }

  /** The message starts as an add-file message for a fixed path; then the mode and the two bytes of the
      port overwrite the front of its size field. */
  method FillTransModeMsg(mode: Byte, high: Byte, low: Byte, buffer: Bytes) returns (res: array<Byte>)
    requires |buffer| == 8
    ensures fresh(res)
    ensures res[..] == [MSG_NOTIFY_PROTOCOL, 10 + |DUMMY_PATH|, mode, high, low] + buffer[3..] + DUMMY_PATH
  {
    var msgLen := 10 + |DUMMY_PATH|;
    res := new Byte[msgLen];
    res[0] := MSG_NOTIFY_PROTOCOL;
    res[1] := msgLen;
    CopyInto(res, 2, buffer);
    assert res[5..10] == buffer[3..];
    res[2] := mode;
    res[3] := high;
    res[4] := low;
    CopyInto(res, 10, DUMMY_PATH);
    ThreeParts(res[..], [MSG_NOTIFY_PROTOCOL, msgLen, mode, high, low], buffer[3..], DUMMY_PATH);
  }

  lemma ThreeParts(msg: Bytes, front: Bytes, middle: Bytes, end: Bytes)
    requires |msg| == |front| + |middle| + |end|
    requires msg[..|front|] == front && msg[|front|..|front| + |middle|] == middle && msg[|front| + |middle|..] == end
    ensures msg == front + middle + end
  {
    assert msg == msg[..|front|] + msg[|front|..|front| + |middle|] + msg[|front| + |middle|..];
  }

  /** The port as the user types it. */
  method TransModeMsgForPort(mode: Byte, port: int) returns (res: array<Byte>)
    requires IsInt32(port)
    ensures fresh(res) && res[..] == ModeMsg(mode, port)
  {
    AtoiOfDecimal(port);
    res := SetTransModeMsg(mode, Decimal(port));
  }

  /** Fills the address field with padding, then writes the address over it. An address longer than the
      field runs into the counts, which are written afterwards. */
  method PutAddress(res: array<Byte>, destIp: Bytes, pad: Byte)
    requires res.Length >= 36 && |destIp| < 20
    modifies res
    ensures res[4..20] == IpField(destIp, pad)
    ensures res[..4] == old(res[..4])
  {
    for i := 4 to 20
      invariant res[..4] == old(res[..4])
      invariant forall k :: 4 <= k < i ==> res[k] == pad
    {
      res[i] := pad;
    }
    for i := 4 to 4 + |destIp|
      invariant res[..4] == old(res[..4])
      invariant forall k :: 4 <= k < 20 ==> res[k] == if k < i then destIp[k - 4] else pad
    {
      res[i] := destIp[i - 4];
    }
  }

  method PutCountsAndName(res: array<Byte>, byteSend: Bytes, fileSize: Bytes, filename: Bytes)
    requires |byteSend| == 8 && |fileSize| == 8 && res.Length == 36 + |filename|
    modifies res
    ensures res[..] == old(res[..20]) + byteSend + fileSize + filename
  {
    for i := 0 to 8
      invariant res[..20] == old(res[..20])
      invariant forall k :: 0 <= k < i ==> res[20 + k] == byteSend[k] && res[28 + k] == fileSize[k]
    {
      res[20 + i] := byteSend[i];
      res[28 + i] := fileSize[i];
    }
    CopyInto(res, 36, filename);
    assert res[..] == res[..20] + res[20..28] + res[28..36] + res[36..36 + |filename|];
  }

  /** `pad` is the byte that a pointer to a literal leaves when it is cut to a char. */
  method SetProgressNotifyInfo(byteSend: int, fileSize: int, filename: Bytes, port: int, destIp: Bytes, pad: Byte)
    returns (res: array<Byte>)
    requires IsInt32(byteSend) && IsInt32(fileSize) && |destIp| < 20
    ensures fresh(res) && res[..] == ProgressMsg(byteSend, fileSize, filename, port, destIp, pad)
  {
    var msgLen := 36 + |filename|;
    res := new Byte[msgLen](_ => pad);
    res[0] := GUI_MSG_PROGRESS_NOTIFY;
    res[1] := msgLen % 256;
    res[2] := (port / 256) % 256;
    res[3] := port % 256;
    assert res[..4] == [GUI_MSG_PROGRESS_NOTIFY, msgLen % 256, (port / 256) % 256, port % 256];
    PutAddress(res, destIp, pad);
    ghost var front := [GUI_MSG_PROGRESS_NOTIFY, msgLen % 256, (port / 256) % 256, port % 256];
    assert res[..4] == front;
    assert res[..20] == front + IpField(destIp, pad);
    PutCountsAndName(res, Hex8(byteSend), Hex8(fileSize), filename);
  }

  // ---------------------------------------------------------------- the daemon's listener

  class DaemonListener {
    const buf: array<Byte>
    const repos: Repos
    var mode: Mode
    var tcpPort: int
    var udpPort: int

    ghost predicate Valid()
      reads this, repos, repos.slots
    {
      buf.Length == BUFFER && repos.Valid() && buf as object != repos.slots
    }

    /** The start of the daemon: UDP is on duty, and both ports have their defaults. */
    constructor (peers: seq<Peer>, fill: Task)
      requires |peers| == MAX_PEER_NUM
      ensures Valid() && fresh(buf) && fresh(repos) && fresh(repos.slots)
      ensures repos.InBounds() && repos.Pending() == [] && repos.peers == peers
      ensures mode == Udp && tcpPort == 20000 && udpPort == 30000 && buf.Length == 300
    {
      buf := new Byte[BUFFER];
      repos := new Repos(peers, fill);
      mode, tcpPort, udpPort := Udp, 20000, 30000;
    }

    method Receive(datagram: Bytes)
      requires Valid() && |datagram| < BUFFER
      modifies buf
      ensures Valid() && buf[..] == Received(old(buf[..]), datagram)
    {
      CopyInto(buf, 0, datagram);
      buf[|datagram|] := NUL;
    }

    /** One turn of the listening loop. `heap` is what lies behind the block that the path is copied to,
        and `fileSize` what the file system says about the path. False when the path is copied from
        outside the buffer or is too long for a slot. */
    method Handle(datagram: Bytes, heap: Bytes, fileSize: int) returns (ok: bool)
      requires Valid() && |datagram| < BUFFER
      modifies this`mode, this`tcpPort, this`udpPort, buf, repos`head, repos`enqueued, repos.slots
      ensures Valid() && buf[..] == Received(old(buf[..]), datagram)
      ensures ok <==> (buf[0] == 1 ==>
                         DecodePath(buf[..]).Some? && |CString(DecodePath(buf[..]).value + heap)| < 150)
      ensures buf[0] == 1 && ok ==>
                var path := CString(DecodePath(buf[..]).value + heap);
                repos.enqueued == old(repos.enqueued) + FanOut(Request(BaseName(path), path, fileSize), repos.peers)
      ensures buf[0] != 1 || !ok ==> repos.enqueued == old(repos.enqueued)
      ensures buf[0] != 2 ==>
                mode == old(mode) && tcpPort == old(tcpPort) && udpPort == old(udpPort)
      ensures buf[0] == 2 && buf[2] == 1 ==>
                mode == Tcp && tcpPort == DecodePort(buf[..]) && udpPort == old(udpPort)
      ensures buf[0] == 2 && buf[2] != 1 ==>
                mode == Udp && udpPort == DecodePort(buf[..]) && tcpPort == old(tcpPort)
    {
      Receive(datagram);
      ok := true;
      if buf[0] == MSG_ADD_SYNC_FILE {
        var decoded := DecodePath(buf[..]);
        match decoded
        case None => ok := false;
        case Some(copied) =>
          var path := CString(copied + heap);
          ok := |path| < PATH_SLOT;
          if ok {
            repos.AddItem(Request(BaseName(path), path, fileSize));
          }
      } else if buf[0] == MSG_NOTIFY_PROTOCOL {
        var port := Word(buf[3], buf[4]);
        if buf[2] == PROTOCOL_TCP {
          tcpPort := port;
          mode := Tcp;
        } else {
          udpPort := port;
          mode := Udp;
        }
      }
    }
  }

  // ---------------------------------------------------------------- GUI to daemon, end to end

  /** The GUI adds a file: whatever the listener's buffer held and whatever follows the message in
      memory, the queue grows by one task per targeted peer, for the path sent and what the daemon's heap
      adds to it. Each task has the path and its base name exactly if the heap adds nothing and the base
      name has room in a slot. */
  method AddFileFromGui(listener: DaemonListener, path: Bytes, fileSize: int, junk: Bytes, heap: Bytes)
    requires listener.Valid() && NulFree(path) && |path| <= 117 && |path| + |CString(heap)| < PATH_SLOT
    requires |Datagram(AddFileMsg(path, 20000), junk)| < BUFFER
    modifies listener, listener.buf, listener.repos, listener.repos.slots
    ensures listener.Valid()
    ensures var p := path + CString(heap);
            listener.repos.enqueued ==
            old(listener.repos.enqueued) + FanOut(Request(BaseName(p), p, fileSize), listener.repos.peers)
    ensures forall t :: t in listener.repos.enqueued[|old(listener.repos.enqueued)|..] ==>
              (t.filename == BaseName(path) && t.filepath == path
               <==> (heap == [] || heap[0] == NUL) && |BaseName(path)| <= 31)
    ensures listener.repos.removed == old(listener.repos.removed)
    ensures listener.mode == old(listener.mode)
    ensures listener.tcpPort == old(listener.tcpPort) && listener.udpPort == old(listener.udpPort)
  {
    var msg := SetAddSyncFileMsg(path, DUMMY_SIZE);
    AddFileRoundTrip(path, DUMMY_SIZE, junk, listener.buf[..]);
    PathRunsOn(path, heap);
    ghost var p := CString(path + heap);
    ghost var before := listener.repos.enqueued;
    var ok := listener.Handle(Datagram(msg[..], junk), heap, fileSize);
    ghost var tasks := FanOut(Request(BaseName(p), p, fileSize), listener.repos.peers);
    assert listener.repos.enqueued[|before|..] == tasks;
    QueuedAsSentIff(path, heap, fileSize, listener.repos.peers);
  }

  lemma QueuedAsSentIff(path: Bytes, heap: Bytes, fileSize: int, peers: seq<Peer>)
    requires NulFree(path)
    ensures var p := CString(path + heap);
            forall t :: t in FanOut(Request(BaseName(p), p, fileSize), peers) ==>
              (t.filename == BaseName(path) && t.filepath == path
               <==> (heap == [] || heap[0] == NUL) && |BaseName(path)| < NAME_SLOT)
  {
    var p := CString(path + heap);
    PathRunsOn(path, heap);
    NameReadsBackIff(Request(BaseName(p), p, fileSize));
    FanOutIsOneTaskPerTarget(Request(BaseName(p), p, fileSize), peers);
  }

  /** The GUI switches the mode with any int for a port, given in decimal: the daemon has that mode, and the
      port modulo 2^16 if its high byte is not zero, so every port number from 256 up exactly; otherwise the
      byte that an earlier message left in its buffer. The other mode's port and the queue are untouched. */
  method SwitchModeFromGui(listener: DaemonListener, toTcp: bool, port: int, junk: Bytes)
    requires listener.Valid() && IsInt32(port)
    requires |Datagram(ModeMsg(if toTcp then 1 else 2, port), junk)| < BUFFER
    modifies listener, listener.buf, listener.repos, listener.repos.slots
    ensures listener.Valid() && listener.repos.enqueued == old(listener.repos.enqueued)
    ensures listener.repos.removed == old(listener.repos.removed)
    ensures listener.mode == if toTcp then Tcp else Udp
    ensures var got := if (port / 256) % 256 != 0 then port % 0x1_0000 else old(listener.buf[4]);
            && listener.tcpPort == (if toTcp then got else old(listener.tcpPort))
            && listener.udpPort == (if toTcp then old(listener.udpPort) else got)
            && (256 <= port < 0x1_0000 ==> got == port)
  {
    var mode := if toTcp then PROTOCOL_TCP else PROTOCOL_UDP;
    var msg := TransModeMsgForPort(mode, port);
    var datagram := Datagram(msg[..], junk);
    ghost var received := Received(listener.buf[..], datagram);
    ModeRoundTrip(mode, port, junk, listener.buf[..]);
    assert received[0] == MSG_NOTIFY_PROTOCOL && received[2] == mode;
    var ok := listener.Handle(datagram, [], 0);
    assert listener.buf[..] == received;
  }

  // ---------------------------------------------------------------- the GUI's listener

  class GuiListener {
    const buf: array<Byte>
    const byteSentHex: array<Byte>
    const fileLenHex: array<Byte>
    const fileName: array<Byte>

    ghost predicate Valid() {
      && buf.Length == BUFFER && byteSentHex.Length == 20 && fileLenHex.Length == 20 && fileName.Length == NAME_ARRAY
      && buf != byteSentHex && buf != fileLenHex && buf != fileName
      && byteSentHex != fileLenHex && byteSentHex != fileName && fileLenHex != fileName
    }

    /** One turn of the listening loop; `None` also for a message that is no progress report. */
    method Handle(datagram: Bytes) returns (res: Option<Progress>)
      requires Valid() && |datagram| < BUFFER
      modifies buf, byteSentHex, fileLenHex, fileName
      ensures buf[..] == Received(old(buf[..]), datagram)
      ensures res == if buf[0] != GUI_MSG_PROGRESS_NOTIFY then None
                     else DecodeProgress(buf[..], old(byteSentHex[8..]), old(fileLenHex[8..]))
      ensures byteSentHex[8..] == old(byteSentHex[8..]) && fileLenHex[8..] == old(fileLenHex[8..])
    {
      CopyInto(buf, 0, datagram);
      buf[|datagram|] := NUL;
      assert buf[..] == Received(old(buf[..]), datagram);
      if buf[0] == GUI_MSG_PROGRESS_NOTIFY {
        res := ReadProgress();
      } else {
        res := None;
      }
    }

    /** The progress case of the listening loop, after a datagram has reached the buffer: copy the name
        and the two counts, then convert. `None` when the copy would leave the name's array. */
    method ReadProgress() returns (res: Option<Progress>)
      requires Valid()
      modifies byteSentHex, fileLenHex, fileName
      ensures res == DecodeProgress(buf[..], old(byteSentHex[8..]), old(fileLenHex[8..]))
      ensures byteSentHex[8..] == old(byteSentHex[8..]) && fileLenHex[8..] == old(fileLenHex[8..])
    {
      var port := Word(buf[2], buf[3]);
      var msgLen := SignedChar(buf[1]);
      if msgLen < 36 || 36 + NAME_ARRAY <= msgLen {
        return None;
      }
      CopyInto(fileName, 0, buf[36..msgLen]);
      fileName[msgLen - 36] := NUL;
      ghost var a, b := byteSentHex[8..], fileLenHex[8..];
      CopyInto(byteSentHex, 0, buf[20..28]);
      CopyInto(fileLenHex, 0, buf[28..36]);
      assert byteSentHex[..] == buf[20..28] + a;
      assert fileLenHex[..] == buf[28..36] + b;
      assert fileName[..msgLen - 36] == buf[36..msgLen];
      StringEndsAtNul(fileName[..], msgLen - 36);
      res := Some(Progress(ToInt32(Strtol(byteSentHex[..], 16)), ToInt32(Strtol(fileLenHex[..], 16)),
                           CString(fileName[..]), port));
    }
  }

  /** Daemon to GUI, end to end: whatever earlier messages left behind, the GUI reads the very report
      that was sent, provided the name fits and the port has no zero byte. */
  method ReportToGui(gui: GuiListener, p: Progress, destIp: Bytes, pad: Byte, junk: Bytes)
    returns (res: Option<Progress>)
    requires gui.Valid() && IsInt32(p.bytesSent) && IsInt32(p.size) && NulFree(p.name) && |p.name| < NAME_ARRAY
    requires NulFree(destIp) && |destIp| < 20 && pad != NUL && p.port < 0x1_0000 && BothBytes(p.port)
    requires Stops(p.bytesSent, gui.byteSentHex[8..]) && Stops(p.size, gui.fileLenHex[8..])
    requires |Datagram(ProgressMsg(p.bytesSent, p.size, p.name, p.port, destIp, pad), junk)| < BUFFER
    modifies gui.buf, gui.byteSentHex, gui.fileLenHex, gui.fileName
    ensures res == Some(p)
    ensures gui.byteSentHex[8..] == old(gui.byteSentHex[8..]) && gui.fileLenHex[8..] == old(gui.fileLenHex[8..])
  {
    var msg := SetProgressNotifyInfo(p.bytesSent, p.size, p.name, p.port, destIp, pad);
    ProgressRoundTrip(p, destIp, pad, junk, gui.buf[..], gui.byteSentHex[8..], gui.fileLenHex[8..]);
    res := gui.Handle(Datagram(msg[..], junk));
  }

  lemma StringEndsAtNul(s: Bytes, k: nat)
    requires k < |s| && s[k] == NUL
    ensures CString(s) == CString(s[..k])
  {
    var c := CString(s[..k]);
    if |c| == k {
      assert NulFree(s[..k]);
      assert s == s[..k] + s[k..];
      CStringOfNulFree(s[..k], s[k..]);
    } else {
      CStringIsUnique(s, c);
    }
  }

  lemma CStringIsUnique(s: Bytes, c: Bytes)
    requires NulFree(c) && c <= s && |c| < |s| && s[|c|] == NUL
    ensures CString(s) == c
  {
    assert s == c + s[|c|..];
    CStringOfNulFree(c, s[|c|..]);
  }
}
