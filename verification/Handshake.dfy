/** The start of a transfer: the client writes the file name, waits for a reply, then streams the file;
    the server reads the name, replies, then reads the file. Between them lies a byte stream that the
    network may cut anywhere. */
module Handshake {
  import opened CText
  import opened FileTransfer

  /** The server's file-name array, one byte short of holding a name of its own length terminated. */
  const NAME_READ: nat := 25

  datatype Client = SendingName | AwaitingReply | Streaming | Closed
  datatype Server = ReadingName | Replying | Reading | Done

  /** `sentContent` counts the file bytes written to the stream; `nameRead` is the length of the
      server's name read; `read` is everything the server has read since. */
  datatype State = State(
    name: Bytes, content: Bytes, client: Client, server: Server, toServer: Bytes, toClient: Bytes,
    sentContent: nat, nameRead: nat, filename: Bytes, read: Bytes, written: Bytes)

  const OK: Bytes := Ascii("OK")

  /** `n` is the number of bytes that the step moves, as the file system or the network decides. */
  datatype Label = ClientStep(n: nat) | ServerStep(n: nat)

  function Initial(name: Bytes, content: Bytes): State {
    State(name, content, SendingName, ReadingName, [], [], 0, 0, [], [], [])
  }

  predicate Enabled(s: State, l: Label) {
    match l
    case ClientStep(n) =>
      (match s.client
       case SendingName => true
       case AwaitingReply => s.toClient != []
       case Streaming =>
         && s.sentContent <= |s.content|
         && (s.sentContent < |s.content| ==> 1 <= n <= CHUNK && s.sentContent + n <= |s.content|)
       case Closed => false)
    case ServerStep(n) =>
      (match s.server
       case ReadingName => 1 <= n <= NAME_READ && n <= |s.toServer|
       case Replying => true
       case Reading => if s.toServer == [] then s.client.Closed? else 1 <= n <= CHUNK && n <= |s.toServer|
       case Done => false)
  }

  function Step(s: State, l: Label): State
    requires Enabled(s, l)
  {
    match l
    case ClientStep(n) =>
      (match s.client
       case SendingName => s.(client := AwaitingReply, toServer := s.toServer + s.name)
       case AwaitingReply => s.(client := Streaming, toClient := [])
       case Streaming =>
         if s.sentContent == |s.content| then s.(client := Closed)
         else s.(toServer := s.toServer + s.content[s.sentContent..s.sentContent + n], sentContent := s.sentContent + n)
       case Closed => s)
    case ServerStep(n) =>
      (match s.server
       case ReadingName =>
         s.(server := Replying, toServer := s.toServer[n..], nameRead := n, 
           filename := TrimLineEnd(CString(s.toServer[..n])))
       case Replying => s.(server := Reading, toClient := s.toClient + OK)
       case Reading =>
         if s.toServer == [] then s.(server := Done)
         else s.(toServer := s.toServer[n..], read := s.read + s.toServer[..n],
                 written := s.written + NonZero(s.toServer[..n]))
       case Done => s)
  }

  ghost predicate Run(s: State, ls: seq<Label>, t: State)
    decreases |ls|
  {
    if ls == [] then s == t else Enabled(s, ls[0]) && Run(Step(s, ls[0]), ls[1..], t)
  }

  /** What every interleaving keeps. */
  ghost predicate Inv(s: State) {
    && s.sentContent <= |s.content|
    && s.written == NonZero(s.read)
    && (s.client.SendingName? || s.client.AwaitingReply? ==> s.sentContent == 0)
    && (s.client.Closed? ==> s.sentContent == |s.content|)
    && (s.server.ReadingName? ==> BeforeTheName(s))
    && (s.server.Replying? ==> s.client.AwaitingReply? && s.toClient == [])
    && (s.server.Reading? ==> !s.client.SendingName? && (s.client.AwaitingReply? ==> s.toClient != []))
    && (s.server.Done? ==> s.client.Closed? && s.toServer == [])
    && (!s.server.ReadingName? ==>
          NameTaken(s) && Carried(s.read, s.toServer, s.name[s.nameRead..], s.content[..s.sentContent]))
  }

  ghost predicate BeforeTheName(s: State) {
    && (s.client.SendingName? || s.client.AwaitingReply?)
    && s.nameRead == 0 && s.toClient == [] && s.read == []
    && s.toServer == if s.client.AwaitingReply? then s.name else []
  }

  ghost predicate NameTaken(s: State) {
    1 <= s.nameRead <= |s.name| && s.nameRead <= NAME_READ && s.filename == TrimLineEnd(CString(s.name[..s.nameRead]))
  }

  /** What was read and what is in transit are the rest of the name and the content sent. */
  ghost predicate Carried(read: Bytes, inTransit: Bytes, rest: Bytes, sent: Bytes) {
    read + inTransit == rest + sent
  }

  lemma StreamingKeepsInv(s: State, n: nat)
    requires Inv(s) && Enabled(s, ClientStep(n)) && s.client.Streaming?
    ensures Inv(Step(s, ClientStep(n)))
  {
    if s.sentContent < |s.content| {
      StreamGrows(s.read, s.toServer, s.name[s.nameRead..], s.content, s.sentContent, n);
    }
  }

  lemma StreamGrows(read: Bytes, inTransit: Bytes, rest: Bytes, content: Bytes, m: nat, n: nat)
    requires m + n <= |content| && Carried(read, inTransit, rest, content[..m])
    ensures Carried(read, inTransit + content[m..m + n], rest, content[..m + n])
  {
    var chunk := content[m..m + n];
    assert content[..m + n] == content[..m] + chunk;
    Reassociate(read, inTransit, chunk);
    Reassociate(rest, content[..m], chunk);
  }

  lemma StreamIsRead(read: Bytes, inTransit: Bytes, rest: Bytes, sent: Bytes, n: nat)
    requires n <= |inTransit| && Carried(read, inTransit, rest, sent)
    ensures Carried(read + inTransit[..n], inTransit[n..], rest, sent)
  {
    assert inTransit == inTransit[..n] + inTransit[n..];
    Reassociate(read, inTransit[..n], inTransit[n..]);
  }

  lemma ClientKeepsInv(s: State, n: nat)
    requires Inv(s) && Enabled(s, ClientStep(n))
    ensures Inv(Step(s, ClientStep(n)))
  {
    if s.client.Streaming? {
      StreamingKeepsInv(s, n);
    } else if s.client.SendingName? {
      assert [] + s.name == s.name;
    }
  }

  lemma ServerKeepsInv(s: State, n: nat)
    requires Inv(s) && Enabled(s, ServerStep(n))
    ensures Inv(Step(s, ServerStep(n)))
  {
    if s.server.ReadingName? {
      assert [] + s.name[n..] == s.name[n..] + s.content[..0];
    } else if s.server.Reading? && s.toServer != [] {
      StreamIsRead(s.read, s.toServer, s.name[s.nameRead..], s.content[..s.sentContent], n);
      NonZeroAppend(s.read, s.toServer[..n]);
    }
  }

  lemma {:induction false} RunKeepsInv(s: State, ls: seq<Label>, t: State)
    requires Inv(s) && Run(s, ls, t)
    ensures Inv(t) && t.name == s.name && t.content == s.content
    decreases |ls|
  {
    if ls != [] {
      match ls[0]
      case ClientStep(n) => ClientKeepsInv(s, n); RunKeepsInv(Step(s, ls[0]), ls[1..], t);
      case ServerStep(n) => ServerKeepsInv(s, n); RunKeepsInv(Step(s, ls[0]), ls[1..], t);
    }
  }

  /** Separation: in every interleaving, by the time a byte of the file is written to the stream the
      server has read its name and replied, and all of the name read came from the client's name. A
      name of at most 24 bytes leaves room for the terminator. */
  lemma NoContentBeforeTheReply(name: Bytes, content: Bytes, ls: seq<Label>, s: State)
    requires Run(Initial(name, content), ls, s)
    ensures s.sentContent > 0 ==> s.server in {Reading, Done}
    ensures !s.server.ReadingName? ==> 1 <= s.nameRead <= |name|
    ensures !s.server.ReadingName? && s.nameRead < 25 ==>
              s.filename == TrimLineEnd(CString(name[..s.nameRead]))
    ensures |name| < 25 ==> s.nameRead < 25
  {
    RunKeepsInv(Initial(name, content), ls, s);
  }

  /** The client is never told anything but "OK". */
  lemma {:induction false} ReplyIsOk(s: State, ls: seq<Label>, t: State)
    requires Inv(s) && Run(s, ls, t) && (s.toClient == [] || s.toClient == Ascii("OK"))
    ensures t.toClient == [] || t.toClient == Ascii("OK")
    decreases |ls|
  {
    if ls != [] {
      RunKeepsInv(s, ls[..1], Step(s, ls[0]));
      assert [] + OK == Ascii("OK");
      ReplyIsOk(Step(s, ls[0]), ls[1..], t);
    }
  }

  /** The content of every completed transfer, however the stream was cut: what the name read left over
      is taken for the beginning of the file, so the file is right exactly if the name came in one read. */
  lemma CompletedContent(name: Bytes, content: Bytes, ls: seq<Label>, s: State)
    requires Run(Initial(name, content), ls, s) && s.server.Done?
    ensures 1 <= s.nameRead <= |name|
    ensures s.written == NonZero(name[s.nameRead..]) + NonZero(content)
    ensures NulFree(name) ==> (s.written == NonZero(content) <==> s.nameRead == |name|)
  {
    RunKeepsInv(Initial(name, content), ls, s);
    WhatWasRead(s);
    NonZeroAppend(name[s.nameRead..], content);
    RestIsSeen(name, s.nameRead);
  }

  /** The name in every completed transfer whose name read left room for the terminator: right exactly if
      it came in one read, is a string and ends in no line end. */
  lemma CompletedName(name: Bytes, content: Bytes, ls: seq<Label>, s: State)
    requires Run(Initial(name, content), ls, s) && s.server.Done?
    ensures 1 <= s.nameRead <= |name|
    ensures s.nameRead < 25 ==>
              (s.filename == name <==> s.nameRead == |name| && NulFree(name) && !EndsInLineEnd(name))
  {
    RunKeepsInv(Initial(name, content), ls, s);
    WholeNameOrNot(name, s.nameRead);
  }

  lemma WhatWasRead(s: State)
    requires Inv(s) && s.server.Done?
    ensures NameTaken(s) && s.written == NonZero(s.name[s.nameRead..] + s.content)
  {
    assert s.read + [] == s.read;
    assert s.content[..|s.content|] == s.content;
  }

  lemma RestIsSeen(name: Bytes, k: nat)
    requires k <= |name|
    ensures NulFree(name) ==> (NonZero(name[k..]) == [] <==> k == |name|)
  {
    if NulFree(name) {
      NonZeroKeepsTheRest(name[k..]);
    }
  }

  lemma WholeNameOrNot(name: Bytes, k: nat)
    requires 1 <= k <= |name|
    ensures TrimLineEnd(CString(name[..k])) == name <==> k == |name| && NulFree(name) && !EndsInLineEnd(name)
  {
    assert name[..|name|] == name;
    if NulFree(name) {
      CStringOfNulFree(name, []);
      assert name + [] == name;
    }
  }

  // ---------------------------------------------------------------- which segmentations there are

  function Writes(chunks: seq<Bytes>): seq<Label> {
    if chunks == [] then [] else [ClientStep(|chunks[0]|)] + Writes(chunks[1..])
  }

  function Reads(segments: seq<Bytes>): seq<Label> {
    if segments == [] then [] else [ServerStep(|segments[0]|)] + Reads(segments[1..])
  }

  function Joined(segments: seq<Bytes>): Bytes {
    if segments == [] then [] else segments[0] + Joined(segments[1..])
  }

  lemma {:induction false} RunAppend(s: State, a: seq<Label>, t: State, b: seq<Label>, u: State)
    requires Run(s, a, t) && Run(t, b, u)
    ensures Run(s, a + b, u)
    decreases |a|
  {
    if a == [] {
      assert a + b == b;
    } else {
      assert (a + b)[1..] == a[1..] + b;
      RunAppend(Step(s, a[0]), a[1..], t, b, u);
    }
  }

  /** What is left of the file can be written in any pieces of at most 1000 bytes. */
  lemma {:induction false} WritesRun(s: State, chunks: seq<Bytes>)
    requires s.client.Streaming? && s.sentContent <= |s.content| && s.content[s.sentContent..] == Joined(chunks)
    requires forall k :: 0 <= k < |chunks| ==> 1 <= |chunks[k]| <= 1000
    ensures Run(s, Writes(chunks), s.(toServer := s.toServer + Joined(chunks), sentContent := |s.content|))
    decreases |chunks|
  {
    if chunks == [] {
      assert s.toServer + [] == s.toServer;
    } else {
      var n, rest := |chunks[0]|, Joined(chunks[1..]);
      var l := ClientStep(n);
      assert s.content[s.sentContent..][..n] == chunks[0] && s.content[s.sentContent..][n..] == rest;
      var t := Step(s, l);
      assert t.toServer == s.toServer + chunks[0] && t.content[t.sentContent..] == rest;
      WritesRun(t, chunks[1..]);
      Reassociate(s.toServer, chunks[0], rest);
      assert Writes(chunks)[0] == l && Writes(chunks)[1..] == Writes(chunks[1..]);
    }
  }

  /** What is in the stream can be read in any pieces of at most 1000 bytes. */
  lemma {:induction false} ReadsRun(s: State, segments: seq<Bytes>)
    requires s.server.Reading? && s.toServer == Joined(segments)
    requires forall k :: 0 <= k < |segments| ==> 1 <= |segments[k]| <= 1000
    ensures Run(s, Reads(segments), s.(toServer := [], read := s.read + Joined(segments),
                                       written := s.written + NonZero(Joined(segments))))
    decreases |segments|
  {
    if segments == [] {
      assert s.read + [] == s.read && s.written + NonZero([]) == s.written;
    } else {
      var n, rest := |segments[0]|, Joined(segments[1..]);
      var l := ServerStep(n);
      assert s.toServer[..n] == segments[0] && s.toServer[n..] == rest;
      ReadsRun(Step(s, l), segments[1..]);
      NonZeroAppend(segments[0], rest);
      Reassociate(s.read, segments[0], rest);
      Reassociate(s.written, NonZero(segments[0]), NonZero(rest));
      assert Reads(segments)[0] == l && Reads(segments)[1..] == Reads(segments[1..]);
    }
  }

  /** Every segmentation happens: the name read takes any k of the first 25 bytes of the name, the file is
      written in any pieces, and the rest of the name with the file is read in any pieces. */
  lemma EverySegmentationHappens(name: Bytes, content: Bytes, k: nat, chunks: seq<Bytes>, segments: seq<Bytes>)
    returns (ls: seq<Label>, s: State)
    requires 1 <= k <= |name| && k <= 25 && Joined(chunks) == content && Joined(segments) == name[k..] + content
    requires forall i :: 0 <= i < |chunks| ==> 1 <= |chunks[i]| <= 1000
    requires forall i :: 0 <= i < |segments| ==> 1 <= |segments[i]| <= 1000
    ensures ls == [ClientStep(0), ServerStep(k), ServerStep(0), ClientStep(0)] + Writes(chunks) + [ClientStep(0)]
                  + Reads(segments) + [ServerStep(0)]
    ensures Run(Initial(name, content), ls, s) && s.server.Done? && s.nameRead == k
  {
    var s1, a := NameTakenAt(name, content, k);
    WritesRun(s1, chunks);
    var s2 := s1.(toServer := s1.toServer + Joined(chunks), sentContent := |content|);
    RunAppend(Initial(name, content), a, s1, Writes(chunks), s2);
    var s3 := OneStep(s2, ClientStep(0));
    RunAppend(Initial(name, content), a + Writes(chunks), s2, [ClientStep(0)], s3);
    ReadsRun(s3, segments);
    var s4 := s3.(toServer := [], read := s3.read + Joined(segments),
                  written := s3.written + NonZero(Joined(segments)));
    RunAppend(Initial(name, content), a + Writes(chunks) + [ClientStep(0)], s3, Reads(segments), s4);
    s := OneStep(s4, ServerStep(0));
    ls := a + Writes(chunks) + [ClientStep(0)] + Reads(segments) + [ServerStep(0)];
    RunAppend(Initial(name, content), a + Writes(chunks) + [ClientStep(0)] + Reads(segments), s4, [ServerStep(0)], s);
  }

  lemma OneStep(s: State, l: Label) returns (t: State)
    requires Enabled(s, l)
    ensures t == Step(s, l) && Run(s, [l], t)
  {
    t := Step(s, l);
    assert [l][1..] == [];
  }

  lemma NameTakenAt(name: Bytes, content: Bytes, k: nat) returns (s: State, ls: seq<Label>)
    requires 1 <= k <= |name| && k <= 25
    ensures ls == [ClientStep(0), ServerStep(k), ServerStep(0), ClientStep(0)] && Run(Initial(name, content), ls, s)
    ensures s.client.Streaming? && s.server.Reading? && s.toServer == name[k..] && s.sentContent == 0
    ensures s.nameRead == k && s.content == content
  {
    var s1 := OneStep(Initial(name, content), ClientStep(0));
    assert s1.toServer == name;
    var s2 := OneStep(s1, ServerStep(k));
    var s3 := OneStep(s2, ServerStep(0));
    s := OneStep(s3, ClientStep(0));
    RunAppend(s2, [ServerStep(0)], s3, [ClientStep(0)], s);
    RunAppend(s1, [ServerStep(k)], s2, [ServerStep(0)] + [ClientStep(0)], s);
    ls := [ClientStep(0)] + ([ServerStep(k)] + ([ServerStep(0)] + [ClientStep(0)]));
    RunAppend(Initial(name, content), [ClientStep(0)], s1, [ServerStep(k)] + ([ServerStep(0)] + [ClientStep(0)]), s);
  }

  // ---------------------------------------------------------------- completion

  /** An upper bound on the steps still to be made. */
  function StepsLeft(s: State): int {
    (match s.client case SendingName => 3 + |s.name| case AwaitingReply => 2 case Streaming => 1 case Closed => 0)
    + (match s.server case ReadingName => 3 case Replying => 2 case Reading => 1 case Done => 0)
    + 2 * (|s.content| - s.sentContent) + |s.toServer|
  }

  lemma StepsCountDown(s: State, l: Label)
    requires Inv(s) && Enabled(s, l)
    ensures 0 <= StepsLeft(Step(s, l)) < StepsLeft(s)
  {
    match l
    case ClientStep(n) => ClientKeepsInv(s, n);
    case ServerStep(n) => ServerKeepsInv(s, n);
  }

  lemma {:induction false} RunIsShort(s: State, ls: seq<Label>, t: State)
    requires Inv(s) && Run(s, ls, t)
    ensures |ls| + StepsLeft(t) <= StepsLeft(s)
    decreases |ls|
  {
    if ls != [] {
      RunKeepsInv(s, ls[..1], Step(s, ls[0]));
      StepsCountDown(s, ls[0]);
      RunIsShort(Step(s, ls[0]), ls[1..], t);
    }
  }

  /** Neither end waits for the other for ever. */
  lemma SomebodyMoves(s: State) returns (l: Label)
    requires Inv(s) && s.name != [] && !s.server.Done?
    ensures Enabled(s, l)
  {
    if s.client.SendingName? {
      l := ClientStep(0);
    } else if s.server.Replying? || (s.server.Reading? && s.toServer == [] && s.client.Closed?) {
      l := ServerStep(0);
    } else if s.toServer != [] {
      l := ServerStep(1);
    } else {
      l := ClientStep(1);
    }
  }

  /** Every transfer completes: a run has at most 6 steps and one for each byte of the name and two for each
      byte of the file, and it can go on exactly as long as the server is not done. Only an empty name, which
      puts nothing into the stream, keeps the server waiting. */
  lemma EveryTransferCompletes(name: Bytes, content: Bytes, ls: seq<Label>, s: State)
    requires Run(Initial(name, content), ls, s)
    ensures |ls| <= 6 + |name| + 2 * |content|
    ensures name != [] ==> ((exists l :: Enabled(s, l)) <==> !s.server.Done?)
    ensures name == [] ==> s.server.ReadingName?
  {
    RunIsShort(Initial(name, content), ls, s);
    RunKeepsInv(Initial(name, content), ls, s);
    assert StepsLeft(s) >= 0;
    if name != [] && !s.server.Done? {
      var l := SomebodyMoves(s);
    }
  }
}
