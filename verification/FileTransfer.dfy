/** One file on its way: the sender's chunks and progress reports, and the receiver's loop over a zeroed
    buffer that forgets how much it read. */
module FileTransfer {
  import opened CText

  const CHUNK: nat := 1000

  /** Progress reports are due every so many chunks. */
  const TCP_INTERVAL: nat := 1500
  const UDP_INTERVAL: nat := 500

  function Flatten(segments: seq<Bytes>): Bytes {
    if segments == [] then [] else Flatten(segments[..|segments| - 1]) + segments[|segments| - 1]
  }

  function NonZero(s: Bytes): (r: Bytes)
    ensures NulFree(r) && |r| <= |s|
  {
    if s == [] then [] else NonZero(s[..|s| - 1]) + if s[|s| - 1] != NUL then [s[|s| - 1]] else []
  }

  lemma {:induction false} NonZeroAppend(a: Bytes, b: Bytes)
    ensures NonZero(a + b) == NonZero(a) + NonZero(b)
  {
    if b == [] {
      assert a + b == a;
    } else {
      assert (a + b)[..|a + b| - 1] == a + b[..|b| - 1];
      NonZeroAppend(a, b[..|b| - 1]);
    }
  }

  /** The filter keeps every byte but NUL, as often as it occurs, and is the identity exactly on files
      without a NUL. */
  lemma {:induction false} NonZeroKeepsTheRest(s: Bytes)
    ensures multiset(NonZero(s)) == multiset(s)[NUL := 0]
    ensures NonZero(s) == s <==> NulFree(s)
    ensures |NonZero(s)| == |s| <==> NulFree(s)
  {
    if s != [] {
      var n := |s| - 1;
      NonZeroKeepsTheRest(s[..n]);
      assert s == s[..n] + [s[n]];
      assert multiset(s) == multiset(s[..n]) + multiset{s[n]};
      assert NulFree(s) <==> NulFree(s[..n]) && s[n] != NUL;
    }
  }

  // ---------------------------------------------------------------- sender

  datatype Report = Report(bytesSent: int, size: int)

  function Min(a: int, b: int): int {
    if a < b then a else b
  }

  function ChunkCount(size: nat): nat {
    (size + CHUNK - 1) / CHUNK
  }

  /** The j-th intermediate report, counted from 1. */
  function IntermediateReport(size: nat, interval: nat, j: nat): Report {
    Report(Min(CHUNK * interval * j, size), size)
  }

  ghost predicate AreIntermediate(reports: seq<Report>, size: nat, interval: nat) {
    forall j :: 0 <= j < |reports| ==> reports[j] == IntermediateReport(size, interval, j + 1)
  }

  ghost predicate AreChunks(chunks: seq<Bytes>) {
    forall k :: 0 <= k < |chunks| ==> 1 <= |chunks[k]| <= CHUNK
  }

  /** The first n pieces of the file. */
  function Pieces(file: Bytes, n: nat): seq<Bytes> {
    if n == 0 then [] else Pieces(file, n - 1) + [Piece(file, n - 1)]
  }

  function Piece(file: Bytes, k: nat): Bytes {
    file[Min(CHUNK * k, |file|)..Min(CHUNK * (k + 1), |file|)]
  }

  /** All pieces are full, 1000 bytes long, except for the last one, which holds what is left. */
  lemma {:induction false} PiecesAreFull(file: Bytes, n: nat)
    requires n <= ChunkCount(|file|)
    ensures |Pieces(file, n)| == n && AreChunks(Pieces(file, n))
    ensures forall k :: 0 <= k < n ==> Pieces(file, n)[k] == file[1000 * k..Min(1000 * (k + 1), |file|)]
  {
    if n > 0 {
      PiecesAreFull(file, n - 1);
    }
  }

  lemma {:induction false} PiecesMakeTheFile(file: Bytes, n: nat)
    ensures Flatten(Pieces(file, n)) == file[..Min(CHUNK * n, |file|)]
  {
    if n > 0 {
      PiecesMakeTheFile(file, n - 1);
      assert Pieces(file, n)[..|Pieces(file, n)| - 1] == Pieces(file, n - 1);
      assert file[..Min(CHUNK * n, |file|)] == file[..Min(CHUNK * (n - 1), |file|)] + Piece(file, n - 1);
    }
  }

  lemma ReportIsDue(i: nat, interval: nat)
    requires i > 0 && (interval == 1500 || interval == 500)
    ensures i / interval == (i - 1) / interval + if i % interval == 0 then 1 else 0
    ensures i % interval == 0 ==> interval * (i / interval) == i
  {
  }

  /** The reports that are due by the n-th chunk. */
  function Due(size: nat, interval: nat, n: nat): seq<Report>
    requires interval > 0
  {
    if n == 0 then []
    else Due(size, interval, n - 1) + if n % interval == 0 then [Report(Min(CHUNK * n, size), size)] else []
  }

  lemma {:induction false} DueAreIntermediate(size: nat, interval: nat, n: nat)
    requires interval == 1500 || interval == 500
    ensures |Due(size, interval, n)| == n / interval && AreIntermediate(Due(size, interval, n), size, interval)
  {
    if n > 0 {
      DueAreIntermediate(size, interval, n - 1);
      ReportIsDue(n, interval);
      assert n % interval == 0 ==> CHUNK * interval * (n / interval) == CHUNK * n;
    }
  }

  /** The sending loop. */
  method SendChunks(file: Bytes, interval: nat) returns (chunks: seq<Bytes>, reports: seq<Report>, byteSend: nat)
    requires interval > 0
    ensures chunks == Pieces(file, ChunkCount(|file|)) && reports == Due(|file|, interval, ChunkCount(|file|))
    ensures byteSend == |file|
  {
    var i := 0;
    chunks, reports, byteSend := [], [], 0;
    while byteSend < |file|
      invariant byteSend == Min(CHUNK * i, |file|) && i <= ChunkCount(|file|)
      invariant chunks == Pieces(file, i) && reports == Due(|file|, interval, i)
      decreases |file| - byteSend
    {
      var numRead := Min(CHUNK, |file| - byteSend);
      chunks := chunks + [file[byteSend..byteSend + numRead]];
      byteSend := byteSend + numRead;
      i := i + 1;
      if i % interval == 0 {
        reports := reports + [Report(byteSend, |file|)];
      }
    }
  }

  /** The chunks written to the stream are the pieces of the file, and the reports are one for every
      `interval` chunks plus the final one, which carries the duration instead of the size. */
  method SendFile(file: Bytes, interval: nat, duration: int) returns (chunks: seq<Bytes>, reports: seq<Report>)
    requires interval == TCP_INTERVAL || interval == UDP_INTERVAL
    ensures chunks == Pieces(file, ChunkCount(|file|))
    ensures Flatten(chunks) == file && AreChunks(chunks)
    ensures |reports| == ChunkCount(|file|) / interval + 1
    ensures AreIntermediate(reports[..|reports| - 1], |file|, interval)
    ensures reports[|reports| - 1] == Report(|file|, duration)
  {
    var byteSend: nat;
    chunks, reports, byteSend := SendChunks(file, interval);
    PiecesAreFull(file, ChunkCount(|file|));
    PiecesMakeTheFile(file, ChunkCount(|file|));
    DueAreIntermediate(|file|, interval, ChunkCount(|file|));
    assert file[..|file|] == file;
    ghost var intermediate := reports;
    reports := reports + [Report(byteSend, duration)];
    assert reports[..|reports| - 1] == intermediate;
  }

  /** In bytes: the TCP client reports every 1.5 million, the UDP client every half million. */
  lemma ReportsInBytes(size: nat, j: nat)
    ensures IntermediateReport(size, TCP_INTERVAL, j) == Report(Min(1_500_000 * j, size), size)
    ensures IntermediateReport(size, UDP_INTERVAL, j) == Report(Min(500_000 * j, size), size)
  {
  }

  // ---------------------------------------------------------------- receiver

  /** Writes out every non-zero byte of the buffer. */
  method Scan(buf: array<Byte>) returns (written: Bytes)
    ensures written == NonZero(buf[..])
  {
    written := [];
    for i := 0 to buf.Length
      invariant written == NonZero(buf[..i])
    {
      assert buf[..i + 1][..i] == buf[..i];
      if buf[i] != NUL {
        written := written + [buf[i]];
      }
    }
    assert buf[..buf.Length] == buf[..];
  }

  method Zero(buf: array<Byte>)
    modifies buf
    ensures buf[..] == Repeat(NUL, buf.Length)
  {
    for i := 0 to buf.Length
      invariant forall j :: 0 <= j < i ==> buf[j] == NUL
    {
      buf[i] := NUL;
    }
  }

  /** One read from the stream into the front of the buffer. */
  method ReadInto(buf: array<Byte>, segment: Bytes)
    requires |segment| <= buf.Length
    modifies buf
    ensures buf[..] == segment + old(buf[|segment|..])
  {
    for i := 0 to |segment|
      invariant buf[..i] == segment[..i] && buf[i..] == old(buf[i..])
    {
      buf[i] := segment[i];
    }
  }

  /** One turn of the receiving loop. The length of the read is lost, so the whole buffer is scanned and
      its zero bytes skipped; it is zeroed again afterwards. */
  method ReceiveOne(buf: array<Byte>, segment: Bytes) returns (written: Bytes)
    requires buf[..] == Repeat(NUL, buf.Length) && |segment| <= buf.Length
    modifies buf
    ensures buf[..] == Repeat(NUL, buf.Length)
    ensures written == NonZero(segment)
  {
    ReadInto(buf, segment);
    assert buf[..] == segment + Repeat(NUL, buf.Length - |segment|);
    NonZeroAppend(segment, Repeat(NUL, buf.Length - |segment|));
    NonZeroOfZeros(buf.Length - |segment|);
    written := Scan(buf);
    Zero(buf);
  }

  /** What the loop writes, read by read. */
  function Kept(segments: seq<Bytes>): Bytes {
    if segments == [] then [] else Kept(segments[..|segments| - 1]) + NonZero(segments[|segments| - 1])
  }

  /** The receiving loop, for any reads that the network makes of the stream. */
  method ReceiveFile(segments: seq<Bytes>) returns (written: Bytes)
    requires AreChunks(segments)
    ensures written == Kept(segments)
  {
    var rcvdBuf := new Byte[CHUNK];
    Zero(rcvdBuf);
    written := [];
    for k := 0 to |segments|
      invariant rcvdBuf[..] == Repeat(NUL, CHUNK)
      invariant written == Kept(segments[..k])
    {
      var kept := ReceiveOne(rcvdBuf, segments[k]);
      written := written + kept;
      assert segments[..k + 1][..k] == segments[..k];
    }
    assert segments[..|segments|] == segments;
  }

  lemma {:induction false} NonZeroOfZeros(n: nat)
    ensures NonZero(Repeat(NUL, n)) == []
  {
    if n > 0 {
      assert Repeat(NUL, n)[..n - 1] == Repeat(NUL, n - 1);
      NonZeroOfZeros(n - 1);
    }
  }

  /** From disk to disk: whatever reads the network makes of the stream, the receiver writes the file's
      non-zero bytes in order: the file itself exactly when it has no NUL. */
  lemma {:induction false} SegmentationDoesNotMatter(file: Bytes, segments: seq<Bytes>)
    requires Flatten(segments) == file
    ensures Kept(segments) == NonZero(file)
    ensures Kept(segments) == file <==> NulFree(file)
    decreases |segments|
  {
    NonZeroKeepsTheRest(file);
    if segments != [] {
      var n := |segments| - 1;
      SegmentationDoesNotMatter(Flatten(segments[..n]), segments[..n]);
      NonZeroAppend(Flatten(segments[..n]), segments[n]);
    }
  }

  // ---------------------------------------------------------------- reports as the GUI takes them

  /** The GUI takes a report for the end of a transfer when more was sent than there is. */
  predicate TakenForFinished(r: Report) {
    r.bytesSent > r.size
  }

  /** Over the whole pipeline no intermediate report is taken for the end, the counts never fall, and the
      final report is taken for the end exactly when the file has more bytes than the transfer seconds. */
  lemma OnlyTheLastReportFinishes(reports: seq<Report>, size: nat, interval: nat, duration: nat)
    requires |reports| >= 1 && AreIntermediate(reports[..|reports| - 1], size, interval)
    requires reports[|reports| - 1] == Report(size, duration)
    ensures forall j :: 0 <= j < |reports| - 1 ==> !TakenForFinished(reports[j]) && reports[j].size == size
    ensures forall j, k :: 0 <= j < k < |reports| ==> reports[j].bytesSent <= reports[k].bytesSent
    ensures TakenForFinished(reports[|reports| - 1]) <==> size > duration
  {
    forall j | 0 <= j < |reports| - 1
      ensures reports[j] == IntermediateReport(size, interval, j + 1)
    {
      assert reports[..|reports| - 1][j] == reports[j];
    }
    forall j, k | 0 <= j < k < |reports| - 1 ensures reports[j].bytesSent <= reports[k].bytesSent {
      MoreChunksMoreBytes(CHUNK * interval, j + 1, k + 1);
    }
  }

  lemma MoreChunksMoreBytes(a: nat, b: nat, c: nat)
    requires b <= c
    ensures a * b <= a * c
  {
  }
}
