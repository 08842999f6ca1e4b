/** The GUI's progress bar, and the whole way of a progress report from the sending loop to the bar.
    The quotient is taken as an exact rational. */
module ProgressBar {
  import opened CText
  import opened IpcMessages
  import opened FileTransfer
  import opened SyncRepos
  import opened SyncListener

  const WIDTH: nat := 64
  const BAR_BUFFER: nat := 105
  const EMPTY_CELL: Byte := 61
  const FULL_CELL: Byte := 62

  /** Part of `whole`, in units of `scale`, cut to an integer. */
  function Scaled(scale: nat, part: nat, whole: nat): int
    requires whole > 0
  {
    (scale as real * (part as real / whole as real)).Floor
  }

  /** The size that the bar is drawn against: a report taken for the end is drawn full. */
  function Whole(r: Report): int {
    if TakenForFinished(r) then r.bytesSent else r.size
  }

  function Seconds(r: Report): int {
    if TakenForFinished(r) then r.size else 0
  }

  predicate Drawable(r: Report) {
    r.bytesSent >= 0 && r.size >= 0 && (r.bytesSent > 0 || r.size > 0)
  }

  function Percentage(r: Report): int
    requires Drawable(r)
  {
    Scaled(100, r.bytesSent, Whole(r))
  }

  function Filled(r: Report): int
    requires Drawable(r)
  {
    Scaled(WIDTH, r.bytesSent, Whole(r))
  }

  const PERCENT_END: Bytes := Ascii("%)")
  const SECONDS_END: Bytes := Ascii("S)")

  function Info(name: Bytes, port: int, percentage: int, seconds: int): Bytes {
    Flatten(InfoParts(name, port, percentage, seconds))
  }

  function InfoParts(name: Bytes, port: int, percentage: int, seconds: int): seq<Bytes> {
    if seconds == 0 then
      [name, Ascii(",port:("), Decimal(port), Ascii("),("), Decimal(percentage), PERCENT_END]
    else
      [name, Ascii(",port:("), Decimal(port), Ascii("),("), Decimal(percentage), Ascii("%,Done,"), Decimal(seconds),
       SECONDS_END]
  }

  /** Writes cells from the left end of the bar. */
  method Write(bar: array<Byte>, cells: Bytes)
    requires |cells| <= bar.Length
    modifies bar
    ensures bar[..] == cells + old(bar[|cells|..])
  {
    for i := 0 to |cells|
      invariant bar[..i] == cells[..i] && bar[i..] == old(bar[i..])
    {
      bar[i] := cells[i];
    }
  }

  /** The 64 cells: text, else filled, else empty. */
  function Cells(info: Bytes, filled: int): Bytes {
    seq(WIDTH, k requires 0 <= k < WIDTH =>
      if k < |info| then info[k] else if k < filled then FULL_CELL else EMPTY_CELL)
  }

  function Bar(r: Report, name: Bytes, port: int): Bytes
    requires Drawable(r)
  {
    Cells(Info(name, port, Percentage(r), Seconds(r)), Filled(r))
  }

  /** Draws the bar: 64 empty cells, filled from the left, with the text written over them. */
  method SetProgressBar(r: Report, name: Bytes, port: int) returns (shown: Bytes)
    requires Drawable(r)
    requires |Info(name, port, Percentage(r), Seconds(r))| <= WIDTH
    ensures shown == Bar(r, name, port)
  {
    var percentage, filled, seconds := Measure(r);
    shown := Draw(Info(name, port, percentage, seconds), filled);
  }

  method Draw(info: Bytes, filled: nat) returns (shown: Bytes)
    requires |info| <= WIDTH && filled <= WIDTH
    ensures shown == Cells(info, filled)
  {
    var bar := new Byte[BAR_BUFFER];
    Write(bar, Repeat(EMPTY_CELL, WIDTH) + [NUL]);
    Write(bar, Repeat(FULL_CELL, filled));
    assert forall k :: 0 <= k < WIDTH ==> bar[..][k] == if k < filled then FULL_CELL else EMPTY_CELL;
    Write(bar, info);
    shown := bar[..WIDTH];
    forall k | 0 <= k < WIDTH ensures shown[k] == Cells(info, filled)[k] {
      assert shown[k] == bar[..][k];
    }
  }

  method Measure(r: Report) returns (percentage: int, filled: int, seconds: int)
    requires Drawable(r)
    ensures percentage == Percentage(r) && filled == Filled(r) && seconds == Seconds(r)
    ensures 0 <= filled <= WIDTH
  {
    var fileLength := r.size;
    seconds := 0;
    if r.bytesSent > fileLength {
      seconds := fileLength;
      fileLength := r.bytesSent;
    }
    var per := r.bytesSent as real / fileLength as real;
    percentage := (100 as real * per).Floor;
    filled := (WIDTH as real * per).Floor;
    QuotientBounds(WIDTH, r.bytesSent, fileLength);
  }

  // ---------------------------------------------------------------- arithmetic

  lemma FloorOfQuotient(a: nat, b: nat)
    requires b > 0
    ensures (a as real / b as real).Floor == a / b
  {
    var q, r := a / b, a % b;
    assert a == q * b + r;
    assert a as real / b as real == q as real + r as real / b as real;
    assert 0.0 <= r as real / b as real < 1.0;
  }

  lemma QuotientRange(scale: nat, part: nat, whole: nat)
    requires whole > 0 && part <= whole
    ensures 0 <= (scale * part) / whole <= scale
    ensures part == whole ==> (scale * part) / whole == scale
    ensures part < whole && scale > 0 ==> (scale * part) / whole < scale
  {
    Monotone(scale, part, whole);
    QuotientBelow(scale * part, whole, scale);
    if part < whole && scale > 0 {
      assert scale * (whole - part) > 0;
      QuotientStrictlyBelow(scale * part, whole, scale);
    }
    if part == whole {
      WholeQuotient(scale, whole);
    }
  }

  lemma Monotone(a: nat, b: nat, c: nat)
    requires b <= c
    ensures a * b <= a * c
  {
  }

  lemma QuotientBelow(a: nat, b: nat, c: nat)
    requires b > 0 && a <= c * b
    ensures a / b <= c
  {
    if a / b >= c + 1 {
      Monotone(b, c + 1, a / b);
    }
  }

  lemma QuotientStrictlyBelow(a: nat, b: nat, c: nat)
    requires b > 0 && a < c * b
    ensures a / b < c
  {
    if a / b >= c {
      Monotone(b, c, a / b);
    }
  }

  lemma WholeQuotient(a: nat, b: nat)
    requires b > 0
    ensures (a * b) / b == a
  {
    QuotientBelow(a * b, b, a);
    if (a * b) / b < a {
      Monotone(b, (a * b) / b + 1, a);
    }
  }

  /** The cut rational is the integer quotient; it lies in its range, and at the top only for the whole. */
  lemma QuotientBounds(scale: nat, part: nat, whole: nat)
    requires whole > 0 && part <= whole
    ensures Scaled(scale, part, whole) == (scale * part) / whole
    ensures 0 <= Scaled(scale, part, whole) <= scale
    ensures scale > 0 ==> (Scaled(scale, part, whole) == scale <==> part == whole)
  {
    assert scale as real * (part as real / whole as real) == (scale * part) as real / whole as real;
    FloorOfQuotient(scale * part, whole);
    QuotientRange(scale, part, whole);
  }

  lemma QuotientGrows(a: nat, b: nat, c: nat)
    requires a <= b && c > 0
    ensures a / c <= b / c
  {
    if a / c > b / c {
      Monotone(c, b / c + 1, a / c);
    }
  }

  /** The bar never goes back while the same unfinished size is shown, and it is full, with 100 percent,
      exactly when as much was sent as the bar is drawn against. */
  lemma BarGrows(r: Report, s: Report)
    requires Drawable(r) && Drawable(s) && r.size == s.size && r.bytesSent <= s.bytesSent <= s.size
    ensures Percentage(r) <= Percentage(s) && Filled(r) <= Filled(s)
  {
    QuotientBounds(100, r.bytesSent, r.size);
    QuotientBounds(100, s.bytesSent, r.size);
    QuotientBounds(WIDTH, r.bytesSent, r.size);
    QuotientBounds(WIDTH, s.bytesSent, r.size);
    QuotientGrows(100 * r.bytesSent, 100 * s.bytesSent, r.size);
    QuotientGrows(WIDTH * r.bytesSent, WIDTH * s.bytesSent, r.size);
  }

  lemma BarRange(r: Report)
    requires Drawable(r)
    ensures 0 <= Percentage(r) <= 100 && 0 <= Filled(r) <= 64
    ensures Percentage(r) == 100 <==> r.bytesSent >= r.size
    ensures Filled(r) == 64 <==> r.bytesSent >= r.size
  {
    QuotientBounds(100, r.bytesSent, Whole(r));
    QuotientBounds(WIDTH, r.bytesSent, Whole(r));
  }

  /** `ends` says where each part of a text ends at the latest. */
  lemma {:induction false} PartsFit(parts: seq<Bytes>, ends: seq<nat>)
    requires |ends| == |parts| + 1 && ends[0] == 0
    requires forall k :: 0 <= k < |parts| ==> ends[k] + |parts[k]| <= ends[k + 1]
    ensures |Flatten(parts)| <= ends[|parts|]
  {
    if parts != [] {
      PartsFit(parts[..|parts| - 1], ends[..|parts|]);
    }
  }

  /** The text fits the bar for every name that fits a queue slot, every port number, and transfers of
      less than a million seconds. */
  lemma TextFits(r: Report, name: Bytes, port: int)
    requires Drawable(r) && |name| < NAME_SLOT && 0 <= port < 0x1_0000 && Seconds(r) < 1_000_000
    ensures |Info(name, port, Percentage(r), Seconds(r))| <= WIDTH
  {
    BarRange(r);
    assert Pow10(3) == 1000 && Pow10(5) == 100 * Pow10(3) && Pow10(6) == 10 * Pow10(5);
    DecimalWidth(port, 5);
    DecimalWidth(Percentage(r), 3);
    DecimalWidth(Seconds(r), 6);
    PartWidths(name, port, Percentage(r), Seconds(r));
  }

  lemma PartWidths(name: Bytes, port: nat, percentage: nat, seconds: nat)
    requires |name| <= 31 && |Digits(port, 10)| <= 5 && |Digits(percentage, 10)| <= 3 && |Digits(seconds, 10)| <= 6
    ensures |Info(name, port, percentage, seconds)| <= WIDTH
  {
    var ends := if seconds == 0 then [0, 31, 38, 43, 46, 49, 51] else [0, 31, 38, 43, 46, 49, 56, 62, 64];
    PartsFit(InfoParts(name, port, percentage, seconds), ends);
  }

  lemma PartsInARow(parts: seq<Bytes>, last: Bytes)
    ensures Flatten(parts + [last]) == Flatten(parts) + last
  {
    assert (parts + [last])[..|parts|] == parts;
  }

  lemma SixParts(a: Bytes, b: Bytes, c: Bytes, d: Bytes, e: Bytes, f: Bytes)
    ensures Flatten([a, b, c, d, e, f]) == a + b + c + d + e + f
  {
    PartsInARow([], a);
    PartsInARow([a], b);
    PartsInARow([a, b], c);
    PartsInARow([a, b, c], d);
    PartsInARow([a, b, c, d], e);
    PartsInARow([a, b, c, d, e], f);
    assert [] + [a] == [a] && [] + a == a && [a] + [b] == [a, b] && [a, b] + [c] == [a, b, c];
    assert [a, b, c] + [d] == [a, b, c, d] && [a, b, c, d] + [e] == [a, b, c, d, e];
    assert [a, b, c, d, e] + [f] == [a, b, c, d, e, f];
  }

  /** The text while a transfer runs, and at the end of one within the second. */
  lemma TextOfPercentage(name: Bytes, port: int, percentage: int)
    ensures Info(name, port, percentage, 0) ==
            name + Ascii(",port:(") + Decimal(port) + Ascii("),(") + Decimal(percentage) + Ascii("%)")
  {
    SixParts(name, Ascii(",port:("), Decimal(port), Ascii("),("), Decimal(percentage), PERCENT_END);
  }

  lemma TextOfSeconds(name: Bytes, port: int, percentage: int, seconds: int)
    requires seconds != 0
    ensures Info(name, port, percentage, seconds) ==
            name + Ascii(",port:(") + Decimal(port) + Ascii("),(") + Decimal(percentage)
            + Ascii("%,Done,") + Decimal(seconds) + Ascii("S)")
  {
    var front := [name, Ascii(",port:("), Decimal(port), Ascii("),("), Decimal(percentage), Ascii("%,Done,")];
    SixParts(name, Ascii(",port:("), Decimal(port), Ascii("),("), Decimal(percentage), Ascii("%,Done,"));
    PartsInARow(front, Decimal(seconds));
    PartsInARow(front + [Decimal(seconds)], SECONDS_END);
    assert front + [Decimal(seconds)] + [SECONDS_END] == InfoParts(name, port, percentage, seconds);
  }

  /** The numbers that a report is shown with: the percentage of an unfinished transfer, or 100 and the
      seconds that the report of a finished one carries in place of the size. */
  lemma NumbersShown(r: Report)
    requires Drawable(r)
    ensures r.bytesSent <= r.size ==> Percentage(r) == 100 * r.bytesSent / r.size && Seconds(r) == 0
    ensures r.bytesSent > r.size ==> Percentage(r) == 100 && Seconds(r) == r.size
  {
    QuotientBounds(100, r.bytesSent, Whole(r));
  }

  /** The bar, cell by cell: 64 cells; the text from the left; behind it '>' up to the part of the 64 cells
      that corresponds to the bytes sent, all of them at the end, and '=' from there on. */
  lemma CellsShown(r: Report, name: Bytes, port: int, k: nat)
    requires Drawable(r) && k < 64
    ensures |Bar(r, name, port)| == 64
    ensures var info := Info(name, port, Percentage(r), Seconds(r));
            && (k < |info| ==> Bar(r, name, port)[k] == info[k])
            && (k >= |info| && (r.bytesSent > r.size || k < 64 * r.bytesSent / r.size) ==>
                  Bar(r, name, port)[k] == '>' as int)
            && (k >= |info| && r.bytesSent <= r.size && k >= 64 * r.bytesSent / r.size ==>
                  Bar(r, name, port)[k] == '=' as int)
  {
    BarRange(r);
    QuotientBounds(64, r.bytesSent, Whole(r));
  }

  // ---------------------------------------------------------------- from the sending loop to the bar

  /** A text that tells the user of the end of the transfer, and how long it took. */
  predicate ShowsSeconds(text: Bytes) {
    |text| >= 2 && text[|text| - 2..] == SECONDS_END
  }

  lemma SecondsAreShown(name: Bytes, port: int, percentage: int, seconds: int)
    ensures ShowsSeconds(Info(name, port, percentage, seconds)) <==> seconds != 0
  {
    var parts := InfoParts(name, port, percentage, seconds);
    LastTwo(Flatten(parts[..|parts| - 1]), parts[|parts| - 1]);
    EndsDiffer();
  }

  lemma EndsDiffer()
    ensures |PERCENT_END| == 2 && |SECONDS_END| == 2 && PERCENT_END != SECONDS_END
  {
    assert PERCENT_END[0] != SECONDS_END[0];
  }

  lemma LastTwo(front: Bytes, end: Bytes)
    requires |end| == 2
    ensures ShowsSeconds(front + end) <==> end == SECONDS_END
  {
    assert (front + end)[|front + end| - 2..] == end;
  }

  /** What the GUI draws over one transfer: a bar that never goes back over the intermediate reports,
      whose texts never show the seconds. At the end the bar is full exactly when the file has at least as
      many bytes as the transfer has seconds; the seconds are shown exactly when it has more, and there is
      at least one, so a transfer within the second is never said to be done. */
  lemma BarsOfATransfer(reports: seq<Report>, size: nat, interval: nat, duration: nat, name: Bytes, port: int)
    requires size > 0 && interval > 0 && |reports| >= 1
    requires AreIntermediate(reports[..|reports| - 1], size, interval)
    requires reports[|reports| - 1] == Report(size, duration)
    ensures forall j :: 0 <= j < |reports| ==> Drawable(reports[j])
    ensures forall j, k :: 0 <= j < k < |reports| - 1 ==>
              Filled(reports[j]) <= Filled(reports[k]) && Percentage(reports[j]) <= Percentage(reports[k])
    ensures forall j :: 0 <= j < |reports| - 1 ==>
              !ShowsSeconds(Info(name, port, Percentage(reports[j]), Seconds(reports[j])))
    ensures var last := reports[|reports| - 1];
            && (Filled(last) == WIDTH <==> size >= duration)
            && (ShowsSeconds(Info(name, port, Percentage(last), Seconds(last))) <==> 0 < duration < size)
  {
    OnlyTheLastReportFinishes(reports, size, interval, duration);
    forall j | 0 <= j < |reports| - 1
      ensures reports[j] == IntermediateReport(size, interval, j + 1) && Drawable(reports[j])
    {
      assert reports[..|reports| - 1][j] == reports[j];
    }
    forall j | 0 <= j < |reports| - 1
      ensures !ShowsSeconds(Info(name, port, Percentage(reports[j]), Seconds(reports[j])))
    {
      SecondsAreShown(name, port, Percentage(reports[j]), Seconds(reports[j]));
    }
    forall j, k | 0 <= j < k < |reports| - 1
      ensures Filled(reports[j]) <= Filled(reports[k]) && Percentage(reports[j]) <= Percentage(reports[k])
    {
      BarGrows(reports[j], reports[k]);
    }
    var last := reports[|reports| - 1];
    BarRange(last);
    SecondsAreShown(name, port, Percentage(last), Seconds(last));
  }

  /** The reports of one transfer: one for every full interval with the byte count so far, and the final
      one, which carries the duration. */
  function ReportAt(size: nat, interval: nat, duration: int, j: nat): Report
    requires interval > 0
  {
    if j < ChunkCount(size) / interval then IntermediateReport(size, interval, j + 1) else Report(size, duration)
  }

  /** The GUI sees each report as it was made, in order. */
  ghost predicate AreSeen(seen: seq<Progress>, size: nat, interval: nat, duration: int, name: Bytes, port: int)
    requires interval > 0
  {
    && |seen| == ChunkCount(size) / interval + 1
    && forall j :: 0 <= j < |seen| ==>
         seen[j].name == name && seen[j].port == port && Shown(seen[j]) == ReportAt(size, interval, duration, j)
  }

  /** From the sending loop to the GUI: send the file, encode each report, pass it through the lossy channel
      into the GUI's reused buffer, decode it. The GUI sees every report as it was made, in order. `junk` is what
      follows the messages in memory. */
  method SendAndReport(file: Bytes, interval: nat, duration: int, gui: GuiListener, name: Bytes, port: int,
                       destIp: Bytes, pad: Byte, junk: Bytes)
    returns (chunks: seq<Bytes>, seen: seq<Progress>)
    requires interval == TCP_INTERVAL || interval == UDP_INTERVAL
    requires |file| < TWO_31 && 0 <= duration < TWO_31
    requires gui.Valid() && NulFree(name) && |name| < NAME_ARRAY && |CString(junk)| < 200
    requires 0 <= port < 0x1_0000 && BothBytes(port) && NulFree(destIp) && |destIp| < 20 && pad != NUL
    requires Stops(0, gui.byteSentHex[8..]) && Stops(0, gui.fileLenHex[8..])
    modifies gui.buf, gui.byteSentHex, gui.fileLenHex, gui.fileName
    ensures Flatten(chunks) == file && AreChunks(chunks)
    ensures AreSeen(seen, |file|, interval, duration, name, port)
  {
    var reports: seq<Report>;
    chunks, reports := SendFile(file, interval, duration);
    ghost var n := |reports| - 1;
    forall j | 0 <= j < n
      ensures reports[j] == Report(Min(CHUNK * interval * (j + 1), |file|), |file|)
    {
      assert reports[..n][j] == reports[j];
    }
    forall j | 0 <= j < |reports| ensures IsInt32(reports[j].bytesSent) && IsInt32(reports[j].size) {
      if j < n {
        Monotone(CHUNK * interval, 0, j + 1);
      }
    }
    seen := ReportAll(reports, gui, name, port, destIp, pad, junk);
  }

  method ReportAll(reports: seq<Report>, gui: GuiListener, name: Bytes, port: int,
                   destIp: Bytes, pad: Byte, junk: Bytes)
    returns (seen: seq<Progress>)
    requires forall j :: 0 <= j < |reports| ==> IsInt32(reports[j].bytesSent) && IsInt32(reports[j].size)
    requires gui.Valid() && NulFree(name) && |name| < NAME_ARRAY && |CString(junk)| < 200
    requires 0 <= port < 0x1_0000 && BothBytes(port) && NulFree(destIp) && |destIp| < 20 && pad != NUL
    requires Stops(0, gui.byteSentHex[8..]) && Stops(0, gui.fileLenHex[8..])
    modifies gui.buf, gui.byteSentHex, gui.fileLenHex, gui.fileName
    ensures |seen| == |reports|
    ensures forall j :: 0 <= j < |seen| ==> seen[j] == Progress(reports[j].bytesSent, reports[j].size, name, port)
  {
    seen := [];
    for j := 0 to |reports|
      invariant |seen| == j
      invariant gui.byteSentHex[8..] == old(gui.byteSentHex[8..]) && gui.fileLenHex[8..] == old(gui.fileLenHex[8..])
      invariant forall i :: 0 <= i < j ==> seen[i] == Progress(reports[i].bytesSent, reports[i].size, name, port)
    {
      var p := Progress(reports[j].bytesSent, reports[j].size, name, port);
      var res := ReportToGui(gui, p, destIp, pad, junk);
      seen := seen + [res.value];
    }
  }

  /** The whole pipeline, up to what the user sees: one bar for every report of the sending loop, each with
      the stated cells. Excluded are an empty file sent within the second, for which the bar is undefined,
      and texts wider than the bar. */
  method SendAndShow(file: Bytes, interval: nat, duration: int, gui: GuiListener, name: Bytes, port: int,
                     destIp: Bytes, pad: Byte, junk: Bytes)
    returns (bars: seq<Bytes>)
    requires interval == TCP_INTERVAL || interval == UDP_INTERVAL
    requires |file| < TWO_31 && 0 <= duration < 1_000_000 && (file != [] || duration > 0)
    requires gui.Valid() && NulFree(name) && |name| < NAME_SLOT && |CString(junk)| < 200
    requires 0 <= port < 0x1_0000 && BothBytes(port) && NulFree(destIp) && |destIp| < 20 && pad != NUL
    requires Stops(0, gui.byteSentHex[8..]) && Stops(0, gui.fileLenHex[8..])
    modifies gui.buf, gui.byteSentHex, gui.fileLenHex, gui.fileName
    ensures AreBars(bars, |file|, interval, duration, name, port)
  {
    var chunks, seen := SendAndReport(file, interval, duration, gui, name, port, destIp, pad, junk);
    forall j | 0 <= j < |seen| ensures Showable(seen[j], name, port) {
      ReportsAreDrawable(|file|, interval, duration, j);
    }
    bars := ShowAll(seen, name, port);
  }

  /** One bar for each report of the transfer, with the stated cells. */
  ghost predicate AreBars(bars: seq<Bytes>, size: nat, interval: nat, duration: int, name: Bytes, port: int)
    requires interval > 0
  {
    && |bars| == ChunkCount(size) / interval + 1
    && forall j :: 0 <= j < |bars| ==>
         var r := ReportAt(size, interval, duration, j); Drawable(r) && bars[j] == Bar(r, name, port)
  }

  lemma ReportsAreDrawable(size: nat, interval: nat, duration: nat, j: nat)
    requires interval > 0 && Drawable(Report(size, duration)) && j <= ChunkCount(size) / interval
    ensures var r := ReportAt(size, interval, duration, j);
            Drawable(r) && 0 <= Seconds(r) <= duration
  {
    if j < ChunkCount(size) / interval {
      MoreChunksMoreBytes(CHUNK * interval, 1, j + 1);
    }
  }

  function Shown(p: Progress): Report {
    Report(p.bytesSent, p.size)
  }

  predicate Showable(p: Progress, name: Bytes, port: int) {
    p.name == name && p.port == port && Drawable(Shown(p)) && Seconds(Shown(p)) < 1_000_000
  }

  /** The GUI draws each report as it has decoded it. */
  method ShowAll(seen: seq<Progress>, name: Bytes, port: int) returns (bars: seq<Bytes>)
    requires |name| < NAME_SLOT && 0 <= port < 0x1_0000
    requires forall j :: 0 <= j < |seen| ==> Showable(seen[j], name, port)
    ensures |bars| == |seen|
    ensures forall j :: 0 <= j < |bars| ==> Drawable(Shown(seen[j])) && bars[j] == Bar(Shown(seen[j]), name, port)
  {
    bars := [];
    for j := 0 to |seen|
      invariant |bars| == j
      invariant forall i :: 0 <= i < j ==> Drawable(Shown(seen[i])) && bars[i] == Bar(Shown(seen[i]), name, port)
    {
      var shown := Show(seen[j], name, port);
      bars := bars + [shown];
    }
  }

  method Show(p: Progress, name: Bytes, port: int) returns (shown: Bytes)
    requires |name| < NAME_SLOT && 0 <= port < 0x1_0000 && Showable(p, name, port)
    ensures shown == Bar(Shown(p), name, port)
  {
    TextFits(Shown(p), p.name, p.port);
    shown := SetProgressBar(Shown(p), p.name, p.port);
  }
}
