/** How one node asks another for its port: the peer manager samples its ports before it waits for a
    connection and answers in decimal; the client reads the answer into the front of a zeroed buffer,
    read upon read, and converts what it finds there. */
module PortQuery {
  import opened CText
  import opened FileTransfer
  import opened IpcMessages
  import SyncWorkers

  const REQ_UDP_PORT: Bytes := Ascii("get_udp_port")
  const REQ_TCP_PORT: Bytes := Ascii("get_tcp_port")

  datatype Query = AskTcp | AskUdp | Unknown

  /** The bytes received are used as a string, so they count up to their first NUL. */
  function ParseQuery(request: Bytes): Query {
    var command := TrimLineEnd(CString(request));
    if command == REQ_UDP_PORT then AskUdp else if command == REQ_TCP_PORT then AskTcp else Unknown
  }

  /** The two requests are told apart, with or without a line end behind them, whatever follows a NUL, and
      nothing else is taken for one of them. */
  lemma RequestsAreUnderstood(request: Bytes)
    ensures ParseQuery(request) == AskTcp <==>
            var c := Ascii("get_tcp_port"); CString(request) in {c, c + [10], c + [13], c + [13, 10]}
    ensures ParseQuery(request) == AskUdp <==>
            var c := Ascii("get_udp_port"); CString(request) in {c, c + [10], c + [13], c + [13, 10]}
  {
    assert REQ_TCP_PORT[4] != REQ_UDP_PORT[4];
    TrimmedTo(CString(request), REQ_TCP_PORT);
    TrimmedTo(CString(request), REQ_UDP_PORT);
  }

  lemma TrimmedTo(s: Bytes, t: Bytes)
    requires t != [] && !EndsInLineEnd(t)
    ensures TrimLineEnd(s) == t <==> s in {t, t + [LF], t + [CR], t + [CR, LF]}
  {
    assert (t + [LF])[..|t|] == t && (t + [CR])[..|t|] == t && (t + [CR, LF])[..|t| + 1] == t + [CR];
    if TrimLineEnd(s) == t {
      var tail := s[|t|..];
      assert s == t + tail && |tail| <= 2;
      if |tail| == 1 {
        assert tail == [s[|t|]];
      } else if |tail| == 2 {
        assert tail == [s[|t|], s[|t| + 1]] && s[..|t| + 1][|t|] == s[|t|];
      }
    }
  }

  // ---------------------------------------------------------------- the manager's loop

  datatype Ports = Ports(tcp: int, udp: int)

  datatype Pc = SampleUdp | SampleTcp | Accepting

  /** A served connection: the port answered, if it was asked for one; the ports it was made from; how
      many port changes had happened when those were sampled and when the connection was closed. */
  datatype Served = Served(query: Query, reply: Option<int>, sampled: Ports, udpAge: nat, tcpAge: nat, closed: nat)

  /** `history[v]` are the ports after `v` changes. */
  datatype State = State(history: seq<Ports>, pc: Pc, sampled: Ports, udpAge: nat, tcpAge: nat, log: seq<Served>)
  {
    function Changes(): nat
      requires history != []
    {
      |history| - 1
    }

    function Current(): Ports
      requires history != []
    {
      history[|history| - 1]
    }
  }

  datatype Label = Change(mode: SyncWorkers.Mode, port: int) | Sample | Serve(query: Query)

  function Initial(ports: Ports): State {
    State([ports], SampleUdp, ports, 0, 0, [])
  }

  predicate Enabled(s: State, l: Label) {
    s.history != [] &&
    match l
    case Change(_, _) => true
    case Sample => !s.pc.Accepting?
    case Serve(_) => s.pc.Accepting?
  }

  /** A request that is neither of the two gets no answer. */
  function Answer(query: Query, ports: Ports): Option<int> {
    match query
    case AskUdp => Some(ports.udp)
    case AskTcp => Some(ports.tcp)
    case Unknown => None
  }

  function Step(s: State, l: Label): (t: State)
    requires Enabled(s, l)
    ensures t.history != []
  {
    match l
    case Change(m, port) =>
      s.(history := s.history + [if m.Tcp? then s.Current().(tcp := port) else s.Current().(udp := port)])
    case Sample =>
      if s.pc.SampleUdp?
      then s.(pc := SampleTcp, sampled := s.sampled.(udp := s.Current().udp), udpAge := s.Changes())
      else s.(pc := Accepting, sampled := s.sampled.(tcp := s.Current().tcp), tcpAge := s.Changes())
    case Serve(query) =>
      s.(pc := SampleUdp,
         log := s.log + [Served(query, Answer(query, s.sampled), s.sampled, s.udpAge, s.tcpAge, s.Changes())])
  }

  ghost predicate Run(s: State, ls: seq<Label>, t: State)
    decreases |ls|
  {
    if ls == [] then s == t else Enabled(s, ls[0]) && Run(Step(s, ls[0]), ls[1..], t)
  }

  /** When the connection before the k-th was closed. */
  function ClosedBefore(log: seq<Served>, k: nat): nat
    requires k <= |log|
  {
    if k == 0 then 0 else log[k - 1].closed
  }

  /** The sample is of values the ports had at or after the last answer. */
  ghost predicate Fresh(history: seq<Ports>, p: Ports, udpAge: nat, tcpAge: nat, since: nat) {
    && since <= udpAge <= tcpAge < |history|
    && history[udpAge].udp == p.udp && history[tcpAge].tcp == p.tcp
  }

  ghost predicate Inv(s: State) {
    && s.history != []
    && ClosedBefore(s.log, |s.log|) <= s.Changes()
    && (!s.pc.SampleUdp? ==>
          ClosedBefore(s.log, |s.log|) <= s.udpAge < |s.history| && s.history[s.udpAge].udp == s.sampled.udp)
    && (s.pc.Accepting? ==> Fresh(s.history, s.sampled, s.udpAge, s.tcpAge, ClosedBefore(s.log, |s.log|)))
    && (forall k {:trigger ClosedBefore(s.log, k)} :: 0 <= k < |s.log| ==>
          Entry(s.history, s.log[k], ClosedBefore(s.log, k)))
  }

  ghost predicate Entry(history: seq<Ports>, e: Served, since: nat) {
    && Fresh(history, e.sampled, e.udpAge, e.tcpAge, since)
    && e.tcpAge <= e.closed < |history|
  }

  lemma ChangeKeepsInv(s: State, m: SyncWorkers.Mode, port: int)
    requires Inv(s)
    ensures Inv(Step(s, Change(m, port)))
  {
    var t := Step(s, Change(m, port));
    forall k | 0 <= k < |t.log| ensures Entry(t.history, t.log[k], ClosedBefore(t.log, k)) {
      assert Entry(s.history, s.log[k], ClosedBefore(s.log, k));
    }
  }

  lemma SampleKeepsInv(s: State)
    requires Inv(s) && !s.pc.Accepting?
    ensures Inv(Step(s, Sample))
  {
  }

  lemma ServeKeepsInv(s: State, query: Query)
    requires Inv(s) && s.pc.Accepting?
    ensures Inv(Step(s, Serve(query)))
  {
    var t := Step(s, Serve(query));
    forall k | 0 <= k < |t.log| ensures Entry(t.history, t.log[k], ClosedBefore(t.log, k)) {
      if k < |s.log| {
        assert Entry(s.history, s.log[k], ClosedBefore(s.log, k));
      }
    }
  }

  lemma StepKeepsInv(s: State, l: Label)
    requires Inv(s) && Enabled(s, l)
    ensures Inv(Step(s, l))
  {
    match l
    case Change(m, port) => ChangeKeepsInv(s, m, port);
    case Sample => SampleKeepsInv(s);
    case Serve(query) => ServeKeepsInv(s, query);
  }

  lemma {:induction false} RunKeepsInv(s: State, ls: seq<Label>, t: State)
    requires Inv(s) && Run(s, ls, t)
    ensures Inv(t)
    decreases |ls|
  {
    if ls != [] {
      StepKeepsInv(s, ls[0]);
      RunKeepsInv(Step(s, ls[0]), ls[1..], t);
    }
  }

  ghost predicate Truthful(e: Served) {
    Answers(e.reply, e.query, e.sampled)
  }

  /** The port asked for, and none to anything else. */
  ghost predicate Answers(reply: Option<int>, query: Query, ports: Ports) {
    && (query == AskTcp ==> reply == Some(ports.tcp))
    && (query == AskUdp ==> reply == Some(ports.udp))
    && (query == Unknown ==> reply == None)
  }

  lemma {:induction false} RunKeepsTruth(s: State, ls: seq<Label>, t: State)
    requires Run(s, ls, t) && forall e :: e in s.log ==> Truthful(e)
    ensures forall e :: e in t.log ==> Truthful(e)
    decreases |ls|
  {
    if ls != [] {
      RunKeepsTruth(Step(s, ls[0]), ls[1..], t);
    }
  }

  /** Freshness: in every interleaving of port changes and queries, each answer after the first carries
      ports that were in force at or after the close of the answer before it. So after a change that
      precedes the close of answer k, only answers up to k can be older than the change. */
  lemma AnswersAreFresh(ports: Ports, ls: seq<Label>, s: State, k: nat)
    requires Run(Initial(ports), ls, s) && k < |s.log|
    ensures s.history != []
    ensures Answers(s.log[k].reply, s.log[k].query, s.log[k].sampled)
    ensures k > 0 ==> Fresh(s.history, s.log[k].sampled, s.log[k].udpAge, s.log[k].tcpAge, s.log[k - 1].closed)
  {
    RunKeepsInv(Initial(ports), ls, s);
    RunKeepsTruth(Initial(ports), ls, s);
    assert Entry(s.history, s.log[k], ClosedBefore(s.log, k));
    assert Truthful(s.log[k]);
  }

  /** At most one stale answer: once the ports stop changing, every answer but the first is made from
      the current ports. */
  lemma AtMostOneStaleAnswer(ports: Ports, before: seq<Label>, s: State, ls: seq<Label>, t: State, k: nat)
    requires Run(Initial(ports), before, s) && Run(s, ls, t)
    requires forall l :: l in ls ==> !l.Change?
    requires |s.log| < k < |t.log|
    ensures t.history == s.history && t.history != []
    ensures t.log[k].sampled == t.Current()
    ensures Answers(t.log[k].reply, t.log[k].query, t.Current())
  {
    RunKeepsInv(Initial(ports), before, s);
    RunKeepsTruth(Initial(ports), before, s);
    RunKeepsInv(s, ls, t);
    RunKeepsTruth(s, ls, t);
    QuietRun(s, ls, t);
    assert Entry(t.history, t.log[k], ClosedBefore(t.log, k));
    assert Truthful(t.log[k]);
    OnlyTheNewestIsThatFresh(t.history, t.log[k]);
  }

  lemma {:induction false} RunOn(s: State, ls: seq<Label>, t: State, l: Label)
    requires Run(s, ls, t) && Enabled(t, l)
    ensures Run(s, ls + [l], Step(t, l))
    decreases |ls|
  {
    if ls == [] {
      assert [l][1..] == [];
    } else {
      assert (ls + [l])[1..] == ls[1..] + [l];
      RunOn(Step(s, ls[0]), ls[1..], t, l);
    }
  }

  /** A port can change at any moment of any run: that port becomes the current one, the other keeps its
      value, and the manager does not notice. */
  lemma PortsChangeAtAnyMoment(ports: Ports, ls: seq<Label>, s: State, m: SyncWorkers.Mode, port: int)
    returns (t: State)
    requires Run(Initial(ports), ls, s)
    ensures s.history != [] && Run(Initial(ports), ls + [Change(m, port)], t)
    ensures t.history == s.history + [if m.Tcp? then Ports(port, s.Current().udp) else Ports(s.Current().tcp, port)]
    ensures t.pc == s.pc && t.sampled == s.sampled && t.log == s.log
  {
    RunKeepsInv(Initial(ports), ls, s);
    t := Step(s, Change(m, port));
    RunOn(Initial(ports), ls, s, Change(m, port));
  }

  /** Where a changed port shows: after any run, a change, and no further one, every answer but the first
      gives the new port to those who ask for it, and the old value of the other port. */
  lemma AnswersFollowTheChange(ports: Ports, before: seq<Label>, s: State, m: SyncWorkers.Mode, port: int,
                               ls: seq<Label>, t: State, k: nat)
    requires Run(Initial(ports), before, s) && s.history != [] && Run(Step(s, Change(m, port)), ls, t)
    requires forall l :: l in ls ==> !l.Change?
    requires |s.log| < k < |t.log|
    ensures t.log[k].query == AskTcp ==> t.log[k].reply == Some(if m.Tcp? then port else s.Current().tcp)
    ensures t.log[k].query == AskUdp ==> t.log[k].reply == Some(if m.Tcp? then s.Current().udp else port)
    ensures t.log[k].query == Unknown ==> t.log[k].reply == None
  {
    RunOn(Initial(ports), before, s, Change(m, port));
    AtMostOneStaleAnswer(ports, before + [Change(m, port)], Step(s, Change(m, port)), ls, t, k);
  }

  /** The bound is reached, and the two ports are sampled in turn: with one change between the samples and
      one while the manager waits, an answer gives the newer TCP port and the older UDP port. */
  lemma OneStaleAnswerHappens(ports: Ports, tcp: int, udp: int, query: Query) returns (s: State)
    ensures Run(Initial(ports), [Change(SyncWorkers.Udp, udp), Sample, Change(SyncWorkers.Udp, udp + 1),
                                 Change(SyncWorkers.Tcp, tcp), Sample, Change(SyncWorkers.Tcp, tcp + 1),
                                 Serve(query)], s)
    ensures s.history != [] && s.Current() == Ports(tcp + 1, udp + 1) && |s.log| == 1
    ensures s.log[0].reply == match query { case AskTcp => Some(tcp) case AskUdp => Some(udp) case Unknown => None }
  {
    var s1 := Step(Initial(ports), Change(SyncWorkers.Udp, udp));
    var s2 := Step(s1, Sample);
    var s3 := Step(s2, Change(SyncWorkers.Udp, udp + 1));
    var s4 := Step(s3, Change(SyncWorkers.Tcp, tcp));
    var s5 := Step(s4, Sample);
    var s6 := Step(s5, Change(SyncWorkers.Tcp, tcp + 1));
    s := Step(s6, Serve(query));
    var ls := [Change(SyncWorkers.Udp, udp), Sample, Change(SyncWorkers.Udp, udp + 1),
               Change(SyncWorkers.Tcp, tcp), Sample, Change(SyncWorkers.Tcp, tcp + 1), Serve(query)];
    RunNext(Initial(ports), ls, 0, Initial(ports));
    RunNext(Initial(ports), ls, 1, s1);
    RunNext(Initial(ports), ls, 2, s2);
    RunNext(Initial(ports), ls, 3, s3);
    RunNext(Initial(ports), ls, 4, s4);
    RunNext(Initial(ports), ls, 5, s5);
    RunNext(Initial(ports), ls, 6, s6);
    assert ls[..7] == ls;
  }

  lemma RunNext(s: State, ls: seq<Label>, n: nat, t: State)
    requires n < |ls| && Run(s, ls[..n], t) && Enabled(t, ls[n])
    ensures Run(s, ls[..n + 1], Step(t, ls[n]))
  {
    RunOn(s, ls[..n], t, ls[n]);
    assert ls[..n + 1] == ls[..n] + [ls[n]];
  }

  lemma OnlyTheNewestIsThatFresh(history: seq<Ports>, e: Served)
    requires history != [] && Entry(history, e, |history| - 1) && Truthful(e)
    ensures e.sampled == history[|history| - 1]
    ensures Answers(e.reply, e.query, history[|history| - 1])
  {
  }

  lemma {:induction false} QuietRun(s: State, ls: seq<Label>, t: State)
    requires Inv(s) && Run(s, ls, t)
    requires forall l :: l in ls ==> !l.Change?
    ensures t.history == s.history && s.log <= t.log
    ensures forall k :: |s.log| <= k < |t.log| ==> t.log[k].closed == s.Changes()
    decreases |ls|
  {
    if ls != [] {
      assert ls[0] in ls;
      StepKeepsInv(s, ls[0]);
      QuietRun(Step(s, ls[0]), ls[1..], t);
    }
  }

  // ---------------------------------------------------------------- the client's read loop

  const REPLY_BUFFER: nat := 1000

  /** Each fragment lands at the front of the buffer, over the one before. */
  function Overlaid(fragments: seq<Bytes>): (buf: Bytes)
    requires AreChunks(fragments)
    ensures |buf| == 1000
  {
    if fragments == [] then Repeat(NUL, REPLY_BUFFER)
    else
      var last := fragments[|fragments| - 1];
      last + Overlaid(fragments[..|fragments| - 1])[|last|..]
  }

  /** Byte by byte: at each position the last piece that reaches it wins, and where none reaches, the buffer
      is still zero. */
  lemma {:induction false} LastToReachWins(fragments: seq<Bytes>, i: nat)
    requires AreChunks(fragments) && i < 1000
    ensures (forall k :: 0 <= k < |fragments| ==> |fragments[k]| <= i) ==> Overlaid(fragments)[i] == NUL
    ensures forall k :: 0 <= k < |fragments| && |fragments[k]| > i
                        && (forall j :: k < j < |fragments| ==> |fragments[j]| <= i) ==>
              Overlaid(fragments)[i] == fragments[k][i]
  {
    if fragments != [] {
      LastToReachWins(fragments[..|fragments| - 1], i);
    }
  }

  method ReadPort(fragments: seq<Bytes>) returns (port: int)
    requires AreChunks(fragments)
    ensures port == Atoi(Overlaid(fragments))
  {
    var buf := new Byte[REPLY_BUFFER];
    Zero(buf);
    for k := 0 to |fragments|
      invariant buf[..] == Overlaid(fragments[..k])
    {
      ReadInto(buf, fragments[k]);
      assert fragments[..k + 1][..k] == fragments[..k];
    }
    assert fragments[..|fragments|] == fragments;
    port := Atoi(buf[..]);
  }

  /** What is read before a NUL at position k adds at most k digits to what was read already. */
  lemma {:induction false} ShortNumeral(s: Bytes, k: nat, acc: nat)
    requires k < |s| && s[k] == NUL
    ensures Accumulate(s, 10, acc) < (acc + 1) * Pow10(k)
    decreases k
  {
    if DigitValue(s[0]) < 10 {
      ShortNumeral(s[1..], k - 1, acc * 10 + DigitValue(s[0]));
      OneMoreDigit(acc, DigitValue(s[0]), Pow10(k - 1));
    } else {
      OneMoreDigit(0, 0, Pow10(k));
      assert (acc + 1) * Pow10(k) == acc * Pow10(k) + Pow10(k);
    }
  }

  lemma OneMoreDigit(acc: nat, d: nat, p: nat)
    requires d < 10
    ensures (acc * 10 + d + 1) * p <= (acc + 1) * (10 * p)
  {
    assert (acc + 1) * (10 * p) == (acc * 10 + 10) * p;
    assert (acc * 10 + d + 1) * p + (9 - d) * p == (acc * 10 + 10) * p;
  }

  lemma {:induction false} LongNumeral(u: nat)
    requires u > 0
    ensures u >= Pow10(|Digits(u, 10)| - 1)
    decreases u
  {
    if u >= 10 {
      LongNumeral(u / 10);
    }
  }

  lemma {:induction false} PiecesAreShort(fragments: seq<Bytes>, bound: nat)
    requires AreChunks(fragments) && bound < REPLY_BUFFER
    requires forall k :: 0 <= k < |fragments| ==> |fragments[k]| <= bound
    ensures Overlaid(fragments)[bound] == NUL
  {
    if fragments != [] {
      PiecesAreShort(fragments[..|fragments| - 1], bound);
    }
  }

  lemma {:induction false} PieceLengths(fragments: seq<Bytes>)
    requires AreChunks(fragments)
    ensures |Flatten(fragments)| >= |fragments|
    ensures forall k :: 0 <= k < |fragments| ==> |fragments[k]| <= |Flatten(fragments)| - |fragments| + 1
  {
    if fragments != [] {
      PieceLengths(fragments[..|fragments| - 1]);
    }
  }

  lemma ShortBufferMisreads(buf: Bytes, k: nat, port: int)
    requires k < |buf| && buf[k] == NUL && DigitValue(buf[0]) < 10
    requires IsInt32(port) && port >= Pow10(k)
    ensures Atoi(buf) != port
  {
    NumeralStopsAtNul(buf, k);
    SmallNumeralMisreads(buf, Pow10(k), port);
  }

  lemma NumeralStopsAtNul(buf: Bytes, k: nat)
    requires k < |buf| && buf[k] == NUL
    ensures Accumulate(buf, 10, 0) < Pow10(k)
  {
    ShortNumeral(buf, k, 0);
  }

  lemma SmallNumeralMisreads(buf: Bytes, bound: int, port: int)
    requires buf != [] && DigitValue(buf[0]) < 10 && IsInt32(port)
    requires Accumulate(buf, 10, 0) < bound <= port
    ensures Atoi(buf) != port
  {
    AtoiOfNumeral(buf);
  }

  lemma OnePiece(port: nat, fragments: seq<Bytes>)
    requires IsInt32(port) && AreChunks(fragments) && |fragments| == 1 && Flatten(fragments) == Decimal(port)
    ensures Atoi(Overlaid(fragments)) == port
  {
    var zeros := Repeat(NUL, REPLY_BUFFER);
    OneFragment(fragments);
    AtoiInvertsDecimal(port, zeros[|fragments[0]|..]);
  }

  lemma OneFragment(fragments: seq<Bytes>)
    requires AreChunks(fragments) && |fragments| == 1
    ensures Flatten(fragments) == fragments[0]
    ensures Overlaid(fragments) == fragments[0] + Repeat(NUL, REPLY_BUFFER)[|fragments[0]|..]
  {
    assert fragments[..0] == [];
  }

  lemma NumeralBounds(port: nat)
    requires IsInt32(port)
    ensures |Decimal(port)| <= 10
    ensures |Decimal(port)| >= 2 ==> port >= Pow10(|Decimal(port)| - 1)
  {
    assert Pow10(10) == 100_000 * Pow10(5) && Pow10(5) == 100_000;
    DecimalWidth(port, 10);
    if port > 0 {
      LongNumeral(port);
    }
  }

  lemma FirstIsDigit(fragments: seq<Bytes>, port: nat)
    requires AreChunks(fragments) && fragments != [] && Flatten(fragments) == Decimal(port)
    ensures DigitValue(Overlaid(fragments)[0]) < 10
  {
    var last := fragments[|fragments| - 1];
    assert Overlaid(fragments)[0] == last[0];
    assert last[0] in Flatten(fragments);
    assert last[0] in Digits(port, 10);
  }

  lemma EveryPieceIsShorter(fragments: seq<Bytes>)
    requires AreChunks(fragments) && |fragments| >= 2
    ensures |Flatten(fragments)| >= 2
    ensures forall k :: 0 <= k < |fragments| ==> |fragments[k]| <= |Flatten(fragments)| - 1
  {
    PieceLengths(fragments);
  }

  lemma PiecesLeaveNul(reply: Bytes, fragments: seq<Bytes>)
    requires AreChunks(fragments) && Flatten(fragments) == reply && |fragments| >= 2 && |reply| <= 10
    ensures |reply| >= 2 && Overlaid(fragments)[|reply| - 1] == NUL
  {
    EveryPieceIsShorter(fragments);
    PiecesAreShort(fragments, |reply| - 1);
  }

  lemma SeveralPieces(port: nat, reply: Bytes, fragments: seq<Bytes>)
    requires AreChunks(fragments) && Flatten(fragments) == reply && |fragments| >= 2
    requires |reply| <= 10 && IsInt32(port) && (|reply| >= 2 ==> port >= Pow10(|reply| - 1))
    requires DigitValue(Overlaid(fragments)[0]) < 10
    ensures Atoi(Overlaid(fragments)) != port
  {
    PiecesLeaveNul(reply, fragments);
    ShortBufferMisreads(Overlaid(fragments), |reply| - 1, port);
  }

  /** The port is read back right exactly when the answer arrives in one read: with two or more pieces
      the buffer never holds as many digits as the port has. */
  lemma PortQueryRoundTrip(port: nat, fragments: seq<Bytes>)
    requires IsInt32(port) && AreChunks(fragments) && Flatten(fragments) == Decimal(port)
    ensures Atoi(Overlaid(fragments)) == port <==> |fragments| == 1
  {
    if |fragments| == 1 {
      OnePiece(port, fragments);
    } else if |fragments| >= 2 {
      NumeralBounds(port);
      FirstIsDigit(fragments, port);
      SeveralPieces(port, Decimal(port), fragments);
    }
  }
}
