/** What becomes of the queue under a fixed mode: the client on duty drains it, with or without adds
    meanwhile, and an overrun strands whole laps of it. */
module SyncOutcomes {
  import opened SyncRepos
  import opened SyncWorkers

  // ---------------------------------------------------------------- a fixed mode and no adds

  /** The client on duty is past its emptiness test, so the entry at the tail is its own. */
  function Holding(s: State): nat {
    if Rank(s.Client(s.mode).pc) >= 2 then 1 else 0
  }

  /** How many entries the client on duty will still remove: its own, and the distance behind it without
      the whole laps. */
  function Remaining(s: State): nat {
    Holding(s) + Left(s.enqueued, s.removed + Holding(s))
  }

  /** The steps of a client's cycle. */
  function Cycle(w: Mode): nat {
    if w.Udp? then 9 else 8
  }

  /** Steps of its cycle that a client has behind it. */
  function Progress(w: Mode, pc: Pc): nat {
    if w.Tcp? && Rank(pc) >= 6 then Rank(pc) - 1 else Rank(pc)
  }

  /** How many steps the client on duty is away from what it takes for an empty queue. */
  function Todo(s: State): int {
    if Remaining(s) == 0 then 0 else Cycle(s.mode) * Remaining(s) - Progress(s.mode, s.Client(s.mode).pc)
  }

  /** Overrun or not, but not underrun: the entry that the client on duty holds has been enqueued. */
  ghost predicate Lively(s: State) {
    Accounts(s) && s.removed + Holding(s) <= |s.enqueued|
  }

  /** What a client transfers if it completes its copy from this entry. */
  function Completed(c: Worker, t: Task): Delivery {
    Delivery(if Rank(c.pc) >= 3 then c.local.filename else t.filename,
             if Rank(c.pc) >= 4 then c.local.fileSize else t.fileSize,
             if Rank(c.pc) >= 5 then c.local.destIp else t.destIp)
  }

  /** What the client on duty will transfer of the entry it holds, unless it has done so. */
  function InHand(s: State): seq<Delivery>
    requires s.Shape()
  {
    if 2 <= Rank(s.Client(s.mode).pc) < 8 then [Completed(s.Client(s.mode), s.slots[s.tail])] else []
  }

  /** The entries behind that one, without the whole laps. */
  function Coming(s: State): seq<Task>
    requires s.removed + Holding(s) <= |s.enqueued|
  {
    s.enqueued[|s.enqueued| - Left(s.enqueued, s.removed + Holding(s))..]
  }

  /** All transfers there will ever be, if nothing is added and the mode stays. */
  function Outcome(s: State): seq<Delivery>
    requires s.Shape() && s.removed + Holding(s) <= |s.enqueued|
  {
    s.sent + InHand(s) + Views(Coming(s))
  }

  /** A client's step touches itself, and the log or the tail. */
  lemma WorkEffects(s: State, w: Mode)
    requires s.Shape()
    ensures var t := WorkStep(s, w);
            && t.mode == s.mode && t.enqueued == s.enqueued && t.slots == s.slots && t.head == s.head
            && t.Client(Other(w)) == s.Client(Other(w))
            && t.removed == s.removed + (if s.Client(w).pc.Removing? then 1 else 0)
            && t.sent == s.sent + (if s.Client(w).pc.Sending? then [s.Client(w).local] else [])
            && t.tail == (if s.Client(w).pc.Removing? then Advance(s.tail) else s.tail)
  {
  }

  lemma EmptyMeansNoneLeft(s: State)
    requires Accounts(s)
    ensures s.head == s.tail <==> Left(s.enqueued, s.removed) == 0
  {
    EmptinessTest(s.slots, s.head, s.tail, s.enqueued, s.removed);
  }

  /** Where the client on duty goes: back to its mode check after a remove or an empty queue, otherwise one
      step on in its cycle. */
  lemma OnDutyMovesOn(s: State)
    requires s.Shape() && !s.tcp.pc.QueryUdp?
    ensures var pc, next := s.Client(s.mode).pc, WorkStep(s, s.mode).Client(s.mode).pc;
            && Progress(s.mode, pc) < Cycle(s.mode)
            && (pc.Removing? <==> Progress(s.mode, pc) == Cycle(s.mode) - 1)
            && (Rank(pc) >= 2 <==> Progress(s.mode, pc) >= 2)
            && (Rank(next) >= 2 <==> Progress(s.mode, next) >= 2)
            && Progress(s.mode, next) == if pc.Removing? || (pc.Ready? && s.head == s.tail) then 0
                                         else Progress(s.mode, pc) + 1
  {
  }

  lemma OnDutyStaysLively(s: State)
    requires Lively(s)
    ensures var t := WorkStep(s, s.mode);
            && Lively(t) && t.mode == s.mode && t.enqueued == s.enqueued
            && t.Client(Other(s.mode)) == s.Client(Other(s.mode))
            && t.removed + Remaining(t) == s.removed + Remaining(s)
  {
    WorkKeepsAccounts(s, s.mode);
    WorkEffects(s, s.mode);
    EmptyMeansNoneLeft(s);
    OnDutyMovesOn(s);
    if s.Client(s.mode).pc.Ready? && s.head != s.tail {
      OneLeftLess(s.enqueued, s.removed);
    }
  }

  /** Every turn of the client on duty brings an empty queue, or what it takes for one, one turn nearer. */
  lemma OnDutyCountsDown(s: State)
    requires Lively(s)
    ensures Todo(WorkStep(s, s.mode)) == if Todo(s) > 0 then Todo(s) - 1 else 0
    ensures 0 <= Todo(s) && (Todo(s) == 0 <==> Remaining(s) == 0)
  {
    OnDutyStaysLively(s);
    WorkEffects(s, s.mode);
    EmptyMeansNoneLeft(s);
    OnDutyMovesOn(s);
    OneTurnNearer(s, WorkStep(s, s.mode));
  }

  lemma OneTurnNearer(s: State, t: State)
    requires t.mode == s.mode
    requires Remaining(t) == Remaining(s) - (if s.Client(s.mode).pc.Removing? then 1 else 0)
    requires var last := Cycle(s.mode) - 1;
             var p, q := Progress(s.mode, s.Client(s.mode).pc), Progress(t.mode, t.Client(t.mode).pc);
             && p <= last && (s.Client(s.mode).pc.Removing? <==> p == last)
             && (Remaining(s) != 0 ==> q == if p == last then 0 else p + 1)
    ensures Todo(t) == if Todo(s) > 0 then Todo(s) - 1 else 0
    ensures 0 <= Todo(s) && (Todo(s) == 0 <==> Remaining(s) == 0)
  {
  }

  /** Every turn of the client on duty keeps what was sent and what is still to be sent the same together. */
  lemma OnDutySendsInOrder(s: State)
    requires Lively(s)
    ensures Lively(WorkStep(s, s.mode)) && Outcome(WorkStep(s, s.mode)) == Outcome(s)
  {
    OnDutyStaysLively(s);
    if s.Client(s.mode).pc.Ready? && s.head != s.tail {
      OnDutyTakes(s);
    } else if s.Client(s.mode).pc.Sending? {
      OnDutySends(s);
    } else {
      OnDutyGoesOn(s);
    }
  }

  lemma OnDutyTakes(s: State)
    requires Lively(s) && Lively(WorkStep(s, s.mode)) && s.Client(s.mode).pc.Ready? && s.head != s.tail
    ensures Outcome(WorkStep(s, s.mode)) == Outcome(s)
  {
    TailIsTaken(s);
    EmptyMeansNoneLeft(s);
    TailSlotAfterLaps(s.slots, s.head, s.tail, s.enqueued, s.removed);
    FrontIsTaken(s, WorkStep(s, s.mode));
  }

  lemma TailIsTaken(s: State)
    requires s.Shape() && s.Client(s.mode).pc.Ready? && s.head != s.tail
    ensures var t := WorkStep(s, s.mode);
            && t.sent == s.sent && t.enqueued == s.enqueued && t.removed == s.removed
            && Holding(s) == 0 && Holding(t) == 1 && InHand(s) == [] && InHand(t) == [View(s.slots[s.tail])]
  {
  }

  lemma FrontIsTaken(s: State, t: State)
    requires s.Shape() && t.Shape() && s.removed < |s.enqueued| && Left(s.enqueued, s.removed) != 0
    requires t.sent == s.sent && t.enqueued == s.enqueued && t.removed == s.removed
    requires Holding(s) == 0 && Holding(t) == 1 && InHand(s) == []
    requires Left(s.enqueued, s.removed) <= |s.enqueued|
    requires InHand(t) == [View(s.enqueued[|s.enqueued| - Left(s.enqueued, s.removed)])]
    ensures Outcome(t) == Outcome(s)
  {
    OneLeftLess(s.enqueued, s.removed);
    FirstComesFirst(s.sent, s.enqueued, |s.enqueued| - Left(s.enqueued, s.removed));
  }

  lemma FirstComesFirst(sent: seq<Delivery>, order: seq<Task>, n: nat)
    requires n < |order|
    ensures sent + [View(order[n])] + Views(order[n + 1..]) == sent + [] + Views(order[n..])
  {
    assert Views(order[n..]) == [View(order[n])] + Views(order[n + 1..]);
  }

  lemma OnDutySends(s: State)
    requires Lively(s) && Lively(WorkStep(s, s.mode)) && s.Client(s.mode).pc.Sending?
    ensures Outcome(WorkStep(s, s.mode)) == Outcome(s)
  {
    var t := WorkStep(s, s.mode);
    assert t.sent == s.sent + InHand(s) && InHand(t) == [] && t.enqueued == s.enqueued && t.removed == s.removed;
    SameOutcome(s, t);
  }

  lemma OnDutyGoesOn(s: State)
    requires Lively(s) && Lively(WorkStep(s, s.mode)) && !s.Client(s.mode).pc.Sending?
    requires s.Client(s.mode).pc.Ready? ==> s.head == s.tail
    ensures Outcome(WorkStep(s, s.mode)) == Outcome(s)
  {
    HandStays(s);
    SameOutcome(s, WorkStep(s, s.mode));
  }

  lemma HandStays(s: State)
    requires s.Shape() && !s.Client(s.mode).pc.Sending? && (s.Client(s.mode).pc.Ready? ==> s.head == s.tail)
    ensures var t := WorkStep(s, s.mode);
            && InHand(t) == InHand(s) && t.sent == s.sent && t.enqueued == s.enqueued
            && t.removed + Holding(t) == s.removed + Holding(s)
  {
  }

  lemma SameOutcome(s: State, t: State)
    requires s.Shape() && t.Shape() && s.removed + Holding(s) <= |s.enqueued|
    requires t.enqueued == s.enqueued && t.removed + Holding(t) == s.removed + Holding(s)
    requires t.sent + InHand(t) == s.sent + InHand(s)
    ensures Outcome(t) == Outcome(s)
  {
  }

  predicate OnlyClients(ls: seq<Label>) {
    forall l :: l in ls ==> l.Work?
  }

  function Count(ls: seq<Label>, w: Mode): nat {
    if ls == [] then 0 else (if ls[0] == Work(w) then 1 else 0) + Count(ls[1..], w)
  }

  /** Nobody is in an add, and the client off duty sleeps. */
  ghost predicate Quiet(s: State) {
    Lively(s) && s.LockFree() && !s.InFlight(Other(s.mode))
  }

  /** The client whose duty it is not sleeps. */
  lemma OffDutyStutters(s: State, w: Mode)
    requires s.Shape() && w != s.mode && !s.InFlight(w)
    ensures WorkStep(s, w) == s
  {
  }

  lemma StaysQuiet(s: State, w: Mode)
    requires Quiet(s)
    ensures var t := WorkStep(s, w);
            && Quiet(t) && t.mode == s.mode && t.enqueued == s.enqueued
            && t.removed + Remaining(t) == s.removed + Remaining(s)
            && Outcome(t) == Outcome(s)
            && Todo(t) == if w == s.mode && Todo(s) > 0 then Todo(s) - 1 else Todo(s)
  {
    if w == s.mode {
      OnDutyStaysLively(s);
      OnDutyCountsDown(s);
      OnDutySendsInOrder(s);
    } else {
      OffDutyStutters(s, w);
    }
  }

  /** With the mode fixed and no adds, in every interleaving that gives the client on duty enough turns: it
      transfers what it holds, wherever in its cycle it stands and whatever was added meanwhile; then the
      entries behind that, each once, oldest first, without the whole laps of 30 that an overrun has cost;
      and the emptiness test says "empty". */
  lemma {:induction false} FixedModeDrains(s: State, ls: seq<Label>)
    requires Quiet(s)
    requires OnlyClients(ls) && Count(ls, s.mode) >= Todo(s)
    ensures Legal(s, ls)
    ensures var t := Exec(s, ls);
            && t.enqueued == s.enqueued && t.head == t.tail
            && t.removed == s.removed + Remaining(s)
            && t.sent == Outcome(s)
    decreases |ls|
  {
    if ls == [] {
      DrainedHasNothingComing(s);
    } else {
      assert ls[0] in ls;
      assert OnlyClients(ls[1..]);
      StaysQuiet(s, ls[0].client);
      FixedModeDrains(WorkStep(s, ls[0].client), ls[1..]);
    }
  }

  lemma DrainedHasNothingComing(s: State)
    requires Lively(s) && Todo(s) <= 0
    ensures Remaining(s) == 0 && s.head == s.tail && Outcome(s) == s.sent
  {
    OnDutyCountsDown(s);
    EmptyMeansNoneLeft(s);
    assert Coming(s) == [];
  }

  /** What the client on duty holds is the oldest entry, unmixed. */
  ghost predicate HandInOrder(s: State)
    requires Lively(s)
  {
    InHand(s) == [] || InHand(s) == [View(s.enqueued[s.removed])]
  }

  /** Exactly when nothing is lost: up to 29 entries behind the one that the client on duty holds, so a
      whole lap of 30 is harmless if the overrun comes in the middle of a transfer. */
  lemma NothingIsLostIff(s: State)
    requires Quiet(s) && LogFollowsQueue(s) && HandInOrder(s)
    ensures Outcome(s) == Views(s.enqueued) <==> s.Distance() <= 29 + Holding(s)
  {
    OutcomeIsWithoutLaps(s);
    LapsAreLostIff(s.enqueued, s.removed + Holding(s));
  }

  lemma OutcomeIsWithoutLaps(s: State)
    requires Quiet(s) && LogFollowsQueue(s) && HandInOrder(s)
    ensures Outcome(s) == WithoutLaps(s.enqueued, s.removed + Holding(s))
  {
    HandFollowsLog(s);
  }

  /** The first n deliveries, and those behind them without the whole laps. */
  function WithoutLaps(order: seq<Task>, n: nat): seq<Delivery>
    requires n <= |order|
  {
    Views(order[..n]) + Views(order[|order| - Left(order, n)..])
  }

  lemma LapsAreLostIff(order: seq<Task>, n: nat)
    requires n <= |order|
    ensures WithoutLaps(order, n) == Views(order) <==> |order| - n <= CAPACITY
  {
    LeftIsAllIff(order, n);
    GapIsLostIff(order, n, |order| - Left(order, n));
  }

  lemma LeftIsAllIff(order: seq<Task>, n: nat)
    requires n <= |order|
    ensures Left(order, n) <= |order| - n && (Left(order, n) == |order| - n <==> |order| - n <= CAPACITY)
  {
  }

  lemma GapIsLostIff(order: seq<Task>, n: nat, m: nat)
    requires n <= m <= |order|
    ensures Views(order[..n]) + Views(order[m..]) == Views(order) <==> n == m
  {
    SentAndRest(order, n);
    assert |Views(order[..n]) + Views(order[m..])| == n + (|order| - m);
  }

  lemma HandFollowsLog(s: State)
    requires Quiet(s) && LogFollowsQueue(s) && HandInOrder(s)
    ensures s.sent + InHand(s) == Views(s.enqueued[..s.removed + Holding(s)])
  {
    assert s.Client(Other(s.mode)).pc.Idle?;
    assert |s.sent| == s.removed + Leaving(s.Client(s.mode));
    if InHand(s) != [] {
      ViewsAppend(s.enqueued[..s.removed], [s.enqueued[s.removed]]);
      assert s.enqueued[..s.removed + 1] == s.enqueued[..s.removed] + [s.enqueued[s.removed]];
    }
  }

  lemma SentAndRest(order: seq<Task>, n: nat)
    requires n <= |order|
    ensures Views(order[..n]) + Views(order[n..]) == Views(order)
  {
    assert order == order[..n] + order[n..];
    ViewsAppend(order[..n], order[n..]);
  }

  lemma OrderlyIsQuiet(s: State)
    requires Orderly(s) && s.LockFree()
    ensures Quiet(s) && HandInOrder(s) && Remaining(s) == s.Distance()
  {
    OnlyOneOnDuty(s);
    if Holding(s) == 1 {
      TailSlotIsOldest(s.slots, s.head, s.tail, s.enqueued, s.removed);
      LeftInBounds(s.enqueued, s.removed + 1);
    } else {
      LeftInBounds(s.enqueued, s.removed);
    }
  }

  lemma OnlyOneOnDuty(s: State)
    requires Orderly(s)
    ensures !s.InFlight(Other(s.mode))
    ensures var c := s.Client(s.mode);
            && |s.sent| == s.removed + Leaving(c)
            && (Rank(c.pc) >= 2 ==> s.removed < |s.enqueued| && CopyAgrees(c, s.enqueued[s.removed]))
  {
    assert s.InFlight(Other(s.mode)) ==> s.mode == Other(s.mode);
  }

  // ---------------------------------------------------------------- a fixed mode while adds go on

  ghost predicate ModeStays(s: State, ls: seq<Label>)
    requires s.Shape() && Legal(s, ls)
    decreases |ls|
  {
    ls == [] || (Step(s, ls[0]).mode == s.mode && ModeStays(Step(s, ls[0]), ls[1..]))
  }

  /** How many steps the client on duty is away from having removed n entries. */
  function TurnsUntil(s: State, n: nat): int {
    if n <= s.removed then 0 else Cycle(s.mode) * (n - s.removed) - Progress(s.mode, s.Client(s.mode).pc)
  }

  lemma NoTurnsLeft(s: State, n: nat)
    requires TurnsUntil(s, n) <= 0
    ensures n <= s.removed
  {
    assert Progress(s.mode, s.Client(s.mode).pc) < Cycle(s.mode);
  }

  /** While entries are pending, a turn of the client on duty is never wasted, and no other step sets it
      back. */
  lemma OrderlyStepCountsDown(s: State, l: Label, n: nat)
    requires Orderly(s) && Enabled(s, l) && Step(s, l).mode == s.mode && n <= |s.enqueued|
    ensures TurnsUntil(Step(s, l), n) <= if l == Work(s.mode) && n > s.removed then TurnsUntil(s, n) - 1
                                         else TurnsUntil(s, n)
    ensures s.enqueued <= Step(s, l).enqueued
  {
    if l.Work? && l.client == s.mode {
      WorkEffects(s, s.mode);
      OnDutyMovesOn(s);
      EmptinessTest(s.slots, s.head, s.tail, s.enqueued, s.removed);
      EntryNearer(s, WorkStep(s, s.mode), n);
    } else if l.Work? {
      OnlyOneOnDuty(s);
      OffDutyStutters(s, l.client);
    }
  }

  lemma EntryNearer(s: State, t: State, n: nat)
    requires t.mode == s.mode && t.removed == s.removed + (if s.Client(s.mode).pc.Removing? then 1 else 0)
    requires var last := Cycle(s.mode) - 1;
             var p, q := Progress(s.mode, s.Client(s.mode).pc), Progress(t.mode, t.Client(t.mode).pc);
             && p <= last && (s.Client(s.mode).pc.Removing? <==> p == last)
             && (n > s.removed ==> q == if p == last then 0 else p + 1)
    ensures TurnsUntil(t, n) <= if n > s.removed then TurnsUntil(s, n) - 1 else TurnsUntil(s, n)
  {
  }

  /** Liveness while files are being added and ports are being changed: in every disciplined run that keeps
      the mode, at most nine turns of the client on duty for each of the first n entries that are not yet
      removed, however interleaved, and these entries have been sent. */
  lemma {:induction false} DrainsWhileAddsGoOn(s: State, ls: seq<Label>, n: nat)
    requires Orderly(s) && DisciplinedRun(s, ls) && Legal(s, ls) && ModeStays(s, ls)
    requires n <= |s.enqueued| && Count(ls, s.mode) >= TurnsUntil(s, n)
    ensures var t := Exec(s, ls);
            Orderly(t) && n <= t.removed && s.enqueued <= t.enqueued && Views(s.enqueued[..n]) <= t.sent
    decreases |ls|
  {
    if ls == [] {
      NoTurnsLeft(s, n);
      FirstAreSent(s, s.enqueued, n);
    } else {
      var m := Step(s, ls[0]);
      StepKeepsOrder(s, ls[0]);
      OrderlyStepCountsDown(s, ls[0], n);
      DrainsWhileAddsGoOn(m, ls[1..], n);
      assert m.enqueued[..n] == s.enqueued[..n];
    }
  }

  lemma FirstAreSent(t: State, tasks: seq<Task>, n: nat)
    requires Accounts(t) && LogFollowsQueue(t) && n <= t.removed && n <= |tasks| && tasks <= t.enqueued
    ensures Views(tasks[..n]) <= t.sent
  {
    assert |t.sent| >= n;
    assert Views(tasks[..n]) == Views(t.enqueued[..|t.sent|])[..n];
  }

  /** Enough turns of the client on duty for all that a disciplined run can leave pending. */
  const ENOUGH_TURNS: nat := 9 * CAPACITY

  /** From the start of the daemon to the last delivery: after any disciplined run, 261 turns of the client
      on duty serve everybody whose files were added by then. They may be interleaved with turns of the
      other client, further adds and port changes: each address then has received each file at least once per
      add and per targeted peer at that address. With the clients alone it has received it exactly so often. */
  lemma EveryPeerIsEventuallyServed(peers: seq<Peer>, slots: seq<Task>, before: seq<Label>, after: seq<Label>,
                                    d: Delivery)
    requires |peers| == MAX_PEER_NUM && |slots| == MAX_REPOS_NUM
    requires DisciplinedRun(Initial(peers, slots), before)
    ensures Legal(Initial(peers, slots), before)
    ensures var s := Exec(Initial(peers, slots), before);
            && Legal(s, after) && DisciplinedRun(s, after) && ModeStays(s, after)
            && Count(after, s.mode) >= 261 ==>
              && Views(FanOutAll(s.added, peers)) <= Exec(s, after).sent
              && multiset(Exec(s, after).sent)[d] >=
                 AddsOf(s.added, d.filename, d.fileSize) * TargetsAt(peers, d.destIp)
    ensures var s := Exec(Initial(peers, slots), before);
            s.LockFree() && OnlyClients(after) && Count(after, s.mode) >= 261 ==>
              && Legal(s, after)
              && Exec(s, after).sent == Views(FanOutAll(s.added, peers))
              && multiset(Exec(s, after).sent)[d] ==
                 AddsOf(s.added, d.filename, d.fileSize) * TargetsAt(peers, d.destIp)
  {
    InitiallyOrderly(peers, slots);
    DisciplinedRunIsOrderly(Initial(peers, slots), before);
    PeersStay(Initial(peers, slots), before);
    var s := Exec(Initial(peers, slots), before);
    FanOutAllCount(s.added, peers, d);
    if Legal(s, after) && DisciplinedRun(s, after) && ModeStays(s, after) && Count(after, s.mode) >= ENOUGH_TURNS {
      ServedMeanwhile(s, after);
      PrefixCounts(Views(FanOutAll(s.added, peers)), Exec(s, after).sent, d);
    }
    if s.LockFree() && OnlyClients(after) && Count(after, s.mode) >= ENOUGH_TURNS {
      OrderlyIsQuiet(s);
      NothingIsLostIff(s);
      FixedModeDrains(s, after);
    }
  }

  lemma ServedMeanwhile(s: State, after: seq<Label>)
    requires Orderly(s) && DisciplinedRun(s, after) && Legal(s, after) && ModeStays(s, after)
    requires Count(after, s.mode) >= ENOUGH_TURNS
    ensures Views(FanOutAll(s.added, s.peers)) <= Exec(s, after).sent
  {
    var tasks := FanOutAll(s.added, s.peers);
    AddedIsEnqueued(s);
    BoundedTurns(s, |tasks|);
    DrainsWhileAddsGoOn(s, after, |tasks|);
  }

  lemma AddedIsEnqueued(s: State)
    requires Accounts(s)
    ensures var tasks := FanOutAll(s.added, s.peers); |tasks| <= |s.enqueued| && s.enqueued[..|tasks|] == tasks
  {
  }

  lemma BoundedTurns(s: State, n: nat)
    requires Bounded(s.enqueued, s.removed) && n <= |s.enqueued|
    ensures TurnsUntil(s, n) <= ENOUGH_TURNS
  {
  }

  lemma PrefixCounts(a: seq<Delivery>, b: seq<Delivery>, d: Delivery)
    requires a <= b
    ensures multiset(a)[d] <= multiset(b)[d]
  {
    assert b == a + b[|a|..];
  }

  // ---------------------------------------------------------------- adds without a client's turn

  /** There is room for the tasks of the add in progress that are still to come. */
  predicate HasRoom(s: State)
    requires s.Shape()
  {
    Outstanding(s) == 0 || s.Distance() + Outstanding(s) <= CAPACITY
  }

  lemma RoomIffDisciplined(s: State)
    requires s.Shape() && s.listener.Adding?
    ensures HasRoom(s) <==> Disciplined(s, Listen) && HasRoom(ListenStep(s))
  {
    var Adding(req, i, k) := s.listener;
    if i == MAX_PEER_NUM {
      assert s.peers[..i] == s.peers;
    } else {
      assert s.peers[..i + 1][..i] == s.peers[..i];
      FanOutGrows(req, s.peers, i + 1);
    }
  }

  /** The listener alone finishes an add that it has begun, in a disciplined run if there is room. */
  lemma {:induction false} ListenerFinishesAdd(s: State) returns (ls: seq<Label>, t: State)
    requires Accounts(s) && s.listener.Adding?
    ensures Leads(s, ls, t) && Accounts(t) && t.listener.Waiting?
    ensures DisciplinedRun(s, ls) <==> HasRoom(s)
    ensures t.added == s.added + [s.listener.req] && OnlyAdded(s, t)
    decreases MAX_PEER_NUM - s.listener.peer, 4 - s.listener.field
  {
    ListenKeepsAccounts(s);
    OneStepLeads(s, Listen);
    RoomIffDisciplined(s);
    var m := ListenStep(s);
    if s.listener.peer == MAX_PEER_NUM {
      ls, t := [Listen], m;
    } else {
      var rest: seq<Label>;
      rest, t := ListenerFinishesAdd(m);
      ls := [Listen] + rest;
      assert ls[1..] == rest;
      LeadsOn(s, [Listen], m, rest, t);
    }
  }

  /** Adds alone leave the clients and their log as they are. */
  ghost predicate OnlyAdded(s: State, t: State) {
    && t.peers == s.peers && t.mode == s.mode && t.tcp == s.tcp && t.udp == s.udp
    && t.removed == s.removed && t.sent == s.sent && s.enqueued <= t.enqueued
  }

  /** A whole add without a turn of the clients: from a bounded queue it is disciplined exactly if it is
      admitted, that is, if its tasks fit the capacity together with those pending. */
  lemma AddWithoutATurn(s: State, req: Request) returns (ls: seq<Label>, t: State)
    requires Accounts(s) && s.listener.Waiting? && FitsSlot(req)
    ensures Leads(s, ls, t) && Accounts(t) && t.listener.Waiting? && t.added == s.added + [req] && OnlyAdded(s, t)
    ensures Bounded(s.enqueued, s.removed) ==>
              (DisciplinedRun(s, ls) <==> Admitted(s, BeginAdd(req)))
              && (DisciplinedRun(s, ls) <==> s.Distance() + |FanOut(req, s.peers)| <= 29)
  {
    var begun := Step(s, BeginAdd(req));
    OneStepLeads(s, BeginAdd(req));
    StepKeepsAccounts(s, BeginAdd(req));
    assert s.peers[..0] == [];
    var rest: seq<Label>;
    rest, t := ListenerFinishesAdd(begun);
    ls := [BeginAdd(req)] + rest;
    LeadsOn(s, [BeginAdd(req)], begun, rest, t);
    assert ls[1..] == rest;
  }

  /** Any files can be added, one after the other, before a client has its next turn. */
  lemma {:induction false} AddsWithoutATurn(s: State, reqs: seq<Request>) returns (ls: seq<Label>, t: State)
    requires Accounts(s) && s.listener.Waiting? && forall r :: r in reqs ==> FitsSlot(r)
    ensures Leads(s, ls, t) && Accounts(t) && t.listener.Waiting?
    ensures t.added == s.added + reqs && OnlyAdded(s, t)
    decreases |reqs|
  {
    if reqs == [] {
      ls, t := [], s;
    } else {
      var n := |reqs| - 1;
      var before, m := AddsWithoutATurn(s, reqs[..n]);
      var last: seq<Label>;
      last, t := AddWithoutATurn(m, reqs[n]);
      ls := before + last;
      LeadsOn(s, before, m, last, t);
    }
  }

  /** An overrun in the middle of a transfer: from every orderly state in which the client on duty has made
      its copy, add any files, then let the clients drain. The client sends what it has copied and then the
      newest entries up to the last whole lap behind it; so everything is sent exactly if no more than 30
      entries were pending. */
  lemma OverrunMidTransfer(s: State, reqs: seq<Request>, after: seq<Label>) returns (ls: seq<Label>, t: State)
    requires Orderly(s) && s.listener.Waiting? && Rank(s.Client(s.mode).pc) >= 5
    requires forall r :: r in reqs ==> FitsSlot(r)
    requires OnlyClients(after) && Count(after, s.mode) >= 270
    ensures Leads(s, ls, t) && t.enqueued == FanOutAll(s.added + reqs, s.peers) && OnlyAdded(s, t) && Legal(t, after)
    ensures var tasks, last := t.enqueued, Exec(t, after);
            && s.removed < |tasks| && last.head == last.tail
            && last.sent == WithoutLaps(tasks, s.removed + 1)
            && (last.sent == Views(tasks) <==> |tasks| - s.removed <= 30)
  {
    ls, t := AddsWithoutATurn(s, reqs);
    CopySurvivesAdds(s, t);
    HandThenRest(t, after);
  }

  lemma HandThenRest(t: State, after: seq<Label>)
    requires Quiet(t) && LogFollowsQueue(t) && HandInOrder(t) && Holding(t) == 1
    requires OnlyClients(after) && Count(after, t.mode) >= Todo(t)
    ensures Legal(t, after)
    ensures var tasks, last := t.enqueued, Exec(t, after);
            && t.removed < |tasks| && last.head == last.tail
            && last.sent == WithoutLaps(tasks, t.removed + 1)
            && (last.sent == Views(tasks) <==> |tasks| - t.removed <= MAX_REPOS_NUM)
  {
    OutcomeIsWithoutLaps(t);
    NothingIsLostIff(t);
    FixedModeDrains(t, after);
  }

  lemma CopySurvivesAdds(s: State, t: State)
    requires Orderly(s) && Rank(s.Client(s.mode).pc) >= 5
    requires Accounts(t) && t.listener.Waiting? && OnlyAdded(s, t)
    ensures Quiet(t) && Holding(t) == 1 && Todo(t) <= 9 * MAX_REPOS_NUM
    ensures LogFollowsQueue(t) && HandInOrder(t)
  {
    OnlyOneOnDuty(s);
    UntouchedClients(s, t);
    assert s.enqueued[..|s.sent|] == t.enqueued[..|s.sent|];
  }

  lemma AddsBeforeAnyTurn(peers: seq<Peer>, slots: seq<Task>, reqs: seq<Request>)
    returns (ls: seq<Label>, s: State)
    requires |peers| == MAX_PEER_NUM && |slots| == MAX_REPOS_NUM
    requires forall r :: r in reqs ==> FitsSlot(r)
    ensures Leads(Initial(peers, slots), ls, s) && Accounts(s)
    ensures s.added == reqs && s.enqueued == FanOutAll(reqs, peers) && s.removed == 0 && s.sent == []
    ensures s.mode == Udp && s.listener.Waiting? && !s.InFlight(Tcp) && !s.InFlight(Udp)
  {
    AccountsInitially(peers, slots);
    ls, s := AddsWithoutATurn(Initial(peers, slots), reqs);
    assert [] + reqs == reqs;
  }

  /** From the start of the daemon: add any files, then let the clients drain. Sent are the newest tasks
      up to the last whole lap of 30, so everything is sent exactly if it fits the capacity. */
  lemma AddsThenDrain(peers: seq<Peer>, slots: seq<Task>, reqs: seq<Request>, after: seq<Label>)
    returns (ls: seq<Label>, s: State)
    requires |peers| == MAX_PEER_NUM && |slots| == MAX_REPOS_NUM
    requires forall r :: r in reqs ==> FitsSlot(r)
    requires OnlyClients(after) && Count(after, Udp) >= 261
    ensures Leads(Initial(peers, slots), ls, s) && s.added == reqs && Legal(s, after)
    ensures var tasks, t := FanOutAll(reqs, peers), Exec(s, after);
            && s.enqueued == tasks && t.head == t.tail
            && t.sent == Views(tasks[|tasks| - |tasks| % 30..])
            && (t.sent == Views(tasks) <==> |tasks| <= 29)
  {
    ls, s := AddsBeforeAnyTurn(peers, slots, reqs);
    CalmDrains(s, after);
    NoLapIsLostIff(s.enqueued);
  }

  lemma CalmDrains(s: State, after: seq<Label>)
    requires Accounts(s) && s.listener.Waiting? && !s.InFlight(Tcp) && !s.InFlight(Udp)
    requires s.removed == 0 && s.sent == [] && OnlyClients(after) && Count(after, s.mode) >= ENOUGH_TURNS
    ensures Legal(s, after)
    ensures var t := Exec(s, after);
            t.head == t.tail && t.sent == Views(s.enqueued[|s.enqueued| - |s.enqueued| % MAX_REPOS_NUM..])
  {
    CalmIsQuiet(s);
    FixedModeDrains(s, after);
    assert [] + [] + Views(Coming(s)) == Views(Coming(s));
  }

  lemma CalmIsQuiet(s: State)
    requires Accounts(s) && s.listener.Waiting? && !s.InFlight(Tcp) && !s.InFlight(Udp) && s.removed <= |s.enqueued|
    ensures Quiet(s) && Todo(s) <= ENOUGH_TURNS && Holding(s) == 0 && InHand(s) == []
    ensures Coming(s) == s.enqueued[|s.enqueued| - (|s.enqueued| - s.removed) % MAX_REPOS_NUM..]
  {
    assert s.Client(s.mode).pc.Idle? && s.Client(Other(s.mode)).pc.Idle?;
  }

  lemma NoLapIsLostIff(tasks: seq<Task>)
    ensures Views(tasks[|tasks| - |tasks| % MAX_REPOS_NUM..]) == Views(tasks) <==> |tasks| <= CAPACITY
  {
    if |tasks| <= CAPACITY {
      assert tasks[0..] == tasks;
    } else {
      assert |tasks[|tasks| - |tasks| % MAX_REPOS_NUM..]| < |tasks|;
    }
  }

  /** An overrun strands the queue: with a whole lap of 30 tasks pending the emptiness test says
      "empty", and no interleaving of the clients alone ever sends or removes anything. */
  lemma {:induction false} WholeLapIsStranded(s: State, ls: seq<Label>)
    requires Accounts(s) && s.LockFree() && s.Distance() % MAX_REPOS_NUM == 0
    requires Rank(s.tcp.pc) <= 1 && Rank(s.udp.pc) <= 1
    requires OnlyClients(ls)
    ensures Legal(s, ls) && Exec(s, ls).sent == s.sent && Exec(s, ls).removed == s.removed
    decreases |ls|
  {
    if ls != [] {
      assert ls[0] in ls;
      StrandedStays(s, ls[0].client);
      assert OnlyClients(ls[1..]);
      WholeLapIsStranded(WorkStep(s, ls[0].client), ls[1..]);
    }
  }

  lemma StrandedStays(s: State, w: Mode)
    requires Accounts(s) && s.Distance() % MAX_REPOS_NUM == 0
    requires Rank(s.tcp.pc) <= 1 && Rank(s.udp.pc) <= 1
    ensures var t := WorkStep(s, w);
            && Accounts(t) && t.Distance() == s.Distance() && t.sent == s.sent && t.removed == s.removed
            && Rank(t.tcp.pc) <= 1 && Rank(t.udp.pc) <= 1
  {
    EmptinessTest(s.slots, s.head, s.tail, s.enqueued, s.removed);
    WorkKeepsAccounts(s, w);
  }

  /** Three files added for ten peers fill a whole lap: the queue says "empty", and nothing is ever sent. */
  lemma ThreeAddsToTenPeersAreLost(peers: seq<Peer>, slots: seq<Task>, reqs: seq<Request>)
    returns (ls: seq<Label>, s: State)
    requires |peers| == 10 && |slots| == 30 && |reqs| == 3
    requires (forall p :: p in peers ==> Targeted(p)) && (forall r :: r in reqs ==> FitsSlot(r))
    ensures Leads(Initial(peers, slots), ls, s) && s.added == reqs
    ensures s.Distance() == 30 && s.head == s.tail
    ensures forall after :: OnlyClients(after) && Legal(s, after) ==> Exec(s, after).sent == []
  {
    ls, s := AddsBeforeAnyTurn(peers, slots, reqs);
    AllTargetedFanOutAll(reqs, peers);
    EmptyMeansNoneLeft(s);
    forall after | OnlyClients(after) && Legal(s, after) ensures Exec(s, after).sent == [] {
      WholeLapIsStranded(s, after);
    }
  }

  lemma {:induction false} AllTargetedFanOut(req: Request, peers: seq<Peer>)
    requires forall p :: p in peers ==> Targeted(p)
    ensures |FanOut(req, peers)| == |peers|
  {
    if peers != [] {
      AllTargetedFanOut(req, peers[..|peers| - 1]);
    }
  }

  lemma {:induction false} AllTargetedFanOutAll(reqs: seq<Request>, peers: seq<Peer>)
    requires forall p :: p in peers ==> Targeted(p)
    ensures |FanOutAll(reqs, peers)| == |reqs| * |peers|
  {
    if reqs != [] {
      var n := |reqs| - 1;
      AllTargetedFanOutAll(reqs[..n], peers);
      AllTargetedFanOut(reqs[n], peers);
      Distribute(n, |peers|);
    }
  }
}
