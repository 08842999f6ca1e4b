/** Mode switches: what one at the wrong moment costs, and exactly which of them keep the order of
    enqueueing. */
module SyncSwitches {
  import opened SyncRepos
  import opened SyncWorkers
  import opened SyncOutcomes

  // ---------------------------------------------------------------- one switch in the middle of a transfer

  function Turns(w: Mode, n: nat): seq<Label> {
    if n == 0 then [] else [Work(w)] + Turns(w, n - 1)
  }

  function AfterTurns(s: State, w: Mode, n: nat): State
    requires s.Shape()
    decreases n
  {
    if n == 0 then s else AfterTurns(WorkStep(s, w), w, n - 1)
  }

  lemma {:induction false} TurnsLead(s: State, w: Mode, n: nat)
    requires s.Shape() && s.listener.Waiting?
    ensures Leads(s, Turns(w, n), AfterTurns(s, w, n))
    decreases n
  {
    if n > 0 {
      assert Turns(w, n)[1..] == Turns(w, n - 1);
      TurnsLead(WorkStep(s, w), w, n - 1);
    }
  }

  /** A client's turns from its mode check to the end of its copy, and from there to the remove. */
  const COPY_TURNS: nat := 5

  function SendTurns(w: Mode): nat {
    if w.Udp? then 3 else 2
  }

  function Copied(s: State, w: Mode): State
    requires s.removed < |s.enqueued|
  {
    s.SetClient(w, Worker(Querying(w), View(s.enqueued[s.removed])))
  }

  function Transferred(s: State, w: Mode): State {
    s.SetClient(w, s.Client(w).(pc := Removing)).(sent := s.sent + [s.Client(w).local])
  }

  lemma CopyPhase(s: State, w: Mode)
    requires Accounts(s) && Bounded(s.enqueued, s.removed) && s.removed < |s.enqueued|
    requires s.listener.Waiting? && s.mode == w && !s.InFlight(w)
    ensures Leads(s, Turns(w, COPY_TURNS), Copied(s, w))
  {
    EmptinessTest(s.slots, s.head, s.tail, s.enqueued, s.removed);
    TailSlotIsOldest(s.slots, s.head, s.tail, s.enqueued, s.removed);
    TurnsLead(s, w, COPY_TURNS);
    var s1 := WorkStep(s, w);
    var s2 := WorkStep(s1, w);
    var s3 := WorkStep(s2, w);
    var s4 := WorkStep(s3, w);
    assert AfterTurns(s, w, 5) == AfterTurns(s1, w, 4) == AfterTurns(s2, w, 3);
    assert AfterTurns(s2, w, 3) == AfterTurns(s3, w, 2) == AfterTurns(s4, w, 1) == WorkStep(s4, w);
  }

  lemma SendPhase(s: State, w: Mode)
    requires s.Shape() && s.listener.Waiting?
    requires s.Client(w).pc == Querying(w)
    ensures Leads(s, Turns(w, SendTurns(w)), Transferred(s, w))
  {
    TurnsLead(s, w, SendTurns(w));
    var s1 := WorkStep(s, w);
    var s2 := WorkStep(s1, w);
    assert AfterTurns(s, w, SendTurns(w)) == AfterTurns(s1, w, SendTurns(w) - 1) == AfterTurns(s2, w, SendTurns(w) - 2);
  }

  lemma TwoStepsLead(s: State, l: Label, m: Label)
    requires s.Shape() && Enabled(s, l) && Enabled(Step(s, l), m)
    ensures Leads(s, [l, m], Step(Step(s, l), m))
  {
    OneStepLeads(s, l);
    OneStepLeads(Step(s, l), m);
    LeadsOn(s, [l], Step(s, l), [m], Step(Step(s, l), m));
    assert [l] + [m] == [l, m];
  }

  /** The client on duty copies the oldest task, then the listener takes the duty from it. */
  function CopyThenSwitch(w: Mode): seq<Label> {
    Turns(w, COPY_TURNS) + [BeginSwitch(Other(w)), Listen]
  }

  /** The other client copies the same task; both transfer it; both remove. */
  function BothSend(w: Mode): seq<Label> {
    Turns(Other(w), COPY_TURNS) + Turns(Other(w), SendTurns(Other(w))) + Turns(w, SendTurns(w))
  }

  function BothTransfer(w: Mode): seq<Label> {
    BothSend(w) + [Work(w), Work(Other(w))]
  }

  lemma CopyThenSwitchLeads(s: State) returns (t: State)
    requires Accounts(s) && Bounded(s.enqueued, s.removed) && s.Distance() >= 1
    requires s.listener.Waiting? && !s.InFlight(Tcp) && !s.InFlight(Udp)
    ensures Leads(s, CopyThenSwitch(s.mode), t) && Accounts(t)
    ensures t == Copied(s, s.mode).(mode := Other(s.mode))
  {
    CopyPhase(s, s.mode);
    var s1 := Copied(s, s.mode);
    TwoStepsLead(s1, BeginSwitch(Other(s.mode)), Listen);
    t := Step(Step(s1, BeginSwitch(Other(s.mode))), Listen);
    LeadsOn(s, Turns(s.mode, COPY_TURNS), s1, [BeginSwitch(Other(s.mode)), Listen], t);
    RunKeepsAccounts(s, CopyThenSwitch(s.mode));
  }

  lemma CopyAndSend(s: State, w: Mode)
    requires Accounts(s) && Bounded(s.enqueued, s.removed) && s.removed < |s.enqueued|
    requires s.listener.Waiting? && s.mode == w && !s.InFlight(w)
    ensures Leads(s, Turns(w, COPY_TURNS) + Turns(w, SendTurns(w)), Transferred(Copied(s, w), w))
  {
    CopyPhase(s, w);
    SendPhase(Copied(s, w), w);
    LeadsOn(s, Turns(w, COPY_TURNS), Copied(s, w), Turns(w, SendTurns(w)), Transferred(Copied(s, w), w));
  }

  lemma BothSendLeads(s: State, w: Mode) returns (t: State)
    requires Accounts(s) && Bounded(s.enqueued, s.removed) && s.Distance() >= 1
    requires s.listener.Waiting? && s.mode == Other(w) && !s.InFlight(Other(w))
    requires s.Client(w) == Copied(s, w).Client(w)
    ensures Leads(s, BothSend(w), t)
    ensures t.Client(w).pc.Removing? && t.Client(Other(w)).pc.Removing? && t.listener.Waiting?
    ensures t.enqueued == s.enqueued && t.removed == s.removed
    ensures t.sent == s.sent + [View(s.enqueued[s.removed])] + [View(s.enqueued[s.removed])]
  {
    var v := Other(w);
    CopyAndSend(s, v);
    var m := Transferred(Copied(s, v), v);
    SendPhase(m, w);
    t := Transferred(m, w);
    LeadsOn(s, Turns(v, COPY_TURNS) + Turns(v, SendTurns(v)), m, Turns(w, SendTurns(w)), t);
  }

  lemma BothTransferLeads(s: State, w: Mode) returns (t: State)
    requires Accounts(s) && Bounded(s.enqueued, s.removed) && s.Distance() >= 1
    requires s.listener.Waiting? && s.mode == Other(w) && !s.InFlight(Other(w))
    requires s.Client(w) == Copied(s, w).Client(w)
    ensures Leads(s, BothTransfer(w), t)
    ensures t.enqueued == s.enqueued && t.removed == s.removed + 2
    ensures t.sent == s.sent + [View(s.enqueued[s.removed]), View(s.enqueued[s.removed])]
    ensures !t.InFlight(Tcp) && !t.InFlight(Udp) && t.listener.Waiting?
  {
    var m := BothSendLeads(s, w);
    TwoStepsLead(m, Work(w), Work(Other(w)));
    t := WorkStep(WorkStep(m, w), Other(w));
    LeadsOn(s, BothSend(w), m, [Work(w), Work(Other(w))], t);
  }

  /** One mode switch in the middle of a transfer, from any calm state with something pending: the
      first task is sent twice and two slots are removed. With two or more pending, the second task
      is gone unsent; with one, the ring is underrun and claims to hold more. */
  lemma SwitchMidTransferSendsTwice(s: State) returns (t: State)
    requires Accounts(s) && Bounded(s.enqueued, s.removed) && s.Distance() >= 1
    requires s.listener.Waiting? && !s.InFlight(Tcp) && !s.InFlight(Udp)
    ensures Leads(s, CopyThenSwitch(s.mode) + BothTransfer(s.mode), t)
    ensures t.enqueued == s.enqueued && t.removed == s.removed + 2
    ensures t.sent == s.sent + [View(s.enqueued[s.removed]), View(s.enqueued[s.removed])]
    ensures !t.InFlight(Tcp) && !t.InFlight(Udp) && t.listener.Waiting?
    ensures s.Distance() == 1 ==> t.Distance() == -1 && t.head != t.tail
  {
    var m := CopyThenSwitchLeads(s);
    t := BothTransferLeads(m, s.mode);
    RunKeepsAccounts(m, BothTransfer(s.mode));
    LeadsOn(s, CopyThenSwitch(s.mode), m, BothTransfer(s.mode), t);
    EmptyMeansNoneLeft(t);
  }

  /** When exactly that run breaks the order: unless the second pending entry delivers the very same as
      the first. */
  lemma SwitchMidTransferBreaksTheOrder(s: State) returns (t: State)
    requires Orderly(s) && s.Distance() >= 1
    requires s.listener.Waiting? && !s.InFlight(Tcp) && !s.InFlight(Udp)
    ensures Leads(s, CopyThenSwitch(s.mode) + BothTransfer(s.mode), t)
    ensures t.sent <= Views(t.enqueued)
            <==> s.Distance() >= 2 && View(s.enqueued[s.removed]) == View(s.enqueued[s.removed + 1])
  {
    t := SwitchMidTransferSendsTwice(s);
    OrderlyLog(s);
    SentTwice(s.sent, Views(s.enqueued));
  }

  lemma OrderlyLog(s: State)
    requires Orderly(s) && !s.InFlight(Tcp) && !s.InFlight(Udp)
    ensures s.sent <= Views(s.enqueued) && |s.sent| == s.removed
  {
    LogIsPrefix(s);
  }

  lemma SentTwice(sent: seq<Delivery>, order: seq<Delivery>)
    requires sent <= order && |sent| < |order|
    ensures sent + [order[|sent|], order[|sent|]] <= order
            <==> |sent| + 1 < |order| && order[|sent|] == order[|sent| + 1]
  {
    var twice := sent + [order[|sent|], order[|sent|]];
    if twice <= order {
      assert twice[|sent| + 1] == order[|sent| + 1];
    }
  }

  // ---------------------------------------------------------------- the exact moment for a switch

  /** No interleaving of the clients from here ever puts the log out of the order of enqueueing. */
  ghost predicate ClientsKeepOrder(s: State)
    requires s.Shape()
  {
    forall ls :: OnlyClients(ls) && Legal(s, ls) ==> Exec(s, ls).sent <= Views(s.enqueued)
  }

  lemma {:induction false} ClientsAloneAreDisciplined(s: State, ls: seq<Label>)
    requires Orderly(s) && OnlyClients(ls) && Legal(s, ls)
    ensures Orderly(Exec(s, ls)) && Exec(s, ls).enqueued == s.enqueued
    decreases |ls|
  {
    if ls != [] {
      assert ls[0] in ls;
      assert OnlyClients(ls[1..]);
      WorkEffects(s, ls[0].client);
      WorkKeepsOrder(s, ls[0].client);
      ClientsAloneAreDisciplined(Step(s, ls[0]), ls[1..]);
    }
  }

  lemma OrderlyClientsKeepOrder(s: State)
    requires Orderly(s)
    ensures ClientsKeepOrder(s)
  {
    forall ls | OnlyClients(ls) && Legal(s, ls) ensures Exec(s, ls).sent <= Views(s.enqueued) {
      ClientsAloneAreDisciplined(s, ls);
      LogIsPrefix(Exec(s, ls));
    }
  }

  lemma LogIsPrefix(s: State)
    requires LogFollowsQueue(s)
    ensures s.sent <= Views(s.enqueued)
  {
    assert Views(s.enqueued)[..|s.sent|] == Views(s.enqueued[..|s.sent|]);
  }

  /** With nothing pending, a client that was caught before its emptiness test sends nothing. */
  lemma NothingPendingKeepsOrder(s: State)
    requires Accounts(s) && s.LockFree() && s.Distance() == 0 && LogFollowsQueue(s)
    requires Rank(s.tcp.pc) <= 1 && Rank(s.udp.pc) <= 1
    ensures ClientsKeepOrder(s)
  {
    forall ls | OnlyClients(ls) && Legal(s, ls) ensures Exec(s, ls).sent <= Views(s.enqueued) {
      WholeLapIsStranded(s, ls);
      LogIsPrefix(s);
    }
  }

  /** A client in flight, left alone, comes to its remove without touching anything but itself and the
      log, whoever is on duty. */
  lemma {:induction false} InFlightReachesRemove(s: State, w: Mode) returns (ls: seq<Label>, t: State)
    requires Accounts(s) && s.listener.Waiting? && s.InFlight(w)
    requires Bounded(s.enqueued, s.removed) && s.removed < |s.enqueued|
    ensures OnlyClients(ls) && Leads(s, ls, t) && Accounts(t) && t.Client(w).pc.Removing?
    ensures t.mode == s.mode && t.enqueued == s.enqueued && t.removed == s.removed && t.listener == s.listener
    ensures t.Client(Other(w)) == s.Client(Other(w))
    decreases 8 - Rank(s.Client(w).pc)
  {
    if s.Client(w).pc.Removing? {
      ls, t := [], s;
    } else {
      EmptyMeansNoneLeft(s);
      LeftInBounds(s.enqueued, s.removed);
      WorkKeepsAccounts(s, w);
      WorkEffects(s, w);
      OneStepLeads(s, Work(w));
      var rest: seq<Label>;
      rest, t := InFlightReachesRemove(WorkStep(s, w), w);
      ls := [Work(w)] + rest;
      LeadsOn(s, [Work(w)], WorkStep(s, w), rest, t);
    }
  }

  /** Turns of the client on duty alone empty the queue, whatever state the other client is left in. */
  lemma {:induction false} OnDutyAloneDrains(s: State) returns (ls: seq<Label>, t: State)
    requires Lively(s) && s.listener.Waiting?
    ensures OnlyClients(ls) && Leads(s, ls, t) && Accounts(t)
    ensures t.enqueued == s.enqueued && t.removed == s.removed + Remaining(s)
    ensures t.Client(Other(s.mode)) == s.Client(Other(s.mode))
    decreases Todo(s)
  {
    OnDutyCountsDown(s);
    if Todo(s) == 0 {
      ls, t := [], s;
    } else {
      OnDutyStaysLively(s);
      OneStepLeads(s, Work(s.mode));
      var rest: seq<Label>;
      rest, t := OnDutyAloneDrains(WorkStep(s, s.mode));
      ls := [Work(s.mode)] + rest;
      LeadsOn(s, [Work(s.mode)], WorkStep(s, s.mode), rest, t);
    }
  }

  /** Caught in flight with something pending, the client that lost the duty sends its task and stops at
      its remove, while the other client sends every pending task: one transfer too many. */
  lemma CaughtInFlightBreaksTheOrder(s: State)
    requires Accounts(s) && Bounded(s.enqueued, s.removed) && s.removed < |s.enqueued|
    requires s.listener.Waiting? && s.InFlight(Other(s.mode)) && !s.InFlight(s.mode)
    ensures !ClientsKeepOrder(s)
  {
    var w := Other(s.mode);
    var a, s1 := InFlightReachesRemove(s, w);
    assert s1.Client(s.mode) == s.Client(s.mode);
    var b, s2 := OnDutyAloneDrains(s1);
    LeadsOn(s, a, s1, b, s2);
    LeftInBounds(s.enqueued, s.removed);
    assert OnlyClients(a + b) && Legal(s, a + b) && Exec(s, a + b) == s2;
    assert s2.Client(w).pc.Removing? && |s2.sent| > |s2.enqueued|;
  }

  /** At the moment in which the listener stores the mode, in every orderly state, if no add follows: the
      clients keep the order of enqueueing in all interleavings from there exactly if the mode is the
      current one, or no client is between its mode check and its remove, or nothing is pending. */
  lemma SwitchWithoutAddsIff(s: State)
    requires Orderly(s) && s.listener.Switching?
    ensures ClientsKeepOrder(ListenStep(s)) <==>
            s.listener.mode == s.mode || (!s.InFlight(Tcp) && !s.InFlight(Udp)) || s.Distance() == 0
  {
    var t := ListenStep(s);
    assert t.tcp == s.tcp && t.udp == s.udp && t.enqueued == s.enqueued && t.sent == s.sent;
    StepKeepsAccounts(s, Listen);
    if s.listener.mode == s.mode || (!s.InFlight(Tcp) && !s.InFlight(Udp)) {
      ListenKeepsOrder(s);
      OrderlyClientsKeepOrder(t);
    } else if s.Distance() == 0 {
      assert Rank(s.Client(Tcp).pc) <= 1 && Rank(s.Client(Udp).pc) <= 1;
      NothingPendingKeepsOrder(t);
    } else {
      SwitchCatchesAClient(s);
      CaughtInFlightBreaksTheOrder(t);
    }
  }

  lemma SwitchCatchesAClient(s: State)
    requires Orderly(s) && s.listener.Switching? && s.listener.mode != s.mode
    requires s.InFlight(Tcp) || s.InFlight(Udp)
    ensures var t := ListenStep(s);
            t.listener.Waiting? && t.InFlight(Other(t.mode)) && !t.InFlight(t.mode)
  {
    UntouchedClients(s, ListenStep(s));
    assert s.InFlight(s.mode) && !s.InFlight(Other(s.mode));
  }

  // ---------------------------------------------------------------- a switch, and adds after it

  /** No run from here, adds and port changes included, ever puts the log out of the order of enqueueing. */
  ghost predicate RunsKeepOrder(s: State)
    requires s.Shape()
  {
    forall ls :: DisciplinedRun(s, ls) && Legal(s, ls) ==> Exec(s, ls).sent <= Views(Exec(s, ls).enqueued)
  }

  lemma OrderlyRunsKeepOrder(s: State)
    requires Orderly(s)
    ensures RunsKeepOrder(s)
  {
    forall ls | DisciplinedRun(s, ls) && Legal(s, ls) ensures Exec(s, ls).sent <= Views(Exec(s, ls).enqueued) {
      DisciplinedRunIsOrderly(s, ls);
      LogIsPrefix(Exec(s, ls));
    }
  }

  lemma {:induction false} ClientsAreDisciplined(s: State, ls: seq<Label>)
    requires s.Shape() && OnlyClients(ls) && Legal(s, ls)
    ensures DisciplinedRun(s, ls) && Exec(s, ls).enqueued == s.enqueued
    decreases |ls|
  {
    if ls != [] {
      assert ls[0] in ls;
      assert OnlyClients(ls[1..]);
      WorkEffects(s, ls[0].client);
      ClientsAreDisciplined(Step(s, ls[0]), ls[1..]);
    }
  }

  lemma {:induction false} DisciplinedAppend(s: State, a: seq<Label>, b: seq<Label>)
    requires s.Shape() && DisciplinedRun(s, a) && Legal(s, a) && DisciplinedRun(Exec(s, a), b)
    ensures DisciplinedRun(s, a + b)
    decreases |a|
  {
    if a == [] {
      assert a + b == b;
    } else {
      assert (a + b)[1..] == a[1..] + b;
      DisciplinedAppend(Step(s, a[0]), a[1..], b);
    }
  }

  /** Once the clients alone can break the order after a disciplined run, that run does not keep it. */
  lemma BreaksAfter(s: State, a: seq<Label>, t: State)
    requires Leads(s, a, t) && DisciplinedRun(s, a) && !ClientsKeepOrder(t)
    ensures !RunsKeepOrder(s)
  {
    var b :| OnlyClients(b) && Legal(t, b) && !(Exec(t, b).sent <= Views(t.enqueued));
    ClientsAreDisciplined(t, b);
    DisciplinedAppend(s, a, b);
    ExecAppend(s, a, b);
    assert DisciplinedRun(s, a + b) && Legal(s, a + b);
  }

  /** With nothing pending, one add is enough: it fits, and then the client that was caught and the other
      one both take its first entry. */
  lemma AddAfterCatchBreaksTheOrder(s: State)
    requires Accounts(s) && s.listener.Waiting? && s.Distance() == 0
    requires s.InFlight(Other(s.mode)) && !s.InFlight(s.mode)
    requires exists p :: p in s.peers && Targeted(p)
    ensures !RunsKeepOrder(s)
  {
    var req := Request([], [], 0);
    FanOutIsShort(req, s.peers);
    var ls, t := AddWithoutATurn(s, req);
    OneMoreAdd(s, t, req);
    UntouchedClients(s, t);
    CaughtInFlightBreaksTheOrder(t);
    BreaksAfter(s, ls, t);
  }

  lemma OneMoreAdd(s: State, t: State, req: Request)
    requires Accounts(s) && Accounts(t) && s.listener.Waiting? && t.listener.Waiting? && s.Distance() == 0
    requires t.added == s.added + [req] && t.peers == s.peers && t.removed == s.removed
    requires exists p :: p in s.peers && Targeted(p)
    ensures Bounded(t.enqueued, t.removed) && t.removed < |t.enqueued|
  {
    FanOutIsShort(req, s.peers);
    SomebodyIsTargeted(req, s.peers);
    assert (s.added + [req])[..|s.added|] == s.added;
  }

  lemma {:induction false} FanOutIsShort(req: Request, peers: seq<Peer>)
    ensures |FanOut(req, peers)| <= |peers|
  {
    if peers != [] {
      FanOutIsShort(req, peers[..|peers| - 1]);
    }
  }

  lemma {:induction false} SomebodyIsTargeted(req: Request, peers: seq<Peer>)
    ensures FanOut(req, peers) != [] <==> exists p :: p in peers && Targeted(p)
  {
    if peers != [] {
      var n := |peers| - 1;
      SomebodyIsTargeted(req, peers[..n]);
      assert peers == peers[..n] + [peers[n]];
    }
  }

  lemma {:induction false} NobodyIsServed(reqs: seq<Request>, peers: seq<Peer>)
    requires !exists p :: p in peers && Targeted(p)
    ensures FanOutAll(reqs, peers) == []
  {
    if reqs != [] {
      NobodyIsServed(reqs[..|reqs| - 1], peers);
      SomebodyIsTargeted(reqs[|reqs| - 1], peers);
    }
  }

  /** Without a targeted peer there is never anything to send. */
  lemma {:induction false} NothingIsEverSent(s: State, ls: seq<Label>)
    requires Accounts(s) && Legal(s, ls) && !exists p :: p in s.peers && Targeted(p)
    requires s.Distance() == 0 && s.sent == [] && Rank(s.tcp.pc) <= 1 && Rank(s.udp.pc) <= 1
    ensures Exec(s, ls).sent == []
    decreases |ls|
  {
    if ls != [] {
      if ls[0].Work? {
        StrandedStays(s, ls[0].client);
      } else {
        StepKeepsAccounts(s, ls[0]);
        assert Step(s, ls[0]).enqueued == s.enqueued by {
          forall i | 0 <= i < |s.peers| ensures !Targeted(s.peers[i]) {
            assert s.peers[i] in s.peers;
          }
        }
      }
      NothingIsEverSent(Step(s, ls[0]), ls[1..]);
    }
  }

  lemma NoTargetKeepsOrder(s: State)
    requires Accounts(s) && s.listener.Waiting? && LogFollowsQueue(s) && Bounded(s.enqueued, s.removed)
    requires Rank(s.tcp.pc) <= 1 && Rank(s.udp.pc) <= 1 && !exists p :: p in s.peers && Targeted(p)
    ensures RunsKeepOrder(s)
  {
    NobodyIsServed(s.added, s.peers);
    forall ls | DisciplinedRun(s, ls) && Legal(s, ls) ensures Exec(s, ls).sent <= Views(Exec(s, ls).enqueued) {
      NothingIsEverSent(s, ls);
    }
  }

  /** The exact condition for a mode switch, at the moment in which the listener stores the mode, in every
      orderly state: every run from there, with further adds and disciplined otherwise, keeps the order of
      enqueueing exactly if the mode is the current one, or no client is between its mode check and its
      remove, or there is no peer to send to at all. */
  lemma SwitchKeepsOrderIff(s: State)
    requires Orderly(s) && s.listener.Switching?
    ensures RunsKeepOrder(ListenStep(s)) <==>
            || s.listener.mode == s.mode || (!s.InFlight(Tcp) && !s.InFlight(Udp))
            || !exists p :: p in s.peers && Targeted(p)
  {
    var t := ListenStep(s);
    StepKeepsAccounts(s, Listen);
    if s.listener.mode == s.mode || (!s.InFlight(Tcp) && !s.InFlight(Udp)) {
      ListenKeepsOrder(s);
      OrderlyRunsKeepOrder(t);
    } else if !exists p :: p in s.peers && Targeted(p) {
      NobodyIsServed(s.added, s.peers);
      assert Rank(s.Client(Tcp).pc) <= 1 && Rank(s.Client(Udp).pc) <= 1;
      NoTargetKeepsOrder(t);
    } else {
      SwitchCatchesAClient(s);
      CaughtBreaksTheOrder(t);
    }
  }

  lemma CaughtBreaksTheOrder(s: State)
    requires Accounts(s) && s.listener.Waiting? && Bounded(s.enqueued, s.removed)
    requires s.InFlight(Other(s.mode)) && !s.InFlight(s.mode)
    requires exists p :: p in s.peers && Targeted(p)
    ensures !RunsKeepOrder(s)
  {
    if s.Distance() == 0 {
      AddAfterCatchBreaksTheOrder(s);
    } else {
      CaughtInFlightBreaksTheOrder(s);
      BreaksAfter(s, [], s);
    }
  }
}
