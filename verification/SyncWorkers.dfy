/** The daemon's threads around the task queue, as a labelled transition system: the listener adds
    files slot field by slot field and switches the transfer mode; the TCP and the UDP client each
    check the mode, test for emptiness, read the oldest slot without a lock, query the remote port,
    transfer, and remove. A run is any interleaving of their steps. */
module SyncWorkers {
  import opened SyncRepos

  /** The transfer mode, and the name of the client whose duty it is. */
  datatype Mode = Tcp | Udp

  function Other(m: Mode): Mode {
    if m.Tcp? then Udp else Tcp
  }

  /** Where a client stands: the name says what its next step does, `Idle` meaning the mode check and
      `Ready` the emptiness test. */
  datatype Pc = Idle | Ready | PeekName | PeekSize | PeekDest | QueryUdp | QueryTcp | Sending | Removing

  datatype Worker = Worker(pc: Pc, local: Delivery)

  /** The listener inside an add holds the queue's lock; `field` counts the fields already written. On a
      mode message it stores the port first, which nothing here reads, and then the mode. */
  datatype Listener = Waiting | Adding(req: Request, peer: nat, field: nat) | Switching(mode: Mode)

  /** The shared memory, the threads, and four histories: tasks enqueued, number of removes,
      transfers completed, files whose add is complete. */
  datatype State = State(
    peers: seq<Peer>, slots: seq<Task>, head: nat, tail: nat,
    mode: Mode, listener: Listener, tcp: Worker, udp: Worker,
    enqueued: seq<Task>, removed: nat, sent: seq<Delivery>, added: seq<Request>)
  {
    function Client(w: Mode): Worker {
      if w.Tcp? then tcp else udp
    }

    function SetClient(w: Mode, x: Worker): State {
      if w.Tcp? then this.(tcp := x) else this.(udp := x)
    }

    predicate LockFree() {
      !listener.Adding?
    }

    predicate InFlight(w: Mode) {
      !Client(w).pc.Idle?
    }

    function Distance(): int {
      |enqueued| - removed
    }

    ghost predicate Shape() {
      && |peers| == MAX_PEER_NUM && |slots| == MAX_REPOS_NUM && head < MAX_REPOS_NUM && tail < MAX_REPOS_NUM
      && (listener.Adding? ==> listener.peer <= MAX_PEER_NUM && listener.field <= 4)
    }
  }

  datatype Label = BeginAdd(req: Request) | BeginSwitch(mode: Mode) | Listen | Work(client: Mode)

  const NOTHING := Delivery([], 0, [])

  function Initial(peers: seq<Peer>, slots: seq<Task>): State {
    State(peers, slots, 0, 0, Udp, Waiting, Worker(Idle, NOTHING), Worker(Idle, NOTHING), [], 0, [], [])
  }

  // ---------------------------------------------------------------- steps

  predicate Enabled(s: State, l: Label) {
    match l
    case BeginAdd(req) => s.listener.Waiting? && FitsSlot(req)
    case BeginSwitch(_) => s.listener.Waiting?
    case Listen => !s.listener.Waiting?
    case Work(w) => s.Client(w).pc in {Ready, Removing} ==> s.LockFree()
  }

  function WriteField(t: Task, req: Request, p: Peer, field: nat): Task {
    match field
    case 0 => t.(filename := req.filename)
    case 1 => t.(filepath := req.filepath, filename := StoredName(req))
    case 2 => t.(destIp := p.ip)
    case _ => t.(fileSize := req.fileSize)
  }

  function ListenStep(s: State): State
    requires s.Shape() && !s.listener.Waiting?
  {
    match s.listener
    case Switching(m) => s.(mode := m, listener := Waiting)
    case Adding(req, i, k) =>
      if i == MAX_PEER_NUM then
        s.(listener := Waiting, added := s.added + [req])
      else if !Targeted(s.peers[i]) then
        s.(listener := Adding(req, i + 1, 0))
      else if k < 4 then
        s.(slots := s.slots[s.head := WriteField(s.slots[s.head], req, s.peers[i], k)],
           listener := Adding(req, i, k + 1))
      else
        s.(head := Advance(s.head), enqueued := s.enqueued + [TaskFor(req, s.peers[i])],
           listener := Adding(req, i + 1, 0))
  }

  /** The UDP client asks for both ports; the TCP client for one. */
  function Querying(w: Mode): Pc {
    if w.Udp? then QueryUdp else QueryTcp
  }

  function WorkStep(s: State, w: Mode): (t: State)
    requires s.Shape()
    ensures t.Shape() && t.listener == s.listener
  {
    var c := s.Client(w);
    match c.pc
    case Idle => if s.mode == Other(w) then s else s.SetClient(w, c.(pc := Ready))
    case Ready => s.SetClient(w, c.(pc := if s.head == s.tail then Idle else PeekName))
    case PeekName => s.SetClient(w, Worker(PeekSize, c.local.(filename := s.slots[s.tail].filename)))
    case PeekSize => s.SetClient(w, Worker(PeekDest, c.local.(fileSize := s.slots[s.tail].fileSize)))
    case PeekDest => s.SetClient(w, Worker(Querying(w), c.local.(destIp := s.slots[s.tail].destIp)))
    case QueryUdp => s.SetClient(w, c.(pc := QueryTcp))
    case QueryTcp => s.SetClient(w, c.(pc := Sending))
    case Sending => s.SetClient(w, c.(pc := Removing)).(sent := s.sent + [c.local])
    case Removing => s.SetClient(w, c.(pc := Idle)).(tail := Advance(s.tail), removed := s.removed + 1)
  }

  function Step(s: State, l: Label): (t: State)
    requires s.Shape() && Enabled(s, l)
    ensures t.Shape() && t.peers == s.peers
  {
    match l
    case BeginAdd(req) => s.(listener := Adding(req, 0, 0))
    case BeginSwitch(m) => s.(listener := Switching(m))
    case Listen => ListenStep(s)
    case Work(w) => WorkStep(s, w)
  }

  // ---------------------------------------------------------------- runs

  ghost predicate Legal(s: State, ls: seq<Label>)
    requires s.Shape()
    decreases |ls|
  {
    ls == [] || (Enabled(s, ls[0]) && Legal(Step(s, ls[0]), ls[1..]))
  }

  ghost function Exec(s: State, ls: seq<Label>): (t: State)
    requires s.Shape() && Legal(s, ls)
    ensures t.Shape()
    decreases |ls|
  {
    if ls == [] then s else Exec(Step(s, ls[0]), ls[1..])
  }

  lemma {:induction false} ExecAppend(s: State, a: seq<Label>, b: seq<Label>)
    requires s.Shape() && Legal(s, a) && Legal(Exec(s, a), b)
    ensures Legal(s, a + b) && Exec(s, a + b) == Exec(Exec(s, a), b)
    decreases |a|
  {
    if a == [] {
      assert a + b == b;
    } else {
      assert (a + b)[1..] == a[1..] + b;
      ExecAppend(Step(s, a[0]), a[1..], b);
    }
  }

  ghost predicate Leads(s: State, ls: seq<Label>, t: State) {
    s.Shape() && Legal(s, ls) && Exec(s, ls) == t
  }

  lemma LeadsOn(s: State, a: seq<Label>, t: State, b: seq<Label>, u: State)
    requires Leads(s, a, t) && Leads(t, b, u)
    ensures Leads(s, a + b, u)
  {
    ExecAppend(s, a, b);
  }

  lemma OneStepLeads(s: State, l: Label)
    requires s.Shape() && Enabled(s, l)
    ensures Leads(s, [l], Step(s, l))
  {
    assert [l][1..] == [];
  }

  // ---------------------------------------------------------------- which interleavings there are

  /** Mode check, copy, port queries and transfer take no lock: whatever the listener is in the middle of,
      and whoever is on duty, a client that has passed its emptiness test reads all three fields of the
      slot at the tail, and transfers what it has read. */
  lemma ReadsWithoutTheLock(s: State, w: Mode)
    requires s.Shape() && s.Client(w).pc.PeekName?
    ensures var was, task := s.Client(w).local, s.slots[s.tail];
            && Leads(s, [Work(w)], s.SetClient(w, Worker(PeekSize, was.(filename := task.filename))))
            && Leads(s, [Work(w), Work(w)],
                     s.SetClient(w, Worker(PeekDest, Delivery(task.filename, task.fileSize, was.destIp))))
            && Leads(s, [Work(w), Work(w), Work(w)],
                     s.SetClient(w, Worker(Querying(w), Delivery(task.filename, task.fileSize, task.destIp))))
  {
    var s1 := WorkStep(s, w);
    var s2 := WorkStep(s1, w);
    OneStepLeads(s, Work(w));
    OneStepLeads(s1, Work(w));
    LeadsOn(s, [Work(w)], s1, [Work(w)], s2);
    assert [Work(w)] + [Work(w)] == [Work(w), Work(w)];
    OneStepLeads(s2, Work(w));
    LeadsOn(s, [Work(w), Work(w)], s2, [Work(w)], WorkStep(s2, w));
    assert [Work(w), Work(w)] + [Work(w)] == [Work(w), Work(w), Work(w)];
  }

  /** The slot at the head is filled field by field: name, path, address, size; only then the head moves. */
  lemma WritesFieldByField(s: State)
    requires s.Shape() && s.listener.Adding? && s.listener.field == 0
    requires s.listener.peer < MAX_PEER_NUM && Targeted(s.peers[s.listener.peer])
    ensures var req, i, ip, was := s.listener.req, s.listener.peer, s.peers[s.listener.peer].ip, s.slots[s.head];
            var s1 := s.(listener := Adding(req, i, 1), slots := s.slots[s.head := was.(filename := req.filename)]);
            var t2 := was.(filename := StoredName(req), filepath := req.filepath);
            var s2 := s.(listener := Adding(req, i, 2), slots := s.slots[s.head := t2]);
            var s3 := s.(listener := Adding(req, i, 3), slots := s.slots[s.head := t2.(destIp := ip)]);
            var s4 := s.(listener := Adding(req, i, 4),
                         slots := s.slots[s.head := t2.(destIp := ip, fileSize := req.fileSize)]);
            && Leads(s, [Listen], s1) && Leads(s1, [Listen], s2) && Leads(s2, [Listen], s3) && Leads(s3, [Listen], s4)
            && Leads(s4, [Listen], s4.(listener := Adding(req, i + 1, 0), head := Advance(s.head),
                                       enqueued := s.enqueued + [TaskFor(req, s.peers[i])]))
  {
    var s1 := ListenStep(s);
    var s2 := ListenStep(s1);
    var s3 := ListenStep(s2);
    OneStepLeads(s, Listen);
    OneStepLeads(s1, Listen);
    OneStepLeads(s2, Listen);
    OneStepLeads(s3, Listen);
    OneStepLeads(ListenStep(s3), Listen);
  }

  lemma SendsWithoutTheLock(s: State, w: Mode)
    requires s.Shape() && s.Client(w).pc == Querying(w)
    ensures Leads(s, if w.Udp? then [Work(w), Work(w), Work(w)] else [Work(w), Work(w)],
                  s.SetClient(w, s.Client(w).(pc := Removing)).(sent := s.sent + [s.Client(w).local]))
  {
    if w.Udp? {
      OneStepLeads(s, Work(w));
      QueriesAndSends(WorkStep(s, w), w);
      LeadsOn(s, [Work(w)], WorkStep(s, w), [Work(w), Work(w)], WorkStep(WorkStep(WorkStep(s, w), w), w));
      assert [Work(w)] + [Work(w), Work(w)] == [Work(w), Work(w), Work(w)];
    } else {
      QueriesAndSends(s, w);
    }
  }

  lemma QueriesAndSends(s: State, w: Mode)
    requires s.Shape() && s.Client(w).pc.QueryTcp?
    ensures Leads(s, [Work(w), Work(w)], WorkStep(WorkStep(s, w), w))
  {
    var s1 := WorkStep(s, w);
    OneStepLeads(s, Work(w));
    OneStepLeads(s1, Work(w));
    LeadsOn(s, [Work(w)], s1, [Work(w)], WorkStep(s1, w));
    assert [Work(w)] + [Work(w)] == [Work(w), Work(w)];
  }

  lemma ChecksModeWithoutTheLock(s: State, w: Mode)
    requires s.Shape() && s.Client(w).pc.Idle?
    ensures Leads(s, [Work(w)], if s.mode == w then s.SetClient(w, s.Client(w).(pc := Ready)) else s)
  {
    OneStepLeads(s, Work(w));
  }

  /** No client keeps the listener from switching the mode, at whatever point it stands. */
  lemma SwitchesAtAnyMoment(s: State, m: Mode)
    requires s.Shape() && s.listener.Waiting?
    ensures Leads(s, [BeginSwitch(m), Listen], s.(mode := m))
  {
    OneStepLeads(s, BeginSwitch(m));
    var s1 := Step(s, BeginSwitch(m));
    OneStepLeads(s1, Listen);
    LeadsOn(s, [BeginSwitch(m)], s1, [Listen], Step(s1, Listen));
    assert [BeginSwitch(m)] + [Listen] == [BeginSwitch(m), Listen];
  }

  lemma {:induction false} AddedGrows(s: State, ls: seq<Label>)
    requires s.Shape() && Legal(s, ls)
    ensures |s.added| <= |Exec(s, ls).added|
    decreases |ls|
  {
    if ls != [] {
      AddedGrows(Step(s, ls[0]), ls[1..]);
    }
  }

  /** The lock: as long as an add is not complete, in every interleaving, nothing is removed, and a client
      before its emptiness test or its remove stays where it is. */
  lemma {:induction false} AddExcludesTestAndRemove(s: State, ls: seq<Label>)
    requires s.Shape() && s.listener.Adding? && Legal(s, ls) && Exec(s, ls).added == s.added
    ensures var t := Exec(s, ls);
            && t.listener.Adding? && t.listener.req == s.listener.req
            && t.tail == s.tail && t.removed == s.removed
            && (s.tcp.pc in {Ready, Removing} ==> t.tcp == s.tcp)
            && (s.udp.pc in {Ready, Removing} ==> t.udp == s.udp)
    decreases |ls|
  {
    if ls != [] {
      AddedGrows(Step(s, ls[0]), ls[1..]);
      AddGoesOn(s, ls[0]);
      AddExcludesTestAndRemove(Step(s, ls[0]), ls[1..]);
    }
  }

  lemma AddGoesOn(s: State, l: Label)
    requires s.Shape() && s.listener.Adding? && Enabled(s, l) && |Step(s, l).added| <= |s.added|
    ensures var t := Step(s, l);
            && t.listener.Adding? && t.listener.req == s.listener.req && t.added == s.added
            && t.tail == s.tail && t.removed == s.removed
            && (s.tcp.pc in {Ready, Removing} ==> t.tcp == s.tcp)
            && (s.udp.pc in {Ready, Removing} ==> t.udp == s.udp)
  {
  }

  // ---------------------------------------------------------------- what every run keeps

  function Leaving(w: Worker): nat {
    if w.pc.Removing? then 1 else 0
  }

  /** The slot under construction carries the fields written so far. */
  ghost predicate PartWritten(t: Task, req: Request, p: Peer, field: nat) {
    && (field == 1 ==> t.filename == req.filename)
    && (field > 1 ==> t.filename == StoredName(req) && t.filepath == req.filepath)
    && (field > 2 ==> t.destIp == p.ip)
    && (field > 3 ==> t.fileSize == req.fileSize)
  }

  ghost predicate Accounts(s: State) {
    && s.Shape()
    && RingShows(s.slots, s.head, s.tail, s.enqueued, s.removed)
    && |s.sent| == s.removed + Leaving(s.tcp) + Leaving(s.udp)
    && !s.tcp.pc.QueryUdp?
    && match s.listener {
      case Adding(req, i, k) =>
        && s.enqueued == FanOutAll(s.added, s.peers) + FanOut(req, s.peers[..i])
        && (i < MAX_PEER_NUM ==> PartWritten(s.slots[s.head], req, s.peers[i], k))
      case _ =>
        s.enqueued == FanOutAll(s.added, s.peers)
    }
  }

  lemma AccountsInitially(peers: seq<Peer>, slots: seq<Task>)
    requires |peers| == MAX_PEER_NUM && |slots| == MAX_REPOS_NUM
    ensures Accounts(Initial(peers, slots))
  {
  }

  lemma ListenKeepsAccounts(s: State)
    requires Accounts(s) && s.listener.Adding?
    ensures Accounts(ListenStep(s))
  {
    var Adding(req, i, k) := s.listener;
    if i == MAX_PEER_NUM {
      assert s.peers[..i] == s.peers;
      assert (s.added + [req])[..|s.added|] == s.added;
    } else {
      assert s.peers[..i + 1][..i] == s.peers[..i];
      if Targeted(s.peers[i]) {
        if k < 4 {
          HeadSlotIsFree(s.slots, s.head, s.tail, s.enqueued, s.removed, ListenStep(s).slots[s.head]);
        } else {
          HeadMovesOn(s.slots, s.head, s.tail, s.enqueued, s.removed);
        }
      }
    }
  }

  lemma WorkKeepsAccounts(s: State, w: Mode)
    requires Accounts(s)
    ensures Accounts(WorkStep(s, w))
  {
    AdvanceIsSuccessor(s.removed);
  }

  lemma StepKeepsAccounts(s: State, l: Label)
    requires Accounts(s) && Enabled(s, l)
    ensures Accounts(Step(s, l))
  {
    match l
    case BeginAdd(_) =>
    case BeginSwitch(_) =>
    case Listen => if s.listener.Adding? { ListenKeepsAccounts(s); }
    case Work(w) => WorkKeepsAccounts(s, w);
  }

  lemma {:induction false} RunKeepsAccounts(s: State, ls: seq<Label>)
    requires Accounts(s) && Legal(s, ls)
    ensures Accounts(Exec(s, ls))
    decreases |ls|
  {
    if ls != [] {
      StepKeepsAccounts(s, ls[0]);
      RunKeepsAccounts(Step(s, ls[0]), ls[1..]);
    }
  }

  /** Accounting over every run, racing and overflowing ones included. */
  lemma Accounting(peers: seq<Peer>, slots: seq<Task>, ls: seq<Label>)
    requires |peers| == MAX_PEER_NUM && |slots| == MAX_REPOS_NUM
    requires Legal(Initial(peers, slots), ls)
    ensures var s := Exec(Initial(peers, slots), ls);
            && s.head == |s.enqueued| % 30
            && s.tail == s.removed % 30
            && |s.sent| == s.removed + Leaving(s.tcp) + Leaving(s.udp)
            && FanOutAll(s.added, peers) <= s.enqueued
            && (s.head == s.tail <==> s.Distance() % 30 == 0)
            && (0 <= s.Distance() <= 29 ==> (s.head == s.tail <==> s.Distance() == 0))
  {
    AccountsInitially(peers, slots);
    RunKeepsAccounts(Initial(peers, slots), ls);
    PeersStay(Initial(peers, slots), ls);
    var s := Exec(Initial(peers, slots), ls);
    EmptinessTest(s.slots, s.head, s.tail, s.enqueued, s.removed);
  }

  lemma {:induction false} PeersStay(s: State, ls: seq<Label>)
    requires s.Shape() && Legal(s, ls)
    ensures Exec(s, ls).peers == s.peers
    decreases |ls|
  {
    if ls != [] {
      PeersStay(Step(s, ls[0]), ls[1..]);
    }
  }

  // ---------------------------------------------------------------- disciplined runs

  /** The two assumptions, step by step: the mode changes only while no client is between its mode
      check and its remove, and the head never moves onto a thirtieth pending task. A mode message that
      repeats the current mode, as a mere change of port does, is free at any time. */
  predicate Disciplined(s: State, l: Label)
    requires s.Shape()
  {
    && (l.Listen? && s.listener.Switching? && s.listener.mode != s.mode ==> !s.InFlight(Tcp) && !s.InFlight(Udp))
    && (l.Listen? && Advancing(s) ==> s.Distance() < CAPACITY)
  }

  /** The listener's next step moves the head past a filled slot. */
  predicate Advancing(s: State)
    requires s.Shape()
  {
    s.listener.Adding? && s.listener.peer < MAX_PEER_NUM && Targeted(s.peers[s.listener.peer]) && s.listener.field == 4
  }

  ghost predicate DisciplinedRun(s: State, ls: seq<Label>)
    requires s.Shape()
    decreases |ls|
  {
    ls == [] || (Enabled(s, ls[0]) && Disciplined(s, ls[0]) && DisciplinedRun(Step(s, ls[0]), ls[1..]))
  }

  function Rank(pc: Pc): nat {
    match pc
    case Idle => 0
    case Ready => 1
    case PeekName => 2
    case PeekSize => 3
    case PeekDest => 4
    case QueryUdp => 5
    case QueryTcp => 6
    case Sending => 7
    case Removing => 8
  }

  /** What a client has copied agrees with the task at the front of the queue. */
  ghost predicate CopyAgrees(c: Worker, t: Task) {
    && (Rank(c.pc) >= 3 ==> c.local.filename == t.filename)
    && (Rank(c.pc) >= 4 ==> c.local.fileSize == t.fileSize)
    && (Rank(c.pc) >= 5 ==> c.local.destIp == t.destIp)
  }

  ghost predicate OnDuty(s: State) {
    forall w: Mode {:trigger s.InFlight(w)} :: s.InFlight(w) ==> s.mode == w
  }

  ghost predicate CopiesAgree(s: State) {
    forall w: Mode {:trigger s.Client(w)} :: Rank(s.Client(w).pc) >= 2 ==>
      s.removed < |s.enqueued| && CopyAgrees(s.Client(w), s.enqueued[s.removed])
  }

  ghost predicate LogFollowsQueue(s: State) {
    |s.sent| <= |s.enqueued| && s.sent == Views(s.enqueued[..|s.sent|])
  }

  ghost predicate Orderly(s: State) {
    && Accounts(s)
    && Bounded(s.enqueued, s.removed)
    && OnDuty(s)
    && CopiesAgree(s)
    && LogFollowsQueue(s)
  }

  lemma ListenKeepsOrder(s: State)
    requires Orderly(s) && Enabled(s, Listen) && Disciplined(s, Listen)
    ensures Orderly(ListenStep(s))
  {
    StepKeepsAccounts(s, Listen);
    var t := ListenStep(s);
    assert t.enqueued[..|s.sent|] == s.enqueued[..|s.sent|];
    forall w: Mode ensures t.Client(w) == s.Client(w) {}
    forall w: Mode | t.InFlight(w) ensures t.mode == w {
      assert s.InFlight(w);
    }
  }

  lemma WorkKeepsDuty(s: State, w: Mode)
    requires s.Shape() && OnDuty(s)
    ensures OnDuty(WorkStep(s, w))
  {
    var t := WorkStep(s, w);
    forall m: Mode | t.InFlight(m) ensures t.mode == m {
      if m == w {
        assert s.InFlight(w) || s.mode != Other(w);
      } else {
        assert m == Other(w) && s.InFlight(m);
      }
    }
  }

  lemma WorkKeepsCopies(s: State, w: Mode)
    requires Orderly(s)
    ensures CopiesAgree(WorkStep(s, w)) && Bounded(WorkStep(s, w).enqueued, WorkStep(s, w).removed)
  {
    var t := WorkStep(s, w);
    var c := s.Client(w);
    EmptinessTest(s.slots, s.head, s.tail, s.enqueued, s.removed);
    if Rank(c.pc) >= 2 {
      TailSlotIsOldest(s.slots, s.head, s.tail, s.enqueued, s.removed);
      assert s.InFlight(w) && !s.InFlight(Other(w));
    }
    forall m: Mode | Rank(t.Client(m).pc) >= 2
      ensures t.removed < |t.enqueued| && CopyAgrees(t.Client(m), t.enqueued[t.removed])
    {
      assert m == w || (m == Other(w) && t.Client(m) == s.Client(m) && s.InFlight(m));
    }
  }

  lemma WorkKeepsLog(s: State, w: Mode)
    requires Orderly(s)
    ensures LogFollowsQueue(WorkStep(s, w))
  {
    if s.Client(w).pc.Sending? {
      assert s.InFlight(w) && !s.InFlight(Other(w));
      assert |s.sent| == s.removed;
      assert s.enqueued[..s.removed + 1] == s.enqueued[..s.removed] + [s.enqueued[s.removed]];
      ViewsAppend(s.enqueued[..s.removed], [s.enqueued[s.removed]]);
      assert s.Client(w).local == View(s.enqueued[s.removed]);
    }
  }

  lemma WorkKeepsOrder(s: State, w: Mode)
    requires Orderly(s) && Enabled(s, Work(w))
    ensures Orderly(WorkStep(s, w))
  {
    WorkKeepsAccounts(s, w);
    WorkKeepsDuty(s, w);
    WorkKeepsCopies(s, w);
    WorkKeepsLog(s, w);
  }

  lemma StepKeepsOrder(s: State, l: Label)
    requires Orderly(s) && Enabled(s, l) && Disciplined(s, l)
    ensures Orderly(Step(s, l))
  {
    match l
    case BeginAdd(req) => UntouchedClients(s, s.(listener := Adding(req, 0, 0)));
    case BeginSwitch(m) => UntouchedClients(s, Step(s, l));
    case Listen => ListenKeepsOrder(s);
    case Work(w) => WorkKeepsOrder(s, w);
  }

  lemma UntouchedClients(s: State, t: State)
    requires t.tcp == s.tcp && t.udp == s.udp
    ensures forall w: Mode {:trigger s.Client(w)} {:trigger t.Client(w)} :: s.Client(w) == t.Client(w)
    ensures forall w: Mode {:trigger s.InFlight(w)} {:trigger t.InFlight(w)} :: s.InFlight(w) == t.InFlight(w)
  {
  }

  lemma {:induction false} DisciplinedRunIsOrderly(s: State, ls: seq<Label>)
    requires Orderly(s) && DisciplinedRun(s, ls)
    ensures Legal(s, ls) && Orderly(Exec(s, ls))
    decreases |ls|
  {
    if ls != [] {
      StepKeepsOrder(s, ls[0]);
      DisciplinedRunIsOrderly(Step(s, ls[0]), ls[1..]);
    }
  }

  lemma InitiallyOrderly(peers: seq<Peer>, slots: seq<Task>)
    requires |peers| == MAX_PEER_NUM && |slots| == MAX_REPOS_NUM
    ensures Orderly(Initial(peers, slots))
  {
    AccountsInitially(peers, slots);
    assert Initial(peers, slots).enqueued[..0] == [];
  }

  // ---------------------------------------------------------------- what discipline buys

  /** Safety: at every point of every disciplined run, at most one client is in flight, the ring is
      in bounds, and the log of completed transfers is a prefix of the order of enqueueing. */
  lemma TransfersFollowEnqueueOrder(peers: seq<Peer>, slots: seq<Task>, ls: seq<Label>)
    requires |peers| == MAX_PEER_NUM && |slots| == MAX_REPOS_NUM
    requires DisciplinedRun(Initial(peers, slots), ls)
    ensures Legal(Initial(peers, slots), ls)
    ensures var s := Exec(Initial(peers, slots), ls);
            && s.sent <= Views(s.enqueued)
            && !(s.InFlight(Tcp) && s.InFlight(Udp))
            && 0 <= s.Distance() <= 29
  {
    InitiallyOrderly(peers, slots);
    DisciplinedRunIsOrderly(Initial(peers, slots), ls);
    var s := Exec(Initial(peers, slots), ls);
    assert Views(s.enqueued)[..|s.sent|] == Views(s.enqueued[..|s.sent|]);
    assert s.mode == Tcp || s.mode == Udp;
  }

  /** A remove takes away the very task that the removing client copied and transferred last. */
  lemma RemovedTaskWasSent(s: State, w: Mode)
    requires Orderly(s) && s.Client(w).pc.Removing?
    ensures s.removed < |s.enqueued|
    ensures View(s.slots[s.tail]) == s.Client(w).local == View(s.enqueued[s.removed])
    ensures |s.sent| == s.removed + 1 && s.sent[s.removed] == s.Client(w).local
  {
    TailSlotIsOldest(s.slots, s.head, s.tail, s.enqueued, s.removed);
    assert s.InFlight(w);
    assert !s.InFlight(Other(w));
    assert Rank(s.Client(w).pc) >= 2;
  }

  /** While a client is past its emptiness test no step of the listener writes the slot at the tail,
      so a read field by field, at any interleaving, copies one whole task. */
  lemma UnlockedReadIsSafe(s: State, w: Mode)
    requires Orderly(s) && Rank(s.Client(w).pc) >= 2
    ensures s.slots[s.tail] == s.enqueued[s.removed]
    ensures s.listener.Waiting? ||
            (ListenStep(s).tail == s.tail && ListenStep(s).slots[s.tail] == s.slots[s.tail])
    ensures Rank(s.Client(w).pc) >= 5 ==> s.Client(w).local == View(s.enqueued[s.removed])
  {
    TailSlotIsOldest(s.slots, s.head, s.tail, s.enqueued, s.removed);
    HeadSlotIsFree(s.slots, s.head, s.tail, s.enqueued, s.removed, s.slots[s.head]);
  }

  /** At rest, a disciplined run has served everybody: what was transferred is what the completed
      adds fan out to, in order, and each address got each file once per add and targeted peer. */
  lemma AtRestEveryPeerIsServed(peers: seq<Peer>, slots: seq<Task>, ls: seq<Label>, d: Delivery)
    requires |peers| == MAX_PEER_NUM && |slots| == MAX_REPOS_NUM
    requires DisciplinedRun(Initial(peers, slots), ls)
    ensures Legal(Initial(peers, slots), ls)
    ensures var s := Exec(Initial(peers, slots), ls);
            s.LockFree() && s.head == s.tail && !s.InFlight(Tcp) && !s.InFlight(Udp) ==>
              && s.sent == Views(FanOutAll(s.added, peers))
              && multiset(s.sent)[d] == AddsOf(s.added, d.filename, d.fileSize) * TargetsAt(peers, d.destIp)
  {
    InitiallyOrderly(peers, slots);
    DisciplinedRunIsOrderly(Initial(peers, slots), ls);
    PeersStay(Initial(peers, slots), ls);
    var s := Exec(Initial(peers, slots), ls);
    EmptinessTest(s.slots, s.head, s.tail, s.enqueued, s.removed);
    FanOutAllCount(s.added, peers, d);
    if s.LockFree() && s.head == s.tail && !s.InFlight(Tcp) && !s.InFlight(Udp) {
      assert s.enqueued[..|s.sent|] == s.enqueued;
    }
  }

  // ---------------------------------------------------------------- admission

  /** The caller's check: the mode is switched only between transfers, and a file is added only
      when the pending tasks and its own fan-out fit the capacity together. */
  predicate Admitted(s: State, l: Label) {
    match l
    case BeginAdd(req) => s.Distance() + |FanOut(req, s.peers)| <= CAPACITY
    case Listen => s.listener.Switching? && s.listener.mode != s.mode ==> !s.InFlight(Tcp) && !s.InFlight(Udp)
    case _ => true
  }

  ghost predicate AdmittedRun(s: State, ls: seq<Label>)
    requires s.Shape()
    decreases |ls|
  {
    ls == [] || (Enabled(s, ls[0]) && Admitted(s, ls[0]) && AdmittedRun(Step(s, ls[0]), ls[1..]))
  }

  /** The tasks of an add in progress that are still to come. */
  function Outstanding(s: State): int
    requires s.Shape()
  {
    match s.listener
    case Adding(req, i, _) => |FanOut(req, s.peers)| - |FanOut(req, s.peers[..i])|
    case _ => 0
  }

  lemma {:induction false} FanOutGrows(req: Request, peers: seq<Peer>, i: nat)
    requires i <= |peers|
    ensures |FanOut(req, peers[..i])| <= |FanOut(req, peers)|
  {
    if i < |peers| {
      var front := peers[..|peers| - 1];
      FanOutGrows(req, front, i);
      assert front[..i] == peers[..i];
    } else {
      assert peers[..i] == peers;
    }
  }

  lemma AdmittedStepHasRoom(s: State, l: Label)
    requires s.Shape() && Enabled(s, l) && Admitted(s, l)
    requires s.listener.Adding? ==> s.Distance() + Outstanding(s) <= CAPACITY
    ensures Disciplined(s, l)
    ensures Step(s, l).listener.Adding? ==> Step(s, l).Distance() + Outstanding(Step(s, l)) <= CAPACITY
  {
    if l.BeginAdd? {
      assert s.peers[..0] == [];
    }
    if l.Listen? && s.listener.Adding? && s.listener.peer < MAX_PEER_NUM {
      var req, i := s.listener.req, s.listener.peer;
      assert s.peers[..i + 1][..i] == s.peers[..i];
      FanOutGrows(req, s.peers, i + 1);
    }
  }

  /** Admission is enough: a run that passes the caller's checks never overflows the ring. */
  lemma {:induction false} AdmittedRunIsDisciplined(s: State, ls: seq<Label>)
    requires s.Shape() && AdmittedRun(s, ls)
    requires s.listener.Adding? ==> s.Distance() + Outstanding(s) <= CAPACITY
    ensures DisciplinedRun(s, ls)
    decreases |ls|
  {
    if ls != [] {
      AdmittedStepHasRoom(s, ls[0]);
      AdmittedRunIsDisciplined(Step(s, ls[0]), ls[1..]);
    }
  }
}
