/** The task queue of the sync daemon: a ring of 30 slots that the listener fills with one task
    per peer and that the transfer clients drain. The ring has no fullness test, so its relation to
    an unbounded queue is stated against the history of everything ever enqueued. */
module SyncRepos {
  import opened CText

  const MAX_REPOS_NUM: nat := 30
  const MAX_PEER_NUM: nat := 10

  /** What a full queue can hold: with 30 tasks pending the head is back at the tail. */
  const CAPACITY: nat := MAX_REPOS_NUM - 1

  datatype Peer = Peer(ip: Bytes, isValid: bool, isLocal: bool)

  datatype Task = Task(filename: Bytes, filepath: Bytes, destIp: Bytes, fileSize: int)

  /** What a client copies out of a slot, and so what it transfers. */
  datatype Delivery = Delivery(filename: Bytes, fileSize: int, destIp: Bytes)

  /** One call that adds a file. */
  datatype Request = Request(filename: Bytes, filepath: Bytes, fileSize: int)

  /** The arrays for name and path lie side by side in a slot; terminators included. */
  const NAME_SLOT: nat := 32
  const PATH_SLOT: nat := 150

  /** Copying the two strings stays within these arrays. */
  predicate FitsSlot(req: Request) {
    |req.filename| < NAME_SLOT + PATH_SLOT && |req.filepath| < PATH_SLOT
  }

  /** The name as it reads back: one without room for its terminator runs on into the path's array, and
      so into the path that is copied there next. */
  function StoredName(req: Request): Bytes {
    if |req.filename| < NAME_SLOT then req.filename else req.filename[..NAME_SLOT] + req.filepath
  }

  /** A name that is no longer than its path reads back right exactly if it has room. */
  lemma NameReadsBackIff(req: Request)
    requires |req.filename| <= |req.filepath|
    ensures StoredName(req) == req.filename <==> |req.filename| <= 31
  {
  }

  // ---------------------------------------------------------------- fan-out

  predicate Targeted(p: Peer) {
    p.isValid && !p.isLocal
  }

  function TaskFor(req: Request, p: Peer): Task {
    Task(StoredName(req), req.filepath, p.ip, req.fileSize)
  }

  /** The tasks one added file gives rise to. */
  function FanOut(req: Request, peers: seq<Peer>): seq<Task> {
    if peers == [] then []
    else
      var front := FanOut(req, peers[..|peers| - 1]);
      var last := peers[|peers| - 1];
      if Targeted(last) then front + [TaskFor(req, last)] else front
  }

  /** The tasks of several added files, in the order in which they were added. */
  function FanOutAll(reqs: seq<Request>, peers: seq<Peer>): seq<Task> {
    if reqs == [] then []
    else FanOutAll(reqs[..|reqs| - 1], peers) + FanOut(reqs[|reqs| - 1], peers)
  }

  /** `targets` lists the valid remote peers by index: increasing, only such ones, none missing. */
  ghost predicate IsTargetList(targets: seq<nat>, peers: seq<Peer>) {
    && (forall k :: 0 <= k < |targets| ==>
          targets[k] < |peers| && peers[targets[k]].isValid && !peers[targets[k]].isLocal)
    && (forall k, l :: 0 <= k < l < |targets| ==> targets[k] < targets[l])
    && (forall i :: 0 <= i < |peers| && peers[i].isValid && !peers[i].isLocal ==> i in targets)
  }

  function TargetList(peers: seq<Peer>): (targets: seq<nat>)
    ensures IsTargetList(targets, peers)
  {
    if peers == [] then []
    else
      var n := |peers| - 1;
      var front := TargetList(peers[..n]);
      assert forall i :: 0 <= i < n && Targeted(peers[i]) ==> peers[..n][i] == peers[i] && i in front;
      if Targeted(peers[n]) then front + [n] else front
  }

  /** Fan-out makes exactly one task per valid, non-local peer, in peer-index order. */
  lemma {:induction false} FanOutIsOneTaskPerTarget(req: Request, peers: seq<Peer>)
    ensures |FanOut(req, peers)| == |TargetList(peers)|
    ensures forall k :: 0 <= k < |TargetList(peers)| ==>
              FanOut(req, peers)[k] == TaskFor(req, peers[TargetList(peers)[k]])
  {
    if peers != [] {
      var n := |peers| - 1;
      var front := TargetList(peers[..n]);
      FanOutIsOneTaskPerTarget(req, peers[..n]);
      var tasks := FanOut(req, peers[..n]);
      assert TargetList(peers) == if Targeted(peers[n]) then front + [n] else front;
      assert FanOut(req, peers) == if Targeted(peers[n]) then tasks + [TaskFor(req, peers[n])] else tasks;
      forall k | 0 <= k < |front| ensures FanOut(req, peers)[k] == TaskFor(req, peers[front[k]]) {
        assert peers[..n][front[k]] == peers[front[k]];
      }
    }
  }

  /** A file goes to an address exactly if a valid peer has it that is not this machine. */
  lemma {:induction false} SentToValidRemotePeers(req: Request, peers: seq<Peer>, ip: Bytes)
    ensures (exists t :: t in FanOut(req, peers) && t.destIp == ip) <==>
            exists p :: p in peers && p.isValid && !p.isLocal && p.ip == ip
  {
    if peers != [] {
      var n := |peers| - 1;
      SentToValidRemotePeers(req, peers[..n], ip);
      assert peers == peers[..n] + [peers[n]];
      assert Targeted(peers[n]) ==> TaskFor(req, peers[n]) in FanOut(req, peers);
      assert forall t :: t in FanOut(req, peers) ==> t in FanOut(req, peers[..n]) || t == TaskFor(req, peers[n]);
    }
  }

  /** What each task of an added file carries: the path, the size, and the name as far as its array goes,
      followed by the path if it has no room for a terminator. */
  lemma {:induction false} TasksCarryTheFile(req: Request, peers: seq<Peer>)
    ensures forall t :: t in FanOut(req, peers) ==>
              && t.filepath == req.filepath && t.fileSize == req.fileSize
              && t.filename == if |req.filename| < 32 then req.filename else req.filename[..32] + req.filepath
  {
    if peers != [] {
      TasksCarryTheFile(req, peers[..|peers| - 1]);
    }
  }

  // ---------------------------------------------------------------- the ring and its history

  /** The ring shows its history: positions are counts modulo 30, and each of the last 29 tasks
      enqueued sits whole in its own slot. (The slot at the head may be half written.) */
  ghost predicate RingShows(slots: seq<Task>, head: nat, tail: nat, enqueued: seq<Task>, removed: nat) {
    && |slots| == MAX_REPOS_NUM
    && head == |enqueued| % MAX_REPOS_NUM
    && tail == removed % MAX_REPOS_NUM
    && forall j :: 0 <= j < |enqueued| && |enqueued| - CAPACITY <= j ==> slots[j % MAX_REPOS_NUM] == enqueued[j]
  }

  /** Neither overrun nor underrun. */
  ghost predicate Bounded(enqueued: seq<Task>, removed: nat) {
    removed <= |enqueued| <= removed + CAPACITY
  }

  function Advance(position: nat): nat {
    if position + 1 == MAX_REPOS_NUM then 0 else position + 1
  }

  lemma AdvanceIsSuccessor(n: nat)
    ensures Advance(n % MAX_REPOS_NUM) == (n + 1) % MAX_REPOS_NUM
  {
  }

  /** The unfenced emptiness test, for every history: right exactly when the distance between
      enqueues and removes is not a non-zero multiple of 30, hence within the capacity. */
  lemma EmptinessTest(slots: seq<Task>, head: nat, tail: nat, enqueued: seq<Task>, removed: nat)
    requires RingShows(slots, head, tail, enqueued, removed)
    ensures head == tail <==> (|enqueued| - removed) % 30 == 0
    ensures Bounded(enqueued, removed) ==> (head == tail <==> |enqueued| == removed)
    ensures |enqueued| == removed + 30 ==> head == tail
  {
    var d := |enqueued| - removed;
    assert |enqueued| == MAX_REPOS_NUM * (|enqueued| / MAX_REPOS_NUM) + head;
    assert removed == MAX_REPOS_NUM * (removed / MAX_REPOS_NUM) + tail;
    assert d == MAX_REPOS_NUM * (|enqueued| / MAX_REPOS_NUM - removed / MAX_REPOS_NUM) + (head - tail);
  }

  /** Writing the slot at the head disturbs none of the last 29 tasks. */
  lemma HeadSlotIsFree(slots: seq<Task>, head: nat, tail: nat, enqueued: seq<Task>, removed: nat, t: Task)
    requires RingShows(slots, head, tail, enqueued, removed)
    ensures RingShows(slots[head := t], head, tail, enqueued, removed)
    ensures removed < |enqueued| <= removed + CAPACITY ==> head != tail && slots[head := t][tail] == enqueued[removed]
  {
  }

  /** Once the slot is filled and the head moves on, the ring shows one more task. */
  lemma HeadMovesOn(slots: seq<Task>, head: nat, tail: nat, enqueued: seq<Task>, removed: nat)
    requires RingShows(slots, head, tail, enqueued, removed)
    ensures RingShows(slots, Advance(head), tail, enqueued + [slots[head]], removed)
  {
    AdvanceIsSuccessor(|enqueued|);
  }

  /** What a client can still reach: the distance to the head without its whole laps. */
  function Left(enqueued: seq<Task>, removed: nat): nat {
    (|enqueued| - removed) % MAX_REPOS_NUM
  }

  /** However far the ring was overrun, the slot at the tail holds the oldest of the tasks left. */
  lemma TailSlotAfterLaps(slots: seq<Task>, head: nat, tail: nat, enqueued: seq<Task>, removed: nat)
    requires RingShows(slots, head, tail, enqueued, removed)
    requires removed <= |enqueued| && Left(enqueued, removed) != 0
    ensures Left(enqueued, removed) <= |enqueued|
    ensures slots[tail] == enqueued[|enqueued| - Left(enqueued, removed)]
  {
    var laps := (|enqueued| - removed) / MAX_REPOS_NUM;
    assert |enqueued| - Left(enqueued, removed) == removed + MAX_REPOS_NUM * laps;
    LapsKeepTheSlot(removed, laps);
  }

  lemma LapsKeepTheSlot(n: nat, laps: nat)
    ensures (n + MAX_REPOS_NUM * laps) % MAX_REPOS_NUM == n % MAX_REPOS_NUM
  {
  }

  lemma OneLeftLess(enqueued: seq<Task>, removed: nat)
    requires Left(enqueued, removed) != 0
    ensures Left(enqueued, removed + 1) == Left(enqueued, removed) - 1
  {
  }

  lemma LeftInBounds(enqueued: seq<Task>, removed: nat)
    requires Bounded(enqueued, removed)
    ensures Left(enqueued, removed) == |enqueued| - removed
  {
  }

  /** At the capacity, the slot at the tail holds the oldest pending task. */
  lemma TailSlotIsOldest(slots: seq<Task>, head: nat, tail: nat, enqueued: seq<Task>, removed: nat)
    requires RingShows(slots, head, tail, enqueued, removed)
    requires Bounded(enqueued, removed) && removed < |enqueued|
    ensures slots[tail] == enqueued[removed]
  {
  }

  // ---------------------------------------------------------------- deliveries

  function View(t: Task): Delivery {
    Delivery(t.filename, t.fileSize, t.destIp)
  }

  function Views(ts: seq<Task>): (ds: seq<Delivery>)
    ensures |ds| == |ts|
    ensures forall i :: 0 <= i < |ts| ==> ds[i] == View(ts[i])
  {
    seq(|ts|, i requires 0 <= i < |ts| => View(ts[i]))
  }

  /** How many targeted peers have this address. */
  function TargetsAt(peers: seq<Peer>, ip: Bytes): nat {
    if peers == [] then 0
    else
      var last := peers[|peers| - 1];
      TargetsAt(peers[..|peers| - 1], ip) + if Targeted(last) && last.ip == ip then 1 else 0
  }

  /** Where the targeted peers have different addresses, an address counts once or not at all. */
  lemma {:induction false} DistinctAddressesCountOnce(peers: seq<Peer>, ip: Bytes)
    requires forall i, j :: 0 <= i < j < |peers| && Targeted(peers[i]) && Targeted(peers[j]) ==>
               peers[i].ip != peers[j].ip
    ensures TargetsAt(peers, ip) == if exists p :: p in peers && Targeted(p) && p.ip == ip then 1 else 0
  {
    if peers != [] {
      var n := |peers| - 1;
      DistinctAddressesCountOnce(peers[..n], ip);
      assert peers == peers[..n] + [peers[n]];
    }
  }

  /** How often a file was added whose name reads back like this, with this size. */
  function AddsOf(reqs: seq<Request>, filename: Bytes, fileSize: int): nat {
    if reqs == [] then 0
    else
      var last := reqs[|reqs| - 1];
      AddsOf(reqs[..|reqs| - 1], filename, fileSize)
      + if StoredName(last) == filename && last.fileSize == fileSize then 1 else 0
  }

  lemma AllLeftSent(enqueued: seq<Task>, start: nat, sent: seq<Delivery>)
    requires start + |sent| == |enqueued|
    requires forall i :: 0 <= i < |sent| ==> sent[i] == View(enqueued[start + i])
    ensures sent == Views(enqueued[start..])
  {
    assert |sent| == |enqueued[start..]|;
  }

  lemma ViewsAppend(a: seq<Task>, b: seq<Task>)
    ensures Views(a + b) == Views(a) + Views(b)
    ensures multiset(Views(a + b)) == multiset(Views(a)) + multiset(Views(b))
  {
    assert Views(a + b) == Views(a) + Views(b);
  }

  lemma {:induction false} FanOutCount(req: Request, peers: seq<Peer>, d: Delivery)
    ensures multiset(Views(FanOut(req, peers)))[d] ==
            if StoredName(req) == d.filename && req.fileSize == d.fileSize then TargetsAt(peers, d.destIp) else 0
  {
    if peers != [] {
      var n := |peers| - 1;
      FanOutCount(req, peers[..n], d);
      var t := TaskFor(req, peers[n]);
      ViewsAppend(FanOut(req, peers[..n]), [t]);
      assert Views([t]) == [View(t)];
    }
  }

  /** Conservation: an address receives a file once per add and per targeted peer at that address. */
  lemma {:induction false} FanOutAllCount(reqs: seq<Request>, peers: seq<Peer>, d: Delivery)
    ensures multiset(Views(FanOutAll(reqs, peers)))[d] ==
            AddsOf(reqs, d.filename, d.fileSize) * TargetsAt(peers, d.destIp)
  {
    if reqs != [] {
      var n := |reqs| - 1;
      var perAdd := TargetsAt(peers, d.destIp);
      var adds := AddsOf(reqs[..n], d.filename, d.fileSize);
      var before, last := FanOutAll(reqs[..n], peers), FanOut(reqs[n], peers);
      FanOutAllCount(reqs[..n], peers, d);
      FanOutCount(reqs[n], peers, d);
      ViewsAppend(before, last);
      assert multiset(Views(FanOutAll(reqs, peers)))[d] == multiset(Views(before))[d] + multiset(Views(last))[d];
      Distribute(adds, perAdd);
      assert AddsOf(reqs, d.filename, d.fileSize) ==
             if StoredName(reqs[n]) == d.filename && reqs[n].fileSize == d.fileSize then adds + 1 else adds;
    }
  }

  lemma Distribute(a: nat, b: nat)
    ensures (a + 1) * b == a * b + b
  {
  }

  // ---------------------------------------------------------------- the queue as the daemon holds it

  class Repos {
    const slots: array<Task>
    const peers: seq<Peer>
    var head: nat
    var tail: nat
    ghost var enqueued: seq<Task>
    ghost var removed: nat

    ghost predicate Valid()
      reads this, slots
    {
      && |peers| == MAX_PEER_NUM
      && RingShows(slots[..], head, tail, enqueued, removed)
    }

    ghost predicate InBounds()
      reads this
    {
      Bounded(enqueued, removed)
    }

    /** The first-in first-out queue that the ring stands for while it is in bounds. */
    ghost function Pending(): seq<Task>
      reads this
      requires InBounds()
    {
      enqueued[removed..]
    }

    constructor (peers: seq<Peer>, fill: Task)
      requires |peers| == MAX_PEER_NUM
      ensures Valid() && InBounds() && Pending() == [] && this.peers == peers && fresh(slots) && slots.Length == 30
    {
      this.peers := peers;
      slots := new Task[MAX_REPOS_NUM](_ => fill);
      head, tail := 0, 0;
      enqueued, removed := [], 0;
    }

    /** Adds one file for every targeted peer. The history grows by the fan-out, overflow or not. The
        second copy also settles what a long name reads back as. */
    method AddItem(req: Request)
      requires Valid() && FitsSlot(req)
      modifies this`head, this`enqueued, slots
      ensures Valid()
      ensures enqueued == old(enqueued) + FanOut(req, peers)
      ensures old(InBounds()) ==> (InBounds() <==> |old(Pending())| + |FanOut(req, peers)| <= 29)
      ensures old(InBounds()) && InBounds() ==> Pending() == old(Pending()) + FanOut(req, peers)
    {
      var i := 0;
      while i < MAX_PEER_NUM
        invariant i <= MAX_PEER_NUM
        invariant Valid()
        invariant enqueued == old(enqueued) + FanOut(req, peers[..i])
      {
        assert peers[..i + 1][..i] == peers[..i];
        if Targeted(peers[i]) {
          ghost var before := slots[..];
          slots[head] := slots[head].(filename := req.filename);
          slots[head] := slots[head].(filepath := req.filepath, filename := StoredName(req));
          slots[head] := slots[head].(destIp := peers[i].ip);
          slots[head] := slots[head].(fileSize := req.fileSize);
          assert slots[..] == before[head := TaskFor(req, peers[i])];
          HeadSlotIsFree(before, head, tail, enqueued, removed, TaskFor(req, peers[i]));
          HeadMovesOn(slots[..], head, tail, enqueued, removed);
          enqueued := enqueued + [TaskFor(req, peers[i])];
          head := head + 1;
          if head == MAX_REPOS_NUM {
            head := 0;
          }
        }
        i := i + 1;
      }
      assert peers[..MAX_PEER_NUM] == peers;
    }

    /** Reads the three fields a transfer needs from the slot at the tail. */
    method GetCurrent() returns (filename: Bytes, fileSize: int, destIp: Bytes)
      requires Valid()
      ensures Delivery(filename, fileSize, destIp) == View(slots[tail])
      ensures InBounds() && Pending() != [] ==> Delivery(filename, fileSize, destIp) == View(Pending()[0])
    {
      filename := slots[tail].filename;
      fileSize := slots[tail].fileSize;
      destIp := slots[tail].destIp;
      if InBounds() && Pending() != [] {
        TailSlotIsOldest(slots[..], head, tail, enqueued, removed);
      }
    }

    method RemoveItem()
      requires Valid()
      modifies this`tail, this`removed
      ensures Valid() && removed == old(removed) + 1
      ensures old(InBounds()) && old(Pending()) != [] ==> InBounds() && Pending() == old(Pending())[1..]
    {
      AdvanceIsSuccessor(removed);
      tail := tail + 1;
      if tail == MAX_REPOS_NUM {
        tail := 0;
      }
      removed := removed + 1;
    }

    /** 0 for more, 1 for none. */
    method HasMore() returns (res: int)
      requires Valid()
      ensures res == 0 || res == 1
      ensures res == 1 <==> (|enqueued| - removed) % 30 == 0
      ensures InBounds() ==> (res == 1 <==> Pending() == [])
    {
      EmptinessTest(slots[..], head, tail, enqueued, removed);
      res := if head == tail then 1 else 0;
    }

    /** The number printed for the user: the length modulo 30, and the length itself until a wrap. */
    method PrintedLength() returns (num: int)
      requires Valid()
      ensures num < MAX_REPOS_NUM && 0 < num + MAX_REPOS_NUM
      ensures (num - (|enqueued| - removed)) % MAX_REPOS_NUM == 0
      ensures InBounds() ==> (num == |Pending()| <==> head >= tail)
    {
      num := head - tail;
      var wraps := |enqueued| / MAX_REPOS_NUM - removed / MAX_REPOS_NUM;
      assert |enqueued| - removed == MAX_REPOS_NUM * wraps + num;
    }

    /** One round of a client that found something: read, transfer, remove. */
    method TransferCurrent() returns (current: Delivery)
      requires Valid() && removed <= |enqueued| && Left(enqueued, removed) != 0
      modifies this`tail, this`removed
      ensures Valid() && removed == old(removed) + 1 && removed <= |enqueued|
      ensures Left(enqueued, removed) == Left(enqueued, old(removed)) - 1
      ensures Left(enqueued, old(removed)) <= |enqueued|
      ensures current == View(enqueued[|enqueued| - Left(enqueued, old(removed))])
    {
      TailSlotAfterLaps(slots[..], head, tail, enqueued, removed);
      OneLeftLess(enqueued, removed);
      var filename, fileSize, destIp := GetCurrent();
      current := Delivery(filename, fileSize, destIp);
      RemoveItem();
    }

    /** A client that keeps the duty, with no adds meanwhile: check, read, transfer, remove, until the
        test says "empty". For every history, overrun ones included, it transfers the newest tasks up to
        the last whole lap, each once, oldest first; the whole laps before them are stranded. In bounds
        these are exactly the pending tasks. */
    method Drain() returns (sent: seq<Delivery>)
      requires Valid() && removed <= |enqueued|
      modifies this`tail, this`removed
      ensures Valid() && head == tail
      ensures removed == old(removed) + Left(enqueued, old(removed))
      ensures Left(enqueued, old(removed)) <= |enqueued|
      ensures sent == Views(enqueued[|enqueued| - Left(enqueued, old(removed))..])
      ensures old(InBounds()) ==> InBounds() && Pending() == [] && sent == Views(old(Pending()))
    {
      sent := [];
      ghost var start := |enqueued| - Left(enqueued, removed);
      assert start >= 0 && (InBounds() ==> start == removed);
      var res := HasMore();
      while res != 1
        invariant Valid() && removed <= |enqueued|
        invariant removed == old(removed) + |sent| && start + |sent| + Left(enqueued, removed) == |enqueued|
        invariant forall i :: 0 <= i < |sent| ==> sent[i] == View(enqueued[start + i])
        invariant res == 1 <==> Left(enqueued, removed) == 0
        decreases Left(enqueued, removed)
      {
        var current := TransferCurrent();
        sent := sent + [current];
        res := HasMore();
      }
      EmptinessTest(slots[..], head, tail, enqueued, removed);
      AllLeftSent(enqueued, start, sent);
    }
  }
}
