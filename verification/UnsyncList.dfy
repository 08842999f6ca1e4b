/** The GUI's list of files not yet synchronised: a circular list whose head node is there from the
    start and carries the first entry once there is one. */
module UnsyncList {
  import opened CText

  datatype Entry = Entry(filePath: Bytes, fileName: Bytes)

  class Node {
    var entry: Entry
    var next: Node?

    constructor (entry: Entry, next: Node?)
      ensures this.entry == entry && this.next == next
    {
      this.entry, this.next := entry, next;
    }
  }

  class UnsyncFileList {
    const head: Node
    var count: int
    ghost var nodes: seq<Node>

    /** The nodes, none twice, each followed by the one after it and the last by the head. */
    ghost predicate Valid()
      reads this, head, nodes
    {
      && count == |nodes|
      && (nodes == [] ==> head.next == null)
      && (nodes != [] ==> nodes[0] == head)
      && (forall i, j :: 0 <= i < j < |nodes| ==> nodes[i] != nodes[j])
      && (forall i :: 0 <= i < |nodes| - 1 ==> nodes[i].next == nodes[i + 1])
      && (nodes != [] ==> nodes[|nodes| - 1].next == head)
    }

    ghost function Entries(): (es: seq<Entry>)
      reads this, nodes
    {
      seq(|nodes|, i requires 0 <= i < |nodes| reads this, nodes => nodes[i].entry)
    }

    constructor ()
      ensures Valid() && Entries() == [] && fresh(head)
    {
      head := new Node(Entry([], []), null);
      count, nodes := 0, [];
    }

    /** Appends an entry: into the head node if the list is empty, behind the last node otherwise. */
    method Add(filePath: Bytes, fileName: Bytes)
      requires Valid()
      modifies this, head, nodes
      ensures Valid() && Entries() == old(Entries()) + [Entry(filePath, fileName)]
      ensures count == old(count) + 1 == |nodes|
      ensures nodes[|nodes| - 1].entry.filePath == filePath && nodes[|nodes| - 1].entry.fileName == fileName
      ensures old(nodes) <= nodes && fresh(set n | n in nodes[|old(nodes)|..] && n != head)
    {
      assert |nodes| > 1 ==> nodes[0].next == nodes[1] && nodes[1] != head;
      count := count + 1;
      if head.next == null {
        head.entry := Entry(filePath, fileName);
        head.next := head;
        nodes := [head];
        assert nodes[|nodes| - 1] == head;
      } else {
        var last := head;
        ghost var i := 0;
        while last.next != head
          invariant 0 <= i < |nodes| && last == nodes[i]
          invariant i < |nodes| - 1 ==> last.next == nodes[i + 1] && nodes[i + 1] != head
          decreases |nodes| - i
        {
          last := last.next;
          i := i + 1;
        }
        assert i == |nodes| - 1;
        var node := new Node(Entry(filePath, fileName), head);
        last.next := node;
        nodes := nodes + [node];
        assert nodes[|nodes| - 1] == node;
      }
    }

    /** The node that following `next` from the head reaches in k steps. */
    ghost function Follow(k: nat): Node?
      reads this, head, nodes
    {
      if k == 0 then head
      else
        var n := Follow(k - 1);
        if n != null && (n == head || n in nodes) then n.next else null
    }

    /** One single cycle: walking from the head meets the entries in the order of insertion, each once,
        and is back at the head after exactly as many steps as there are entries. */
    lemma {:induction false} WalkIsInsertionOrder(k: nat)
      requires Valid() && k <= |nodes| && nodes != []
      ensures k < |nodes| ==> Follow(k) == nodes[k]
      ensures Follow(k) == head <==> k == 0 || k == count
    {
      if k > 0 {
        WalkIsInsertionOrder(k - 1);
        assert k < |nodes| ==> nodes[k - 1].next == nodes[k];
      }
    }
  }
}
