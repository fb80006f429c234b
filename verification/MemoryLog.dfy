/** The bounded in-memory log: a linked list that keeps the newest records. */
module MemoryLog {

  type Record = string

  class Node {
    const record: Record
    var next: Node?

    constructor (record: Record)
      ensures this.record == record && next == null
    {
      this.record, next := record, null;
    }
  }

  function Kept(maxSize: int, total: nat): (kept: nat) {
    if maxSize > 0 && total > maxSize then maxSize else total
  }

  lemma KeptNext(maxSize: int, total: nat)
    ensures (Kept(maxSize, total) == 0 <==> total == 0) && Kept(maxSize, total) <= total && Kept(maxSize, total + 1) <= total + 1
    ensures Kept(maxSize, total + 1) == if maxSize > 0 && Kept(maxSize, total) >= maxSize then Kept(maxSize, total) else Kept(maxSize, total) + 1
  {
  }

  class ChannelMemoryBackend {
    const maxSize: int
    var size: int
    var head: Node?
    var tail: Node?
    /** Every node ever inserted, oldest first. */
    ghost var nodes: seq<Node>

    ghost predicate Valid()
      reads this, nodes
    {
      && size == Kept(maxSize, |nodes|)
      && (forall i, j :: 0 <= i < j < |nodes| ==> nodes[i] != nodes[j])
      && (forall i :: 0 <= i < |nodes| ==> nodes[i].next == if i + 1 < |nodes| then nodes[i + 1] else null)
      && (if nodes == [] then head == null && tail == null
          else head == nodes[|nodes| - size] && tail == nodes[|nodes| - 1])
    }

    /** The records of all nodes ever inserted. */
    ghost function Inserted(): (records: seq<Record>)
      reads this
      ensures |records| == |nodes|
    {
      seq(|nodes|, i requires 0 <= i < |nodes| reads this => nodes[i].record)
    }

    constructor (size: int)
      ensures Valid() && nodes == [] && maxSize == size
    {
      maxSize := size;
      this.size, head, tail, nodes := 0, null, null, [];
    }

    method InsertRecord(rec: Record)
      requires Valid()
      modifies this, nodes
      ensures Valid() && Inserted() == old(Inserted()) + [rec]
      ensures |nodes| == |old(nodes)| + 1 && nodes[..|old(nodes)|] == old(nodes) && fresh(nodes[|old(nodes)|])
    {
      hide Kept;
      KeptNext(maxSize, |nodes|);
      var prev := tail;
      tail := new Node(rec);
      if prev == null {
        head := tail;
      } else {
        prev.next := tail;
      }
      nodes := nodes + [tail];
      if maxSize > 0 && size >= maxSize {
        head := head.next;
      } else {
        size := size + 1;
      }
    }

    /**
    Following the list from a node, whether it is still kept or not, gives that record and all
    newer ones, and comes to an end.
    */
    method RecordsFrom(node: Node?, ghost i: nat) returns (records: seq<Record>)
      requires Valid() && i <= |nodes| && node == if i < |nodes| then nodes[i] else null
      ensures records == Inserted()[i..]
    {
      records := [];
      var n := node;
      ghost var k := i;
      while n != null
        invariant i <= k <= |nodes| && n == if k < |nodes| then nodes[k] else null
        invariant records == Inserted()[i..k]
        decreases |nodes| - k
      {
        records := records + [n.record];
        n, k := n.next, k + 1;
      }
      assert Inserted()[i..|nodes|] == Inserted()[i..];
    }

    /** What a reader finds: exactly the newest maxSize records in order, or all when there are fewer or no bound. */
    method Read() returns (records: seq<Record>)
      requires Valid()
      ensures |records| == size == Kept(maxSize, |nodes|)
      ensures records == Inserted()[|nodes| - size..]
    {
      records := RecordsFrom(head, |nodes| - size);
    }
  }

  /** After any sequence of insertions the log holds the last of them, as many as fit. */
  method LogAll(size: int, records: seq<Record>) returns (kept: seq<Record>)
    ensures |kept| == Kept(size, |records|)
    ensures kept == records[|records| - |kept|..]
  {
    var log := new ChannelMemoryBackend(size);
    for i := 0 to |records|
      invariant log.Valid() && fresh(log) && fresh(log.nodes) && log.maxSize == size && log.Inserted() == records[..i]
    {
      log.InsertRecord(records[i]);
    }
    assert records[..|records|] == records;
    kept := log.Read();
  }
}
