/** HTC_PACKET_QUEUE of core/htc/htc_packet.h: a list head plus a Depth counter
  * that every macro keeps by hand. */
module PacketQueues {
  import opened DlList

  class PacketQueue<T(0)> {
    const QueueHead: DlNode<T>
    var Depth: int
    ghost var Nodes: seq<DlNode<T>>
    ghost var Skew: int

    /** The list is in order; Depth is off by Skew. */
    ghost predicate Loose()
      reads this, QueueHead, Nodes
    {
      IsList(QueueHead, Nodes) && Depth == |Nodes| + Skew
    }

    ghost predicate Valid()
      reads this, QueueHead, Nodes
    {
      Loose() && Skew == 0
    }

    /** INIT_HTC_PACKET_QUEUE */
    constructor ()
      ensures Valid() && Nodes == [] && fresh(QueueHead)
    {
      var it: T := *;
      QueueHead := new DlNode(it);
      Depth := 0;
      Nodes, Skew := [], 0;
    }

    /** HTC_QUEUE_EMPTY looks only at the counter. */
    predicate IsEmpty()
      requires Valid()
      reads this, QueueHead, Nodes
      ensures IsEmpty() <==> Nodes == []
      ensures IsEmpty() <==> Empty(QueueHead)
    {
      EmptyIffNoMembers(QueueHead, Nodes);
      Depth == 0
    }

    /** HTC_PACKET_ENQUEUE */
    method Enqueue(p: DlNode<T>)
      requires Loose() && p != QueueHead && p !in Nodes
      modifies this, QueueHead`pPrev, QueueHead`pNext, Nodes`pPrev, Nodes`pNext, p`pPrev, p`pNext
      ensures Loose() && Skew == old(Skew) && Nodes == old(Nodes) + [p]
    {
      InsertTail(QueueHead, p, Nodes);
      Depth := Depth + 1;
      Nodes := Nodes + [p];
    }

    /** HTC_PACKET_ENQUEUE_TO_HEAD */
    method EnqueueToHead(p: DlNode<T>)
      requires Loose() && p != QueueHead && p !in Nodes
      modifies this, QueueHead`pPrev, QueueHead`pNext, Nodes`pPrev, Nodes`pNext, p`pPrev, p`pNext
      ensures Loose() && Skew == old(Skew) && Nodes == [p] + old(Nodes)
    {
      InsertHead(QueueHead, p, Nodes);
      Depth := Depth + 1;
      Nodes := [p] + Nodes;
    }

    /** htc_get_pkt_at_head */
    method PeekHead() returns (p: DlNode?<T>)
      requires Valid()
      ensures p == if Nodes == [] then null else Nodes[0]
    {
      EmptyIffNoMembers(QueueHead, Nodes);
      if Depth == 0 {
        return null;
      }
      return QueueHead.pNext;
    }

    /** HTC_PACKET_REMOVE: the list link takes the packet out of the list it is in, which
      * is `owner`, and the counter of the queue that is named is decremented.  If that
      * is not the same queue, both counters are wrong afterwards. */
    method RemovePacket(p: DlNode<T>, ghost owner: PacketQueue<T>, ghost k: nat)
      requires Loose() && owner.Loose() && (owner == this || Apart(QueueHead, Nodes, owner.QueueHead, owner.Nodes))
      requires k < |owner.Nodes| && owner.Nodes[k] == p
      modifies this, owner, owner.QueueHead`pPrev, owner.QueueHead`pNext, owner.Nodes`pPrev, owner.Nodes`pNext
      ensures Loose() && owner.Loose() && owner.Nodes == old(owner.Nodes[..k] + owner.Nodes[k + 1..])
      ensures Depth == old(Depth) - 1
      ensures if owner == this then Skew == old(Skew) else
        Nodes == old(Nodes) && owner.Depth == old(owner.Depth) && Skew == old(Skew) - 1 && owner.Skew == old(owner.Skew) + 1
      ensures p !in owner.Nodes && p.pNext == p && p.pPrev == p
    {
      RemoveMember(p, owner.QueueHead, owner.Nodes, k);
      Depth := Depth - 1;
      owner.Nodes := owner.Nodes[..k] + owner.Nodes[k + 1..];
      if owner != this {
        Skew, owner.Skew := Skew - 1, owner.Skew + 1;
      }
    }

    /** htc_packet_dequeue */
    method Dequeue() returns (p: DlNode?<T>)
      requires Loose()
      modifies this, QueueHead`pPrev, QueueHead`pNext, Nodes`pPrev, Nodes`pNext
      ensures Loose() && Skew == old(Skew)
      ensures old(Nodes) == [] ==> p == null && Nodes == []
      ensures old(Nodes) != [] ==> p == old(Nodes[0]) && Nodes == old(Nodes[1..]) && p !in Nodes
    {
      p := RemoveItemFromHead(QueueHead, Nodes);
      if p != null {
        Depth := Depth - 1;
        Nodes := Nodes[1..];
      }
    }

    /** htc_packet_dequeue_tail */
    method DequeueTail() returns (p: DlNode?<T>)
      requires Loose()
      modifies this, QueueHead`pPrev, QueueHead`pNext, Nodes`pPrev, Nodes`pNext
      ensures Loose() && Skew == old(Skew)
      ensures old(Nodes) == [] ==> p == null && Nodes == []
      ensures old(Nodes) != [] ==> p == old(Nodes[|Nodes| - 1]) && Nodes == old(Nodes[..|Nodes| - 1])
    {
      p := RemoveItemFromTail(QueueHead, Nodes);
      if p != null {
        Depth := Depth - 1;
        Nodes := Nodes[..|Nodes| - 1];
      }
    }

    /** HTC_PACKET_QUEUE_TRANSFER_TO_TAIL(this, src) */
    method TransferAllToTail(src: PacketQueue<T>)
      requires Loose() && src.Loose() && src != this && Apart(QueueHead, Nodes, src.QueueHead, src.Nodes)
      modifies this, QueueHead`pPrev, QueueHead`pNext, Nodes`pPrev, Nodes`pNext
      modifies src, src.QueueHead`pPrev, src.QueueHead`pNext, src.Nodes`pPrev, src.Nodes`pNext
      ensures Loose() && Skew == old(Skew + src.Skew) && Nodes == old(Nodes + src.Nodes)
      ensures src.Valid() && src.Nodes == []
    {
      TransferToTail(QueueHead, src.QueueHead, Nodes, src.Nodes);
      Depth := Depth + src.Depth;
      src.Depth := 0;
      Nodes, src.Nodes, Skew, src.Skew := Nodes + src.Nodes, [], Skew + src.Skew, 0;
    }

    /** HTC_PACKET_QUEUE_TRANSFER_TO_HEAD(this, src) */
    method TransferAllToHead(src: PacketQueue<T>)
      requires Loose() && src.Loose() && src != this && Apart(QueueHead, Nodes, src.QueueHead, src.Nodes)
      modifies this, QueueHead`pPrev, QueueHead`pNext, Nodes`pPrev, Nodes`pNext
      modifies src, src.QueueHead`pPrev, src.QueueHead`pNext, src.Nodes`pPrev, src.Nodes`pNext
      ensures Loose() && Skew == old(Skew + src.Skew) && Nodes == old(src.Nodes + Nodes)
      ensures src.Valid() && src.Nodes == []
    {
      TransferToHead(QueueHead, src.QueueHead, Nodes, src.Nodes);
      Depth := Depth + src.Depth;
      src.Depth := 0;
      Nodes, src.Nodes, Skew, src.Skew := src.Nodes + Nodes, [], Skew + src.Skew, 0;
    }
  }
}
