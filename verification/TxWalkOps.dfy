/** The walk of TxWalks on the heap: a turn of the loop of htc_lookup_tx_packet, and the
  * removal of a node by HIF's refusal while pTemp points somewhere into the queue. */
module TxWalkOps {
  import opened DlList
  import opened PacketQueues
  import opened TxModel
  import opened TxQueueOps
  import opened TxWalks

  /** An iteration that has come to position `k`. */
  function WalkAt(items: seq<Charged>, k: nat): Walk
    requires k <= |items|
  {
    Walking(items[..k], items[k..])
  }

  /** A turn on the heap is a turn of the walk. */
  method TurnOnHeap(q: Queue, netbuf: nat, pTemp: DlNode?<Charged>, ghost k: nat) returns (next: DlNode?<Charged>, pFound: DlNode?<Charged>)
    requires q.Loose() && k < |q.Nodes| && StandsAt(q, pTemp, k)
    modifies q, q.QueueHead`pPrev, q.QueueHead`pNext, Members(q)`pPrev, Members(q)`pNext
    ensures q.Loose()
    ensures match TurnOf(WalkAt(old(Items(q.Nodes)), k), netbuf)
      case Ended(found, rest) => pFound == pTemp && found == Hit(pTemp.item) && Items(q.Nodes) == rest
      case walk => pFound == null && StandsAt(q, next, k + 1) && k + 1 <= |q.Nodes| && walk == WalkAt(Items(q.Nodes), k + 1)
  {
    hide Items, NodesIn;
    ghost var s, items := q.Nodes, Items(q.Nodes);
    assert items[k..][1..] == items[k + 1..] && items[..k] + [items[k]] == items[..k + 1];
    next, pFound := WalkTurn(q, netbuf, pTemp, k);
    if pFound != null {
      assert Items(q.Nodes) == items[..k] + items[k + 1..];
    } else {
      assert Items(q.Nodes) == items;
    }
  }

  /** The end of the loop. */
  lemma LoopEnds(q: Queue, netbuf: nat, pTemp: DlNode?<Charged>, k: nat)
    requires q.Loose() && StandsAt(q, pTemp, k)
    ensures pTemp == q.QueueHead <==> TurnOf(WalkAt(Items(q.Nodes), k), netbuf) == Ended(Missing, Items(q.Nodes)[..k])
  {
    hide Items;
    StandsAtEnd(q, pTemp, k);
  }

  /** A place in the ring of a queue. */
  ghost predicate InRing(q: Queue, n: DlNode?<Charged>)
    reads q
  {
    n != null && (n == q.QueueHead || n in q.Nodes)
  }

  /** Whoever follows pNext from there goes round in it, and comes to no other queue's
    * head: the test of a loop over another queue never fails. */
  lemma RoundAndRound(q: Queue, n: DlNode?<Charged>, other: Queue)
    requires q.Loose() && InRing(q, n) && Separate(q, other)
    ensures InRing(q, n.pNext) && n != other.QueueHead && n !in other.Nodes
  {
    hide IsList;
    if n == q.QueueHead {
      FirstOf(q);
    } else {
      var k :| 0 <= k < |q.Nodes| && q.Nodes[k] == n;
      NextOf(q, k);
    }
    SeparateMeans(q, other);
  }

  /** Where an iteration stands once position `i` has been taken out of the queue. */
  function Moved(k: nat, i: nat): nat {
    if i < k then k - 1 else k
  }

  /** The moves of a refusal (651-656) while an iteration stands at position `k` of the
    * detached queue.  Unless it stands at the refused packet itself it goes on as if that
    * had never been there; if it does, it is in the ring of the sendQueue now. */
  method RefuseOnHeap(from: Queue, p: Node, ghost owner: Queue, ghost i: nat, to: Queue, ghost pTemp: DlNode?<Charged>, ghost k: nat)
    requires from.Loose() && owner.Loose() && to.Valid() && from != owner
    requires Separate(from, to) && Separate(owner, to) && Separate(from, owner)
    requires i < |owner.Nodes| && owner.Nodes[i] == p && StandsAt(owner, pTemp, k)
    requires FirstMatch(Items(owner.Nodes), p.item.packet.netbuf) == i
    modifies from, owner, owner.QueueHead`pPrev, owner.QueueHead`pNext, Members(owner)`pPrev, Members(owner)`pNext
    modifies to, to.QueueHead`pPrev, to.QueueHead`pNext, Members(to)`pPrev, Members(to)`pNext
    ensures owner.Loose() && to.Valid() && Separate(owner, to)
    ensures var walk := Refuse(WalkAt(old(Items(owner.Nodes)), k), p.item.packet.netbuf);
      if i == k then walk == Astray && pTemp == p && InRing(to, pTemp)
      else
        && StandsAt(owner, pTemp, Moved(k, i)) && Moved(k, i) <= |owner.Nodes|
        && walk == WalkAt(Items(owner.Nodes), Moved(k, i))
  {
    hide Items, NodesIn, FirstMatch, IsList;
    ghost var s, items := owner.Nodes, Items(owner.Nodes);
    RefuseAt(items, k, i, p.item.packet.netbuf);
    SeparateMeans(owner, to);
    HeadOutside(owner);
    PassBack(from, p, owner, i, to);
    SeparateMeans(owner, to);
    assert to.Nodes[0] == p;
  }

  lemma FoundAt(q: seq<Charged>, netbuf: nat, i: nat)
    requires i < |q| && FirstMatch(q, netbuf) == i
    ensures RemoveFirst(q, netbuf) == Lookup(Hit(q[i]), q[..i] + q[i + 1..])
  {
  }

  lemma NotFoundBefore(q: seq<Charged>, netbuf: nat, k: nat)
    requires k <= FirstMatch(q, netbuf)
    ensures RemoveFirst(q[..k], netbuf).found.Missing?
  {
    hide FirstMatch;
    MatchIs(q[..k], netbuf, k);
  }

  lemma FirstMatchFrom(q: seq<Charged>, netbuf: nat, k: nat)
    requires k <= FirstMatch(q, netbuf) < |q|
    ensures FirstMatch(q[k..], netbuf) == FirstMatch(q, netbuf) - k
  {
    hide FirstMatch;
    var i := FirstMatch(q, netbuf);
    forall j | 0 <= j < i - k ensures q[k..][j].packet.netbuf != netbuf {
      assert q[k..][j] == q[k + j];
    }
    MatchIs(q[k..], netbuf, i - k);
  }

  lemma WithoutBehind(items: seq<Charged>, k: nat, i: nat)
    requires i < k <= |items|
    ensures var left := items[..i] + items[i + 1..];
      left[..k - 1] == items[..k][..i] + items[..k][i + 1..] && left[k - 1..] == items[k..]
  {
  }

  lemma WithoutAhead(items: seq<Charged>, k: nat, i: nat)
    requires k < i < |items|
    ensures var left := items[..i] + items[i + 1..];
      left[..k] == items[..k] && left[k..] == items[k..][..i - k] + items[k..][i - k + 1..]
  {
  }

  lemma RefuseAt(items: seq<Charged>, k: nat, i: nat, netbuf: nat)
    requires k <= |items| && i < |items| && FirstMatch(items, netbuf) == i
    ensures var left := items[..i] + items[i + 1..];
      Refuse(WalkAt(items, k), netbuf) == if i == k then Astray else WalkAt(left, Moved(k, i))
  {
    hide FirstMatch, RemoveFirst;
    if i < k {
      MatchIs(items[..k], netbuf, i);
      FoundAt(items[..k], netbuf, i);
      WithoutBehind(items, k, i);
    } else {
      NotFoundBefore(items, netbuf, k);
      FirstMatchFrom(items, netbuf, k);
      FoundAt(items[k..], netbuf, i - k);
      if i > k {
        WithoutAhead(items, k, i);
        assert items[k..][0] == items[k] && items[k].packet.netbuf != netbuf;
      }
    }
  }
}
