/** The loops of core/htc/htc_send.c that walk packet queues, on the heap: the
  * safe iteration that moves packets from one queue to another, the credit loop,
  * the search for a completed packet and the overflow split.  Each is proved to
  * compute the function of the same purpose in TxModel on the packets in the
  * queues. */
module TxQueueOps {
  import opened DlList
  import opened PacketQueues
  import opened TxModel

  type Node = DlNode<Charged>
  type Queue = PacketQueue<Charged>

  ghost function Items(s: seq<Node>): (r: seq<Charged>)
    reads s`item
    ensures |r| == |s| && forall i :: 0 <= i < |s| ==> r[i] == s[i].item
  {
    if s == [] then [] else [s[0].item] + Items(s[1..])
  }

  ghost function PacketsOf(s: seq<Node>): (r: seq<Packet>)
    reads s`item
    ensures |r| == |s| && forall i :: 0 <= i < |s| ==> r[i] == s[i].item.packet
  {
    Packets(Items(s))
  }

  lemma PacketsOfConcat(a: seq<Node>, b: seq<Node>)
    ensures PacketsOf(a + b) == PacketsOf(a) + PacketsOf(b)
    ensures Items(a + b) == Items(a) + Items(b)
  {
    hide Items;
  }

  /** Packets that did not change, seen through the same nodes. */
  twostate lemma PacketsKept(s: seq<Node>)
    requires forall i :: 0 <= i < |s| ==> s[i].item.packet == old(s[i].item.packet)
    ensures PacketsOf(s) == old(PacketsOf(s))
  {
    hide Items;
  }

  /** Two queues that share no object. */
  ghost predicate Separate(a: Queue, b: Queue)
    reads a, b
  {
    a != b && Apart(a.QueueHead, a.Nodes, b.QueueHead, b.Nodes)
  }

  ghost predicate Within(q: Queue, s: set<Node>)
    reads q
  {
    q.QueueHead !in s && forall i :: 0 <= i < |q.Nodes| ==> q.Nodes[i] in s
  }

  ghost function NodesIn(s: seq<Node>): (r: set<Node>)
    ensures forall i :: 0 <= i < |s| ==> s[i] in r
  {
    set n | n in s
  }

  lemma NodesInConcat(a: seq<Node>, b: seq<Node>)
    ensures NodesIn(a + b) == NodesIn(a) + NodesIn(b)
  {
  }

  lemma NodesInOne(p: Node)
    ensures NodesIn([p]) == {p}
  {
  }

  lemma NodesInNone()
    ensures NodesIn([]) == {}
  {
  }

  /** Taking out a node that does not occur again. */
  lemma NodesInWithout(s: seq<Node>, k: nat)
    requires k < |s| && s[k] !in s[..k] + s[k + 1..]
    ensures NodesIn(s[..k] + s[k + 1..]) == NodesIn(s) - {s[k]}
  {
    assert s == s[..k] + [s[k]] + s[k + 1..];
  }

  lemma NodesInTail(s: seq<Node>)
    requires s != [] && s[0] !in s[1..]
    ensures NodesIn(s[1..]) == NodesIn(s) - {s[0]}
  {
    assert s == [s[0]] + s[1..];
  }

  /** The nodes of a queue. */
  ghost function Members(q: Queue): (r: set<Node>)
    reads q
    ensures forall i :: 0 <= i < |q.Nodes| ==> q.Nodes[i] in r
  {
    NodesIn(q.Nodes)
  }

  lemma HeadOutside(q: Queue)
    requires q.Loose()
    ensures q.QueueHead !in Members(q)
  {
  }

  lemma WithinMembers(q: Queue, all: set<Node>)
    ensures Within(q, all) <==> q.QueueHead !in all && Members(q) <= all
    ensures Within(q, all) ==> forall i :: 0 <= i < |q.Nodes| ==> q.Nodes[i] in all
  {
  }

  lemma WithinMore(q: Queue, s: set<Node>, all: set<Node>)
    requires Within(q, s) && q.QueueHead !in all && s <= all
    ensures Within(q, all)
  {
  }

  lemma Parted(a: Queue, s: set<Node>, b: Queue, t: set<Node>)
    requires Within(a, s) && Within(b, t) && s !! t
    requires a != b && a.QueueHead != b.QueueHead && a.QueueHead !in t && b.QueueHead !in s
    ensures Separate(a, b)
  {
  }

  lemma SeparateMeans(a: Queue, b: Queue)
    ensures Separate(a, b) <==>
      && a != b && a.QueueHead != b.QueueHead && Members(a) !! Members(b)
      && a.QueueHead !in Members(b) && b.QueueHead !in Members(a)
  {
    if Separate(a, b) {
    } else if Members(a) !! Members(b) {
    }
  }

  // ---------- safe iteration ----------

  /** The nodes whose packets, given by `ps`, are to be moved, or are not. */
  ghost function Pick(move: Packet -> bool, s: seq<Node>, ps: seq<Packet>, moved: bool): (r: seq<Node>)
    requires |s| == |ps|
    ensures forall n :: n in r ==> n in s
  {
    if s == [] then []
    else if move(ps[0]) == moved then [s[0]] + Pick(move, s[1..], ps[1..], moved)
    else Pick(move, s[1..], ps[1..], moved)
  }

  function IsPmIn(cfg: Config): Packet -> bool {
    p => IsPm(cfg, p)
  }

  function KeptBy(handler: FullHandler): Packet -> bool {
    p => !handler.Rejects(p)
  }

  lemma {:induction false} PickSelects(cfg: Config, s: seq<Node>, pm: bool)
    ensures PacketsOf(Pick(IsPmIn(cfg), s, PacketsOf(s), pm)) == Select(cfg, PacketsOf(s), pm)
  {
    hide Items, PacketsOf;
    if s == [] {
      assert PacketsOf(s) == [];
    } else {
      assert PacketsOf(s)[1..] == PacketsOf(s[1..]);
      PickSelects(cfg, s[1..], pm);
      PacketsOfConcat([s[0]], Pick(IsPmIn(cfg), s[1..], PacketsOf(s[1..]), pm));
    }
  }

  lemma {:induction false} PickSifts(handler: FullHandler, s: seq<Node>, rejected: bool)
    ensures PacketsOf(Pick(KeptBy(handler), s, PacketsOf(s), !rejected)) ==
      Sift(handler, PacketsOf(s), rejected)
  {
    hide Items, PacketsOf;
    if s == [] {
      assert PacketsOf(s) == [];
    } else {
      assert PacketsOf(s)[1..] == PacketsOf(s[1..]);
      PickSifts(handler, s[1..], rejected);
      PacketsOfConcat([s[0]], Pick(KeptBy(handler), s[1..], PacketsOf(s[1..]), !rejected));
    }
  }

  lemma {:induction false} PickNone(move: Packet -> bool, s: seq<Node>, ps: seq<Packet>)
    requires |s| == |ps| && forall p :: !move(p)
    ensures Pick(move, s, ps, true) == [] && Pick(move, s, ps, false) == s
  {
    if s != [] {
      PickNone(move, s[1..], ps[1..]);
    }
  }

  /** The picked nodes from position `k` on. */
  ghost function PickFrom(move: Packet -> bool, s: seq<Node>, ps: seq<Packet>, k: nat, moved: bool): seq<Node>
    requires |s| == |ps| && k <= |s|
  {
    Pick(move, s[k..], ps[k..], moved)
  }

  lemma PickStart(move: Packet -> bool, s: seq<Node>, ps: seq<Packet>, moved: bool)
    requires |s| == |ps|
    ensures PickFrom(move, s, ps, 0, moved) == Pick(move, s, ps, moved)
    ensures PickFrom(move, s, ps, |s|, moved) == []
  {
    assert s[0..] == s && ps[0..] == ps;
  }

  /** Picking node `k` or not, after `done` have been picked. */
  lemma PickStep(move: Packet -> bool, s: seq<Node>, ps: seq<Packet>, k: nat, moved: bool, done: seq<Node>)
    requires |s| == |ps| && k < |s|
    ensures done + PickFrom(move, s, ps, k, moved) ==
      (if move(ps[k]) == moved then done + [s[k]] else done) + PickFrom(move, s, ps, k + 1, moved)
  {
    assert s[k..][1..] == s[k + 1..] && ps[k..][1..] == ps[k + 1..];
  }

  /** The list a safe iteration over `s` sees: the nodes it has left behind, and
    * those from position `k` on that it has not come to. */
  ghost function Walk<A>(kept: seq<A>, s: seq<A>, k: nat): seq<A>
    requires k <= |s|
  {
    kept + s[k..]
  }

  lemma WalkEnds<A>(kept: seq<A>, s: seq<A>)
    ensures Walk([], s, 0) == s
    ensures Walk(kept, s, |s|) == kept
  {
  }

  /** One step that leaves the node behind, and one that takes it out. */
  lemma WalkStep<A>(kept: seq<A>, s: seq<A>, k: nat)
    requires k < |s|
    ensures var w := Walk(kept, s, k);
      && |w| == |kept| + |s| - k && w[|kept|] == s[k]
      && (k + 1 < |s| ==> w[|kept| + 1] == s[k + 1])
      && Walk(kept + [s[k]], s, k + 1) == w
      && Walk(kept, s, k + 1) == w[..|kept|] + w[|kept| + 1..]
  {
    var w := kept + s[k..];
    assert [s[k]] + s[k + 1..] == s[k..];
    assert w[|kept| + 1..] == s[k + 1..];
  }

  /** The pointer a safe iteration reads before it hands out node `k`. */
  lemma NextOf(q: Queue, k: nat)
    requires q.Loose() && k < |q.Nodes|
    ensures q.Nodes[k].pNext == if k + 1 < |q.Nodes| then q.Nodes[k + 1] else q.QueueHead
    ensures q.Nodes[k] != q.QueueHead
  {
    var c := Trip(q.QueueHead, q.Nodes);
    assert c[k + 1].pNext == c[k + 2];
  }

  lemma FirstOf(q: Queue)
    requires q.Loose()
    ensures q.QueueHead.pNext == if q.Nodes == [] then q.QueueHead else q.Nodes[0]
    ensures q.Nodes != [] ==> q.Nodes[0] != q.QueueHead
  {
    EmptyIffNoMembers(q.QueueHead, q.Nodes);
  }

  /** HTC_PACKET_REMOVE from one queue and HTC_PACKET_ENQUEUE on another. */
  method MovePacket(from: Queue, to: Queue, packet: Node, ghost k: nat, ghost all: set<Node>)
    requires from.Valid() && to.Valid() && Separate(from, to) && k < |from.Nodes| && from.Nodes[k] == packet
    requires Within(from, all) && Within(to, all)
    modifies from, from.QueueHead`pPrev, from.QueueHead`pNext, all`pPrev, all`pNext
    modifies to, to.QueueHead`pPrev, to.QueueHead`pNext
    ensures from.Valid() && to.Valid() && Separate(from, to)
    ensures from.Nodes == old(from.Nodes[..k] + from.Nodes[k + 1..]) && to.Nodes == old(to.Nodes) + [packet]
    ensures Within(from, all) && Within(to, all)
  {
    from.RemovePacket(packet, from, k);
    to.Enqueue(packet);
  }

  /** ITERATE_OVER_LIST_ALLOW_REMOVE over `from`, moving packets to the tail of `to`:
    * removal during the iteration disturbs neither the iteration nor the order. */
  method MoveMatching(from: Queue, to: Queue, move: Packet -> bool, ghost all: set<Node>)
    requires from.Valid() && to.Valid() && Separate(from, to)
    requires Within(from, all) && Within(to, all)
    modifies from, from.QueueHead`pPrev, from.QueueHead`pNext, all`pPrev, all`pNext
    modifies to, to.QueueHead`pPrev, to.QueueHead`pNext
    ensures from.Valid() && to.Valid() && Separate(from, to) && Within(from, all) && Within(to, all)
    ensures to.Nodes == old(to.Nodes + Pick(move, from.Nodes, PacketsOf(from.Nodes), true))
    ensures from.Nodes == old(Pick(move, from.Nodes, PacketsOf(from.Nodes), false))
  {
    hide Pick, PickFrom, Walk, Items, IsList, PacketsOf, Within, Apart, Separate;
    ghost var s, ps := from.Nodes, PacketsOf(from.Nodes);
    ghost var kept: seq<Node>, k: nat := [], 0;
    WalkEnds(kept, s);
    PickStart(move, s, ps, true);
    PickStart(move, s, ps, false);
    FirstOf(from);
    var pTemp := from.QueueHead.pNext;
    while pTemp != from.QueueHead
      invariant k <= |s|
      invariant from.Valid() && to.Valid() && Separate(from, to)
      invariant from.Nodes == Walk(kept, s, k)
      invariant Within(from, all) && Within(to, all)
      invariant if k == |s| then pTemp == from.QueueHead else pTemp == s[k] && s[k] != from.QueueHead
      invariant to.Nodes + PickFrom(move, s, ps, k, true) == old(to.Nodes) + Pick(move, s, ps, true)
      invariant kept + PickFrom(move, s, ps, k, false) == Pick(move, s, ps, false)
      decreases |s| - k
    {
      var packet: Node := pTemp;
      WalkStep(kept, s, k);
      NextOf(from, |kept|);
      if k + 1 < |s| {
        NextOf(from, |kept| + 1);
      }
      pTemp := pTemp.pNext;
      PickStep(move, s, ps, k, true, to.Nodes);
      PickStep(move, s, ps, k, false, kept);
      if move(packet.item.packet) {
        MovePacket(from, to, packet, |kept|, all);
      } else {
        kept := kept + [packet];
      }
      k := k + 1;
    }
    WalkEnds(kept, s);
  }

  /** extract_htc_pm_packets */
  method ExtractPmPackets(cfg: Config, txq: Queue, pm: Queue, ghost all: set<Node>)
    requires txq.Valid() && pm.Valid() && Separate(txq, pm) && pm.Nodes == []
    requires Within(txq, all) && Within(pm, all)
    modifies txq, txq.QueueHead`pPrev, txq.QueueHead`pNext, all`pPrev, all`pNext
    modifies pm, pm.QueueHead`pPrev, pm.QueueHead`pNext
    ensures txq.Valid() && pm.Valid() && Separate(txq, pm) && Within(txq, all) && Within(pm, all)
    ensures PacketsOf(pm.Nodes) == Select(cfg, old(PacketsOf(txq.Nodes)), true)
    ensures PacketsOf(txq.Nodes) == Select(cfg, old(PacketsOf(txq.Nodes)), false)
    ensures pm.Nodes == [] ==> PacketsOf(txq.Nodes) == old(PacketsOf(txq.Nodes))
  {
    hide Pick, Items, IsList, PacketsOf, Within, Apart, Separate;
    PickSelects(cfg, txq.Nodes, true);
    PickSelects(cfg, txq.Nodes, false);
    SelectNoneIsAll(cfg, PacketsOf(txq.Nodes));
    if !cfg.pmFirst {
      PickNone(IsPmIn(cfg), txq.Nodes, PacketsOf(txq.Nodes));
      return;
    }
    ghost var s, ps := txq.Nodes, PacketsOf(txq.Nodes);
    ghost var a, b := Pick(IsPmIn(cfg), s, ps, true), Pick(IsPmIn(cfg), s, ps, false);
    MoveMatching(txq, pm, IsPmIn(cfg), all);
    assert a == pm.Nodes && b == txq.Nodes;
    PacketsKept(a);
    PacketsKept(b);
  }

  lemma {:induction false} SelectNoneIsAll(cfg: Config, q: seq<Packet>)
    ensures Select(cfg, q, true) == [] ==> Select(cfg, q, false) == q
  {
    if q != [] {
      SelectNoneIsAll(cfg, q[1..]);
    }
  }

  // ---------- single packets between two queues ----------

  /** htc_packet_dequeue from one queue, HTC_PACKET_ENQUEUE on another. */
  method PassHead(from: Queue, to: Queue) returns (p: Node)
    requires from.Valid() && to.Loose() && Separate(from, to) && from.Nodes != []
    modifies from, from.QueueHead`pPrev, from.QueueHead`pNext, Members(from)`pPrev, Members(from)`pNext
    modifies to, to.QueueHead`pPrev, to.QueueHead`pNext, Members(to)`pPrev, Members(to)`pNext
    ensures from.Valid() && to.Loose() && to.Skew == old(to.Skew)
    ensures p == old(from.Nodes[0]) && from.Nodes == old(from.Nodes[1..]) && to.Nodes == old(to.Nodes) + [p]
    ensures Members(from) == old(Members(from)) - {p} && Members(to) == old(Members(to)) + {p}
    ensures p in old(Members(from)) && p.item == old(Items(from.Nodes))[0]
    ensures Items(from.Nodes) == old(Items(from.Nodes))[1..]
    ensures Items(to.Nodes) == old(Items(to.Nodes)) + [p.item]
  {
    hide Items, NodesIn;
    var head := from.Dequeue();
    p := head;
    to.Enqueue(p);
    NodesInTail(old(from.Nodes));
    NodesInOne(p);
    NodesInConcat(old(to.Nodes), [p]);
  }

  /** HTC_PACKET_REMOVE in the name of one queue, whichever queue the packet is in. */
  method TakeOut(from: Queue, p: Node, ghost owner: Queue, ghost k: nat)
    requires from.Loose() && owner.Loose() && (owner == from || Separate(from, owner))
    requires k < |owner.Nodes| && owner.Nodes[k] == p
    modifies from, owner, owner.QueueHead`pPrev, owner.QueueHead`pNext, Members(owner)`pPrev, Members(owner)`pNext
    ensures from.Loose() && owner.Loose() && from.Depth == old(from.Depth) - 1
    ensures owner != from ==> from.Nodes == old(from.Nodes) && owner.Depth == old(owner.Depth)
    ensures owner.Nodes == old(owner.Nodes[..k] + owner.Nodes[k + 1..])
    ensures Members(owner) == old(Members(owner)) - {p} && p in old(Members(owner))
    ensures Items(owner.Nodes) == old(Items(owner.Nodes)[..k] + Items(owner.Nodes)[k + 1..])
  {
    hide Items, NodesIn;
    from.RemovePacket(p, owner, k);
    NodesInWithout(old(owner.Nodes), k);
  }

  /** HTC_PACKET_REMOVE in the name of one queue, HTC_PACKET_ENQUEUE_TO_HEAD on another.
    * The packet may be in a third queue that was detached from the first. */
  method PassBack(from: Queue, p: Node, ghost owner: Queue, ghost k: nat, to: Queue)
    requires from.Loose() && owner.Loose() && to.Valid()
    requires Separate(from, to) && Separate(owner, to) && (owner == from || Separate(from, owner))
    requires k < |owner.Nodes| && owner.Nodes[k] == p
    modifies from, owner, owner.QueueHead`pPrev, owner.QueueHead`pNext, Members(owner)`pPrev, Members(owner)`pNext
    modifies to, to.QueueHead`pPrev, to.QueueHead`pNext, Members(to)`pPrev, Members(to)`pNext
    ensures from.Loose() && owner.Loose() && to.Valid()
    ensures from.Depth == old(from.Depth) - 1 && (owner != from ==> owner.Depth == old(owner.Depth))
    ensures owner != from ==>
      from.Nodes == old(from.Nodes) && Members(from) == old(Members(from)) && Items(from.Nodes) == old(Items(from.Nodes))
    ensures Members(owner) == old(Members(owner)) - {p} && Members(to) == old(Members(to)) + {p}
    ensures p in old(Members(owner)) && old(Items(owner.Nodes))[k] == p.item
    ensures owner.Nodes == old(owner.Nodes[..k] + owner.Nodes[k + 1..]) && to.Nodes == [p] + old(to.Nodes)
    ensures Items(owner.Nodes) == old(Items(owner.Nodes)[..k] + Items(owner.Nodes)[k + 1..])
    ensures Items(to.Nodes) == [p.item] + old(Items(to.Nodes))
  {
    hide Items, NodesIn, IsList, Apart;
    SeparateMeans(from, to);
    SeparateMeans(owner, to);
    SeparateMeans(from, owner);
    HeadOutside(owner);
    TakeOut(from, p, owner, k);
    to.EnqueueToHead(p);
    NodesInOne(p);
    NodesInConcat([p], old(to.Nodes));
  }

  // ---------- the credit loop ----------

  /** The dequeue at the end of the credit loop, with what it writes into the packet. */
  method TakeHead(txq: Queue, pQueue: Queue, creditsUsed: int, needUpdate: bool, ghost all: set<Node>)
    requires txq.Valid() && pQueue.Valid() && Separate(txq, pQueue) && txq.Nodes != []
    requires Within(txq, all) && Within(pQueue, all)
    modifies txq, txq.QueueHead`pPrev, txq.QueueHead`pNext, all`pPrev, all`pNext, all`item
    modifies pQueue, pQueue.QueueHead`pPrev, pQueue.QueueHead`pNext
    ensures txq.Valid() && pQueue.Valid() && Separate(txq, pQueue) && Within(txq, all) && Within(pQueue, all)
    ensures txq.Nodes == old(txq.Nodes[1..]) && pQueue.Nodes == old(pQueue.Nodes + [txq.Nodes[0]])
    ensures forall n :: n in all ==> n.item.packet == old(n.item.packet)
    ensures PacketsOf(txq.Nodes) == old(PacketsOf(txq.Nodes))[1..]
    ensures Items(pQueue.Nodes) ==
      old(Items(pQueue.Nodes)) + [Charged(old(PacketsOf(txq.Nodes))[0], creditsUsed, needUpdate)]
  {
    hide Items;
    var pPacket := txq.Dequeue();
    if pPacket != null {
      pPacket.item := pPacket.item.(credits := creditsUsed, needUpdate := needUpdate);
      pQueue.Enqueue(pPacket);
    }
  }

  /** Midway through the credit loop: a pass over what is left, with the credits that are
    * left, adds to what is `done` what the whole pass, `goal`, was to take. */
  ghost predicate Toward(cfg: Config, credits: int, q: seq<Packet>, bus: Bus, done: seq<Charged>, goal: Pass)
    requires cfg.Valid()
  {
    var now := TakeFrom(cfg, credits, q, bus);
    now.credits == goal.credits && now.rest == goal.rest && done + now.taken == goal.taken
  }

  lemma TowardStart(cfg: Config, credits: int, q: seq<Packet>, bus: Bus, done: seq<Charged>)
    requires cfg.Valid()
    ensures var r := TakeFrom(cfg, credits, q, bus); Toward(cfg, credits, q, bus, done, r.(taken := done + r.taken))
  {
  }

  lemma TowardTurn(cfg: Config, credits: int, q: seq<Packet>, bus: Bus, done: seq<Charged>, goal: Pass)
    requires cfg.Valid() && Toward(cfg, credits, q, bus, done, goal)
    ensures StopsAt(cfg, credits, q, bus) ==> goal.credits == credits && goal.rest == q && goal.taken == done
    ensures !StopsAt(cfg, credits, q, bus) ==>
      var left := credits - Required(cfg, q[0]);
      Toward(cfg, left, q[1..], bus.Next(), done + [ChargeHead(cfg, q[0], left)], goal)
  {
    hide Required, CreditsFor;
    if !StopsAt(cfg, credits, q, bus) {
      var left := credits - Required(cfg, q[0]);
      var r, s := TakeFrom(cfg, credits, q, bus), TakeFrom(cfg, left, q[1..], bus.Next());
      assert done + r.taken == (done + [ChargeHead(cfg, q[0], left)]) + s.taken;
    }
  }

  // ---------- the search for a completed packet ----------

  /** An iteration over the queue has come to node `k`, or to the end. */
  ghost predicate StandsAt(q: Queue, pTemp: DlNode?<Charged>, k: nat)
    reads q
  {
    k <= |q.Nodes| && pTemp == (if k < |q.Nodes| then q.Nodes[k] else q.QueueHead)
  }

  lemma StandsAtFirst(q: Queue)
    requires q.Loose()
    ensures StandsAt(q, q.QueueHead.pNext, 0)
  {
    FirstOf(q);
  }

  /** The loop test. */
  lemma StandsAtEnd(q: Queue, pTemp: DlNode?<Charged>, k: nat)
    requires q.Loose() && StandsAt(q, pTemp, k)
    ensures pTemp == q.QueueHead <==> k == |q.Nodes|
  {
    if k < |q.Nodes| {
      NextOf(q, k);
    }
  }

  /** One turn of the iteration of htc_lookup_tx_packet (1752-1768). */
  method WalkTurn(q: Queue, netbuf: nat, pTemp: DlNode?<Charged>, ghost k: nat) returns (next: DlNode?<Charged>, pFound: DlNode?<Charged>)
    requires q.Loose() && k < |q.Nodes| && StandsAt(q, pTemp, k)
    modifies q, q.QueueHead`pPrev, q.QueueHead`pNext, Members(q)`pPrev, Members(q)`pNext
    ensures q.Loose()
    ensures if pTemp.item.packet.netbuf == netbuf then
        && pFound == pTemp && q.Depth == old(q.Depth) - 1 && q.Nodes == old(q.Nodes[..k] + q.Nodes[k + 1..])
        && Members(q) == old(Members(q)) - {pTemp} && pTemp in old(Members(q))
      else
        pFound == null && q.Depth == old(q.Depth) && q.Nodes == old(q.Nodes) && StandsAt(q, next, k + 1)
  {
    hide IsList, NodesIn;
    var pPacket := pTemp;
    NextOf(q, k);
    next, pFound := pTemp.pNext, null;
    if netbuf == pPacket.item.packet.netbuf {
      ghost var s := q.Nodes;
      q.RemovePacket(pPacket, q, k);
      NodesInWithout(s, k);
      pFound := pPacket;
    }
  }

  /** The iteration of htc_lookup_tx_packet over its own list (1752-1769). */
  method SearchAndRemove(q: Queue, netbuf: nat) returns (pFound: DlNode?<Charged>)
    requires q.Loose()
    modifies q, q.QueueHead`pPrev, q.QueueHead`pNext, Members(q)`pPrev, Members(q)`pNext
    ensures q.Loose() && Members(q) == old(Members(q)) - NodeSet(pFound)
    ensures var r := RemoveFirst(old(Items(q.Nodes)), netbuf);
      && Items(q.Nodes) == r.rest && q.Depth == old(q.Depth) - (if r.found.Hit? then 1 else 0)
      && (pFound == null <==> r.found.Missing?)
      && (pFound != null ==> pFound in old(Members(q)) && pFound !in Members(q) && r.found == Hit(pFound.item))
  {
    hide Items, IsList, FirstMatch, NodesIn;
    ghost var s, items := q.Nodes, Items(q.Nodes);
    ghost var k := 0;
    StandsAtFirst(q);
    var pTemp := q.QueueHead.pNext;
    StandsAtEnd(q, pTemp, 0);
    while pTemp != q.QueueHead
      invariant k <= |s| && q.Nodes == s && q.Loose() && q.Depth == old(q.Depth)
      invariant StandsAt(q, pTemp, k) && (pTemp == q.QueueHead <==> k == |s|)
      invariant forall i :: 0 <= i < k ==> items[i].packet.netbuf != netbuf
      decreases |s| - k
    {
      pTemp, pFound := WalkTurn(q, netbuf, pTemp, k);
      if pFound != null {
        FirstMatchIs(items, netbuf, k);
        return;
      }
      k := k + 1;
      StandsAtEnd(q, pTemp, k);
    }
    return null;
  }

  /** The start of htc_lookup_tx_packet (1731-1749): the head if it is the packet;
    * otherwise the head and then everything else moves over to `to`. */
  method HeadOrDetach(from: Queue, to: Queue, netbuf: nat) returns (pPacket: DlNode?<Charged>)
    requires from.Loose() && to.Valid() && Separate(from, to) && to.Nodes == []
    modifies from, from.QueueHead`pPrev, from.QueueHead`pNext, Members(from)`pPrev, Members(from)`pNext
    modifies to, to.QueueHead`pPrev, to.QueueHead`pNext
    ensures from.Loose() && to.Loose() && Members(from) !! Members(to)
    ensures Members(from) + Members(to) == old(Members(from)) - NodeSet(pPacket)
    ensures pPacket != null ==> pPacket in old(Members(from))
    ensures var q := old(Items(from.Nodes));
      if q == [] then
        pPacket == null && from.Nodes == [] && to.Nodes == [] && from.Depth == old(from.Depth) && to.Depth == 0
      else if q[0].packet.netbuf != netbuf then
        && pPacket == null && Items(from.Nodes) == [] && Items(to.Nodes) == q
        && from.Depth == 0 && to.Depth == old(from.Depth)
      else
        && pPacket != null && pPacket.item == q[0] && to.Nodes == [] && Items(from.Nodes) == q[1..]
        && from.Depth == old(from.Depth) - 1 && to.Depth == 0
  {
    hide Items, NodesIn, IsList;
    NodesInNone();
    HeadOutside(from);
    ghost var s := from.Nodes;
    pPacket := from.Dequeue();
    if pPacket == null {
      return;
    }
    NodesInTail(s);
    if netbuf == pPacket.item.packet.netbuf {
      return;
    }
    to.Enqueue(pPacket);
    assert [pPacket] + from.Nodes == s;
    to.TransferAllToTail(from);
    assert to.Nodes == s;
    pPacket := null;
  }

  /** The loop of htc_flush_endpoint_tx. */
  method DequeueAll(q: Queue) returns (completed: seq<Packet>)
    requires q.Valid()
    modifies q, q.QueueHead`pPrev, q.QueueHead`pNext, Members(q)`pPrev, Members(q)`pNext
    ensures q.Valid() && q.Nodes == [] && completed == old(PacketsOf(q.Nodes))
  {
    hide Items, NodesIn, IsList, PacketsOf;
    completed := [];
    NodesInNone();
    while q.Depth != 0
      invariant q.Valid() && Members(q) <= old(Members(q))
      invariant completed + PacketsOf(q.Nodes) == old(PacketsOf(q.Nodes))
      decreases |q.Nodes|
    {
      ghost var s := q.Nodes;
      var pPacket := q.Dequeue();
      if pPacket != null {
        NodesInTail(s);
        assert PacketsOf(s[1..]) == PacketsOf(s)[1..];
        completed := completed + [pPacket.item.packet];
      }
    }
  }

  lemma FirstMatchIs(q: seq<Charged>, netbuf: nat, k: nat)
    requires k < |q| && q[k].packet.netbuf == netbuf
    requires forall i :: 0 <= i < k ==> q[i].packet.netbuf != netbuf
    ensures FirstMatch(q, netbuf) == k
  {
    hide FirstMatch;
    var j := FirstMatch(q, netbuf);
    assert j <= k;
  }

  // ---------- admission ----------

  /** The loop that moves the packets that fit to the local queue (1023-1030). */
  method DequeueGood(pCallersSendQueue: Queue, sendQueue: Queue, goodPkts: int, ghost all: set<Node>)
    requires pCallersSendQueue.Valid() && sendQueue.Valid() && Separate(pCallersSendQueue, sendQueue)
    requires Within(pCallersSendQueue, all) && Within(sendQueue, all)
    requires goodPkts <= |pCallersSendQueue.Nodes| && sendQueue.Nodes == []
    modifies pCallersSendQueue, pCallersSendQueue.QueueHead`pPrev, pCallersSendQueue.QueueHead`pNext
    modifies sendQueue, sendQueue.QueueHead`pPrev, sendQueue.QueueHead`pNext, all`pPrev, all`pNext
    ensures pCallersSendQueue.Valid() && sendQueue.Valid() && Separate(pCallersSendQueue, sendQueue)
    ensures Within(pCallersSendQueue, all) && Within(sendQueue, all)
    ensures var n := if goodPkts < 0 then 0 else goodPkts; var q := old(Items(pCallersSendQueue.Nodes));
      Items(sendQueue.Nodes) == q[..n] && Items(pCallersSendQueue.Nodes) == q[n..]
  {
    hide Items, NodesIn, IsList, Separate, Apart, Within;
    ghost var q := Items(pCallersSendQueue.Nodes);
    var i := 0;
    while i < goodPkts
      invariant 0 <= i && (i <= goodPkts || goodPkts < 0 == i)
      invariant i <= |q|
      invariant pCallersSendQueue.Valid() && sendQueue.Valid() && Separate(pCallersSendQueue, sendQueue)
      invariant Within(pCallersSendQueue, all) && Within(sendQueue, all)
      invariant Items(sendQueue.Nodes) == q[..i] && Items(pCallersSendQueue.Nodes) == q[i..]
    {
      WithinMembers(pCallersSendQueue, all);
      WithinMembers(sendQueue, all);
      SeparateMeans(pCallersSendQueue, sendQueue);
      HeadOutside(sendQueue);
      var pPacket := PassHead(pCallersSendQueue, sendQueue);
      WithinMembers(pCallersSendQueue, all);
      WithinMembers(sendQueue, all);
      SeparateMeans(pCallersSendQueue, sendQueue);
      i := i + 1;
    }
  }

  /** HTC_PACKET_QUEUE_TRANSFER_TO_TAIL to an empty queue. */
  method MoveAll(to: Queue, from: Queue, ghost all: set<Node>)
    requires from.Valid() && to.Valid() && Separate(from, to) && to.Nodes == []
    requires Within(from, all) && Within(to, all)
    modifies from, from.QueueHead`pPrev, from.QueueHead`pNext, all`pPrev, all`pNext
    modifies to, to.QueueHead`pPrev, to.QueueHead`pNext
    ensures from.Valid() && to.Valid() && Separate(from, to) && Within(from, all) && Within(to, all)
    ensures to.Nodes == old(from.Nodes) && from.Nodes == []
    ensures PacketsOf(to.Nodes) == old(PacketsOf(from.Nodes)) && PacketsOf(from.Nodes) == []
  {
    hide Items, IsList, PacketsOf;
    assert to.Nodes + from.Nodes == from.Nodes;
    to.TransferAllToTail(from);
  }

  /** What happens to a caller's queue that does not fit (1014-1067): the good packets
    * go on, the others are put to the full handler. */
  method OverflowSplit(handler: FullHandler, goodPkts: int, pCallersSendQueue: Queue, sendQueue: Queue, ghost all: set<Node>)
    requires pCallersSendQueue.Valid() && sendQueue.Valid() && Separate(pCallersSendQueue, sendQueue)
    requires Within(pCallersSendQueue, all) && Within(sendQueue, all)
    requires goodPkts <= |pCallersSendQueue.Nodes| && sendQueue.Nodes == []
    modifies pCallersSendQueue, pCallersSendQueue.QueueHead`pPrev, pCallersSendQueue.QueueHead`pNext
    modifies sendQueue, sendQueue.QueueHead`pPrev, sendQueue.QueueHead`pNext, all`pPrev, all`pNext
    ensures pCallersSendQueue.Valid() && sendQueue.Valid() && Separate(pCallersSendQueue, sendQueue)
    ensures Within(pCallersSendQueue, all) && Within(sendQueue, all)
    ensures var n := if goodPkts < 0 then 0 else goodPkts; var q := old(PacketsOf(pCallersSendQueue.Nodes));
      && PacketsOf(sendQueue.Nodes) == q[..n] + Sift(handler, q[n..], false)
      && PacketsOf(pCallersSendQueue.Nodes) == Sift(handler, q[n..], true)
  {
    hide Items, IsList, Separate, Apart, Within, Sift, PacketsOf;
    ghost var items := Items(pCallersSendQueue.Nodes);
    PacketsAreOf(pCallersSendQueue.Nodes);
    DequeueGood(pCallersSendQueue, sendQueue, goodPkts, all);
    PacketsAreOf(pCallersSendQueue.Nodes);
    PacketsAreOf(sendQueue.Nodes);
    ghost var n := if goodPkts < 0 then 0 else goodPkts;
    assert Packets(items[..n]) == Packets(items)[..n] && Packets(items[n..]) == Packets(items)[n..];
    IndicateFull(handler, pCallersSendQueue, sendQueue, all);
  }

  lemma PacketsAreOf(s: seq<Node>)
    ensures PacketsOf(s) == Packets(Items(s))
  {
  }

  /** The iteration that puts each packet to the full handler (1033-1067). */
  method IndicateFull(handler: FullHandler, pCallersSendQueue: Queue, sendQueue: Queue, ghost all: set<Node>)
    requires pCallersSendQueue.Valid() && sendQueue.Valid() && Separate(pCallersSendQueue, sendQueue)
    requires Within(pCallersSendQueue, all) && Within(sendQueue, all)
    modifies pCallersSendQueue, pCallersSendQueue.QueueHead`pPrev, pCallersSendQueue.QueueHead`pNext
    modifies sendQueue, sendQueue.QueueHead`pPrev, sendQueue.QueueHead`pNext, all`pPrev, all`pNext
    ensures pCallersSendQueue.Valid() && sendQueue.Valid() && Separate(pCallersSendQueue, sendQueue)
    ensures Within(pCallersSendQueue, all) && Within(sendQueue, all)
    ensures var q := old(PacketsOf(pCallersSendQueue.Nodes));
      && PacketsOf(sendQueue.Nodes) == old(PacketsOf(sendQueue.Nodes)) + Sift(handler, q, false)
      && PacketsOf(pCallersSendQueue.Nodes) == Sift(handler, q, true)
  {
    hide Items, IsList, Separate, Apart, Within, Sift, Pick, PacketsOf;
    ghost var s, t, ps := pCallersSendQueue.Nodes, sendQueue.Nodes, PacketsOf(pCallersSendQueue.Nodes);
    ghost var on, back := Pick(KeptBy(handler), s, ps, true), Pick(KeptBy(handler), s, ps, false);
    PickSifts(handler, s, false);
    PickSifts(handler, s, true);
    MoveMatching(pCallersSendQueue, sendQueue, KeptBy(handler), all);
    PacketsKept(t);
    PacketsKept(on);
    PacketsKept(back);
    PacketsOfConcat(t, on);
  }

  /** The head of htc_try_send (972-1084).  The depth of TxQueue is read without the
    * lock, so the two values read are parameters. */
  method Admit(cfg: Config, firstDepth: nat, secondDepth: nat, handler: FullHandler,
               pCallersSendQueue: Queue, sendQueue: Queue, ghost all: set<Node>)
    returns (ok: bool)
    requires pCallersSendQueue.Valid() && sendQueue.Valid() && Separate(pCallersSendQueue, sendQueue)
    requires Within(pCallersSendQueue, all) && Within(sendQueue, all) && sendQueue.Nodes == []
    modifies pCallersSendQueue, pCallersSendQueue.QueueHead`pPrev, pCallersSendQueue.QueueHead`pNext
    modifies sendQueue, sendQueue.QueueHead`pPrev, sendQueue.QueueHead`pNext, all`pPrev, all`pNext
    ensures pCallersSendQueue.Valid() && sendQueue.Valid() && Separate(pCallersSendQueue, sendQueue)
    ensures Within(pCallersSendQueue, all) && Within(sendQueue, all)
    ensures var r := AdmitSplit(cfg, firstDepth, secondDepth, handler, old(PacketsOf(pCallersSendQueue.Nodes)));
      && PacketsOf(sendQueue.Nodes) == r.send && PacketsOf(pCallersSendQueue.Nodes) == r.left
      && (ok <==> r.send != [])
  {
    hide Items, NodesIn, IsList, Separate, Apart, Within, PacketsOf;
    if pCallersSendQueue.IsEmpty() {
      return false;
    }
    var overflow: int;
    if firstDepth >= cfg.maxTxQueueDepth {
      overflow := pCallersSendQueue.Depth;
    } else {
      overflow := secondDepth;
      overflow := overflow + pCallersSendQueue.Depth;
      overflow := overflow - cfg.maxTxQueueDepth;
    }
    if overflow <= 0 || handler.NoHandler? {
      MoveAll(sendQueue, pCallersSendQueue, all);
    } else {
      var goodPkts := pCallersSendQueue.Depth - overflow;
      OverflowSplit(handler, goodPkts, pCallersSendQueue, sendQueue, all);
      if sendQueue.IsEmpty() {
        return false;
      }
    }
    return true;
  }
}
