/** The fields of an HTC endpoint that the transmit path changes, on the heap, and
  * the regions of core/htc/htc_send.c that change them, one method for each.
  *
  * Every method is proved to take a heap that shows a state of TxEngine to a heap
  * that shows the state after the corresponding action.  TxHosts puts them together:
  * called by any threads in any order, they keep the heap in a reachable state. */
module TxEndpoints {
  import opened DlList
  import opened PacketQueues
  import opened TxModel
  import opened TxEngine
  import opened TxQueueOps

  /** Where a thread is, if there is such a thread. */
  function PcOf(e: Engine, t: nat): Pc {
    if t < |e.threads| then e.threads[t].pc else Idle
  }

  class TxEndpoint {
    const cfg: Config
    var TxCredits: int
    var TxProcessCount: int
    var ul_outstanding_cnt: int
    const TxQueue: Queue
    const TxLookupQueue: Queue

    constructor (cfg: Config)
      ensures this.cfg == cfg && TxCredits == cfg.initialCredits && TxProcessCount == 0 && ul_outstanding_cnt == 0
      ensures TxQueue.Valid() && TxQueue.Nodes == [] && TxLookupQueue.Valid() && TxLookupQueue.Nodes == []
      ensures Separate(TxQueue, TxLookupQueue)
      ensures forall threads: nat :: Shows(Init(cfg, threads))
      ensures fresh({TxQueue, TxLookupQueue}) && fresh({TxQueue.QueueHead, TxLookupQueue.QueueHead})
      ensures TxQueue != TxLookupQueue && TxQueue.QueueHead != TxLookupQueue.QueueHead
    {
      this.cfg := cfg;
      TxCredits := cfg.initialCredits;
      TxProcessCount, ul_outstanding_cnt := 0, 0;
      TxQueue := new PacketQueue();
      TxLookupQueue := new PacketQueue();
    }

    /** The two queues of the endpoint are well formed and share nothing; Depth of the
      * lookup queue may be off. */
    ghost predicate Wired()
      reads TxQueue, TxQueue.QueueHead, TxQueue.Nodes
      reads TxLookupQueue, TxLookupQueue.QueueHead, TxLookupQueue.Nodes
    {
      TxQueue.Valid() && TxLookupQueue.Loose() && Separate(TxQueue, TxLookupQueue)
    }

    /** Nothing of TxLookupQueue is in `all`, in TxQueue or in a thread's queue. */
    ghost predicate LookupAside(queue: Queue, all: set<Node>)
      reads TxLookupQueue
    {
      && TxLookupQueue.QueueHead !in all && Members(TxLookupQueue) !! all
      && TxQueue != TxLookupQueue && queue != TxLookupQueue
      && TxQueue.QueueHead != TxLookupQueue.QueueHead && queue.QueueHead != TxLookupQueue.QueueHead
      && TxQueue.QueueHead !in Members(TxLookupQueue) && queue.QueueHead !in Members(TxLookupQueue)
    }

    /** A thread's own queue is well formed; `all` covers its nodes and those of
      * TxQueue, and none of TxLookupQueue. */
    ghost predicate Beside(queue: Queue, all: set<Node>)
      reads TxQueue, TxLookupQueue
      reads queue, queue.QueueHead, queue.Nodes
    {
      && queue.Valid() && Separate(TxQueue, queue) && Within(TxQueue, all) && Within(queue, all)
      && LookupAside(queue, all)
    }

    lemma LookupStaysAside(queue: Queue, all: set<Node>)
      requires Within(TxQueue, all) && Within(queue, all) && LookupAside(queue, all)
      ensures Separate(TxQueue, TxLookupQueue) && Separate(queue, TxLookupQueue) && Separate(TxLookupQueue, queue)
      ensures forall i :: 0 <= i < |TxLookupQueue.Nodes| ==> TxLookupQueue.Nodes[i] !in all
    {
    }

    /** What a thread's queue being beside the endpoint's queues says of their nodes. */
    lemma BesideMeans(queue: Queue, all: set<Node>)
      ensures Beside(queue, all) <==>
        && queue.Valid() && queue != TxQueue && queue.QueueHead != TxQueue.QueueHead
        && LookupAside(queue, all) && TxQueue.QueueHead !in all && queue.QueueHead !in all
        && Members(TxQueue) + Members(queue) <= all && Members(TxQueue) !! Members(queue)
    {
      WithinMembers(TxQueue, all);
      WithinMembers(queue, all);
      if Members(TxQueue) + Members(queue) <= all && Members(TxQueue) !! Members(queue) {
      }
    }

    /** The heap shows the state `e` of the engine, both of the lookup queue's packets and
      * of its counter. */
    ghost predicate Shows(e: Engine)
      reads this, TxQueue, TxQueue.QueueHead, TxQueue.Nodes
      reads TxLookupQueue, TxLookupQueue.QueueHead, TxLookupQueue.Nodes
    {
      && Wired()
      && TxCredits == e.credits && TxProcessCount == e.processCount && ul_outstanding_cnt == e.outstanding
      && PacketsOf(TxQueue.Nodes) == e.txQueue && Items(TxLookupQueue.Nodes) == e.lookup
      && TxLookupQueue.Depth == e.lookupDepth
    }

    /** The queue of the completion handler shows the search of `e`; without one it is
      * empty. */
    ghost predicate ShowsDetached(lookupQueue: Queue, e: Engine)
      reads TxQueue, TxLookupQueue, lookupQueue, lookupQueue.QueueHead, lookupQueue.Nodes
    {
      && lookupQueue.Loose() && Separate(TxQueue, lookupQueue) && Separate(TxLookupQueue, lookupQueue)
      && Items(lookupQueue.Nodes) == (if e.search.Searching? then e.search.list else [])
      && lookupQueue.Depth == (if e.search.Searching? then e.search.depth else 0)
    }

    /** The credit arithmetic for one packet (782-849): the credits it needs are
      * taken, unless there are too few of them. */
    method Charge(p: Packet) returns (ok: bool, creditsRequired: nat, needUpdate: bool)
      requires cfg.Valid()
      modifies this`TxCredits
      ensures ok <==> cfg.id == ENDPOINT_0 || old(TxCredits) >= Required(cfg, p)
      ensures TxCredits == if ok then old(TxCredits) - Required(cfg, p) else old(TxCredits)
      ensures ok ==> Charged(p, creditsRequired, needUpdate) == ChargeHead(cfg, p, TxCredits)
      ensures if cfg.id == ENDPOINT_0 then creditsRequired == 0 else
        (creditsRequired - 1) * cfg.creditSize < p.length + HTC_HDR_LENGTH <= creditsRequired * cfg.creditSize
      ensures ok ==> TxCredits == old(TxCredits) - creditsRequired
    {
      RequiredCovers(cfg, p);
      ok, needUpdate := true, false;
      var transferLength := p.length + HTC_HDR_LENGTH;
      if transferLength <= cfg.creditSize {
        creditsRequired := 1;
      } else {
        creditsRequired := transferLength / cfg.creditSize;
        var remainder := transferLength % cfg.creditSize;
        if remainder != 0 {
          creditsRequired := creditsRequired + 1;
        }
      }
      if cfg.id == ENDPOINT_0 {
        creditsRequired := 0;
      } else {
        if TxCredits < creditsRequired {
          ok := false;
          return;
        }
        TxCredits := TxCredits - creditsRequired;
        if TxCredits <= cfg.creditsPerMaxMsg {
          needUpdate := true;
        }
      }
    }

    /** The loop of get_htc_send_packets_credit_based. */
    method TakeWhileCovered(tx_queue: Queue, do_pm_get: bool, runtimeBus: Bus, pQueue: Queue, ghost all: set<Node>)
      requires cfg.Valid()
      requires tx_queue.Valid() && pQueue.Valid() && Separate(tx_queue, pQueue)
      requires Within(tx_queue, all) && Within(pQueue, all)
      modifies this`TxCredits
      modifies tx_queue, tx_queue.QueueHead`pPrev, tx_queue.QueueHead`pNext, all`pPrev, all`pNext, all`item
      modifies pQueue, pQueue.QueueHead`pPrev, pQueue.QueueHead`pNext
      ensures tx_queue.Valid() && pQueue.Valid() && Separate(tx_queue, pQueue)
      ensures Within(tx_queue, all) && Within(pQueue, all)
      ensures forall n :: n in all ==> n.item.packet == old(n.item.packet)
      ensures var r := TakeFrom(cfg, old(TxCredits), old(PacketsOf(tx_queue.Nodes)), if do_pm_get then runtimeBus else Awake);
        && TxCredits == r.credits
        && PacketsOf(tx_queue.Nodes) == r.rest
        && Items(pQueue.Nodes) == old(Items(pQueue.Nodes)) + r.taken
    {
      hide Items, PacketsOf, IsList, TakeFrom, Toward, Within, Apart, Separate, Required, CreditsFor, ChargeHead;
      var bus := runtimeBus;
      ghost var gate := if do_pm_get then bus else Awake;
      ghost var r := TakeFrom(cfg, TxCredits, PacketsOf(tx_queue.Nodes), gate);
      ghost var goal := r.(taken := Items(pQueue.Nodes) + r.taken);
      TowardStart(cfg, TxCredits, PacketsOf(tx_queue.Nodes), gate, Items(pQueue.Nodes));
      while true
        invariant tx_queue.Valid() && pQueue.Valid() && Separate(tx_queue, pQueue)
        invariant Within(tx_queue, all) && Within(pQueue, all)
        invariant forall n :: n in all ==> n.item.packet == old(n.item.packet)
        invariant gate == if do_pm_get then bus else Awake
        invariant Toward(cfg, TxCredits, PacketsOf(tx_queue.Nodes), gate, Items(pQueue.Nodes), goal)
        decreases |tx_queue.Nodes|
      {
        TowardTurn(cfg, TxCredits, PacketsOf(tx_queue.Nodes), gate, Items(pQueue.Nodes), goal);
        if do_pm_get && bus == SuspendsAfter(0) {
          break;
        }
        var pPacket := tx_queue.PeekHead();
        if pPacket == null {
          break;
        }
        var ok, creditsRequired, needUpdate := Charge(pPacket.item.packet);
        if !ok {
          break;
        }
        TakeHead(tx_queue, pQueue, creditsRequired, needUpdate, all);
        bus, gate := bus.Next(), gate.Next();
      }
    }

    /** The credit loop over power management packets, and queue_htc_pm_packets. */
    method TakePmPackets(pm_queue: Queue, pQueue: Queue, ghost all: set<Node>)
      requires cfg.Valid()
      requires TxQueue.Valid() && pm_queue.Valid() && pQueue.Valid()
      requires Separate(TxQueue, pm_queue) && Separate(TxQueue, pQueue) && Separate(pm_queue, pQueue)
      requires Within(TxQueue, all) && Within(pm_queue, all) && Within(pQueue, all)
      modifies this`TxCredits, all`pPrev, all`pNext, all`item
      modifies TxQueue, TxQueue.QueueHead`pPrev, TxQueue.QueueHead`pNext
      modifies pm_queue, pm_queue.QueueHead`pPrev, pm_queue.QueueHead`pNext
      modifies pQueue, pQueue.QueueHead`pPrev, pQueue.QueueHead`pNext
      ensures TxQueue.Valid() && pQueue.Valid() && Separate(TxQueue, pQueue)
      ensures Within(TxQueue, all) && Within(pQueue, all)
      ensures forall n :: n in all ==> n.item.packet == old(n.item.packet)
      ensures var r := TakeFrom(cfg, old(TxCredits), old(PacketsOf(pm_queue.Nodes)), Awake);
        && TxCredits == r.credits
        && PacketsOf(TxQueue.Nodes) == r.rest + old(PacketsOf(TxQueue.Nodes))
        && Items(pQueue.Nodes) == old(Items(pQueue.Nodes)) + r.taken
    {
      hide Items, PacketsOf, IsList, TakeFrom, Within, Apart, Separate;
      ghost var u, v := Members(TxQueue), Members(pm_queue) + Members(pQueue);
      SeparateMeans(TxQueue, pm_queue);
      SeparateMeans(TxQueue, pQueue);
      SeparateMeans(pm_queue, pQueue);
      WithinMembers(TxQueue, all);
      WithinMembers(pm_queue, all);
      WithinMembers(pQueue, all);
      WithinMembers(TxQueue, u);
      WithinMembers(pm_queue, v);
      WithinMembers(pQueue, v);
      TakeWhileCovered(pm_queue, false, Awake, pQueue, v);
      WithinMembers(TxQueue, u);
      Parted(TxQueue, u, pm_queue, v);
      Parted(TxQueue, u, pQueue, v);
      WithinMore(pQueue, v, all);
      WithinMore(pm_queue, v, all);
      SeparateMeans(TxQueue, pm_queue);
      SeparateMeans(pm_queue, pQueue);
      SeparateMeans(TxQueue, pQueue);
      PacketsOfConcat(pm_queue.Nodes, TxQueue.Nodes);
      ghost var w, x := Members(pm_queue), Members(pQueue);
      WithinMembers(pQueue, x);
      WithinMembers(pm_queue, all);
      if !pm_queue.IsEmpty() {
        TxQueue.TransferAllToHead(pm_queue);
      }
      WithinMembers(TxQueue, u + w);
      Parted(TxQueue, u + w, pQueue, x);
      WithinMore(TxQueue, u + w, all);
    }

    /** get_htc_send_packets_credit_based */
    method GetHtcSendPacketsCreditBased(runtimeBus: Bus, pQueue: Queue, ghost all: set<Node>)
      requires cfg.Valid()
      requires TxQueue.Valid() && pQueue.Valid() && Separate(TxQueue, pQueue)
      requires Within(TxQueue, all) && Within(pQueue, all)
      modifies this`TxCredits, all`pPrev, all`pNext, all`item
      modifies TxQueue, TxQueue.QueueHead`pPrev, TxQueue.QueueHead`pNext
      modifies pQueue, pQueue.QueueHead`pPrev, pQueue.QueueHead`pNext
      ensures TxQueue.Valid() && pQueue.Valid() && Separate(TxQueue, pQueue)
      ensures Within(TxQueue, all) && Within(pQueue, all)
      ensures forall n :: n in all ==> n.item.packet == old(n.item.packet)
      ensures var r := GetPackets(cfg, old(TxCredits), old(PacketsOf(TxQueue.Nodes)), runtimeBus);
        && TxCredits == r.credits
        && PacketsOf(TxQueue.Nodes) == r.rest
        && Items(pQueue.Nodes) == old(Items(pQueue.Nodes)) + r.taken
      ensures PassEnded(cfg, old(PacketsOf(TxQueue.Nodes)), runtimeBus, |pQueue.Nodes| - old(|pQueue.Nodes|), TxCredits, PacketsOf(TxQueue.Nodes))
    {
      hide PassEnded, Items, PacketsOf, IsList, TakeFrom, Within, Apart, Separate, Select;
      GetPacketsHasEnded(cfg, TxCredits, PacketsOf(TxQueue.Nodes), runtimeBus);
      ghost var s, t := Members(TxQueue), Members(pQueue);
      SeparateMeans(TxQueue, pQueue);
      WithinMembers(TxQueue, all);
      WithinMembers(pQueue, all);
      WithinMembers(TxQueue, s);
      WithinMembers(pQueue, t);
      var pm_queue := new PacketQueue();
      WithinMembers(pm_queue, s);
      Parted(TxQueue, s, pm_queue, {});
      ExtractPmPackets(cfg, TxQueue, pm_queue, s);
      Parted(TxQueue, s, pQueue, t);
      Parted(pm_queue, s, pQueue, t);
      WithinMore(TxQueue, s, all);
      WithinMore(pm_queue, s, all);
      if pm_queue.IsEmpty() {
        TakeWhileCovered(TxQueue, true, runtimeBus, pQueue, all);
      } else {
        TakePmPackets(pm_queue, pQueue, all);
      }
    }

    // ---------- the lock regions ----------

    /** What a turn of the drain loop does to each field. */
    lemma DrainFields(cfg: Config, e: Engine, t: nat, bus: Bus)
      requires cfg.Valid() && t < |e.threads|
      ensures var f, r := Drain(cfg, e, t, bus), GetPackets(cfg, e.credits, e.txQueue, bus);
        && |f.threads| == |e.threads| && f.outstanding == e.outstanding
        && f.lookup == e.lookup && f.lookupDepth == e.lookupDepth
        && if e.txQueue == [] then
             f.credits == e.credits && f.txQueue == e.txQueue && f.processCount == 0 && f.threads[t].pc == Leaving
           else
             && f.credits == r.credits && f.txQueue == r.rest
             && f.processCount == (if r.taken == [] then 0 else e.processCount)
             && f.threads[t].pc == (if r.taken == [] then Leaving else Issuing(r.taken))
    {
    }

    /** A turn of the drain loop of htc_try_send, up to the next release of the lock
      * (1118-1165, 1194-1197).  The result says whether there is something to issue. */
    method DrainTurn(runtimeBus: Bus, sendQueue: Queue, ghost all: set<Node>, ghost e: Engine, ghost t: nat)
      returns (issuing: bool)
      requires cfg.Valid() && Shows(e) && Beside(sendQueue, all) && sendQueue.Nodes == []
      requires t < |e.threads|
      modifies this, all`pPrev, all`pNext, all`item
      modifies TxQueue, TxQueue.QueueHead`pPrev, TxQueue.QueueHead`pNext
      modifies sendQueue, sendQueue.QueueHead`pPrev, sendQueue.QueueHead`pNext
      ensures Shows(Drain(cfg, e, t, runtimeBus)) && Beside(sendQueue, all)
      ensures var pc := PcOf(Drain(cfg, e, t, runtimeBus), t);
        (issuing <==> pc.Issuing?) && Items(sendQueue.Nodes) == HandOf(pc)
    {
      hide Items, PacketsOf, IsList, GetPackets, Within, Apart, Separate, Members, Drain;
      DrainFields(cfg, e, t, runtimeBus);
      if TxQueue.Depth == 0 {
        TxProcessCount := 0;
        return false;
      }
      LookupStaysAside(sendQueue, all);
      WithinMembers(TxLookupQueue, Members(TxLookupQueue));
      GetHtcSendPacketsCreditBased(runtimeBus, sendQueue, all);
      LookupStaysAside(sendQueue, all);
      if sendQueue.Depth == 0 {
        TxProcessCount := 0;
        return false;
      }
      return true;
    }

    /** The critical section at the top of htc_try_send (1094-1112), going over into
      * the first turn of the drain loop unless another thread is draining. */
    method EnterTrySend(runtimeBus: Bus, sendQueue: Queue, ghost all: set<Node>, ghost e: Engine, ghost t: nat)
      returns (issuing: bool)
      requires cfg.Valid() && Shows(e) && Beside(sendQueue, all)
      requires t < |e.threads| && e.threads[t].pc.Entering? && PacketsOf(sendQueue.Nodes) == e.threads[t].pc.batch
      modifies this, all`pPrev, all`pNext, all`item
      modifies TxQueue, TxQueue.QueueHead`pPrev, TxQueue.QueueHead`pNext
      modifies sendQueue, sendQueue.QueueHead`pPrev, sendQueue.QueueHead`pNext
      ensures Shows(DoEnter(cfg, e, t, runtimeBus)) && Beside(sendQueue, all)
      ensures var pc := PcOf(DoEnter(cfg, e, t, runtimeBus), t);
        (issuing <==> pc.Issuing?) && Items(sendQueue.Nodes) == HandOf(pc)
    {
      hide Items, PacketsOf, IsList, GetPackets, Drain, Within, Apart, Separate, Members;
      AppendBatch(sendQueue, all);
      assert Shows(Append(e, t));
      TxProcessCount := TxProcessCount + 1;
      if TxProcessCount > 1 {
        TxProcessCount := TxProcessCount - 1;
        return false;
      }
      issuing := DrainTurn(runtimeBus, sendQueue, all, Join(e, t), t);
    }

    /** The transfer to the tail of TxQueue (1096-1102). */
    method AppendBatch(sendQueue: Queue, ghost all: set<Node>)
      requires Wired() && Beside(sendQueue, all)
      modifies all`pPrev, all`pNext
      modifies TxQueue, TxQueue.QueueHead`pPrev, TxQueue.QueueHead`pNext
      modifies sendQueue, sendQueue.QueueHead`pPrev, sendQueue.QueueHead`pNext
      ensures Wired() && Beside(sendQueue, all) && sendQueue.Nodes == []
      ensures PacketsOf(TxQueue.Nodes) == old(PacketsOf(TxQueue.Nodes) + PacketsOf(sendQueue.Nodes))
      ensures unchanged(TxLookupQueue) && Items(TxLookupQueue.Nodes) == old(Items(TxLookupQueue.Nodes))
    {
      hide Items, PacketsOf, IsList;
      LookupStaysAside(sendQueue, all);
      PacketsOfConcat(TxQueue.Nodes, sendQueue.Nodes);
      if !sendQueue.IsEmpty() {
        TxQueue.TransferAllToTail(sendQueue);
      }
      LookupStaysAside(sendQueue, all);
    }

    /** htc_issue_packets takes the next packet and stores it in the lookup queue
      * (569-623); without one it is done. */
    method IssueNext(sendQueue: Queue, ghost all: set<Node>, ghost e: Engine, ghost t: nat) returns (pPacket: DlNode?<Charged>)
      requires Shows(e) && Beside(sendQueue, all)
      requires t < |e.threads| && e.threads[t].pc.Issuing? && Items(sendQueue.Nodes) == e.threads[t].pc.queue
      modifies this`ul_outstanding_cnt, Members(sendQueue)`pPrev, Members(sendQueue)`pNext
      modifies TxLookupQueue, TxLookupQueue.QueueHead`pPrev, TxLookupQueue.QueueHead`pNext
      modifies Members(TxLookupQueue)`pPrev, Members(TxLookupQueue)`pNext
      modifies sendQueue, sendQueue.QueueHead`pPrev, sendQueue.QueueHead`pNext
      ensures pPacket == null <==> e.threads[t].pc.queue == []
      ensures pPacket == null ==> Shows(e) && Beside(sendQueue, all) && sendQueue.Nodes == []
      ensures pPacket != null ==>
        && var f := DoIssue(e, t);
        && Shows(f) && Beside(sendQueue, all - {pPacket})
        && pPacket.item == f.threads[t].pc.current && Items(sendQueue.Nodes) == f.threads[t].pc.queue
        && TxLookupQueue.Nodes == old(TxLookupQueue.Nodes) + [pPacket]
        && pPacket in old(Members(sendQueue)) && Members(sendQueue) == old(Members(sendQueue)) - {pPacket}
        && Members(TxLookupQueue) == old(Members(TxLookupQueue)) + {pPacket}
      ensures Separate(TxLookupQueue, sendQueue)
    {
      hide Items, IsList, Within, Separate, Apart, NodesIn, PacketsOf;
      LookupStaysAside(sendQueue, all);
      if sendQueue.IsEmpty() {
        return null;
      }
      BesideMeans(sendQueue, all);
      WithinMembers(TxQueue, Members(TxQueue));
      pPacket := PassHead(sendQueue, TxLookupQueue);
      ul_outstanding_cnt := ul_outstanding_cnt + 1;
      BesideMeans(sendQueue, all - {pPacket});
      LookupStaysAside(sendQueue, all - {pPacket});
    }

    /** What a rejection does to each field. */
    lemma RejectFields(e: Engine, t: nat)
      requires t < |e.threads| && e.threads[t].pc.Sending?
      ensures var f, pc := DoReject(e, t), e.threads[t].pc;
        var netbuf := pc.current.packet.netbuf;
        && f.credits == e.credits + pc.current.credits && f.outstanding == e.outstanding - 1
        && f.lookupDepth == e.lookupDepth - 1 && f.processCount == e.processCount && f.txQueue == e.txQueue
        && |f.threads| == |e.threads| && f.threads[t].pc == Returning([pc.current] + pc.queue)
        && if RemoveFirst(e.lookup, netbuf).found.Hit? || e.search.NoSearch? then
             f.lookup == RemoveFirst(e.lookup, netbuf).rest && f.search == e.search
           else
             f.lookup == e.lookup && f.search == e.search.(list := RemoveFirst(e.search.list, netbuf).rest)
    {
    }

    lemma ShownNow(lookupQueue: Queue, e: Engine)
      requires Shows(e) && ShowsDetached(lookupQueue, e)
      ensures Wired() && lookupQueue.Loose() && Separate(TxQueue, lookupQueue) && Separate(TxLookupQueue, lookupQueue)
      ensures TxCredits == e.credits && TxProcessCount == e.processCount && ul_outstanding_cnt == e.outstanding
      ensures PacketsOf(TxQueue.Nodes) == e.txQueue && Items(TxLookupQueue.Nodes) == e.lookup && TxLookupQueue.Depth == e.lookupDepth
      ensures Items(lookupQueue.Nodes) == (if e.search.Searching? then e.search.list else [])
      ensures lookupQueue.Depth == (if e.search.Searching? then e.search.depth else 0)
    {
    }

    lemma RejectIsShown(inLookup: bool, k: nat, lookupQueue: Queue, e: Engine, t: nat)
      requires t < |e.threads| && e.threads[t].pc.Sending?
      requires Wired() && lookupQueue.Loose() && Separate(TxQueue, lookupQueue) && Separate(TxLookupQueue, lookupQueue)
      requires TxCredits == e.credits + e.threads[t].pc.current.credits && TxProcessCount == e.processCount
      requires ul_outstanding_cnt == e.outstanding - 1 && TxLookupQueue.Depth == e.lookupDepth - 1
      requires PacketsOf(TxQueue.Nodes) == e.txQueue
      requires var netbuf := e.threads[t].pc.current.packet.netbuf;
        if inLookup then
          && k < |e.lookup| && FirstMatch(e.lookup, netbuf) == k
          && Items(TxLookupQueue.Nodes) == e.lookup[..k] + e.lookup[k + 1..]
          && Items(lookupQueue.Nodes) == (if e.search.Searching? then e.search.list else [])
        else
          && e.search.Searching? && k < |e.search.list| && FirstMatch(e.search.list, netbuf) == k
          && RemoveFirst(e.lookup, netbuf).found.Missing?
          && Items(TxLookupQueue.Nodes) == e.lookup
          && Items(lookupQueue.Nodes) == e.search.list[..k] + e.search.list[k + 1..]
      requires lookupQueue.Depth == (if e.search.Searching? then e.search.depth else 0)
      ensures Shows(DoReject(e, t)) && ShowsDetached(lookupQueue, DoReject(e, t))
      ensures |DoReject(e, t).threads| == |e.threads|
      ensures DoReject(e, t).threads[t].pc == Returning([e.threads[t].pc.current] + e.threads[t].pc.queue)
    {
      hide Items, IsList, FirstMatch, RemoveFirst, DoReject, Separate, PacketsOf;
      RejectFields(e, t);
      RemovedAt(e.lookup, e.threads[t].pc.current.packet.netbuf);
      RemovedAt(if e.search.Searching? then e.search.list else [], e.threads[t].pc.current.packet.netbuf);
    }

    lemma RemovedAt(q: seq<Charged>, netbuf: nat)
      ensures var k := FirstMatch(q, netbuf);
        k < |q| ==> RemoveFirst(q, netbuf).found.Hit? && RemoveFirst(q, netbuf).rest == q[..k] + q[k + 1..]
    {
    }

    /** A packet HIF did not take (646-658): it leaves the lookup queue, or the queue that
      * a search has detached, gets its credits back and returns to the head of the
      * sendQueue.  The counter of the lookup queue is decremented in either case.  No
      * other packet there has its network buffer. */
    method ReclaimFailed(pPacket: Node, ghost owner: Queue, ghost k: nat, ghost lookupQueue: Queue, sendQueue: Queue,
                         ghost all: set<Node>, ghost e: Engine, ghost t: nat)
      requires Shows(e) && ShowsDetached(lookupQueue, e) && Beside(sendQueue, all)
      requires Separate(lookupQueue, sendQueue) && Members(lookupQueue) !! all
      requires t < |e.threads| && e.threads[t].pc.Sending? && pPacket.item == e.threads[t].pc.current
      requires Items(sendQueue.Nodes) == e.threads[t].pc.queue
      requires k < |owner.Nodes| && owner.Nodes[k] == pPacket
      requires
        || (owner == TxLookupQueue && FirstMatch(e.lookup, pPacket.item.packet.netbuf) == k)
        || (owner == lookupQueue && e.search.Searching? && RemoveFirst(e.lookup, pPacket.item.packet.netbuf).found.Missing?
            && FirstMatch(e.search.list, pPacket.item.packet.netbuf) == k)
      modifies this`ul_outstanding_cnt, this`TxCredits, TxLookupQueue, lookupQueue
      modifies Members(sendQueue)`pPrev, Members(sendQueue)`pNext, Members(owner)`pPrev, Members(owner)`pNext
      modifies owner.QueueHead`pPrev, owner.QueueHead`pNext
      modifies sendQueue, sendQueue.QueueHead`pPrev, sendQueue.QueueHead`pNext
      ensures Shows(DoReject(e, t)) && ShowsDetached(lookupQueue, DoReject(e, t)) && Beside(sendQueue, all + {pPacket})
      ensures Items(sendQueue.Nodes) == DoReject(e, t).threads[t].pc.queue
      ensures Members(sendQueue) == old(Members(sendQueue)) + {pPacket} && pPacket in old(Members(owner))
      ensures Members(owner) == old(Members(owner)) - {pPacket}
      ensures owner != TxLookupQueue ==> Members(TxLookupQueue) == old(Members(TxLookupQueue))
      ensures owner != lookupQueue ==> Members(lookupQueue) == old(Members(lookupQueue))
      ensures Separate(TxLookupQueue, sendQueue) && Separate(lookupQueue, sendQueue)
    {
      hide Items, IsList, FirstMatch, RemoveFirst, DoReject, Within, Separate, Apart, NodesIn, PacketsOf, Members, LookupAside, Beside, Shows, ShowsDetached;
      ShownNow(lookupQueue, e);
      ul_outstanding_cnt := ul_outstanding_cnt - 1;
      TakeBack(pPacket, owner, k, lookupQueue, sendQueue, all);
      TxCredits := TxCredits + pPacket.item.credits;
      RejectIsShown(owner == TxLookupQueue, k, lookupQueue, e, t);
    }

    /** The moves of ReclaimFailed. */
    method TakeBack(pPacket: Node, ghost owner: Queue, ghost k: nat, ghost lookupQueue: Queue, sendQueue: Queue, ghost all: set<Node>)
      requires Wired() && Beside(sendQueue, all) && lookupQueue.Loose() && (owner == TxLookupQueue || owner == lookupQueue)
      requires Separate(TxQueue, lookupQueue) && Separate(TxLookupQueue, lookupQueue) && Separate(lookupQueue, sendQueue)
      requires Members(lookupQueue) !! all
      requires k < |owner.Nodes| && owner.Nodes[k] == pPacket
      modifies Members(sendQueue)`pPrev, Members(sendQueue)`pNext, TxLookupQueue, lookupQueue
      modifies owner.QueueHead`pPrev, owner.QueueHead`pNext, Members(owner)`pPrev, Members(owner)`pNext
      modifies sendQueue, sendQueue.QueueHead`pPrev, sendQueue.QueueHead`pNext
      ensures Wired() && Beside(sendQueue, all + {pPacket}) && lookupQueue.Loose()
      ensures Separate(TxQueue, lookupQueue) && Separate(TxLookupQueue, lookupQueue)
      ensures Separate(lookupQueue, sendQueue) && Separate(TxLookupQueue, sendQueue)
      ensures PacketsOf(TxQueue.Nodes) == old(PacketsOf(TxQueue.Nodes))
      ensures TxLookupQueue.Depth == old(TxLookupQueue.Depth) - 1
      ensures lookupQueue.Depth == old(lookupQueue.Depth) && old(Items(owner.Nodes))[k] == pPacket.item
      ensures Items(owner.Nodes) == old(Items(owner.Nodes)[..k] + Items(owner.Nodes)[k + 1..])
      ensures owner != TxLookupQueue ==>
        Items(TxLookupQueue.Nodes) == old(Items(TxLookupQueue.Nodes)) && Members(TxLookupQueue) == old(Members(TxLookupQueue))
      ensures owner != lookupQueue ==>
        Items(lookupQueue.Nodes) == old(Items(lookupQueue.Nodes)) && Members(lookupQueue) == old(Members(lookupQueue))
      ensures Items(sendQueue.Nodes) == [pPacket.item] + old(Items(sendQueue.Nodes))
      ensures Members(sendQueue) == old(Members(sendQueue)) + {pPacket}
      ensures Members(owner) == old(Members(owner)) - {pPacket} && pPacket in old(Members(owner))
    {
      hide Items, IsList, Within, Separate, Apart, NodesIn, PacketsOf, Members;
      LookupStaysAside(sendQueue, all);
      BesideMeans(sendQueue, all);
      WithinMembers(TxQueue, Members(TxQueue));
      WithinMembers(TxLookupQueue, Members(TxLookupQueue));
      WithinMembers(lookupQueue, Members(lookupQueue));
      SeparateMeans(TxQueue, TxLookupQueue);
      SeparateMeans(TxQueue, lookupQueue);
      SeparateMeans(TxLookupQueue, lookupQueue);
      SeparateMeans(lookupQueue, sendQueue);
      HeadOutside(lookupQueue);
      HeadOutside(TxLookupQueue);
      PassBack(TxLookupQueue, pPacket, owner, k, sendQueue);
      BesideMeans(sendQueue, all + {pPacket});
      LookupStaysAside(sendQueue, all + {pPacket});
      SeparateMeans(TxQueue, lookupQueue);
      SeparateMeans(TxLookupQueue, lookupQueue);
      SeparateMeans(lookupQueue, sendQueue);
    }

    /** The end of a failed drain (1178-1181, 1194-1197). */
    method RequeueFailed(sendQueue: Queue, ghost all: set<Node>, ghost e: Engine, ghost t: nat)
      requires Shows(e) && Beside(sendQueue, all)
      requires t < |e.threads| && e.threads[t].pc.Returning? && Items(sendQueue.Nodes) == e.threads[t].pc.queue
      modifies this`TxProcessCount, all`pPrev, all`pNext
      modifies TxQueue, TxQueue.QueueHead`pPrev, TxQueue.QueueHead`pNext
      modifies sendQueue, sendQueue.QueueHead`pPrev, sendQueue.QueueHead`pNext
      ensures Shows(DoRequeue(e, t)) && Beside(sendQueue, all) && sendQueue.Nodes == []
    {
      hide Items, IsList, PacketsOf, NodesIn, Within, Apart;
      LookupStaysAside(sendQueue, all);
      BesideMeans(sendQueue, all);
      PacketsOfConcat(sendQueue.Nodes, TxQueue.Nodes);
      NodesInConcat(sendQueue.Nodes, TxQueue.Nodes);
      NodesInNone();
      TxQueue.TransferAllToHead(sendQueue);
      TxProcessCount := 0;
      BesideMeans(sendQueue, all);
      LookupStaysAside(sendQueue, all);
    }

    /** One entry of a credit report (2015-2022), and whether it asks for a kick. */
    method AddCredits(rpt_credits: nat, ghost e: Engine, ghost t: nat) returns (kick: bool)
      requires Shows(e) && t < |e.threads| && e.threads[t].pc.Idle?
      modifies this`TxCredits
      ensures Shows(DoReport(e, t, rpt_credits))
      ensures kick <==> DoReport(e, t, rpt_credits).threads[t].pc == Entering([])
      ensures TxCredits == old(TxCredits) + rpt_credits && (kick <==> TxCredits != 0 && TxQueue.Nodes != [])
    {
      TxCredits := TxCredits + rpt_credits;
      kick := TxCredits != 0 && TxQueue.Depth != 0;
    }

    /** The first critical section of htc_lookup_tx_packet (1726-1750): the head is
      * the packet, or the whole lookup queue is detached to be searched. */
    method LookupBegin(netbuf: nat, lookupQueue: Queue, ghost e: Engine) returns (pPacket: DlNode?<Charged>)
      requires Shows(e) && e.search.NoSearch? && ShowsDetached(lookupQueue, e)
      modifies this`ul_outstanding_cnt, Members(TxLookupQueue)`pPrev, Members(TxLookupQueue)`pNext
      modifies TxLookupQueue, TxLookupQueue.QueueHead`pPrev, TxLookupQueue.QueueHead`pNext
      modifies lookupQueue, lookupQueue.QueueHead`pPrev, lookupQueue.QueueHead`pNext
      ensures var f := DoComplete(e, netbuf);
        && Shows(f) && ShowsDetached(lookupQueue, f)
        && (f.search.Searching? ==> pPacket == null)
        && (f.search.NoSearch? ==>
             f.log.finished == e.log.finished + (if pPacket == null then [] else [pPacket.item.packet]))
      ensures pPacket != null ==> pPacket in old(Members(TxLookupQueue)) && pPacket.item.packet.netbuf == netbuf
      ensures Members(TxLookupQueue) + Members(lookupQueue) == old(Members(TxLookupQueue)) - NodeSet(pPacket)
    {
      hide Items, IsList, PacketsOf, NodesIn, Within, Separate, Apart, Members;
      SeparateMeans(TxQueue, TxLookupQueue);
      SeparateMeans(TxQueue, lookupQueue);
      SeparateMeans(TxLookupQueue, lookupQueue);
      HeadOutside(TxLookupQueue);
      ul_outstanding_cnt := ul_outstanding_cnt - 1;
      pPacket := HeadOrDetach(TxLookupQueue, lookupQueue, netbuf);
      SeparateMeans(TxQueue, TxLookupQueue);
      SeparateMeans(TxQueue, lookupQueue);
      SeparateMeans(TxLookupQueue, lookupQueue);
    }

    /** The search and the second critical section (1752-1774): the packet is taken out
      * and what is left goes back in front, counters and all. */
    method LookupFinish(netbuf: nat, lookupQueue: Queue, ghost e: Engine) returns (pFoundPacket: DlNode?<Charged>)
      requires Shows(e) && e.search.Searching? && e.search.netbuf == netbuf && ShowsDetached(lookupQueue, e)
      modifies Members(TxLookupQueue)`pPrev, Members(TxLookupQueue)`pNext
      modifies Members(lookupQueue)`pPrev, Members(lookupQueue)`pNext
      modifies TxLookupQueue, TxLookupQueue.QueueHead`pPrev, TxLookupQueue.QueueHead`pNext
      modifies lookupQueue, lookupQueue.QueueHead`pPrev, lookupQueue.QueueHead`pNext
      ensures var f := DoFinishSearch(e);
        && Shows(f) && ShowsDetached(lookupQueue, f)
        && f.log.finished == e.log.finished + (if pFoundPacket == null then [] else [pFoundPacket.item.packet])
      ensures pFoundPacket != null ==>
        pFoundPacket in old(Members(lookupQueue)) && pFoundPacket.item.packet.netbuf == netbuf
      ensures Members(TxLookupQueue) == old(Members(TxLookupQueue) + Members(lookupQueue)) - NodeSet(pFoundPacket)
      ensures Members(lookupQueue) == {}
    {
      hide Items, IsList, PacketsOf, NodesIn, Within, Separate, Apart, Members;
      SeparateMeans(TxQueue, TxLookupQueue);
      SeparateMeans(TxQueue, lookupQueue);
      SeparateMeans(TxLookupQueue, lookupQueue);
      HeadOutside(lookupQueue);
      pFoundPacket := SearchAndRemove(lookupQueue, netbuf);
      SeparateMeans(TxLookupQueue, lookupQueue);
      PutBack(lookupQueue);
      SeparateMeans(TxQueue, TxLookupQueue);
      SeparateMeans(TxQueue, lookupQueue);
      SeparateMeans(TxLookupQueue, lookupQueue);
    }

    /** The transfer to the head of the lookup queue (1771-1774). */
    method PutBack(lookupQueue: Queue)
      requires TxLookupQueue.Loose() && lookupQueue.Loose() && Separate(TxLookupQueue, lookupQueue)
      modifies Members(TxLookupQueue)`pPrev, Members(TxLookupQueue)`pNext
      modifies Members(lookupQueue)`pPrev, Members(lookupQueue)`pNext
      modifies TxLookupQueue, TxLookupQueue.QueueHead`pPrev, TxLookupQueue.QueueHead`pNext
      modifies lookupQueue, lookupQueue.QueueHead`pPrev, lookupQueue.QueueHead`pNext
      ensures TxLookupQueue.Loose() && lookupQueue.Valid() && Items(lookupQueue.Nodes) == []
      ensures Items(TxLookupQueue.Nodes) == old(Items(lookupQueue.Nodes) + Items(TxLookupQueue.Nodes))
      ensures TxLookupQueue.Depth == old(lookupQueue.Depth + TxLookupQueue.Depth) && lookupQueue.Depth == 0
      ensures Members(TxLookupQueue) == old(Members(TxLookupQueue) + Members(lookupQueue)) && Members(lookupQueue) == {}
    {
      hide Items, IsList, NodesIn, Apart;
      PacketsOfConcat(lookupQueue.Nodes, TxLookupQueue.Nodes);
      NodesInConcat(lookupQueue.Nodes, TxLookupQueue.Nodes);
      NodesInNone();
      TxLookupQueue.TransferAllToHead(lookupQueue);
    }

    /** htc_flush_endpoint_tx: everything queued is completed, in order. */
    method FlushTx(ghost e: Engine) returns (completed: seq<Packet>)
      requires Shows(e)
      modifies TxQueue, TxQueue.QueueHead`pPrev, TxQueue.QueueHead`pNext
      modifies Members(TxQueue)`pPrev, Members(TxQueue)`pNext
      ensures Shows(DoFlush(e)) && DoFlush(e).log.flushed == e.log.flushed + completed && TxQueue.Nodes == []
      ensures completed == old(PacketsOf(TxQueue.Nodes))
    {
      hide Items, IsList, PacketsOf, NodesIn, Within, Separate, Apart;
      SeparateMeans(TxQueue, TxLookupQueue);
      NodesInNone();
      completed := DequeueAll(TxQueue);
      SeparateMeans(TxQueue, TxLookupQueue);
    }
  }
}
