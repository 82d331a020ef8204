/** What one thread does: htc_send_pkts_multiple, htc_try_send and htc_issue_packets,
  * made of the actions of a host.  Nobody else acts in between; `takes(n)` says whether
  * HIF takes the n-th packet it is offered, `buses(n)` what the bus is at the n-th turn
  * of the drain loop. */
module TxThreads {
  import opened TxModel
  import opened TxEngine
  import opened TxTheorems
  import opened TxQueueOps
  import opened TxFamilies
  import opened TxHosts

  /** The run leads from one state to another. */
  ghost predicate Leads(cfg: Config, e: Engine, run: seq<Action>, f: Engine)
    requires cfg.Valid()
  {
    Runs(cfg, e, run) && After(cfg, e, run) == f
  }

  lemma LeadsOn(cfg: Config, e: Engine, run: seq<Action>, f: Engine, a: Action)
    requires cfg.Valid() && Leads(cfg, e, run, f) && Enabled(cfg, f, a)
    ensures Leads(cfg, e, run + [a], Do(cfg, f, a))
  {
    hide Runs, After, Do, Enabled;
    RunsSnoc(cfg, e, run, a);
  }

  lemma LeadsFrom(cfg: Config, e: Engine)
    requires cfg.Valid()
    ensures Leads(cfg, e, [], e)
  {
  }

  /** No other thread has changed, and of this one not what stayed in its caller's queue. */
  ghost predicate OnlyThread(e: Engine, f: Engine, t: nat) {
    && |f.threads| == |e.threads| && t < |e.threads| && f.threads[t].left == e.threads[t].left
    && (forall u :: 0 <= u < |e.threads| && u != t ==> f.threads[u] == e.threads[u])
  }

  /** One turn of htc_issue_packets. */
  lemma IssueTurn(cfg: Config, e: Engine, t: nat)
    requires cfg.Valid() && t < |e.threads| && e.threads[t].pc.Issuing? && e.threads[t].pc.queue != []
    ensures Enabled(cfg, e, Issue(t))
    ensures var f, queue := Do(cfg, e, Issue(t)), e.threads[t].pc.queue;
      && OnlyThread(e, f, t) && f.txQueue == e.txQueue && f.threads[t].pc == Sending(queue[0], queue[1..])
      && Enabled(cfg, f, Accept(t)) && Enabled(cfg, f, Reject(t))
      && var g := Do(cfg, f, Accept(t));
      OnlyThread(e, g, t) && g.txQueue == e.txQueue && g.threads[t].pc == Issuing(queue[1..])
      && var h := Do(cfg, f, Reject(t));
      OnlyThread(e, h, t) && h.txQueue == e.txQueue && h.threads[t].pc == Returning([queue[0]] + queue[1..])
  {
    hide RemoveFirst;
  }

  /** htc_issue_packets (550-668): packets go to HIF one after the other until one is
    * refused. */
  method IssuePackets(host: TxHost, t: nat, takes: nat -> bool, offered: nat, ghost first: Engine, ghost before: seq<Action>)
    returns (failed: bool, next: nat, ghost run: seq<Action>)
    requires host.Valid() && t < |host.e.threads| && host.e.threads[t].pc.Issuing?
    requires host.ep.cfg.Valid() && Leads(host.ep.cfg, first, before, host.e)
    modifies host, host.ep, host.All(), Heads(host.All()), Pool(host.All())
    ensures host.Valid() && Pool(host.All()) <= old(Pool(host.All()))
    ensures Leads(host.ep.cfg, first, run, host.e) && OnlyThread(old(host.e), host.e, t)
    ensures host.e.txQueue == old(host.e.txQueue)
    ensures if failed then host.e.threads[t].pc.Returning? else host.e.threads[t].pc == Issuing([])
    ensures failed <==> exists n :: offered <= n < next && !takes(n)
    ensures offered <= next <= offered + |old(host.e.threads[t].pc.queue)|
    ensures !failed ==> next == offered + |old(host.e.threads[t].pc.queue)|
  {
    hide Pool, Heads, Leads, Do, Enabled, TxHost.Valid, TxHost.All;
    run, failed, next := before, false, offered;
    ghost var cfg := host.ep.cfg;
    host.InSight(t);
    while host.sendQueues[t].Depth != 0
      invariant host.Valid() && Pool(host.All()) <= old(Pool(host.All()))
      invariant Leads(cfg, first, run, host.e) && OnlyThread(old(host.e), host.e, t)
      invariant host.e.threads[t].pc.Issuing? && host.sendQueues[t].Depth == |host.e.threads[t].pc.queue|
      invariant host.e.txQueue == old(host.e.txQueue)
      invariant offered <= next && forall n :: offered <= n < next ==> takes(n)
      invariant next + |host.e.threads[t].pc.queue| == offered + |old(host.e.threads[t].pc.queue)|
      decreases |host.e.threads[t].pc.queue|
    {
      IssueTurn(cfg, host.e, t);
      LeadsOn(cfg, first, run, host.e, Issue(t));
      host.Issue(t);
      run := run + [Issue(t)];
      next := next + 1;
      if takes(next - 1) {
        LeadsOn(cfg, first, run, host.e, Accept(t));
        host.Accept(t);
        run := run + [Accept(t)];
        host.InSight(t);
      } else {
        LeadsOn(cfg, first, run, host.e, Reject(t));
        host.Reject(t);
        run := run + [Reject(t)];
        failed := true;
        return;
      }
    }
  }

  /** What entering, or going round the drain loop, comes to for the thread. */
  ghost predicate Turned(cfg: Config, e: Engine, f: Engine, t: nat, bus: Bus, left: nat)
    requires cfg.Valid()
  {
    && OnlyThread(e, f, t)
    && (f.threads[t].pc.Issuing? || f.threads[t].pc == Leaving)
    && (f.threads[t].pc.Issuing? ==> |f.txQueue| < left)
    && (f.threads[t].pc == Leaving && e.threads[t].pc.Issuing? && bus == Awake ==>
          f.txQueue == [] || Blocked(cfg, f.credits, f.txQueue))
  }

  lemma DrainIsTurn(cfg: Config, e: Engine, t: nat, bus: Bus)
    requires cfg.Valid() && t < |e.threads| && e.threads[t].pc.Issuing?
    ensures Turned(cfg, e, Drain(cfg, e, t, bus), t, bus, |e.txQueue|)
  {
    hide GetPackets, EffectiveHead, Required;
    if e.txQueue != [] {
      PassShrinks(cfg, e.credits, e.txQueue, bus);
    }
  }

  lemma PassShrinks(cfg: Config, credits: int, q: seq<Packet>, bus: Bus)
    requires cfg.Valid() && q != []
    ensures var r := GetPackets(cfg, credits, q, bus);
      && (r.taken != [] ==> |r.rest| < |q|)
      && (r.taken == [] && bus == Awake ==> Blocked(cfg, r.credits, r.rest))
  {
    hide TakeFrom, Required, Blocked;
    var r, pm := GetPackets(cfg, credits, q, bus), Select(cfg, q, true);
    GetPacketsStablePartition(cfg, credits, q, bus);
    assert |multiset(Packets(r.taken) + r.rest)| == |multiset(q)|;
    GetPacketsEmptyHanded(cfg, credits, q, bus);
    TakeFromStops(cfg, credits, if pm == [] then q else pm, if pm == [] then bus else Awake);
  }

  lemma EnterTurn(cfg: Config, e: Engine, t: nat, bus: Bus)
    requires cfg.Valid() && t < |e.threads| && e.threads[t].pc.Entering?
    ensures Enabled(cfg, e, Enter(t, bus))
    ensures var f := Do(cfg, e, Enter(t, bus));
      && OnlyThread(e, f, t) && (f.threads[t].pc.Issuing? || f.threads[t].pc == Leaving)
      && (f.threads[t].pc == Leaving && e.processCount == 0 && bus == Awake ==>
            f.txQueue == [] || Blocked(cfg, f.credits, f.txQueue))
  {
    hide GetPackets, Drain, Blocked;
    if e.processCount <= 0 {
      DrainIsTurn(cfg, Join(e, t), t, bus);
    }
  }

  lemma RelockTurn(cfg: Config, e: Engine, t: nat, bus: Bus)
    requires cfg.Valid() && t < |e.threads| && e.threads[t].pc == Issuing([])
    ensures Enabled(cfg, e, Relock(t, bus)) && Turned(cfg, e, Do(cfg, e, Relock(t, bus)), t, bus, |e.txQueue|)
  {
    hide Turned, Drain;
    DrainIsTurn(cfg, e, t, bus);
  }

  lemma RequeueTurn(cfg: Config, e: Engine, t: nat)
    requires cfg.Valid() && t < |e.threads| && e.threads[t].pc.Returning?
    ensures Enabled(cfg, e, Requeue(t))
    ensures var f := Do(cfg, e, Requeue(t)); OnlyThread(e, f, t) && f.threads[t].pc == Leaving
  {
  }

  /** htc_try_send from the lock on (1094-1200).  With nobody draining, an awake bus and a
    * HIF that takes everything, it goes on until TxQueue is empty or blocked. */
  method TrySend(host: TxHost, t: nat, takes: nat -> bool, buses: nat -> Bus, ghost first: Engine, ghost before: seq<Action>)
    returns (ghost run: seq<Action>)
    requires host.Valid() && t < |host.e.threads| && host.e.threads[t].pc.Entering?
    requires host.ep.cfg.Valid() && Leads(host.ep.cfg, first, before, host.e)
    modifies host, host.ep, host.All(), Heads(host.All()), Pool(host.All())
    ensures host.Valid() && Pool(host.All()) <= old(Pool(host.All()))
    ensures Leads(host.ep.cfg, first, run, host.e) && OnlyThread(old(host.e), host.e, t)
    ensures host.e.threads[t].pc == Leaving
    ensures old(host.e.processCount) == 0 && (forall n :: takes(n) && buses(n) == Awake) ==>
      host.e.txQueue == [] || Blocked(host.ep.cfg, host.e.credits, host.e.txQueue)
  {
    hide Pool, Heads, Leads, Do, Enabled, Blocked, TxHost.Valid, TxHost.All;
    ghost var cfg, smooth := host.ep.cfg, host.e.processCount == 0 && forall n :: takes(n) && buses(n) == Awake;
    var turns, offered := 1, 0;
    EnterTurn(cfg, host.e, t, buses(0));
    LeadsOn(cfg, first, before, host.e, Enter(t, buses(0)));
    var issuing := host.Enter(t, buses(0));
    run := before + [Enter(t, buses(0))];
    while issuing
      invariant host.Valid() && Pool(host.All()) <= old(Pool(host.All()))
      invariant Leads(cfg, first, run, host.e) && OnlyThread(old(host.e), host.e, t)
      invariant if issuing then host.e.threads[t].pc.Issuing? else host.e.threads[t].pc == Leaving
      invariant !issuing && smooth ==> host.e.txQueue == [] || Blocked(cfg, host.e.credits, host.e.txQueue)
      decreases |host.e.txQueue|, if issuing then 1 else 0
    {
      var failed;
      failed, offered, run := IssuePackets(host, t, takes, offered, first, run);
      if failed {
        RequeueTurn(cfg, host.e, t);
        LeadsOn(cfg, first, run, host.e, Requeue(t));
        host.Requeue(t);
        run := run + [Requeue(t)];
        return;
      }
      RelockTurn(cfg, host.e, t, buses(turns));
      LeadsOn(cfg, first, run, host.e, Relock(t, buses(turns)));
      ghost var queued := |host.e.txQueue|;
      issuing := host.Relock(t, buses(turns));
      run := run + [Relock(t, buses(turns))];
      if !issuing {
        return;
      }
      turns := turns + 1;
    }
  }

  lemma SubmitTurn(cfg: Config, e: Engine, t: nat, a: Action)
    requires cfg.Valid() && a.Submit? && a.t == t && Enabled(cfg, e, a)
    ensures var f, r := Do(cfg, e, a), AdmitSplit(cfg, a.firstDepth, a.secondDepth, a.handler, a.packets);
      && |f.threads| == |e.threads| && t < |e.threads| && f.processCount == e.processCount
      && (forall u :: 0 <= u < |e.threads| && u != t ==> f.threads[u] == e.threads[u])
      && f.threads[t].left == r.left && f.threads[t].pc == (if r.send == [] then Leaving else Entering(r.send))
  {
    hide AdmitSplit;
  }

  lemma LeaveTurn(cfg: Config, e: Engine, t: nat, completed: seq<Packet>)
    requires cfg.Valid() && t < |e.threads| && e.threads[t].pc == Leaving
    ensures Enabled(cfg, e, Leave(t))
    ensures var f := Do(cfg, e, Leave(t));
      && f.threads == e.threads[t := Thread(Idle, [])] && f.txQueue == e.txQueue && f.credits == e.credits
      && (f.log.dropped == e.log.dropped + completed ==> completed == e.threads[t].left)
  {
    if e.log.dropped + e.threads[t].left == e.log.dropped + completed {
      assert completed == (e.log.dropped + completed)[|e.log.dropped|..];
    }
  }

  /** htc_send_pkts_multiple (1296-1400).  What does not get in is completed, in order;
    * no other thread is disturbed. */
  method SendPktsMultiple(host: TxHost, t: nat, packets: seq<Packet>, firstDepth: nat, secondDepth: nat, handler: FullHandler,
                          takes: nat -> bool, buses: nat -> Bus)
    returns (ok: bool, completed: seq<Packet>, ghost run: seq<Action>)
    requires host.Valid() && host.ep.cfg.Valid()
    requires packets != [] ==> Enabled(host.ep.cfg, host.e, Submit(t, packets, firstDepth, secondDepth, handler))
    modifies host, host.ep, host.All(), Heads(host.All()), Pool(host.All())
    ensures host.Valid() && fresh(Pool(host.All()) - old(Pool(host.All())))
    ensures ok <==> packets != []
    ensures !ok ==> host.e == old(host.e) && completed == []
    ensures Leads(host.ep.cfg, old(host.e), run, host.e)
    ensures ok ==>
      var r := AdmitSplit(host.ep.cfg, firstDepth, secondDepth, handler, packets);
      && completed == r.left && host.e.threads == old(host.e.threads[t := Thread(Idle, [])])
      && (r.send != [] && old(host.e.processCount) == 0 && (forall n :: takes(n) && buses(n) == Awake) ==>
            host.e.txQueue == [] || Blocked(host.ep.cfg, host.e.credits, host.e.txQueue))
  {
    hide Pool, Heads, Leads, Do, Enabled, Blocked, AdmitSplit, TxHost.Valid, TxHost.All;
    ghost var cfg, first := host.ep.cfg, host.e;
    LeadsFrom(cfg, first);
    if packets == [] {
      return false, [], [];
    }
    ghost var submit := Submit(t, packets, firstDepth, secondDepth, handler);
    SubmitTurn(cfg, host.e, t, submit);
    LeadsOn(cfg, first, [], host.e, submit);
    var admitted := host.Submit(t, packets, firstDepth, secondDepth, handler);
    run := [] + [submit];
    if admitted {
      run := TrySend(host, t, takes, buses, first, run);
    }
    ghost var last := host.e;
    LeaveTurn(cfg, last, t, []);
    LeadsOn(cfg, first, run, host.e, Leave(t));
    completed := host.Leave(t);
    LeaveTurn(cfg, last, t, completed);
    run := run + [Leave(t)];
    ok := true;
  }
}
