/** An endpoint with all the threads that use it, on the heap: every thread's own queues,
  * the queue of the completion handler, and the packet HIF is deciding on.
  *
  * There is one method for each action of TxEngine, made of the lock regions of
  * TxEndpoint.  Called in any order, by any threads, as the engine allows, they keep
  * the heap showing a reachable state of the engine. */
module TxHosts {
  import opened DlList
  import opened PacketQueues
  import opened TxModel
  import opened TxEngine
  import opened TxSafety
  import opened TxLookup
  import opened TxTheorems
  import opened TxQueueOps
  import opened TxFamilies
  import opened TxEndpoints

  class TxHost {
    const ep: TxEndpoint
    const detached: Queue
    const sendQueues: seq<Queue>
    const callersQueues: seq<Queue>
    var inFlight: DlNode?<Charged>
    ghost var e: Engine

    /** All queues. */
    ghost function All(): (r: set<Queue>)
      ensures ep.TxQueue in r && ep.TxLookupQueue in r && detached in r
      ensures forall t :: 0 <= t < |sendQueues| ==> sendQueues[t] in r
      ensures forall t :: 0 <= t < |callersQueues| ==> callersQueues[t] in r
    {
      {ep.TxQueue, ep.TxLookupQueue, detached} + (set q | q in sendQueues) + (set q | q in callersQueues)
    }

    /** Each queue has one use. */
    ghost predicate Distinct() {
      && ep.TxQueue != ep.TxLookupQueue && ep.TxQueue != detached && ep.TxLookupQueue != detached
      && (forall t :: 0 <= t < |sendQueues| ==> sendQueues[t] !in {ep.TxQueue, ep.TxLookupQueue, detached})
      && (forall t :: 0 <= t < |callersQueues| ==> callersQueues[t] !in {ep.TxQueue, ep.TxLookupQueue, detached})
      && (forall t, u :: 0 <= t < |sendQueues| && 0 <= u < |callersQueues| ==> sendQueues[t] != callersQueues[u])
      && (forall t, u :: 0 <= t < |sendQueues| && 0 <= u < |sendQueues| && t != u ==> sendQueues[t] != sendQueues[u])
      && (forall t, u :: 0 <= t < |callersQueues| && 0 <= u < |callersQueues| && t != u ==> callersQueues[t] != callersQueues[u])
    }

    /** A thread's sendQueue holds what its place in the engine says. */
    ghost predicate SendHolds(pc: Pc, p: Photo) {
      p.skew == 0 &&
      match pc
      case Idle => p.items == []
      case Entering(batch) => Packets(p.items) == batch
      case Issuing(s) => p.items == s
      case Sending(_, s) => p.items == s
      case Returning(s) => p.items == s
      case Leaving => p.items == []
    }

    ghost predicate CallerHolds(left: seq<Packet>, p: Photo) {
      p.skew == 0 && Packets(p.items) == left
    }

    /** The threads' queues hold what the engine `g` says. */
    ghost predicate ThreadsHold(g: Engine, shot: Shot)
      requires shot.Keys == All()
    {
      |sendQueues| == |callersQueues| == |g.threads| &&
      forall t :: 0 <= t < |g.threads| ==>
        SendHolds(g.threads[t].pc, shot[sendQueues[t]]) && CallerHolds(g.threads[t].left, shot[callersQueues[t]])
    }

    /** The packet HIF is deciding on is in the lookup queue, or detached with it. */
    ghost predicate InFlightHolds(g: Engine, shot: Shot)
      reads this`inFlight
      requires shot.Keys == All()
    {
      forall t :: 0 <= t < |g.threads| && g.threads[t].pc.Sending? ==>
        && inFlight != null
        && (shot[ep.TxLookupQueue].Holds(inFlight, g.threads[t].pc.current) || shot[detached].Holds(inFlight, g.threads[t].pc.current))
    }

    ghost predicate Valid()
      reads this, ep, All(), Heads(All()), Pool(All())
    {
      && ep.cfg.Valid() && Reachable(ep.cfg, e)
      && Distinct() && Family(All())
      && ep.Shows(e) && ep.ShowsDetached(detached, e)
      && ThreadsHold(e, Snap(All())) && InFlightHolds(e, Snap(All()))
    }

    constructor (cfg: Config, threads: nat)
      requires cfg.Valid()
      ensures Valid() && ep.cfg == cfg && e == Init(cfg, threads)
      ensures fresh(ep) && fresh(All()) && fresh(Heads(All())) && Pool(All()) == {}
    {
      hide Items, PacketsOf, Separate, Apart, IsList, Members, All, Heads, Pool, Valid, Distinct, Family;
      ep := new TxEndpoint(cfg);
      detached := new PacketQueue();
      var q := NewQueues(threads + threads);
      sendQueues, callersQueues := q[..threads], q[threads..];
      inFlight := null;
      e := Init(cfg, threads);
      new;
      StartIsFamily(q, threads);
      StartReaches(q, threads);
      StartIsValid(threads);
    }

    lemma StartReaches(q: seq<Queue>, threads: nat)
      requires |q| == threads + threads && sendQueues == q[..threads] && callersQueues == q[threads..]
      ensures forall a :: a in All() ==> a in {ep.TxQueue, ep.TxLookupQueue, detached} || a in q
      ensures forall h :: h in Heads(All()) ==>
        h in {ep.TxQueue.QueueHead, ep.TxLookupQueue.QueueHead, detached.QueueHead} || exists t :: 0 <= t < |q| && h == q[t].QueueHead
      ensures (forall a :: a in All() ==> a.Nodes == []) ==> Pool(All()) == {}
    {
    }

    /** The queues of a new host are empty, and all different. */
    lemma StartIsFamily(q: seq<Queue>, threads: nat)
      requires |q| == threads + threads && sendQueues == q[..threads] && callersQueues == q[threads..]
      requires ep.TxQueue.Valid() && ep.TxLookupQueue.Valid() && detached.Valid()
      requires ep.TxQueue.Nodes == ep.TxLookupQueue.Nodes == detached.Nodes == []
      requires ep.TxQueue != ep.TxLookupQueue && ep.TxQueue != detached && ep.TxLookupQueue != detached
      requires ep.TxQueue.QueueHead != ep.TxLookupQueue.QueueHead
      requires detached.QueueHead !in {ep.TxQueue.QueueHead, ep.TxLookupQueue.QueueHead}
      requires forall t :: 0 <= t < |q| ==> q[t].Valid() && q[t].Nodes == []
      requires forall t :: 0 <= t < |q| ==> q[t] !in {ep.TxQueue, ep.TxLookupQueue, detached}
      requires forall t :: 0 <= t < |q| ==> q[t].QueueHead !in {ep.TxQueue.QueueHead, ep.TxLookupQueue.QueueHead, detached.QueueHead}
      requires forall t, u :: 0 <= t < |q| && 0 <= u < |q| && t != u ==> q[t] != q[u] && q[t].QueueHead != q[u].QueueHead
      ensures Distinct() && Family(All())
      ensures forall a :: a in All() ==> a.Valid() && a.Nodes == []
    {
      hide Separate, Family, IsList;
      assert forall t :: 0 <= t < threads ==> sendQueues[t] == q[t] && callersQueues[t] == q[threads + t];
      assert forall a :: a in All() ==> a in {ep.TxQueue, ep.TxLookupQueue, detached} || exists t :: 0 <= t < |q| && a == q[t];
      EmptyFamily(All());
    }

    lemma StartIsValid(threads: nat)
      requires ep.cfg.Valid() && e == Init(ep.cfg, threads) && ep.Shows(e) && |sendQueues| == |callersQueues| == threads
      requires Distinct() && Family(All()) && forall a :: a in All() ==> a.Valid() && a.Nodes == []
      ensures Valid()
    {
      hide Items, PacketsOf, Separate, Apart, IsList, Members, Family;
      InitIsReachable(ep.cfg, threads);
      FamilySeparates(All(), ep.TxQueue, detached);
      FamilySeparates(All(), ep.TxLookupQueue, detached);
      EmptyShows(detached);
      assert Packets([]) == [];
      forall t | 0 <= t < threads
        ensures SendHolds(e.threads[t].pc, Now(sendQueues[t])) && CallerHolds(e.threads[t].left, Now(callersQueues[t]))
      {
        EmptyShows(sendQueues[t]);
        EmptyShows(callersQueues[t]);
      }
    }

    // ---------- what the regions need, and what they leave ----------

    lemma Open()
      requires Valid()
      ensures ep.cfg.Valid() && Reachable(ep.cfg, e) && Distinct() && ep.Shows(e) && ep.ShowsDetached(detached, e)
      ensures ThreadsHold(e, Snap(All())) && InFlightHolds(e, Snap(All()))
      ensures Spread(All(), Snap(All())) && forall q :: q in All() ==> q.Loose()
    {
      FamilySpreads(All());
    }

    /** The thread's sendQueue is beside the endpoint's queues. */
    lemma ThreadIsBeside(t: nat)
      requires Valid() && t < |e.threads|
      ensures ep.Beside(sendQueues[t], Members(ep.TxQueue) + Members(sendQueues[t]))
    {
      hide Items, PacketsOf, Members, Reachable;
      var q := sendQueues[t];
      assert SendHolds(e.threads[t].pc, Now(q));
      SeparateMeans(ep.TxQueue, q);
      SeparateMeans(ep.TxLookupQueue, q);
      SeparateMeans(ep.TxQueue, ep.TxLookupQueue);
      HeadOutside(ep.TxQueue);
      HeadOutside(q);
      ep.BesideMeans(q, Members(ep.TxQueue) + Members(q));
    }

    /** Queues that were not worked on are as they were. */
    ghost predicate Rest(touched: set<Queue>, was: Shot)
      reads All(), Heads(All()), Pool(All())
      requires was.Keys == All()
    {
      forall q :: q in All() && q !in touched ==> q.Loose() && Now(q) == was[q]
    }

    lemma RestIs(touched: set<Queue>, was: Shot)
      requires was.Keys == All()
      requires forall q :: q in All() && q !in touched ==> q.Loose() && Now(q) == was[q]
      ensures Rest(touched, was)
    {
    }

    /** The nodes of the queues that were worked on are theirs, or new. */
    ghost predicate FromPool(touched: set<Queue>, was: Shot, news: set<Node>)
      reads touched
      requires touched <= was.Keys
    {
      forall q, n :: q in touched && n in Members(q) ==> n in news || exists c :: c in touched && n in was[c].members
    }

    /** The queues of a thread, if there is such a thread. */
    ghost function Own(t: nat): (r: set<Queue>)
      ensures t < |sendQueues| ==> sendQueues[t] in r
      ensures t < |callersQueues| ==> callersQueues[t] in r
    {
      (if t < |sendQueues| then {sendQueues[t]} else {}) + (if t < |callersQueues| then {callersQueues[t]} else {})
    }

    lemma OthersOwn(t: nat, u: nat, touched: set<Queue>)
      requires Distinct() && touched <= {ep.TxQueue, ep.TxLookupQueue, detached} + Own(t) && u != t
      ensures u < |sendQueues| ==> sendQueues[u] !in touched
      ensures u < |callersQueues| ==> callersQueues[u] !in touched
    {
    }

    /** The heap is in order again when some queues have been worked on, of the threads'
      * queues only those of `t`, and the engine, which was `g`, has taken a step. */
    lemma Close(touched: set<Queue>, was: Shot, news: set<Node>, g: Engine, t: nat)
      requires was.Keys == All() && touched <= All() && Spread(All(), was) && Distinct()
      requires ep.cfg.Valid() && Reachable(ep.cfg, e) && ep.Shows(e)
      requires Family(touched) && FromPool(touched, was, news) && Rest(touched, was)
      requires forall q :: q in All() ==> q.QueueHead !in news && news !! was[q].members
      requires ThreadsHold(g, was) && |e.threads| == |g.threads|
      requires touched <= {ep.TxQueue, ep.TxLookupQueue, detached} + Own(t)
      requires forall u :: 0 <= u < |e.threads| && u != t ==> e.threads[u] == g.threads[u]
      requires t < |e.threads| ==>
        SendHolds(e.threads[t].pc, Now(sendQueues[t])) && CallerHolds(e.threads[t].left, Now(callersQueues[t]))
      requires Items(detached.Nodes) == (if e.search.Searching? then e.search.list else [])
      requires detached.Depth == (if e.search.Searching? then e.search.depth else 0)
      requires InFlightHolds(e, Snap(All()))
      ensures Valid() && Pool(All()) <= PoolOf(was) + news
    {
      hide Items, PacketsOf, Members, Reachable, Separate, SendHolds, CallerHolds;
      FamilyStays(All(), touched, was, news);
      FamilySeparates(All(), ep.TxQueue, detached);
      FamilySeparates(All(), ep.TxLookupQueue, detached);
      PoolStays(touched, was, news);
      ThreadsStillHold(touched, was, g, t);
    }

    lemma PoolStays(touched: set<Queue>, was: Shot, news: set<Node>)
      requires was.Keys == All() && touched <= All() && FromPool(touched, was, news) && Rest(touched, was)
      ensures Pool(All()) <= PoolOf(was) + news
    {
      hide Members, All;
      forall n | n in Pool(All()) ensures n in PoolOf(was) + news {
        var q :| q in All() && n in Members(q);
        if q !in touched {
          assert n in was[q].members;
        } else if n !in news {
          var c :| c in touched && n in was[c].members;
        }
      }
    }

    lemma ThreadsStillHold(touched: set<Queue>, was: Shot, g: Engine, t: nat)
      requires was.Keys == All() && Distinct() && Rest(touched, was) && ThreadsHold(g, was) && |e.threads| == |g.threads|
      requires touched <= {ep.TxQueue, ep.TxLookupQueue, detached} + Own(t)
      requires forall u :: 0 <= u < |e.threads| && u != t ==> e.threads[u] == g.threads[u]
      requires t < |e.threads| ==>
        SendHolds(e.threads[t].pc, Now(sendQueues[t])) && CallerHolds(e.threads[t].left, Now(callersQueues[t]))
      ensures ThreadsHold(e, Snap(All()))
    {
      hide SendHolds, CallerHolds, Distinct, Items, Members, All, Own;
      forall u | 0 <= u < |e.threads|
        ensures SendHolds(e.threads[u].pc, Now(sendQueues[u])) && CallerHolds(e.threads[u].left, Now(callersQueues[u]))
      {
        if u != t {
          OthersOwn(t, u, touched);
        }
      }
    }

    /** What a region on a thread's queues finds. */
    lemma Finds(t: nat)
      requires Valid() && t < |e.threads|
      ensures ep.cfg.Valid() && ep.Shows(e) && ep.Beside(sendQueues[t], Members(ep.TxQueue) + Members(sendQueues[t]))
      ensures SendHolds(e.threads[t].pc, Now(sendQueues[t])) && CallerHolds(e.threads[t].left, Now(callersQueues[t]))
      ensures |sendQueues| == |callersQueues| == |e.threads| && sendQueues[t] in All() && callersQueues[t] in All()
      ensures sendQueues[t] !in {ep.TxQueue, ep.TxLookupQueue, detached, callersQueues[t]}
    {
      ThreadIsBeside(t);
    }

    /** A queue's objects are covered. */
    lemma InReach(q: Queue)
      requires q in All()
      ensures q.QueueHead in Heads(All()) && Members(q) <= Pool(All())
    {
    }

    lemma RestIsAside(touched: set<Queue>)
      requires Valid() && touched <= All()
      ensures Aside(All() - touched, touched)
    {
      hide Separate, Members;
      forall q, c | q in All() - touched && c in touched
        ensures q.Loose() && q != c && q.QueueHead != c.QueueHead && Members(q) !! Members(c)
          && q.QueueHead !in Members(c) && c.QueueHead !in Members(q)
      {
        SeparateMeans(q, c);
      }
    }

    /** At some moment the engine was `g`, and the queues were as in `was`. */
    ghost predicate Stood(was: Shot, g: Engine) {
      && was.Keys == All() && Spread(All(), was) && Distinct() && ep.cfg.Valid() && Reachable(ep.cfg, g) && ThreadsHold(g, was)
      && was[detached].items == (if g.search.Searching? then g.search.list else [])
      && was[detached].depth == (if g.search.Searching? then g.search.depth else 0)
    }

    lemma Stands()
      requires Valid()
      ensures ep.cfg.Valid() && Stood(Snap(All()), e) && InFlightHolds(e, Snap(All())) && ep.Shows(e) && ep.ShowsDetached(detached, e)
      ensures PoolOf(Snap(All())) == Pool(All())
      ensures forall q :: q in All() ==> q.Loose()
    {
      Open();
    }

    /** From `g` to `f` one thread has gone on, and no search has begun or ended. */
    ghost predicate OneThread(g: Engine, f: Engine, t: nat) {
      && |f.threads| == |g.threads| && t < |g.threads| && f.search == g.search
      && (forall u :: 0 <= u < |g.threads| && u != t ==> f.threads[u] == g.threads[u])
      && f.threads[t].left == g.threads[t].left
    }

    /** What HIF is deciding on stays where it is when neither lookup queue is worked on. */
    lemma InFlightStays(was: Shot, g: Engine)
      requires was.Keys == All() && InFlightHolds(g, was) && |e.threads| == |g.threads|
      requires Now(ep.TxLookupQueue) == was[ep.TxLookupQueue] && Now(detached) == was[detached]
      requires forall t :: 0 <= t < |e.threads| && e.threads[t].pc.Sending? ==> e.threads[t].pc == g.threads[t].pc
      ensures InFlightHolds(e, Snap(All()))
    {
    }

    lemma FromThese(a: Queue, b: Queue, c: Queue, was: Shot)
      requires was.Keys == All() && a in All() && b in All() && c in All()
      requires Members(a) + Members(b) + Members(c) <= was[a].members + was[b].members + was[c].members
      ensures FromPool({a, b, c}, was, {})
    {
      hide Members;
      forall q, n | q in {a, b, c} && n in Members(q) ensures exists d :: d in {a, b, c} && n in was[d].members {
        assert n in Members(a) + Members(b) + Members(c);
        assert a in {a, b, c} && b in {a, b, c} && c in {a, b, c};
        if n in was[a].members {
        } else if n in was[b].members {
        }
      }
    }

    lemma TwoFromThese(a: Queue, b: Queue, was: Shot)
      requires was.Keys == All() && a in All() && b in All()
      requires Members(a) + Members(b) <= was[a].members + was[b].members
      ensures FromPool({a, b}, was, {})
    {
      hide Members;
      FromThese(a, b, b, was);
      assert {a, b, b} == {a, b};
    }

    // ---------- actions that work on no queue ----------

    /** htc_try_send(NULL) is about to be called. */
    method Kick(t: nat)
      requires Valid() && Enabled(ep.cfg, e, Action.Kick(t))
      modifies this, ep, All(), Heads(All()), Pool(All())
      ensures Valid() && e == old(Do(ep.cfg, e, Action.Kick(t)))
      ensures Pool(All()) <= old(Pool(All()))
    {
      hide Valid, ThreadsHold, InFlightHolds, Stood, Items, PacketsOf, Members, Pool, PoolOf, Heads, All, Separate, Do, DoKick,
        Rest, Aside, Snap, SendHolds, CallerHolds, IsList, NodesIn, Within, Enabled, OneThread, Reachable;
      Stands();
      ghost var g, was := e, Snap(All());
      QuietStep(g, t, Action.Kick(t));
      e := Do(ep.cfg, e, Action.Kick(t));
      RestIs({}, was);
      QuietCloses(was, g, t);
    }

    /** hif_send_head succeeds. */
    method Accept(t: nat)
      requires Valid() && Enabled(ep.cfg, e, Action.Accept(t))
      modifies this, ep, All(), Heads(All()), Pool(All())
      ensures Valid() && e == old(Do(ep.cfg, e, Action.Accept(t)))
      ensures Pool(All()) <= old(Pool(All()))
    {
      hide Valid, ThreadsHold, InFlightHolds, Stood, Items, PacketsOf, Members, Pool, PoolOf, Heads, All, Separate, Do, DoAccept,
        Rest, Aside, Snap, SendHolds, CallerHolds, IsList, NodesIn, Within, Enabled, OneThread, Reachable;
      Stands();
      ghost var g, was := e, Snap(All());
      QuietStep(g, t, Action.Accept(t));
      e := Do(ep.cfg, e, Action.Accept(t));
      RestIs({}, was);
      QuietCloses(was, g, t);
    }

    /** A place in the engine at which the sendQueue is the same. */
    ghost predicate SameQueue(a: Pc, b: Pc) {
      a == b || (a.Idle? && b == Entering([])) || (a.Sending? && b == Issuing(a.queue))
    }

    lemma QuietStep(g: Engine, t: nat, a: Action)
      requires ep.cfg.Valid() && Reachable(ep.cfg, g) && Enabled(ep.cfg, g, a) && ((a.Kick? && a.t == t) || (a.Accept? && a.t == t))
      ensures var f := Do(ep.cfg, g, a);
        && Reachable(ep.cfg, f) && OneThread(g, f, t) && !f.threads[t].pc.Sending?
        && (ep.Shows(g) ==> ep.Shows(f))
        && SameQueue(g.threads[t].pc, f.threads[t].pc)
    {
      hide Reachable, Items, PacketsOf, FreshBatch, WasAccepted;
      ReachableStep(ep.cfg, g, a);
      assert Packets([]) == [];
    }

    lemma QuietCloses(was: Shot, g: Engine, t: nat)
      requires Stood(was, g) && Reachable(ep.cfg, e) && InFlightHolds(g, was) && OneThread(g, e, t)
      requires Rest({}, was) && ep.Shows(e) && !e.threads[t].pc.Sending?
      requires SameQueue(g.threads[t].pc, e.threads[t].pc)
      ensures Valid() && Pool(All()) <= PoolOf(was)
    {
      hide Items, PacketsOf, Members, Reachable, Separate, Spread, Family, GetPackets, AdmitSplit, RemoveFirst, FreshBatch, Pool, PoolOf, WasAccepted;
      assert Packets([]) == [];
      NoneTouched();
      InFlightStays(was, g);
      Close({}, was, {}, g, t);
    }

    lemma NoneTouched()
      ensures Family({})
    {
    }

    /** An entry of a credit report for the endpoint. */
    method Report(t: nat, credits: nat) returns (kick: bool)
      requires Valid() && Enabled(ep.cfg, e, Action.Report(t, credits))
      modifies this, ep, All(), Heads(All()), Pool(All())
      ensures Valid() && e == old(Do(ep.cfg, e, Action.Report(t, credits)))
      ensures Pool(All()) <= old(Pool(All()))
      ensures kick <==> e.threads[t].pc == Entering([])
    {
      hide Valid, ThreadsHold, InFlightHolds, Stood, Items, PacketsOf, Members, Pool, PoolOf, Heads, All, Separate, Do, DoReport,
        Rest, Aside, Snap, SendHolds, CallerHolds, IsList, NodesIn, Within, Enabled, OneThread, Reachable;
      Stands();
      ReportIs(t, credits);
      ghost var g, was := e, Snap(All());
      kick := ep.AddCredits(credits, e, t);
      e := Do(ep.cfg, e, Action.Report(t, credits));
      forall q | q in All() ensures q.Loose() && Now(q) == was[q] {
      }
      RestIs({}, was);
      QuietCloses(was, g, t);
    }

    lemma ReportIs(t: nat, credits: nat)
      requires ep.cfg.Valid() && Reachable(ep.cfg, e) && Enabled(ep.cfg, e, Action.Report(t, credits))
      ensures t < |e.threads| && e.threads[t].pc.Idle?
      ensures var f := Do(ep.cfg, e, Action.Report(t, credits));
        && f == DoReport(e, t, credits) && Reachable(ep.cfg, f) && OneThread(e, f, t) && !f.threads[t].pc.Sending?
        && SameQueue(e.threads[t].pc, f.threads[t].pc)
    {
      hide Reachable;
      ReachableStep(ep.cfg, e, Action.Report(t, credits));
      assert Packets([]) == [];
    }

    // ---------- TxQueue and a thread's sendQueue ----------

    /** EnterTrySend, with what it leaves alone. */
    method EnterAside(send: Queue, bus: Bus, ghost others: set<Queue>, ghost t: nat, ghost f: Engine) returns (issuing: bool)
      requires ep.cfg.Valid() && ep.Shows(e) && ep.Beside(send, Members(ep.TxQueue) + Members(send))
      requires Aside(others, {ep.TxQueue, send})
      requires t < |e.threads| && e.threads[t].pc.Entering? && PacketsOf(send.Nodes) == e.threads[t].pc.batch
      requires f == DoEnter(ep.cfg, e, t, bus) && t < |f.threads|
      modifies ep, ep.TxQueue, ep.TxQueue.QueueHead, Members(ep.TxQueue), send, send.QueueHead, Members(send)
      ensures forall q :: q in others ==> q.Loose() && Now(q) == old(Now(q))
      ensures ep.Shows(f) && ep.Beside(send, old(Members(ep.TxQueue) + Members(send)))
      ensures Items(send.Nodes) == HandOf(f.threads[t].pc) && (issuing <==> f.threads[t].pc.Issuing?)
    {
      hide Items, PacketsOf, Members, IsList, Separate, NodesIn, Within, DoEnter;
      issuing := ep.EnterTrySend(bus, send, Members(ep.TxQueue) + Members(send), e, t);
    }

    method RelockAside(send: Queue, bus: Bus, ghost others: set<Queue>, ghost t: nat, ghost f: Engine) returns (issuing: bool)
      requires ep.cfg.Valid() && ep.Shows(e) && ep.Beside(send, Members(ep.TxQueue) + Members(send))
      requires Aside(others, {ep.TxQueue, send}) && t < |e.threads| && send.Nodes == []
      requires f == Drain(ep.cfg, e, t, bus) && t < |f.threads|
      modifies ep, ep.TxQueue, ep.TxQueue.QueueHead, Members(ep.TxQueue), send, send.QueueHead, Members(send)
      ensures forall q :: q in others ==> q.Loose() && Now(q) == old(Now(q))
      ensures ep.Shows(f) && ep.Beside(send, old(Members(ep.TxQueue) + Members(send)))
      ensures Items(send.Nodes) == HandOf(f.threads[t].pc) && (issuing <==> f.threads[t].pc.Issuing?)
    {
      hide Items, PacketsOf, Members, IsList, Separate, NodesIn, Within, Drain;
      issuing := ep.DrainTurn(bus, send, Members(ep.TxQueue) + Members(send), e, t);
    }

    method RequeueAside(send: Queue, ghost others: set<Queue>, ghost t: nat)
      requires ep.Shows(e) && ep.Beside(send, Members(ep.TxQueue) + Members(send)) && Aside(others, {ep.TxQueue, send})
      requires t < |e.threads| && e.threads[t].pc.Returning? && Items(send.Nodes) == e.threads[t].pc.queue
      modifies ep, ep.TxQueue, ep.TxQueue.QueueHead, Members(ep.TxQueue), send, send.QueueHead, Members(send)
      ensures forall q :: q in others ==> q.Loose() && Now(q) == old(Now(q))
      ensures ep.Shows(DoRequeue(e, t)) && ep.Beside(send, old(Members(ep.TxQueue) + Members(send))) && Items(send.Nodes) == []
    {
      hide PacketsOf, Members, IsList, Separate, NodesIn, Within, DoRequeue;
      ep.RequeueFailed(send, Members(ep.TxQueue) + Members(send), e, t);
    }

    /** The top of htc_try_send. */
    method Enter(t: nat, bus: Bus) returns (issuing: bool)
      requires Valid() && Enabled(ep.cfg, e, Action.Enter(t, bus))
      modifies this, ep, All(), Heads(All()), Pool(All())
      ensures Valid() && e == old(Do(ep.cfg, e, Action.Enter(t, bus)))
      ensures Pool(All()) <= old(Pool(All()))
      ensures t < |e.threads| && (issuing <==> e.threads[t].pc.Issuing?)
    {
      hide Valid, ThreadsHold, InFlightHolds, Stood, Items, PacketsOf, Members, Pool, PoolOf, Heads, All, Separate, Do, DoEnter,
        Rest, Aside, Snap, SendHolds, CallerHolds, IsList, NodesIn, Within, Enabled, OneThread, Reachable;
      Stands();
      EnterIs(t, bus);
      Finds(t);
      ghost var g, was, send := e, Snap(All()), sendQueues[t];
      EnteringHolds(t);
      DrainStep(g, t, Action.Enter(t, bus));
      InReach(send);
      InReach(ep.TxQueue);
      RestIsAside({ep.TxQueue, send});
      ghost var f := Do(ep.cfg, e, Action.Enter(t, bus));
      issuing := EnterAside(sendQueues[t], bus, All() - {ep.TxQueue, send}, t, f);
      e := f;
      RestIs({ep.TxQueue, send}, was);
      DrainCloses(was, g, t);
    }

    lemma EnterIs(t: nat, bus: Bus)
      requires ep.cfg.Valid() && Enabled(ep.cfg, e, Action.Enter(t, bus))
      ensures t < |e.threads| && e.threads[t].pc.Entering?
      ensures Do(ep.cfg, e, Action.Enter(t, bus)) == DoEnter(ep.cfg, e, t, bus)
    {
    }

    lemma EnteringHolds(t: nat)
      requires Valid() && t < |e.threads| && e.threads[t].pc.Entering?
      ensures PacketsOf(sendQueues[t].Nodes) == e.threads[t].pc.batch
    {
      hide Items, PacketsOf;
      assert SendHolds(e.threads[t].pc, Now(sendQueues[t]));
      PacketsAreOf(sendQueues[t].Nodes);
    }

    /** The drainer takes the lock again after issuing everything. */
    method Relock(t: nat, bus: Bus) returns (issuing: bool)
      requires Valid() && Enabled(ep.cfg, e, Action.Relock(t, bus))
      modifies this, ep, All(), Heads(All()), Pool(All())
      ensures Valid() && e == old(Do(ep.cfg, e, Action.Relock(t, bus)))
      ensures Pool(All()) <= old(Pool(All()))
      ensures t < |e.threads| && (issuing <==> e.threads[t].pc.Issuing?)
    {
      hide Valid, ThreadsHold, InFlightHolds, Stood, Items, PacketsOf, Members, Pool, PoolOf, Heads, All, Separate, Do, Drain,
        Rest, Aside, Snap, SendHolds, CallerHolds, IsList, NodesIn, Within, Enabled, OneThread, Reachable;
      Stands();
      RelockIs(t, bus);
      Finds(t);
      ghost var g, was, send := e, Snap(All()), sendQueues[t];
      InReach(send);
      InReach(ep.TxQueue);
      RestIsAside({ep.TxQueue, send});
      ghost var f := Do(ep.cfg, e, Action.Relock(t, bus));
      DrainStep(g, t, Action.Relock(t, bus));
      issuing := RelockAside(sendQueues[t], bus, All() - {ep.TxQueue, send}, t, f);
      e := f;
      RestIs({ep.TxQueue, send}, was);
      DrainCloses(was, g, t);
    }

    lemma RelockIs(t: nat, bus: Bus)
      requires Valid() && Enabled(ep.cfg, e, Action.Relock(t, bus))
      ensures t < |e.threads| && Do(ep.cfg, e, Action.Relock(t, bus)) == Drain(ep.cfg, e, t, bus)
      ensures sendQueues[t].Nodes == []
    {
      assert SendHolds(e.threads[t].pc, Now(sendQueues[t]));
    }

    /** The end of a failed drain. */
    method Requeue(t: nat)
      requires Valid() && Enabled(ep.cfg, e, Action.Requeue(t))
      modifies this, ep, All(), Heads(All()), Pool(All())
      ensures Valid() && e == old(Do(ep.cfg, e, Action.Requeue(t)))
      ensures Pool(All()) <= old(Pool(All()))
    {
      hide Valid, ThreadsHold, InFlightHolds, Stood, Items, PacketsOf, Members, Pool, PoolOf, Heads, All, Separate, Do, DoRequeue,
        Rest, Aside, Snap, SendHolds, CallerHolds, IsList, NodesIn, Within, Enabled, OneThread, Reachable;
      Stands();
      RequeueIs(t);
      Finds(t);
      ghost var g, was, send := e, Snap(All()), sendQueues[t];
      InReach(send);
      InReach(ep.TxQueue);
      RestIsAside({ep.TxQueue, send});
      RequeueAside(sendQueues[t], All() - {ep.TxQueue, send}, t);
      DrainStep(g, t, Action.Requeue(t));
      e := Do(ep.cfg, e, Action.Requeue(t));
      RestIs({ep.TxQueue, send}, was);
      DrainCloses(was, g, t);
    }

    lemma RequeueIs(t: nat)
      requires Valid() && Enabled(ep.cfg, e, Action.Requeue(t))
      ensures t < |e.threads| && e.threads[t].pc.Returning? && Do(ep.cfg, e, Action.Requeue(t)) == DoRequeue(e, t)
      ensures Items(sendQueues[t].Nodes) == e.threads[t].pc.queue && DoRequeue(e, t).threads[t].pc == Leaving
    {
      assert SendHolds(e.threads[t].pc, Now(sendQueues[t]));
    }

    lemma DrainStep(g: Engine, t: nat, a: Action)
      requires ep.cfg.Valid() && Reachable(ep.cfg, g) && Enabled(ep.cfg, g, a)
      requires (a.Enter? && a.t == t) || (a.Relock? && a.t == t) || (a.Requeue? && a.t == t)
      ensures var f := Do(ep.cfg, g, a);
        Reachable(ep.cfg, f) && |f.threads| == |g.threads| && OneThread(g, f, t) && (f.threads[t].pc.Issuing? || f.threads[t].pc == Leaving)
    {
      hide Reachable, GetPackets, FreshBatch, WasAccepted;
      ReachableStep(ep.cfg, g, a);
    }

    lemma DrainCloses(was: Shot, g: Engine, t: nat)
      requires Stood(was, g) && Reachable(ep.cfg, e) && InFlightHolds(g, was) && OneThread(g, e, t)
      requires e.threads[t].pc.Issuing? || e.threads[t].pc == Leaving
      requires Rest({ep.TxQueue, sendQueues[t]}, was) && ep.Shows(e)
      requires ep.Beside(sendQueues[t], was[ep.TxQueue].members + was[sendQueues[t]].members)
      requires Items(sendQueues[t].Nodes) == HandOf(e.threads[t].pc)
      ensures Valid() && Pool(All()) <= PoolOf(was)
    {
      hide Items, PacketsOf, Members, Reachable, Separate, Spread, Family, GetPackets, AdmitSplit, RemoveFirst, FreshBatch, FromPool, Pool, PoolOf, WasAccepted, Within;
      var send := sendQueues[t];
      ep.BesideMeans(send, was[ep.TxQueue].members + was[send].members);
      PairFamily(ep.TxQueue, send);
      TwoFromThese(ep.TxQueue, send, was);
      InFlightStays(was, g);
      Close({ep.TxQueue, send}, was, {}, g, t);
    }

    // ---------- TxLookupQueue and a thread's sendQueue ----------

    /** IssueNext, with what it leaves alone. */
    method IssueAside(send: Queue, ghost others: set<Queue>, ghost t: nat) returns (p: DlNode?<Charged>)
      requires ep.Shows(e) && ep.Beside(send, Members(ep.TxQueue) + Members(send)) && Aside(others, {ep.TxLookupQueue, send})
      requires t < |e.threads| && e.threads[t].pc.Issuing? && e.threads[t].pc.queue != []
      requires Items(send.Nodes) == e.threads[t].pc.queue
      modifies ep, ep.TxLookupQueue, ep.TxLookupQueue.QueueHead, Members(ep.TxLookupQueue)
      modifies send, send.QueueHead, Members(send)
      ensures forall q :: q in others ==> q.Loose() && Now(q) == old(Now(q))
      ensures p != null && p in old(Members(send)) && ep.Shows(DoIssue(e, t)) && send.Valid() && Separate(ep.TxLookupQueue, send)
      ensures p.item == DoIssue(e, t).threads[t].pc.current && Items(send.Nodes) == DoIssue(e, t).threads[t].pc.queue
      ensures Members(send) == old(Members(send)) - {p} && Members(ep.TxLookupQueue) == old(Members(ep.TxLookupQueue)) + {p}
    {
      hide Items, PacketsOf, Members, IsList, Separate, NodesIn, Within;
      p := ep.IssueNext(send, Members(ep.TxQueue) + Members(send), e, t);
    }

    /** The drainer issues a packet. */
    method Issue(t: nat)
      requires Valid() && Enabled(ep.cfg, e, Action.Issue(t))
      modifies this, ep, All(), Heads(All()), Pool(All())
      ensures Valid() && e == old(Do(ep.cfg, e, Action.Issue(t)))
      ensures Pool(All()) <= old(Pool(All()))
    {
      hide Valid, ThreadsHold, InFlightHolds, Stood, Items, PacketsOf, Members, Pool, PoolOf, Heads, All, Separate, Do, DoIssue,
        Rest, Aside, Snap, SendHolds, CallerHolds, IsList, NodesIn, Within, Enabled, OneThread, Reachable;
      Stands();
      IssueIs(t);
      Finds(t);
      ghost var g, was, send, lookup := e, Snap(All()), sendQueues[t], ep.TxLookupQueue;
      InReach(send);
      InReach(lookup);
      RestIsAside({lookup, send});
      inFlight := IssueAside(sendQueues[t], All() - {lookup, send}, t);
      e := Do(ep.cfg, e, Action.Issue(t));
      RestIs({lookup, send}, was);
      IssueCloses(was, g, t);
    }

    lemma IssueIs(t: nat)
      requires Valid() && Enabled(ep.cfg, e, Action.Issue(t))
      ensures t < |e.threads| && e.threads[t].pc.Issuing? && e.threads[t].pc.queue != []
      ensures Items(sendQueues[t].Nodes) == e.threads[t].pc.queue && IssueStepped(e, Do(ep.cfg, e, Action.Issue(t)), t)
    {
      hide Valid, Reachable, IssueStepped, Do, Distinct, ThreadsHold, InFlightHolds, All, Heads, Pool, Members, Items;
      Stands();
      Finds(t);
      IssueStep(e, t);
    }

    ghost predicate IssueStepped(g: Engine, f: Engine, t: nat)
      requires ep.cfg.Valid() && t < |g.threads| && g.threads[t].pc.Issuing? && g.threads[t].pc.queue != []
    {
      && f == DoIssue(g, t) && Reachable(ep.cfg, f) && OneThread(g, f, t) && f.threads[t].pc.Sending?
      && forall u :: 0 <= u < |f.threads| && f.threads[u].pc.Sending? ==> u == t
    }

    lemma IssueStep(g: Engine, t: nat)
      requires ep.cfg.Valid() && Reachable(ep.cfg, g) && Enabled(ep.cfg, g, Action.Issue(t))
      ensures IssueStepped(g, Do(ep.cfg, g, Action.Issue(t)), t)
    {
      hide Reachable;
      ReachableStep(ep.cfg, g, Action.Issue(t));
      SingleDrainer(ep.cfg, Do(ep.cfg, g, Action.Issue(t)));
    }

    lemma IssueCloses(was: Shot, g: Engine, t: nat)
      requires Stood(was, g) && Reachable(ep.cfg, e) && OneThread(g, e, t) && e.threads[t].pc.Sending?
      requires forall u :: 0 <= u < |e.threads| && e.threads[u].pc.Sending? ==> u == t
      requires Rest({ep.TxLookupQueue, sendQueues[t]}, was) && ep.Shows(e)
      requires inFlight != null && inFlight.item == e.threads[t].pc.current
      requires sendQueues[t].Valid() && Items(sendQueues[t].Nodes) == e.threads[t].pc.queue
      requires Separate(ep.TxLookupQueue, sendQueues[t])
      requires inFlight in was[sendQueues[t]].members
      requires Members(sendQueues[t]) == was[sendQueues[t]].members - {inFlight}
      requires Members(ep.TxLookupQueue) == was[ep.TxLookupQueue].members + {inFlight}
      ensures Valid() && Pool(All()) <= PoolOf(was)
    {
      hide Items, PacketsOf, Members, Reachable, Separate, Spread, Family, GetPackets, AdmitSplit, RemoveFirst, FreshBatch, FromPool, Pool, PoolOf, WasAccepted;
      PairFamily(ep.TxLookupQueue, sendQueues[t]);
      TwoFromThese(ep.TxLookupQueue, sendQueues[t], was);
      HoldsMeans(ep.TxLookupQueue, inFlight, inFlight.item);
      Close({ep.TxLookupQueue, sendQueues[t]}, was, {}, g, t);
    }

    /** ReclaimFailed, with what it leaves alone. */
    method RejectAside(send: Queue, p: Node, ghost owner: Queue, ghost k: nat, ghost others: set<Queue>, ghost t: nat, ghost f: Engine)
      requires ep.Shows(e) && ep.ShowsDetached(detached, e) && ep.Beside(send, Members(ep.TxQueue) + Members(send))
      requires Aside(others, {ep.TxLookupQueue, detached, send})
      requires Separate(detached, send) && Members(detached) !! Members(ep.TxQueue) + Members(send)
      requires t < |e.threads| && e.threads[t].pc.Sending? && p.item == e.threads[t].pc.current
      requires Items(send.Nodes) == e.threads[t].pc.queue && k < |owner.Nodes| && owner.Nodes[k] == p
      requires Located(owner, k, e, t)
      requires f == DoReject(e, t) && t < |f.threads| && f.threads[t].pc.Returning?
      modifies ep, ep.TxLookupQueue, detached, owner.QueueHead, Members(owner), send, send.QueueHead, Members(send)
      ensures forall q :: q in others ==> q.Loose() && Now(q) == old(Now(q))
      ensures ep.Shows(f) && ep.ShowsDetached(detached, f) && send.Valid() && Items(send.Nodes) == f.threads[t].pc.queue
      ensures Separate(ep.TxLookupQueue, send) && Separate(detached, send)
      ensures Members(ep.TxLookupQueue) + Members(detached) + Members(send) <=
        old(Members(ep.TxLookupQueue) + Members(detached) + Members(send))
    {
      hide Items, PacketsOf, Members, IsList, Separate, NodesIn, Within, DoReject, FirstMatch, RemoveFirst;
      ep.ReclaimFailed(p, owner, k, detached, send, Members(ep.TxQueue) + Members(send), e, t);
    }

    /** Where the packet HIF is deciding on is, and that it is found there. */
    ghost predicate Located(owner: Queue, k: nat, g: Engine, t: nat)
      requires t < |g.threads| && g.threads[t].pc.Sending?
    {
      var netbuf := g.threads[t].pc.current.packet.netbuf;
      || (owner == ep.TxLookupQueue && FirstMatch(g.lookup, netbuf) == k)
      || (owner == detached && g.search.Searching? && RemoveFirst(g.lookup, netbuf).found.Missing?
          && FirstMatch(g.search.list, netbuf) == k)
    }

    lemma Locate(t: nat) returns (owner: Queue, k: nat)
      requires Valid() && t < |e.threads| && e.threads[t].pc.Sending?
      ensures inFlight != null && inFlight.item == e.threads[t].pc.current && (owner == ep.TxLookupQueue || owner == detached)
      ensures k < |owner.Nodes| && owner.Nodes[k] == inFlight && Located(owner, k, e, t)
      ensures Separate(detached, sendQueues[t]) && Members(detached) !! Members(ep.TxQueue) + Members(sendQueues[t])
    {
      hide Items, PacketsOf, Members, Reachable, Separate, FirstMatch, RemoveFirst;
      var current := e.threads[t].pc.current;
      ReachableIsSound(ep.cfg, e);
      SoundLookup(ep.cfg, e);
      FamilySeparates(All(), detached, sendQueues[t]);
      FamilySeparates(All(), detached, ep.TxQueue);
      SeparateMeans(detached, sendQueues[t]);
      SeparateMeans(detached, ep.TxQueue);
      if Now(ep.TxLookupQueue).Holds(inFlight, current) {
        owner := ep.TxLookupQueue;
        k :| 0 <= k < |owner.Nodes| && owner.Nodes[k] == inFlight && Items(owner.Nodes)[k] == current;
        FirstIsOnly(e, e.lookup, k);
      } else {
        owner := detached;
        k :| 0 <= k < |owner.Nodes| && owner.Nodes[k] == inFlight && Items(owner.Nodes)[k] == current;
        FirstIsOnly(e, SearchList(e), k);
        HitAt(SearchList(e), k);
        InOnePart(e, current.packet.netbuf);
      }
    }

    lemma SoundLookup(cfg: Config, g: Engine)
      requires cfg.Valid() && Sound(cfg, g)
      ensures Conserved(g) && SearchSound(g) && OneDrainer(g)
    {
    }

    /** HIF refuses the packet. */
    method Reject(t: nat)
      requires Valid() && Enabled(ep.cfg, e, Action.Reject(t))
      modifies this, ep, All(), Heads(All()), Pool(All())
      ensures Valid() && e == old(Do(ep.cfg, e, Action.Reject(t)))
      ensures Pool(All()) <= old(Pool(All()))
    {
      hide Valid, ThreadsHold, InFlightHolds, Stood, Items, PacketsOf, Members, Pool, PoolOf, Heads, All, Separate, Do, DoReject, Located, RejectStepped,
        Rest, Aside, Snap, SendHolds, CallerHolds, IsList, NodesIn, Within, Enabled, OneThread, Reachable;
      Stands();
      RejectIs(t);
      Finds(t);
      ghost var owner, k := Locate(t);
      ghost var g, was, send, f := e, Snap(All()), sendQueues[t], Do(ep.cfg, e, Action.Reject(t));
      ghost var touched := {ep.TxLookupQueue, detached, send};
      InReach(send);
      InReach(owner);
      RestIsAside(touched);
      RejectAside(sendQueues[t], inFlight, owner, k, All() - touched, t, f);
      e := f;
      RestIs(touched, was);
      RejectCloses(was, g, t);
    }

    lemma RejectIs(t: nat)
      requires Valid() && Enabled(ep.cfg, e, Action.Reject(t))
      ensures t < |e.threads| && e.threads[t].pc.Sending? && Items(sendQueues[t].Nodes) == e.threads[t].pc.queue
      ensures var f := Do(ep.cfg, e, Action.Reject(t));
        RejectStepped(e, f, t) && f == DoReject(e, t) && |f.threads| == |e.threads| && f.threads[t].pc.Returning?
    {
      hide Valid, Reachable, Do, Distinct, ThreadsHold, InFlightHolds, All, Heads, Pool, Members, Items;
      Stands();
      Finds(t);
      RejectStep(e, t);
    }

    ghost predicate RejectStepped(g: Engine, f: Engine, t: nat)
      requires ep.cfg.Valid() && t < |g.threads| && g.threads[t].pc.Sending?
    {
      && f == DoReject(g, t) && Reachable(ep.cfg, f) && |f.threads| == |g.threads| && f.threads[t].pc.Returning?
      && (forall u :: 0 <= u < |g.threads| && u != t ==> f.threads[u] == g.threads[u])
      && f.threads[t].left == g.threads[t].left
      && forall u :: 0 <= u < |f.threads| ==> !f.threads[u].pc.Sending?
    }

    lemma RejectStep(g: Engine, t: nat)
      requires ep.cfg.Valid() && Reachable(ep.cfg, g) && Enabled(ep.cfg, g, Action.Reject(t))
      ensures RejectStepped(g, Do(ep.cfg, g, Action.Reject(t)), t)
    {
      hide Reachable, RemoveFirst;
      ReachableStep(ep.cfg, g, Action.Reject(t));
      SingleDrainer(ep.cfg, Do(ep.cfg, g, Action.Reject(t)));
    }

    lemma RejectCloses(was: Shot, g: Engine, t: nat)
      requires Stood(was, g) && t < |g.threads| && g.threads[t].pc.Sending? && RejectStepped(g, e, t)
      requires Rest({ep.TxLookupQueue, detached, sendQueues[t]}, was) && ep.Shows(e) && ep.ShowsDetached(detached, e)
      requires sendQueues[t].Valid() && Items(sendQueues[t].Nodes) == e.threads[t].pc.queue
      requires Separate(ep.TxLookupQueue, sendQueues[t]) && Separate(detached, sendQueues[t])
      requires Members(ep.TxLookupQueue) + Members(detached) + Members(sendQueues[t]) <=
        was[ep.TxLookupQueue].members + was[detached].members + was[sendQueues[t]].members
      ensures Valid() && Pool(All()) <= PoolOf(was)
    {
      hide Items, PacketsOf, Members, Reachable, Separate, Spread, Family, GetPackets, AdmitSplit, RemoveFirst, FreshBatch, FromPool, Pool, PoolOf, WasAccepted;
      TripleFamily(ep.TxLookupQueue, detached, sendQueues[t]);
      FromThese(ep.TxLookupQueue, detached, sendQueues[t], was);
      Close({ep.TxLookupQueue, detached, sendQueues[t]}, was, {}, g, t);
    }

    // ---------- completions ----------

    /** A completion hands over the packet it removes, unless it begins a search. */
    ghost predicate Answers(g: Engine, f: Engine, p: DlNode?<Charged>)
      reads if p == null then {} else {p}
    {
      && (f.search.Searching? ==> p == null)
      && (f.search.NoSearch? ==> f.log.finished == g.log.finished + (if p == null then [] else [p.item.packet]))
    }

    method CompleteAside(netbuf: nat, ghost others: set<Queue>) returns (p: DlNode?<Charged>)
      requires ep.Shows(e) && e.search.NoSearch? && ep.ShowsDetached(detached, e) && Aside(others, {ep.TxLookupQueue, detached})
      modifies ep, ep.TxLookupQueue, ep.TxLookupQueue.QueueHead`pPrev, ep.TxLookupQueue.QueueHead`pNext
      modifies Members(ep.TxLookupQueue)`pPrev, Members(ep.TxLookupQueue)`pNext
      modifies detached, detached.QueueHead`pPrev, detached.QueueHead`pNext
      ensures forall q :: q in others ==> q.Loose() && Now(q) == old(Now(q))
      ensures ep.Shows(DoComplete(e, netbuf)) && ep.ShowsDetached(detached, DoComplete(e, netbuf))
      ensures Answers(e, DoComplete(e, netbuf), p)
      ensures p != null ==> p.item.packet.netbuf == netbuf
      ensures Members(ep.TxLookupQueue) + Members(detached) == old(Members(ep.TxLookupQueue) + Members(detached)) - NodeSet(p)
    {
      hide Items, PacketsOf, Members, IsList, Separate, NodesIn, Within, DoComplete;
      assert detached.Nodes == [];
      EmptyShows(detached);
      p := ep.LookupBegin(netbuf, detached, e);
    }

    method FinishSearchAside(netbuf: nat, ghost others: set<Queue>) returns (p: DlNode?<Charged>)
      requires ep.Shows(e) && e.search.Searching? && e.search.netbuf == netbuf && ep.ShowsDetached(detached, e)
      requires Aside(others, {ep.TxLookupQueue, detached})
      modifies ep.TxLookupQueue, ep.TxLookupQueue.QueueHead`pPrev, ep.TxLookupQueue.QueueHead`pNext
      modifies Members(ep.TxLookupQueue)`pPrev, Members(ep.TxLookupQueue)`pNext
      modifies detached, detached.QueueHead`pPrev, detached.QueueHead`pNext, Members(detached)`pPrev, Members(detached)`pNext
      ensures forall q :: q in others ==> q.Loose() && Now(q) == old(Now(q))
      ensures ep.Shows(DoFinishSearch(e)) && ep.ShowsDetached(detached, DoFinishSearch(e))
      ensures Answers(e, DoFinishSearch(e), p)
      ensures p != null ==> p.item.packet.netbuf == netbuf
      ensures Members(ep.TxLookupQueue) + Members(detached) ==
        old(Members(ep.TxLookupQueue) + Members(detached)) - NodeSet(p)
    {
      hide Items, PacketsOf, Members, IsList, Separate, NodesIn, Within, DoFinishSearch;
      p := ep.LookupFinish(netbuf, detached, e);
      SearchEnds();
    }

    lemma SearchEnds()
      requires e.search.Searching?
      ensures DoFinishSearch(e).search.NoSearch?
    {
    }

    /** HIF reports a completion. */
    method Complete(netbuf: nat) returns (p: DlNode?<Charged>)
      requires Valid() && Enabled(ep.cfg, e, Action.Complete(netbuf))
      modifies this, ep, All(), Heads(All()), Pool(All())
      ensures Valid() && e == old(Do(ep.cfg, e, Action.Complete(netbuf)))
      ensures Pool(All()) <= old(Pool(All()))
      ensures Answers(old(e), e, p)
    {
      hide Valid, ThreadsHold, InFlightHolds, Stood, Items, PacketsOf, Members, Pool, PoolOf, Heads, All, Separate, Do, DoComplete, LookupStep, Answers,
        Rest, Aside, Snap, SendHolds, CallerHolds, IsList, NodesIn, Within, Enabled, OneThread, Reachable;
      Stands();
      LookupIs(Action.Complete(netbuf), netbuf);
      ghost var g, was, f := e, Snap(All()), Do(ep.cfg, e, Action.Complete(netbuf));
      ghost var touched := {ep.TxLookupQueue, detached};
      InReach(ep.TxLookupQueue);
      InReach(detached);
      RestIsAside(touched);
      p := CompleteAside(netbuf, All() - touched);
      e := f;
      RestIs(touched, was);
      LookupCloses(was, g, netbuf, p);
    }

    /** The completion handler has searched the detached packets. */
    method FinishSearch(netbuf: nat) returns (p: DlNode?<Charged>)
      requires Valid() && Enabled(ep.cfg, e, Action.FinishSearch) && Searches(netbuf)
      modifies this, ep, All(), Heads(All()), Pool(All())
      ensures Valid() && e == old(Do(ep.cfg, e, Action.FinishSearch))
      ensures Pool(All()) <= old(Pool(All()))
      ensures Answers(old(e), e, p)
    {
      hide Valid, ThreadsHold, InFlightHolds, Stood, Items, PacketsOf, Members, Pool, PoolOf, Heads, All, Separate, Do, DoFinishSearch, LookupStep, Answers,
        Rest, Aside, Snap, SendHolds, CallerHolds, IsList, NodesIn, Within, Enabled, OneThread, Reachable;
      Stands();
      LookupIs(Action.FinishSearch, netbuf);
      ghost var g, was, f := e, Snap(All()), Do(ep.cfg, e, Action.FinishSearch);
      ghost var touched := {ep.TxLookupQueue, detached};
      InReach(ep.TxLookupQueue);
      InReach(detached);
      RestIsAside(touched);
      p := FinishSearchAside(netbuf, All() - touched);
      e := f;
      RestIs(touched, was);
      LookupCloses(was, g, netbuf, p);
    }

    /** The completion handler is searching for this network buffer. */
    ghost predicate Searches(netbuf: nat)
      reads this`e
    {
      e.search.Searching? && e.search.netbuf == netbuf
    }

    /** A completion leaves the threads alone, and is not for what HIF is deciding on. */
    ghost predicate LookupStep(g: Engine, f: Engine, netbuf: nat) {
      && f.threads == g.threads
      && forall t :: 0 <= t < |g.threads| && g.threads[t].pc.Sending? ==> g.threads[t].pc.current.packet.netbuf != netbuf
    }

    lemma LookupIs(a: Action, netbuf: nat)
      requires Valid() && Enabled(ep.cfg, e, a)
      requires a == Action.Complete(netbuf) || (a == Action.FinishSearch && e.search.netbuf == netbuf)
      ensures a.Complete? ==> e.search.NoSearch? && Do(ep.cfg, e, a) == DoComplete(e, netbuf)
      ensures a.FinishSearch? ==> e.search.Searching? && Do(ep.cfg, e, a) == DoFinishSearch(e)
      ensures Reachable(ep.cfg, Do(ep.cfg, e, a)) && LookupStep(e, Do(ep.cfg, e, a), netbuf)
      ensures forall t :: 0 <= t < |e.threads| && e.threads[t].pc.Sending? ==>
        inFlight != null && inFlight in Members(ep.TxLookupQueue) + Members(detached) && inFlight.item == e.threads[t].pc.current
    {
      hide Valid, Reachable, RemoveFirst, WasAccepted, Items, Members;
      Stands();
      LookupStepIs(e, a, netbuf);
      ReachableStep(ep.cfg, e, a);
      forall t | 0 <= t < |e.threads| && e.threads[t].pc.Sending?
        ensures inFlight != null && inFlight in Members(ep.TxLookupQueue) + Members(detached) && inFlight.item == e.threads[t].pc.current
      {
        HoldsMeans(ep.TxLookupQueue, inFlight, e.threads[t].pc.current);
        HoldsMeans(detached, inFlight, e.threads[t].pc.current);
      }
    }

    lemma LookupStepIs(g: Engine, a: Action, netbuf: nat)
      requires ep.cfg.Valid() && Reachable(ep.cfg, g) && Enabled(ep.cfg, g, a)
      requires a == Action.Complete(netbuf) || (a == Action.FinishSearch && g.search.netbuf == netbuf)
      ensures LookupStep(g, Do(ep.cfg, g, a), netbuf)
    {
      hide Reachable, RemoveFirst, Conserved, Sound;
      ReachableIsSound(ep.cfg, g);
      SoundLookup(ep.cfg, g);
      forall t | 0 <= t < |g.threads| && g.threads[t].pc.Sending? ensures g.threads[t].pc.current.packet.netbuf != netbuf {
        CountChargedAt(Hand(g), 0);
        AcceptedDiffers(g, g.threads[t].pc.current, netbuf);
      }
    }

    lemma LookupCloses(was: Shot, g: Engine, netbuf: nat, p: DlNode?<Charged>)
      requires Stood(was, g) && Reachable(ep.cfg, e) && LookupStep(g, e, netbuf)
      requires Rest({ep.TxLookupQueue, detached}, was) && ep.Shows(e) && ep.ShowsDetached(detached, e)
      requires p != null ==> p.item.packet.netbuf == netbuf
      requires Members(ep.TxLookupQueue) + Members(detached) == was[ep.TxLookupQueue].members + was[detached].members - NodeSet(p)
      requires forall t :: 0 <= t < |g.threads| && g.threads[t].pc.Sending? ==>
        inFlight != null && inFlight in was[ep.TxLookupQueue].members + was[detached].members && inFlight.item == g.threads[t].pc.current
      ensures Valid() && Pool(All()) <= PoolOf(was)
    {
      hide Items, PacketsOf, Members, Reachable, Separate, Spread, Family, GetPackets, AdmitSplit, RemoveFirst, FreshBatch, FromPool, Pool, PoolOf, WasAccepted;
      PairFamily(ep.TxLookupQueue, detached);
      TwoFromThese(ep.TxLookupQueue, detached, was);
      forall t | 0 <= t < |e.threads| && e.threads[t].pc.Sending?
        ensures Now(ep.TxLookupQueue).Holds(inFlight, e.threads[t].pc.current) || Now(detached).Holds(inFlight, e.threads[t].pc.current)
      {
        assert inFlight != p && inFlight in Members(ep.TxLookupQueue) + Members(detached);
        HoldsMeans(ep.TxLookupQueue, inFlight, e.threads[t].pc.current);
        HoldsMeans(detached, inFlight, e.threads[t].pc.current);
      }
      Close({ep.TxLookupQueue, detached}, was, {}, g, |g.threads|);
    }

    /** Depth of TxLookupQueue is the number of packets in it exactly if HIF refused none
      * that the search under way had detached. */
    lemma LookupDepth()
      requires Valid()
      ensures ep.TxLookupQueue.Depth == |ep.TxLookupQueue.Nodes| <==> e.log.refused == []
      ensures e.search.NoSearch? ==> ep.TxLookupQueue.Depth == |ep.TxLookupQueue.Nodes|
    {
      hide Reachable, Items, Distinct, ThreadsHold, InFlightHolds;
      DepthIsExactUnlessRefused(ep.cfg, e);
    }

    /** What a thread can see of its place: how much is in its sendQueue, and the packet
      * HIF is deciding on. */
    lemma InSight(t: nat)
      requires Valid() && t < |e.threads|
      ensures ep.cfg.Valid() && t < |sendQueues|
      ensures e.threads[t].pc.Issuing? ==> sendQueues[t].Depth == |e.threads[t].pc.queue|
      ensures e.threads[t].pc.Sending? ==> inFlight != null && inFlight.item == e.threads[t].pc.current
    {
      hide Reachable, Items, Family;
      assert SendHolds(e.threads[t].pc, Now(sendQueues[t]));
      if e.threads[t].pc.Issuing? {
        assert sendQueues[t].Valid() by {
          QueueIsLoose(sendQueues[t]);
        }
      }
    }

    lemma QueueIsLoose(q: Queue)
      requires Family(All()) && q in All()
      ensures q.Loose()
    {
    }

    // ---------- flush, and the ends of a submission ----------

    method FlushAside(ghost others: set<Queue>) returns (completed: seq<Packet>)
      requires ep.Shows(e) && Aside(others, {ep.TxQueue})
      modifies ep.TxQueue, ep.TxQueue.QueueHead, Members(ep.TxQueue)
      ensures forall q :: q in others ==> q.Loose() && Now(q) == old(Now(q))
      ensures ep.Shows(DoFlush(e)) && ep.TxQueue.Nodes == [] && completed == e.txQueue
    {
      hide Items, PacketsOf, Members, IsList, Separate, NodesIn, Within;
      completed := ep.FlushTx(e);
    }

    /** htc_flush_endpoint_tx */
    method Flush() returns (completed: seq<Packet>)
      requires Valid() && Enabled(ep.cfg, e, Action.Flush)
      modifies this, ep, All(), Heads(All()), Pool(All())
      ensures Valid() && e == old(Do(ep.cfg, e, Action.Flush)) && completed == old(e.txQueue)
      ensures Pool(All()) <= old(Pool(All()))
    {
      hide Valid, ThreadsHold, InFlightHolds, Stood, Items, PacketsOf, Members, Pool, PoolOf, Heads, All, Separate, Do, DoFlush,
        Rest, Aside, Snap, SendHolds, CallerHolds, IsList, NodesIn, Within, Enabled, OneThread, Reachable;
      Stands();
      FlushIs();
      ghost var g, was, f := e, Snap(All()), Do(ep.cfg, e, Action.Flush);
      InReach(ep.TxQueue);
      RestIsAside({ep.TxQueue});
      completed := FlushAside(All() - {ep.TxQueue});
      e := f;
      RestIs({ep.TxQueue}, was);
      FlushCloses(was, g);
    }

    lemma FlushIs()
      requires ep.cfg.Valid() && Reachable(ep.cfg, e)
      ensures var f := Do(ep.cfg, e, Action.Flush);
        f == DoFlush(e) && Reachable(ep.cfg, f) && f.threads == e.threads && f.search == e.search
    {
      hide Reachable;
      ReachableStep(ep.cfg, e, Action.Flush);
    }

    lemma FlushCloses(was: Shot, g: Engine)
      requires Stood(was, g) && Reachable(ep.cfg, e) && e.threads == g.threads && e.search == g.search && InFlightHolds(g, was)
      requires Rest({ep.TxQueue}, was) && ep.Shows(e) && ep.TxQueue.Nodes == []
      ensures Valid() && Pool(All()) <= PoolOf(was)
    {
      hide Items, PacketsOf, Members, Reachable, Separate, Spread, Family, GetPackets, AdmitSplit, RemoveFirst, FreshBatch, Pool, PoolOf, WasAccepted;
      InFlightStays(was, g);
      OneFamily(ep.TxQueue);
      EmptyShows(ep.TxQueue);
      Close({ep.TxQueue}, was, {}, g, |g.threads|);
    }

    method LeaveAside(caller: Queue, ghost others: set<Queue>) returns (completed: seq<Packet>)
      requires caller.Valid() && Aside(others, {caller}) && ep.Shows(e) && {ep.TxQueue, ep.TxLookupQueue} <= others
      modifies caller, caller.QueueHead, Members(caller)
      ensures forall q :: q in others ==> q.Loose() && Now(q) == old(Now(q))
      ensures caller.Valid() && caller.Nodes == [] && completed == old(PacketsOf(caller.Nodes))
      ensures ep.Shows(e)
    {
      hide Items, PacketsOf, Members, IsList, Separate, NodesIn, Within;
      ghost var was := (ep.TxQueue.Nodes, ep.TxLookupQueue.Nodes);
      PacketsAreOf(ep.TxQueue.Nodes);
      completed := DequeueAll(caller);
      assert Now(ep.TxQueue) == old(Now(ep.TxQueue)) && Now(ep.TxLookupQueue) == old(Now(ep.TxLookupQueue));
      PacketsAreOf(ep.TxQueue.Nodes);
    }

    /** htc_send_pkts_multiple completes what did not get in. */
    method Leave(t: nat) returns (completed: seq<Packet>)
      requires Valid() && Enabled(ep.cfg, e, Action.Leave(t))
      modifies this, ep, All(), Heads(All()), Pool(All())
      ensures Valid() && e == old(Do(ep.cfg, e, Action.Leave(t))) && e.log.dropped == old(e.log.dropped) + completed
      ensures Pool(All()) <= old(Pool(All()))
    {
      hide Valid, ThreadsHold, InFlightHolds, Stood, Items, PacketsOf, Members, Pool, PoolOf, Heads, All, Separate, Do, DoLeave,
        Rest, Aside, Snap, SendHolds, CallerHolds, IsList, NodesIn, Within, Enabled, OneThread, Reachable;
      Stands();
      LeaveIs(t);
      Finds(t);
      ghost var g, was, caller, f := e, Snap(All()), callersQueues[t], Do(ep.cfg, e, Action.Leave(t));
      InReach(caller);
      RestIsAside({caller});
      completed := LeaveAside(callersQueues[t], All() - {caller});
      e := f;
      RestIs({caller}, was);
      LeaveCloses(was, g, t);
    }

    lemma LeaveIs(t: nat)
      requires Valid() && Enabled(ep.cfg, e, Action.Leave(t))
      ensures t < |e.threads| && e.threads[t].pc == Leaving
      ensures callersQueues[t].Valid() && PacketsOf(callersQueues[t].Nodes) == e.threads[t].left
      ensures callersQueues[t] !in {ep.TxQueue, ep.TxLookupQueue, detached}
      ensures var f := Do(ep.cfg, e, Action.Leave(t));
        && Reachable(ep.cfg, f) && f.threads == e.threads[t := Thread(Idle, [])] && f.search == e.search
        && f.log.dropped == e.log.dropped + e.threads[t].left && (ep.Shows(e) ==> ep.Shows(f))
    {
      hide Reachable, Items, PacketsOf;
      Open();
      assert CallerHolds(e.threads[t].left, Now(callersQueues[t]));
      PacketsAreOf(callersQueues[t].Nodes);
      ReachableStep(ep.cfg, e, Action.Leave(t));
    }

    lemma LeaveCloses(was: Shot, g: Engine, t: nat)
      requires Stood(was, g) && Reachable(ep.cfg, e) && InFlightHolds(g, was)
      requires t < |g.threads| && g.threads[t].pc == Leaving && e.threads == g.threads[t := Thread(Idle, [])] && e.search == g.search
      requires Rest({callersQueues[t]}, was) && ep.Shows(e) && callersQueues[t].Valid() && callersQueues[t].Nodes == []
      ensures Valid() && Pool(All()) <= PoolOf(was)
    {
      hide Items, PacketsOf, Members, Reachable, Separate, Spread, Family, GetPackets, AdmitSplit, RemoveFirst, FreshBatch, Pool, PoolOf, WasAccepted, FromPool;
      assert SendHolds(g.threads[t].pc, was[sendQueues[t]]);
      InFlightStays(was, g);
      OneFamily(callersQueues[t]);
      EmptyShows(callersQueues[t]);
      TwoFromThese(callersQueues[t], callersQueues[t], was);
      assert {callersQueues[t], callersQueues[t]} == {callersQueues[t]};
      assert Packets([]) == [];
      Close({callersQueues[t]}, was, {}, g, t);
    }

    // ---------- a submission ----------

    /** The caller's packets, in a queue. */
    method FillQueue(caller: Queue, packets: seq<Packet>)
      requires caller.Valid() && caller.Nodes == []
      modifies caller, caller.QueueHead`pPrev, caller.QueueHead`pNext
      ensures caller.Valid() && PacketsOf(caller.Nodes) == packets
      ensures fresh(Members(caller))
    {
      hide Items, PacketsOf, IsList, NodesIn;
      EmptyShows(caller);
      var i := 0;
      while i < |packets|
        invariant i <= |packets| && caller.Valid() && PacketsOf(caller.Nodes) == packets[..i]
        invariant fresh(Members(caller))
      {
        AddPacket(caller, packets[i]);
        i := i + 1;
      }
      assert packets[..i] == packets;
    }

    method AddPacket(caller: Queue, packet: Packet)
      requires caller.Valid()
      modifies caller, caller.QueueHead`pPrev, caller.QueueHead`pNext, Members(caller)`pPrev, Members(caller)`pNext
      ensures caller.Valid() && PacketsOf(caller.Nodes) == old(PacketsOf(caller.Nodes)) + [packet]
      ensures forall n :: n in Members(caller) ==> n in old(Members(caller)) || fresh(n)
    {
      hide Items, PacketsOf, IsList, NodesIn;
      var p := new DlNode(Charged(packet, 0, false));
      assert p !in caller.Nodes;
      ghost var s := caller.Nodes;
      PacketsOfConcat(s, [p]);
      NodesInConcat(s, [p]);
      NodesInOne(p);
      OnePacket(p);
      caller.Enqueue(p);
      PacketsOfConcat(s, [p]);
      OnePacket(p);
    }

    /** The top of htc_send_pkts_multiple, with what it leaves alone. */
    method SubmitAside(caller: Queue, send: Queue, packets: seq<Packet>, firstDepth: nat, secondDepth: nat, handler: FullHandler,
                       ghost others: set<Queue>)
      returns (ok: bool)
      requires caller.Valid() && send.Valid() && Separate(caller, send) && caller.Nodes == [] && send.Nodes == []
      requires ep.Shows(e) && Aside(others, {caller, send}) && {ep.TxQueue, ep.TxLookupQueue} <= others
      modifies caller, caller.QueueHead, send, send.QueueHead
      ensures forall q :: q in others ==> q.Loose() && Now(q) == old(Now(q))
      ensures ep.Shows(e)
      ensures caller.Valid() && send.Valid() && Separate(caller, send) && fresh(Members(caller) + Members(send))
      ensures var r := AdmitSplit(ep.cfg, firstDepth, secondDepth, handler, packets);
        PacketsOf(send.Nodes) == r.send && PacketsOf(caller.Nodes) == r.left && (ok <==> r.send != [])
    {
      hide Items, PacketsOf, Members, IsList, Separate, NodesIn, Within, AdmitSplit, Apart;
      PacketsAreOf(ep.TxQueue.Nodes);
      SeparateMeans(caller, send);
      FillQueue(caller, packets);
      EmptyShows(send);
      ghost var all := Members(caller);
      SeparateMeans(caller, send);
      HeadOutside(caller);
      WithinMembers(caller, all);
      WithinMembers(send, all);
      ok := Admit(ep.cfg, firstDepth, secondDepth, handler, caller, send, all);
      WithinMembers(caller, all);
      WithinMembers(send, all);
      assert Now(ep.TxQueue) == old(Now(ep.TxQueue)) && Now(ep.TxLookupQueue) == old(Now(ep.TxLookupQueue));
      PacketsAreOf(ep.TxQueue.Nodes);
    }

    /** htc_send_pkts_multiple, up to the lock in htc_try_send. */
    method Submit(t: nat, packets: seq<Packet>, firstDepth: nat, secondDepth: nat, handler: FullHandler) returns (ok: bool)
      requires Valid() && Enabled(ep.cfg, e, Action.Submit(t, packets, firstDepth, secondDepth, handler))
      modifies this, ep, All(), Heads(All()), Pool(All())
      ensures Valid() && e == old(Do(ep.cfg, e, Action.Submit(t, packets, firstDepth, secondDepth, handler)))
      ensures fresh(Pool(All()) - old(Pool(All())))
      ensures t < |e.threads| && (ok <==> e.threads[t].pc.Entering?)
    {
      hide Valid, ThreadsHold, InFlightHolds, Stood, Items, PacketsOf, Members, Pool, PoolOf, Heads, All, Separate, Do, AdmitSplit, SubmitStep,
        Rest, Aside, Snap, SendHolds, CallerHolds, IsList, NodesIn, Within, Enabled, OneThread, Reachable;
      Stands();
      ghost var a := Action.Submit(t, packets, firstDepth, secondDepth, handler);
      SubmitIs(t, a);
      Finds(t);
      ghost var g, was, caller, send, f := e, Snap(All()), callersQueues[t], sendQueues[t], Do(ep.cfg, e, a);
      ghost var touched := {caller, send};
      InReach(caller);
      InReach(send);
      RestIsAside(touched);
      ok := SubmitAside(callersQueues[t], sendQueues[t], packets, firstDepth, secondDepth, handler, All() - touched);
      e := f;
      NewsAreNew(Members(caller) + Members(send));
      RestIs(touched, was);
      SubmitCloses(was, g, t, packets, AdmitSplit(ep.cfg, firstDepth, secondDepth, handler, packets));
    }

    /** A submission changes one thread and the log. */
    ghost predicate SubmitStep(g: Engine, f: Engine, t: nat, packets: seq<Packet>, r: Split) {
      && |f.threads| == |g.threads| && t < |g.threads| && f.search == g.search && g.threads[t].pc.Idle?
      && (forall u :: 0 <= u < |g.threads| && u != t ==> f.threads[u] == g.threads[u])
      && f.threads[t] == Thread(if r.send == [] then Leaving else Entering(r.send), r.left)
    }

    lemma SubmitIs(t: nat, a: Action)
      requires Valid() && a.Submit? && a.t == t && Enabled(ep.cfg, e, a)
      ensures t < |e.threads| && callersQueues[t].Valid() && sendQueues[t].Valid()
      ensures callersQueues[t].Nodes == [] && sendQueues[t].Nodes == [] && Separate(callersQueues[t], sendQueues[t])
      ensures callersQueues[t] !in {ep.TxQueue, ep.TxLookupQueue, detached}
      ensures var f := Do(ep.cfg, e, a);
        var r := AdmitSplit(ep.cfg, a.firstDepth, a.secondDepth, a.handler, a.packets);
        && Reachable(ep.cfg, f) && (ep.Shows(e) ==> ep.Shows(f))
        && SubmitStep(e, f, t, a.packets, r) && t < |f.threads| && (f.threads[t].pc.Entering? <==> r.send != [])
    {
      hide Reachable, Items, PacketsOf, AdmitSplit, FreshBatch, NoLostWakeup, Conserved, Sound, Separate;
      Open();
      FamilySeparates(All(), callersQueues[t], sendQueues[t]);
      assert SendHolds(e.threads[t].pc, Now(sendQueues[t])) && CallerHolds(e.threads[t].left, Now(callersQueues[t]));
      ReachableIsSound(ep.cfg, e);
      SoundLookup(ep.cfg, e);
      PacketsAreOf(callersQueues[t].Nodes);
      ReachableStep(ep.cfg, e, a);
    }

    /** New objects are none of those there were. */
    twostate lemma NewsAreNew(new news: set<Node>)
      requires fresh(news)
      ensures forall q :: q in All() ==> q.QueueHead !in news && news !! old(Snap(All()))[q].members
    {
    }

    lemma SubmitCloses(was: Shot, g: Engine, t: nat, packets: seq<Packet>, r: Split)
      requires Stood(was, g) && Reachable(ep.cfg, e) && InFlightHolds(g, was) && SubmitStep(g, e, t, packets, r)
      requires var caller, send := callersQueues[t], sendQueues[t];
        && Rest({caller, send}, was) && ep.Shows(e) && caller.Valid() && send.Valid() && Separate(caller, send)
        && PacketsOf(send.Nodes) == r.send && PacketsOf(caller.Nodes) == r.left
        && forall q :: q in All() ==> q.QueueHead !in Members(caller) + Members(send) && Members(caller) + Members(send) !! was[q].members
      ensures Valid() && Pool(All()) <= PoolOf(was) + (Members(callersQueues[t]) + Members(sendQueues[t]))
    {
      hide Items, PacketsOf, Members, Reachable, Separate, Spread, Family, GetPackets, AdmitSplit, RemoveFirst, FreshBatch, Pool, PoolOf, WasAccepted,
        FromPool, SendHolds, CallerHolds;
      var caller, send := callersQueues[t], sendQueues[t];
      PairFamily(caller, send);
      AllNew(caller, send, was);
      SplitHolds(caller, send, r);
      InFlightStays(was, g);
      Close({caller, send}, was, Members(caller) + Members(send), g, t);
    }

    lemma AllNew(a: Queue, b: Queue, was: Shot)
      requires was.Keys == All() && a in All() && b in All()
      ensures FromPool({a, b}, was, Members(a) + Members(b))
    {
    }

    lemma SplitHolds(caller: Queue, send: Queue, r: Split)
      requires caller.Valid() && send.Valid() && PacketsOf(send.Nodes) == r.send && PacketsOf(caller.Nodes) == r.left
      ensures SendHolds(if r.send == [] then Leaving else Entering(r.send), Now(send)) && CallerHolds(r.left, Now(caller))
    {
      hide Items;
      PacketsAreOf(caller.Nodes);
      PacketsAreOf(send.Nodes);
    }

    lemma OnePacket(p: Node)
      ensures PacketsOf([p]) == [p.item.packet]
    {
    }
  }

  /** Empty queues of their own for a number of threads. */
  method NewQueues(n: nat) returns (s: seq<Queue>)
    ensures |s| == n
    ensures forall t :: 0 <= t < n ==> fresh(s[t]) && fresh(s[t].QueueHead) && s[t].Valid() && s[t].Nodes == []
    ensures forall t, u :: 0 <= t < n && 0 <= u < n && t != u ==> s[t] != s[u] && s[t].QueueHead != s[u].QueueHead
  {
    s := [];
    while |s| < n
      invariant |s| <= n
      invariant forall t :: 0 <= t < |s| ==> fresh(s[t]) && fresh(s[t].QueueHead) && s[t].Valid() && s[t].Nodes == []
      invariant forall t, u :: 0 <= t < |s| && 0 <= u < |s| && t != u ==> s[t] != s[u] && s[t].QueueHead != s[u].QueueHead
    {
      var q := new PacketQueue();
      s := s + [q];
    }
  }
}
