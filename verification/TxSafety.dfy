/** What every action of the transmit engine keeps, and what follows for every
  * reachable state. */
module TxSafety {
  import opened TxModel
  import opened TxEngine

  // ---------- one drainer ----------

  /** TxProcessCount is 0 or 1 whenever the lock is free, and 1 exactly while a
    * thread, always the one that last passed the busy check, is draining. */
  ghost predicate OneDrainer(e: Engine) {
    && (forall t :: 0 <= t < |e.threads| && e.threads[t].pc.Idle? ==> e.threads[t].left == [])
    && 0 <= e.processCount <= 1
    && (e.processCount == 1 ==> e.log.drainer < |e.threads| && Draining(e.threads[e.log.drainer].pc))
    && (forall t :: 0 <= t < |e.threads| && Draining(e.threads[t].pc) ==> e.processCount == 1 && t == e.log.drainer)
    && (forall t :: 0 <= t < |e.threads| && e.threads[t].pc.Returning? ==>
         e.threads[t].pc.queue != [] && e.log.failures > 0)
  }

  /** A search is for a packet that HIF accepted. */
  ghost predicate SearchSound(e: Engine) {
    e.search.Searching? ==> WasAccepted(e, e.search.netbuf)
  }

  lemma SearchSoundKept(cfg: Config, e: Engine, a: Action)
    requires cfg.Valid() && Enabled(cfg, e, a) && SearchSound(e)
    ensures SearchSound(Do(cfg, e, a))
  {
    hide GetPackets, AdmitSplit, RemoveFirst, FirstMatch;
    var f := Do(cfg, e, a);
    if f.search.Searching? {
      var netbuf := if e.search.Searching? then e.search.netbuf else a.netbuf;
      assert WasAccepted(e, netbuf);
      var i :| 0 <= i < |e.log.accepted| && e.log.accepted[i].packet.netbuf == netbuf;
      assert f.log.accepted[i] == e.log.accepted[i];
    }
  }

  lemma OneDrainerKept(cfg: Config, e: Engine, a: Action)
    requires cfg.Valid() && Enabled(cfg, e, a) && OneDrainer(e)
    ensures OneDrainer(Do(cfg, e, a))
  {
    hide GetPackets, AdmitSplit, RemoveFirst, FirstMatch;
    match a
    case Submit(t, packets, d1, d2, handler) =>
      SubmitKeepsOneDrainer(e, t, packets, AdmitSplit(cfg, d1, d2, handler, packets));
    case Enter(t, bus) => EnterKeepsOneDrainer(cfg, e, t, bus);
    case Relock(t, bus) => DrainKeepsOneDrainer(cfg, e, t, bus);
    case Kick(t) => IdleKeepsOneDrainer(e, t, 0);
    case Report(t, credits) => IdleKeepsOneDrainer(e, t, credits);
    case Issue(t) => IssuingKeepsOneDrainer(e, t);
    case Accept(t) => IssuingKeepsOneDrainer(e, t);
    case Reject(t) => RejectKeepsOneDrainer(e, t);
    case Requeue(t) => LeavingKeepsOneDrainer(e, t);
    case Leave(t) => LeavingKeepsOneDrainer(e, t);
    case Flush =>
    case Complete(_) =>
    case FinishSearch =>
  }

  lemma SubmitKeepsOneDrainer(e: Engine, t: nat, packets: seq<Packet>, r: Split)
    requires t < |e.threads| && e.threads[t].pc.Idle? && OneDrainer(e)
    ensures OneDrainer(AfterSplit(e, t, packets, r))
  {
  }

  lemma IdleKeepsOneDrainer(e: Engine, t: nat, credits: nat)
    requires t < |e.threads| && e.threads[t].pc.Idle? && OneDrainer(e)
    ensures OneDrainer(DoKick(e, t))
    ensures OneDrainer(DoReport(e, t, credits))
  {
  }

  lemma IssuingKeepsOneDrainer(e: Engine, t: nat)
    requires t < |e.threads| && OneDrainer(e)
    ensures e.threads[t].pc.Issuing? && e.threads[t].pc.queue != [] ==> OneDrainer(DoIssue(e, t))
    ensures e.threads[t].pc.Sending? ==> OneDrainer(DoAccept(e, t))
  {
  }

  lemma RejectKeepsOneDrainer(e: Engine, t: nat)
    requires t < |e.threads| && e.threads[t].pc.Sending? && OneDrainer(e)
    ensures OneDrainer(DoReject(e, t))
  {
  }

  lemma LeavingKeepsOneDrainer(e: Engine, t: nat)
    requires t < |e.threads| && OneDrainer(e)
    ensures e.threads[t].pc.Returning? ==> OneDrainer(DoRequeue(e, t))
    ensures e.threads[t].pc.Leaving? ==> OneDrainer(DoLeave(e, t))
  {
  }

  lemma EnterKeepsOneDrainer(cfg: Config, e: Engine, t: nat, bus: Bus)
    requires cfg.Valid() && t < |e.threads| && e.threads[t].pc.Entering? && OneDrainer(e)
    ensures OneDrainer(DoEnter(cfg, e, t, bus))
  {
    if e.processCount == 0 {
      assert OneDrainer(Join(e, t));
      DrainKeepsOneDrainer(cfg, Join(e, t), t, bus);
    }
  }

  lemma DrainKeepsOneDrainer(cfg: Config, e: Engine, t: nat, bus: Bus)
    requires cfg.Valid() && t < |e.threads|
    ensures OneDrainer(e) && e.threads[t].pc.Issuing? ==> OneDrainer(Drain(cfg, e, t, bus))
  {
    if e.txQueue != [] {
      AfterPassKeepsOneDrainer(e, t, GetPackets(cfg, e.credits, e.txQueue, bus));
    }
  }

  lemma AfterPassKeepsOneDrainer(e: Engine, t: nat, r: Pass)
    requires t < |e.threads|
    ensures OneDrainer(e) && e.threads[t].pc.Issuing? ==> OneDrainer(AfterPass(e, t, r))
  {
  }

  // ---------- no lost wakeup ----------

  /** Some thread has still to call htc_try_send(NULL). */
  ghost predicate KickOwed(e: Engine) {
    exists t :: 0 <= t < |e.threads| && e.threads[t].pc == Entering([])
  }

  ghost predicate NoLostWakeup(cfg: Config, e: Engine)
    requires cfg.Valid()
  {
    e.processCount == 0 && e.txQueue != [] ==>
      Blocked(cfg, e.credits, e.txQueue) || KickOwed(e) || e.log.stalled
  }

  lemma NoLostWakeupKept(cfg: Config, e: Engine, a: Action)
    requires cfg.Valid() && Enabled(cfg, e, a) && OneDrainer(e) && NoLostWakeup(cfg, e)
    ensures NoLostWakeup(cfg, Do(cfg, e, a))
  {
    hide GetPackets, TakeFrom, Select, Required, CreditsFor;
    if KickOwed(e) && !a.Enter? {
      KickStaysOwed(cfg, e, a);
    }
    match a
    case Enter(t, bus) =>
      if e.txQueue + e.threads[t].pc.batch != [] {
        GetPacketsEmptyHanded(cfg, e.credits, e.txQueue + e.threads[t].pc.batch, bus);
      }
    case Relock(t, bus) =>
      if e.txQueue != [] {
        GetPacketsEmptyHanded(cfg, e.credits, e.txQueue, bus);
      }
    case Kick(t) =>
      assert Do(cfg, e, a).threads[t].pc == Entering([]);
    case Report(t, credits) =>
      if Do(cfg, e, a).credits != 0 && e.txQueue != [] {
        assert Do(cfg, e, a).threads[t].pc == Entering([]);
      }
    case _ =>
  }

  lemma KickStaysOwed(cfg: Config, e: Engine, a: Action)
    requires cfg.Valid() && Enabled(cfg, e, a) && KickOwed(e) && !a.Enter?
    ensures KickOwed(Do(cfg, e, a))
  {
    hide GetPackets, AdmitSplit, RemoveFirst, FirstMatch;
    var w :| 0 <= w < |e.threads| && e.threads[w].pc == Entering([]);
    assert Do(cfg, e, a).threads[w] == e.threads[w];
  }

  // ---------- ownership ----------

  function Count(q: seq<Packet>, p: Packet): nat {
    if q == [] then 0 else (if q[0] == p then 1 else 0) + Count(q[1..], p)
  }

  function CountCharged(q: seq<Charged>, p: Packet): nat {
    if q == [] then 0 else (if q[0].packet == p then 1 else 0) + CountCharged(q[1..], p)
  }

  /** The occurrences of a packet in what a thread holds and no queue of the
    * endpoint holds yet. */
  function Local(th: Thread, p: Packet): nat {
    (if th.pc.Entering? then Count(th.pc.batch, p) else 0) + Count(th.left, p)
  }

  function Held(threads: seq<Thread>, p: Packet): nat {
    if threads == [] then 0 else Local(threads[0], p) + Held(threads[1..], p)
  }

  /** Where the drainer is; Idle if nobody drains. */
  function DrainerPc(e: Engine): Pc {
    if e.log.drainer < |e.threads| && Draining(e.threads[e.log.drainer].pc) then e.threads[e.log.drainer].pc else Idle
  }

  function Hand(e: Engine): seq<Charged> {
    HandOf(DrainerPc(e))
  }

  /** The packet in the lookup queue that HIF has not answered for yet. */
  function Undecided(e: Engine): seq<Charged> {
    if DrainerPc(e).Sending? then [DrainerPc(e).current] else []
  }

  function SearchList(e: Engine): seq<Charged> {
    if e.search.Searching? then e.search.list else []
  }

  ghost predicate DistinctNetbufs(q: seq<Packet>) {
    forall i, j :: 0 <= i < j < |q| ==> q[i].netbuf != q[j].netbuf
  }

  /** Where the occurrences of one packet are.  A submitted packet is with its
    * thread, dropped, or admitted; an admitted one is in TxQueue, in the drainer's
    * hand, accepted or flushed; what HIF was offered is in the lookup queue, in
    * the part of it that is being searched, or completed. */
  ghost predicate ConservedAt(e: Engine, p: Packet) {
    && Count(e.log.submitted, p) == Held(e.threads, p) + Count(e.log.dropped, p) + Count(e.log.admitted, p)
    && Count(e.log.admitted, p) ==
         Count(e.txQueue, p) + CountCharged(Hand(e), p) + CountCharged(e.log.accepted, p) + Count(e.log.flushed, p)
    && CountCharged(e.log.accepted, p) + CountCharged(Undecided(e), p) ==
         CountCharged(e.lookup, p) + CountCharged(SearchList(e), p) + Count(e.log.finished, p)
    && Count(e.log.finished, p) <= CountCharged(e.log.accepted, p)
  }

  ghost predicate Conserved(e: Engine) {
    DistinctNetbufs(e.log.submitted) && forall p :: ConservedAt(e, p)
  }

  // counting

  lemma CountNone(p: Packet)
    ensures Count([], p) == 0 && CountCharged([], p) == 0
  {
  }

  lemma CountOne(r: Packet, p: Packet)
    ensures Count([r], p) == if r == p then 1 else 0
  {
  }

  lemma CountChargedOne(c: Charged, p: Packet)
    ensures CountCharged([c], p) == if c.packet == p then 1 else 0
  {
  }

  lemma {:induction false} CountConcat(a: seq<Packet>, b: seq<Packet>, p: Packet)
    ensures Count(a + b, p) == Count(a, p) + Count(b, p)
  {
    if a == [] {
      assert a + b == b;
    } else {
      assert (a + b)[1..] == a[1..] + b;
      CountConcat(a[1..], b, p);
    }
  }

  lemma {:induction false} CountChargedConcat(a: seq<Charged>, b: seq<Charged>, p: Packet)
    ensures CountCharged(a + b, p) == CountCharged(a, p) + CountCharged(b, p)
  {
    if a == [] {
      assert a + b == b;
    } else {
      assert (a + b)[1..] == a[1..] + b;
      CountChargedConcat(a[1..], b, p);
    }
  }

  lemma {:induction false} CountPackets(s: seq<Charged>, p: Packet)
    ensures Count(Packets(s), p) == CountCharged(s, p)
  {
    if s != [] {
      assert Packets(s)[1..] == Packets(s[1..]);
      CountPackets(s[1..], p);
    }
  }

  lemma {:induction false} CountIsMultiplicity(q: seq<Packet>, p: Packet)
    ensures Count(q, p) == multiset(q)[p]
  {
    if q != [] {
      assert q == [q[0]] + q[1..];
      CountIsMultiplicity(q[1..], p);
    }
  }

  lemma {:induction false} CountMember(q: seq<Packet>, p: Packet)
    ensures Count(q, p) > 0 <==> p in q
  {
    CountIsMultiplicity(q, p);
  }

  lemma {:induction false} CountChargedAt(q: seq<Charged>, k: nat)
    requires k < |q|
    ensures CountCharged(q, q[k].packet) > 0
  {
    if k > 0 {
      CountChargedAt(q[1..], k - 1);
    }
  }

  lemma {:induction false} CountChargedWitness(q: seq<Charged>, p: Packet) returns (k: nat)
    requires CountCharged(q, p) > 0
    ensures k < |q| && q[k].packet == p
  {
    if q[0].packet == p {
      k := 0;
    } else {
      k := CountChargedWitness(q[1..], p);
      k := k + 1;
    }
  }

  lemma {:induction false} RemoveFirstCounts(q: seq<Charged>, netbuf: nat, p: Packet)
    ensures var r := RemoveFirst(q, netbuf);
      CountCharged(r.rest, p) + Count(FoundPackets(r.found), p) == CountCharged(q, p)
  {
    var k := FirstMatch(q, netbuf);
    if k < |q| {
      var a, b := q[..k], q[k + 1..];
      assert q == a + ([q[k]] + b);
      CountChargedConcat(a, [q[k]] + b, p);
      CountChargedConcat([q[k]], b, p);
      CountChargedConcat(a, b, p);
    }
  }

  lemma {:induction false} HeldUpdate(threads: seq<Thread>, t: nat, th: Thread, p: Packet)
    requires t < |threads|
    ensures Held(threads[t := th], p) + Local(threads[t], p) == Held(threads, p) + Local(th, p)
  {
    if t == 0 {
      assert threads[0 := th][1..] == threads[1..];
    } else {
      HeldUpdate(threads[1..], t - 1, th, p);
      assert threads[t := th][1..] == threads[1..][t - 1 := th];
    }
  }

  lemma {:induction false} HeldIdle(threads: seq<Thread>, p: Packet)
    requires forall t :: 0 <= t < |threads| ==> threads[t] == Thread(Idle, [])
    ensures Held(threads, p) == 0
  {
    if threads != [] {
      HeldIdle(threads[1..], p);
    }
  }

  /** Distinct netbufs mean that every submission occurs once, and that a netbuf
    * determines its packet. */
  lemma {:induction false} SubmittedOnce(q: seq<Packet>, p: Packet, r: Packet)
    requires DistinctNetbufs(q)
    ensures Count(q, p) <= 1
    ensures Count(q, p) > 0 && Count(q, r) > 0 && p.netbuf == r.netbuf ==> p == r
  {
    if q != [] {
      SubmittedOnce(q[1..], p, r);
      CountMember(q[1..], p);
      CountMember(q[1..], r);
    }
  }

  /** A packet that was admitted once is in one place only. */
  lemma AdmittedOnce(e: Engine, p: Packet)
    requires Conserved(e)
    ensures Held(e.threads, p) + Count(e.txQueue, p) + CountCharged(Hand(e), p)
      + CountCharged(e.log.accepted, p) + Count(e.log.flushed, p) <= 1
  {
    assert ConservedAt(e, p);
    SubmittedOnce(e.log.submitted, p, p);
  }

  // the actions

  lemma SubmitConserves(e: Engine, t: nat, packets: seq<Packet>, r: Split, p: Packet)
    requires t < |e.threads| && e.threads[t] == Thread(Idle, []) && ConservedAt(e, p)
    requires multiset(r.send + r.left) == multiset(packets)
    ensures ConservedAt(AfterSplit(e, t, packets, r), p)
  {
    hide Count, CountCharged, Held;
    CountNone(p);
    HeldUpdate(e.threads, t, AfterSplit(e, t, packets, r).threads[t], p);
    CountIsMultiplicity(packets, p);
    CountIsMultiplicity(r.send + r.left, p);
    CountConcat(r.send, r.left, p);
    CountConcat(e.log.submitted, packets, p);
  }

  lemma PassConserves(cfg: Config, credits: int, q: seq<Packet>, bus: Bus, p: Packet)
    requires cfg.Valid()
    ensures var r := GetPackets(cfg, credits, q, bus);
      CountCharged(r.taken, p) + Count(r.rest, p) == Count(q, p)
  {
    var r := GetPackets(cfg, credits, q, bus);
    GetPacketsStablePartition(cfg, credits, q, bus);
    CountIsMultiplicity(q, p);
    CountIsMultiplicity(Packets(r.taken) + r.rest, p);
    CountConcat(Packets(r.taken), r.rest, p);
    CountPackets(r.taken, p);
  }

  lemma AfterPassConserves(e: Engine, t: nat, r: Pass, p: Packet)
    requires t < |e.threads| && e.log.drainer == t && ConservedAt(e, p) && e.threads[t].pc == Issuing([])
    requires CountCharged(r.taken, p) + Count(r.rest, p) == Count(e.txQueue, p)
    ensures ConservedAt(AfterPass(e, t, r), p)
  {
    hide Count, CountCharged, Held;
    CountNone(p);
    HeldUpdate(e.threads, t, AfterPass(e, t, r).threads[t], p);
  }

  /** A drain step moves packets from TxQueue to the drainer's hand. */
  lemma DrainConserves(cfg: Config, e: Engine, t: nat, bus: Bus, p: Packet)
    requires cfg.Valid() && t < |e.threads| && e.log.drainer == t && ConservedAt(e, p)
    requires e.threads[t].pc == Issuing([])
    ensures ConservedAt(Drain(cfg, e, t, bus), p)
  {
    hide Count, CountCharged, Held;
    CountNone(p);
    if e.txQueue == [] {
      HeldUpdate(e.threads, t, e.threads[t].(pc := Leaving), p);
    } else {
      PassConserves(cfg, e.credits, e.txQueue, bus, p);
      AfterPassConserves(e, t, GetPackets(cfg, e.credits, e.txQueue, bus), p);
    }
  }

  lemma JoinConserves(e: Engine, t: nat, p: Packet)
    requires t < |e.threads| && e.threads[t].pc.Entering? && DrainerPc(e) == Idle && ConservedAt(e, p)
    ensures ConservedAt(Join(e, t), p)
  {
    hide Count, CountCharged, Held;
    CountNone(p);
    var batch := e.threads[t].pc.batch;
    CountConcat(e.txQueue, batch, p);
    CountConcat(e.log.admitted, batch, p);
    HeldUpdate(e.threads, t, e.threads[t].(pc := Issuing([])), p);
    assert DrainerPc(Join(e, t)) == Issuing([]);
  }

  lemma BusyConserves(e: Engine, t: nat, p: Packet)
    requires t < |e.threads| && e.threads[t].pc.Entering? && ConservedAt(e, p)
    ensures ConservedAt(SetPc(Append(e, t), t, Leaving), p)
  {
    hide Count, CountCharged, Held;
    CountNone(p);
    var batch := e.threads[t].pc.batch;
    CountConcat(e.txQueue, batch, p);
    CountConcat(e.log.admitted, batch, p);
    HeldUpdate(e.threads, t, e.threads[t].(pc := Leaving), p);
  }

  lemma EnterConserves(cfg: Config, e: Engine, t: nat, bus: Bus, p: Packet)
    requires cfg.Valid() && t < |e.threads| && e.threads[t].pc.Entering? && OneDrainer(e) && ConservedAt(e, p)
    ensures ConservedAt(DoEnter(cfg, e, t, bus), p)
  {
    if e.processCount == 1 {
      BusyConserves(e, t, p);
    } else {
      JoinConserves(e, t, p);
      DrainConserves(cfg, Join(e, t), t, bus, p);
    }
  }

  lemma IssueConserves(e: Engine, t: nat, p: Packet)
    requires t < |e.threads| && e.threads[t].pc.Issuing? && e.threads[t].pc.queue != []
    requires e.log.drainer == t && ConservedAt(e, p)
    ensures ConservedAt(DoIssue(e, t), p)
  {
    hide Count, CountCharged, Held;
    CountNone(p);
    var queue := e.threads[t].pc.queue;
    HeldUpdate(e.threads, t, DoIssue(e, t).threads[t], p);
    assert [queue[0]] + queue[1..] == queue;
    CountChargedConcat(e.lookup, [queue[0]], p);
  }

  lemma AcceptConserves(e: Engine, t: nat, p: Packet)
    requires t < |e.threads| && e.threads[t].pc.Sending? && e.log.drainer == t && ConservedAt(e, p)
    ensures ConservedAt(DoAccept(e, t), p)
  {
    hide Count, CountCharged, Held;
    CountNone(p);
    var pc := e.threads[t].pc;
    HeldUpdate(e.threads, t, DoAccept(e, t).threads[t], p);
    CountChargedConcat([pc.current], pc.queue, p);
    CountChargedConcat(e.log.accepted, [pc.current], p);
  }

  /** The packet HIF is deciding on is where Reject looks for it, and the netbuf
    * identifies it there. */
  lemma UndecidedIsFound(e: Engine, t: nat)
    requires t < |e.threads| && e.threads[t].pc.Sending? && e.log.drainer == t && Conserved(e)
    ensures var current := e.threads[t].pc.current;
      var list := if RemoveFirst(e.lookup, current.packet.netbuf).found.Hit? then e.lookup else SearchList(e);
      var r := RemoveFirst(list, current.packet.netbuf);
      r.found.Hit? && r.found.charged.packet == current.packet
  {
    var p := e.threads[t].pc.current.packet;
    assert ConservedAt(e, p);
    var list := if RemoveFirst(e.lookup, p.netbuf).found.Hit? then e.lookup else SearchList(e);
    if RemoveFirst(e.lookup, p.netbuf).found.Missing? {
      if CountCharged(e.lookup, p) > 0 {
        var k := CountChargedWitness(e.lookup, p);
      }
      var k := CountChargedWitness(SearchList(e), p);
    }
    var k := FirstMatch(list, p.netbuf);
    var r := list[k].packet;
    CountChargedAt(list, k);
    assert ConservedAt(e, r);
    UndecidedInHand(e, r);
    UndecidedInHand(e, p);
    SubmittedOnce(e.log.submitted, p, r);
  }

  lemma RejectConserves(e: Engine, t: nat, p: Packet)
    requires t < |e.threads| && e.threads[t].pc.Sending? && e.log.drainer == t && Conserved(e)
    ensures ConservedAt(DoReject(e, t), p)
  {
    hide Count, CountCharged, Held;
    CountNone(p);
    var f, pc := DoReject(e, t), e.threads[t].pc;
    var netbuf := pc.current.packet.netbuf;
    var hit := RemoveFirst(e.lookup, netbuf).found.Hit?;
    assert ConservedAt(e, p);
    UndecidedIsFound(e, t);
    RemovalCounts(if hit then e.lookup else SearchList(e), pc.current, p);
    assert Held(f.threads, p) == Held(e.threads, p) by {
      HeldUpdate(e.threads, t, f.threads[t], p);
    }
    assert Hand(f) == Hand(e) == [pc.current] + pc.queue;
    assert CountCharged(Undecided(f), p) == 0;
    assert CountCharged(e.lookup, p) + CountCharged(SearchList(e), p) ==
      CountCharged(f.lookup, p) + CountCharged(SearchList(f), p) + CountCharged(Undecided(e), p);
  }

  lemma RemovalCounts(list: seq<Charged>, current: Charged, p: Packet)
    requires var r := RemoveFirst(list, current.packet.netbuf); r.found.Hit? && r.found.charged.packet == current.packet
    ensures CountCharged(list, p) ==
      CountCharged(RemoveFirst(list, current.packet.netbuf).rest, p) + CountCharged([current], p)
  {
    RemoveFirstCounts(list, current.packet.netbuf, p);
  }

  lemma RequeueConserves(e: Engine, t: nat, p: Packet)
    requires t < |e.threads| && e.threads[t].pc.Returning? && e.log.drainer == t && ConservedAt(e, p)
    ensures ConservedAt(DoRequeue(e, t), p)
  {
    hide Count, CountCharged, Held;
    CountNone(p);
    var queue := e.threads[t].pc.queue;
    HeldUpdate(e.threads, t, DoRequeue(e, t).threads[t], p);
    CountConcat(Packets(queue), e.txQueue, p);
    CountPackets(queue, p);
  }

  lemma LeaveConserves(e: Engine, t: nat, p: Packet)
    requires t < |e.threads| && e.threads[t].pc.Leaving? && ConservedAt(e, p)
    ensures ConservedAt(DoLeave(e, t), p)
  {
    hide Count, CountCharged, Held;
    CountNone(p);
    HeldUpdate(e.threads, t, Thread(Idle, []), p);
    CountConcat(e.log.dropped, e.threads[t].left, p);
  }

  lemma KickConserves(e: Engine, t: nat, p: Packet)
    requires t < |e.threads| && e.threads[t].pc.Idle? && ConservedAt(e, p)
    ensures ConservedAt(DoKick(e, t), p)
  {
    hide Count, CountCharged, Held;
    CountNone(p);
    HeldUpdate(e.threads, t, e.threads[t].(pc := Entering([])), p);
  }

  lemma ReportConserves(e: Engine, t: nat, credits: nat, p: Packet)
    requires t < |e.threads| && e.threads[t].pc.Idle? && ConservedAt(e, p)
    ensures ConservedAt(DoReport(e, t, credits), p)
  {
    hide Count, CountCharged, Held;
    CountNone(p);
    var f := DoReport(e, t, credits);
    if e.credits + credits != 0 && e.txQueue != [] {
      assert f.threads == e.threads[t := e.threads[t].(pc := Entering([]))];
      HeldUpdate(e.threads, t, e.threads[t].(pc := Entering([])), p);
    } else {
      assert f.threads == e.threads;
    }
    assert DrainerPc(f) == DrainerPc(e);
  }

  lemma FlushConserves(e: Engine, p: Packet)
    requires ConservedAt(e, p)
    ensures ConservedAt(DoFlush(e), p)
  {
    hide Count, CountCharged, Held;
    CountNone(p);
    CountConcat(e.log.flushed, e.txQueue, p);
  }

  /** A packet found by its netbuf was accepted, and not completed before. */
  lemma FoundWasAccepted(e: Engine, netbuf: nat, r: Packet)
    requires Conserved(e) && WasAccepted(e, netbuf) && r.netbuf == netbuf
    requires CountCharged(e.lookup, r) + CountCharged(SearchList(e), r) > 0
    ensures Count(e.log.finished, r) + 1 <= CountCharged(e.log.accepted, r)
  {
    var i :| 0 <= i < |e.log.accepted| && e.log.accepted[i].packet.netbuf == netbuf;
    var p := e.log.accepted[i].packet;
    CountChargedAt(e.log.accepted, i);
    assert ConservedAt(e, p) && ConservedAt(e, r);
    UndecidedInHand(e, r);
    SubmittedOnce(e.log.submitted, p, r);
  }

  lemma UndecidedInHand(e: Engine, p: Packet)
    ensures CountCharged(Undecided(e), p) <= CountCharged(Hand(e), p)
  {
    if Undecided(e) != [] {
      CountChargedConcat(Undecided(e), DrainerPc(e).queue, p);
    }
  }

  lemma CompleteConserves(e: Engine, netbuf: nat, p: Packet)
    requires e.search.NoSearch? && WasAccepted(e, netbuf) && Conserved(e)
    ensures ConservedAt(DoComplete(e, netbuf), p)
  {
    hide Count, CountCharged, Held;
    CountNone(p);
    assert ConservedAt(e, p);
    if e.lookup != [] && e.lookup[0].packet.netbuf == netbuf {
      var r := e.lookup[0].packet;
      CountConcat(e.log.finished, [r], p);
      CountOne(r, p);
      assert e.lookup == [e.lookup[0]] + e.lookup[1..];
      CountChargedConcat([e.lookup[0]], e.lookup[1..], p);
      CountChargedAt(e.lookup, 0);
      CountChargedOne(e.lookup[0], p);
      FoundWasAccepted(e, netbuf, r);
    }
  }

  lemma FinishSearchConserves(e: Engine, p: Packet)
    requires e.search.Searching? && SearchSound(e) && Conserved(e)
    ensures ConservedAt(DoFinishSearch(e), p)
  {
    hide Count, CountCharged, Held;
    CountNone(p);
    assert ConservedAt(e, p);
    var list, netbuf := e.search.list, e.search.netbuf;
    var r := RemoveFirst(list, netbuf);
    RemoveFirstCounts(list, netbuf, p);
    CountConcat(e.log.finished, FoundPackets(r.found), p);
    CountChargedConcat(r.rest, e.lookup, p);
    if r.found.Hit? {
      CountChargedAt(list, FirstMatch(list, netbuf));
      CountOne(r.found.charged.packet, p);
      FoundWasAccepted(e, netbuf, r.found.charged.packet);
    }
  }

  /** Nothing that concerns the drainer, its hand or its charges differs. */
  ghost predicate SameDrain(e: Engine, f: Engine) {
    && DrainerPc(f) == DrainerPc(e)
    && f.log.accepted == e.log.accepted && f.log.admitted == e.log.admitted
    && f.log.leaked == e.log.leaked && f.log.failures == e.log.failures
    && f.log.midBatchFailures == e.log.midBatchFailures && f.log.lastCharge == e.log.lastCharge
    && f.log.putBack == e.log.putBack && f.log.outgoing == e.log.outgoing
  }

  lemma OtherThread(e: Engine, f: Engine, t: nat, th: Thread)
    requires t < |e.threads| && f.threads == e.threads[t := th] && f.log.drainer == e.log.drainer
    requires !Draining(e.threads[t].pc) && !Draining(th.pc)
    ensures DrainerPc(f) == DrainerPc(e)
  {
  }

  /** Actions outside the drain leave the drainer alone. */
  lemma QuietActions(cfg: Config, e: Engine, a: Action)
    requires cfg.Valid() && Enabled(cfg, e, a)
    requires !(a.Enter? || a.Relock? || a.Issue? || a.Accept? || a.Reject? || a.Requeue?)
    ensures var f := Do(cfg, e, a);
      && SameDrain(e, f)
      && (if a.Report? then f.credits == e.credits + a.credits && f.log.reported == e.log.reported + a.credits
          else f.credits == e.credits && f.log.reported == e.log.reported)
      && (if a.Flush? then f.txQueue == [] else f.txQueue == e.txQueue && f.log.flushed == e.log.flushed)
  {
    hide GetPackets, AdmitSplit, RemoveFirst, FirstMatch, DrainerPc, FreshBatch, WasAccepted;
    var f := Do(cfg, e, a);
    match a
    case Submit(t, _, _, _, _) => OtherThread(e, f, t, f.threads[t]);
    case Kick(t) => OtherThread(e, f, t, f.threads[t]);
    case Report(t, _) => OtherThread(e, DoKick(e, t), t, e.threads[t].(pc := Entering([]))); SameThreads(e, f, DoKick(e, t));
    case Leave(t) => OtherThread(e, f, t, f.threads[t]);
    case Flush => SameThreads(e, f, e);
    case Complete(_) => SameThreads(e, f, e);
    case FinishSearch => SameThreads(e, f, e);
  }

  lemma SameThreads(e: Engine, f: Engine, d: Engine)
    requires DrainerPc(d) == DrainerPc(e) && f.log.drainer == d.log.drainer == e.log.drainer
    ensures f.threads == d.threads || f.threads == e.threads ==> DrainerPc(f) == DrainerPc(e)
  {
  }

  lemma ConservedAtKept(cfg: Config, e: Engine, a: Action, p: Packet)
    requires cfg.Valid() && Enabled(cfg, e, a) && OneDrainer(e) && SearchSound(e) && Conserved(e)
    ensures ConservedAt(Do(cfg, e, a), p)
  {
    hide GetPackets, AdmitSplit, RemoveFirst, FirstMatch, Count, CountCharged, Held;
    assert ConservedAt(e, p);
    match a
    case Submit(t, packets, d1, d2, handler) =>
      AdmitSplitConserves(cfg, d1, d2, handler, packets);
      SubmitConserves(e, t, packets, AdmitSplit(cfg, d1, d2, handler, packets), p);
    case Kick(t) => KickConserves(e, t, p);
    case Report(t, credits) => ReportConserves(e, t, credits, p);
    case Enter(t, bus) => EnterConserves(cfg, e, t, bus, p);
    case Relock(t, bus) => DrainConserves(cfg, e, t, bus, p);
    case Issue(t) => IssueConserves(e, t, p);
    case Accept(t) => AcceptConserves(e, t, p);
    case Reject(t) => RejectConserves(e, t, p);
    case Requeue(t) => RequeueConserves(e, t, p);
    case Leave(t) => LeaveConserves(e, t, p);
    case Flush => FlushConserves(e, p);
    case Complete(netbuf) => CompleteConserves(e, netbuf, p);
    case FinishSearch => FinishSearchConserves(e, p);
  }

  lemma ConservedKept(cfg: Config, e: Engine, a: Action)
    requires cfg.Valid() && Enabled(cfg, e, a) && OneDrainer(e) && SearchSound(e) && Conserved(e)
    ensures Conserved(Do(cfg, e, a))
  {
    forall p ensures ConservedAt(Do(cfg, e, a), p) {
      ConservedAtKept(cfg, e, a, p);
    }
    DistinctKept(cfg, e, a);
  }

  lemma DistinctKept(cfg: Config, e: Engine, a: Action)
    requires cfg.Valid() && Enabled(cfg, e, a) && DistinctNetbufs(e.log.submitted)
    ensures DistinctNetbufs(Do(cfg, e, a).log.submitted)
  {
    hide GetPackets, AdmitSplit, RemoveFirst, FirstMatch;
  }
}
