/** First in, first out, across threads.
  *
  * The line is what HIF accepted, then the drainer's hand, then TxQueue.  It is
  * compared with the packets in the order in which they were appended to TxQueue,
  * leaving out those a flush removed. */
module TxOrder {
  import opened TxModel
  import opened TxEngine
  import opened TxSafety

  function Line(e: Engine): seq<Packet> {
    Packets(e.log.accepted) + Packets(Hand(e)) + e.txQueue
  }

  function Surviving(q: seq<Packet>, gone: seq<Packet>): seq<Packet> {
    if q == [] then []
    else if q[0] in gone then Surviving(q[1..], gone)
    else [q[0]] + Surviving(q[1..], gone)
  }

  /** Each class of packets keeps the order of admission and loses nothing.  Without
    * promotion there is one class, and the line is the admission order. */
  ghost predicate InOrder(cfg: Config, e: Engine) {
    forall pm: bool :: Select(cfg, Surviving(e.log.admitted, e.log.flushed), pm) == Select(cfg, Line(e), pm)
  }

  // sequences

  lemma {:induction false} SurvivingConcat(a: seq<Packet>, b: seq<Packet>, gone: seq<Packet>)
    ensures Surviving(a + b, gone) == Surviving(a, gone) + Surviving(b, gone)
  {
    if a == [] {
      assert a + b == b;
    } else {
      assert (a + b)[1..] == a[1..] + b;
      SurvivingConcat(a[1..], b, gone);
    }
  }

  lemma {:induction false} SurvivingAll(q: seq<Packet>, gone: seq<Packet>)
    requires forall p :: p in q ==> p !in gone
    ensures Surviving(q, gone) == q
  {
    if q != [] {
      assert q[0] in q;
      SurvivingAll(q[1..], gone);
    }
  }

  lemma {:induction false} SurvivingNone(q: seq<Packet>, gone: seq<Packet>)
    requires forall p :: p in q ==> p in gone
    ensures Surviving(q, gone) == []
  {
    if q != [] {
      assert q[0] in q;
      SurvivingNone(q[1..], gone);
    }
  }

  lemma {:induction false} SurvivingTwice(q: seq<Packet>, gone: seq<Packet>, more: seq<Packet>)
    ensures Surviving(q, gone + more) == Surviving(Surviving(q, gone), more)
  {
    if q != [] {
      SurvivingTwice(q[1..], gone, more);
    }
  }

  lemma {:induction false} SelectSurviving(cfg: Config, q: seq<Packet>, gone: seq<Packet>, pm: bool)
    ensures Select(cfg, Surviving(q, gone), pm) == Surviving(Select(cfg, q, pm), gone)
  {
    if q != [] {
      SelectSurviving(cfg, q[1..], gone, pm);
    }
  }

  // the actions

  lemma {:induction false} HeldIncludes(threads: seq<Thread>, t: nat, p: Packet)
    requires t < |threads|
    ensures Held(threads, p) >= Local(threads[t], p)
  {
    if t > 0 {
      HeldIncludes(threads[1..], t - 1, p);
    }
  }

  lemma AppendInOrder(cfg: Config, e: Engine, t: nat)
    requires t < |e.threads| && e.threads[t].pc.Entering? && Conserved(e) && InOrder(cfg, e)
    ensures InOrder(cfg, Append(e, t))
  {
    var f, batch := Append(e, t), e.threads[t].pc.batch;
    forall p | p in batch ensures p !in e.log.flushed {
      AdmittedOnce(e, p);
      HeldIncludes(e.threads, t, p);
      CountMember(batch, p);
      CountMember(e.log.flushed, p);
    }
    SurvivingAll(batch, e.log.flushed);
    SurvivingConcat(e.log.admitted, batch, e.log.flushed);
    assert Line(f) == Line(e) + batch;
    forall pm: bool ensures Select(cfg, Surviving(f.log.admitted, f.log.flushed), pm) == Select(cfg, Line(f), pm) {
      SelectConcat(cfg, Surviving(e.log.admitted, e.log.flushed), batch, pm);
      SelectConcat(cfg, Line(e), batch, pm);
    }
  }

  lemma AfterPassInOrder(cfg: Config, e: Engine, t: nat, r: Pass)
    requires t < |e.threads| && e.log.drainer == t && e.threads[t].pc == Issuing([]) && InOrder(cfg, e)
    requires forall pm: bool :: Select(cfg, Packets(r.taken) + r.rest, pm) == Select(cfg, e.txQueue, pm)
    ensures InOrder(cfg, AfterPass(e, t, r))
  {
    var f := AfterPass(e, t, r);
    assert Hand(e) == [] && Hand(f) == r.taken;
    assert Line(f) == Packets(e.log.accepted) + (Packets(r.taken) + r.rest);
    assert Line(e) == Packets(e.log.accepted) + e.txQueue;
    forall pm: bool ensures Select(cfg, Surviving(f.log.admitted, f.log.flushed), pm) == Select(cfg, Line(f), pm) {
      SelectConcat(cfg, Packets(e.log.accepted), Packets(r.taken) + r.rest, pm);
      SelectConcat(cfg, Packets(e.log.accepted), e.txQueue, pm);
    }
  }

  lemma DrainInOrder(cfg: Config, e: Engine, t: nat, bus: Bus)
    requires cfg.Valid() && t < |e.threads| && e.log.drainer == t && e.threads[t].pc == Issuing([]) && InOrder(cfg, e)
    ensures InOrder(cfg, Drain(cfg, e, t, bus))
  {
    if e.txQueue == [] {
      assert Line(Drain(cfg, e, t, bus)) == Line(e);
    } else {
      GetPacketsStablePartition(cfg, e.credits, e.txQueue, bus);
      AfterPassInOrder(cfg, e, t, GetPackets(cfg, e.credits, e.txQueue, bus));
    }
  }

  lemma EnterInOrder(cfg: Config, e: Engine, t: nat, bus: Bus)
    requires cfg.Valid() && t < |e.threads| && e.threads[t].pc.Entering?
    requires OneDrainer(e) && Conserved(e) && InOrder(cfg, e)
    ensures InOrder(cfg, DoEnter(cfg, e, t, bus))
  {
    var d := Append(e, t);
    AppendInOrder(cfg, e, t);
    if e.processCount == 1 {
      assert Line(SetPc(d, t, Leaving)) == Line(d);
    } else {
      assert Hand(d) == [] && Hand(Join(e, t)) == [];
      assert Line(Join(e, t)) == Line(d);
      DrainInOrder(cfg, Join(e, t), t, bus);
    }
  }

  /** A flush takes the end of the line away, and only that. */
  lemma FlushInOrder(cfg: Config, e: Engine)
    requires Conserved(e) && InOrder(cfg, e)
    ensures InOrder(cfg, DoFlush(e))
  {
    var f, kept := DoFlush(e), Packets(e.log.accepted) + Packets(Hand(e));
    forall p | p in kept ensures p !in e.txQueue {
      AdmittedOnce(e, p);
      CountPackets(e.log.accepted, p);
      CountPackets(Hand(e), p);
      CountMember(Packets(e.log.accepted), p);
      CountMember(Packets(Hand(e)), p);
      CountMember(e.txQueue, p);
    }
    SurvivingAll(kept, e.txQueue);
    SurvivingNone(e.txQueue, e.txQueue);
    SurvivingConcat(kept, e.txQueue, e.txQueue);
    assert Line(f) == kept;
    var before := Surviving(e.log.admitted, e.log.flushed);
    SurvivingTwice(e.log.admitted, e.log.flushed, e.txQueue);
    forall pm: bool ensures Select(cfg, Surviving(f.log.admitted, f.log.flushed), pm) == Select(cfg, Line(f), pm) {
      SelectSurviving(cfg, before, e.txQueue, pm);
      SelectSurviving(cfg, Line(e), e.txQueue, pm);
    }
  }

  /** All other actions leave the line as it is: in particular pushing a failed
    * batch back to the front of TxQueue, behind which others appended. */
  lemma LineUnchanged(e: Engine, t: nat)
    requires t < |e.threads| && OneDrainer(e)
    ensures e.threads[t].pc.Issuing? && e.threads[t].pc.queue != [] ==> Line(DoIssue(e, t)) == Line(e)
    ensures e.threads[t].pc.Sending? ==> Line(DoReject(e, t)) == Line(e)
    ensures e.threads[t].pc.Returning? ==> Line(DoRequeue(e, t)) == Line(e)
  {
    if e.threads[t].pc.Issuing? && e.threads[t].pc.queue != [] {
      assert Hand(DoIssue(e, t)) == Hand(e);
    }
    if e.threads[t].pc.Returning? {
      assert Hand(DoRequeue(e, t)) == [];
      assert Packets([]) == [];
    }
  }

  lemma AcceptLine(e: Engine, t: nat)
    requires t < |e.threads| && e.threads[t].pc.Sending? && OneDrainer(e)
    ensures Line(DoAccept(e, t)) == Line(e)
  {
    var pc := e.threads[t].pc;
    assert Packets(e.log.accepted + [pc.current]) + Packets(pc.queue) ==
      Packets(e.log.accepted) + Packets([pc.current] + pc.queue);
  }

  lemma SameLine(cfg: Config, e: Engine, f: Engine)
    requires InOrder(cfg, e) && Line(f) == Line(e)
    requires f.log.admitted == e.log.admitted && f.log.flushed == e.log.flushed
    ensures InOrder(cfg, f)
  {
  }

  /** Actions outside the drain do not touch what the line is made of. */
  lemma QuietInOrder(cfg: Config, e: Engine, a: Action)
    requires cfg.Valid() && Enabled(cfg, e, a) && OneDrainer(e) && InOrder(cfg, e)
    requires a.Submit? || a.Kick? || a.Report? || a.Leave? || a.Complete? || a.FinishSearch?
    ensures InOrder(cfg, Do(cfg, e, a))
  {
    hide GetPackets, AdmitSplit, RemoveFirst, FirstMatch, Surviving, Select;
    QuietActions(cfg, e, a);
    SameLine(cfg, e, Do(cfg, e, a));
  }

  lemma DrainerInOrder(cfg: Config, e: Engine, a: Action)
    requires cfg.Valid() && Enabled(cfg, e, a) && OneDrainer(e) && InOrder(cfg, e)
    requires a.Issue? || a.Accept? || a.Reject? || a.Requeue?
    ensures InOrder(cfg, Do(cfg, e, a))
  {
    hide GetPackets, AdmitSplit, RemoveFirst, FirstMatch, Surviving, Select;
    match a
    case Issue(t) => LineUnchanged(e, t); SameLine(cfg, e, DoIssue(e, t));
    case Accept(t) => AcceptLine(e, t); SameLine(cfg, e, DoAccept(e, t));
    case Reject(t) => LineUnchanged(e, t); SameLine(cfg, e, DoReject(e, t));
    case Requeue(t) => LineUnchanged(e, t); SameLine(cfg, e, DoRequeue(e, t));
  }

  lemma InOrderKept(cfg: Config, e: Engine, a: Action)
    requires cfg.Valid() && Enabled(cfg, e, a) && OneDrainer(e) && Conserved(e) && InOrder(cfg, e)
    ensures InOrder(cfg, Do(cfg, e, a))
  {
    hide GetPackets, AdmitSplit, RemoveFirst, FirstMatch, Surviving, Select;
    match a
    case Enter(t, bus) => EnterInOrder(cfg, e, t, bus);
    case Relock(t, bus) => DrainInOrder(cfg, e, t, bus);
    case Flush => FlushInOrder(cfg, e);
    case Issue(_) => DrainerInOrder(cfg, e, a);
    case Accept(_) => DrainerInOrder(cfg, e, a);
    case Reject(_) => DrainerInOrder(cfg, e, a);
    case Requeue(_) => DrainerInOrder(cfg, e, a);
    case _ => QuietInOrder(cfg, e, a);
  }
}
