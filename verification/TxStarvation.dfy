/** When the host runs short of credits, has it asked the target for some?  What each
  * charge said, which charges went out, and what a failed batch changes. */
module TxStarvation {
  import opened TxModel
  import opened TxEngine
  import opened TxSafety

  /** What HIF accepted and then what the drainer holds. */
  function Out(e: Engine): seq<Charged> {
    e.log.accepted + Hand(e)
  }

  /** A charge asks for credits exactly when those that remain are at or below the
    * threshold. */
  predicate AsksRightly(cfg: Config, c: Charged, creditsAfter: int) {
    c.needUpdate <==> cfg.id != ENDPOINT_0 && creditsAfter <= cfg.creditsPerMaxMsg
  }

  /** The last charge asked rightly, and credits have only come back since. */
  ghost predicate LastMarked(cfg: Config, e: Engine) {
    e.log.lastCharge.Last? ==>
      && AsksRightly(cfg, e.log.lastCharge.charged, e.log.lastCharge.creditsAfter)
      && e.log.lastCharge.creditsAfter <= e.credits
  }

  /** So did the charge of every packet that went out or is in hand. */
  ghost predicate OutMarked(cfg: Config, e: Engine) {
    && |e.log.outgoing| == |Out(e)|
    && forall i :: 0 <= i < |e.log.outgoing| ==>
         && e.log.outgoing[i].charged == Out(e)[i]
         && AsksRightly(cfg, e.log.outgoing[i].charged, e.log.outgoing[i].creditsAfter)
  }

  /** The packet charged last is the last one accepted or in hand. */
  ghost predicate LastChargeGoesOut(e: Engine) {
    if Out(e) == [] then e.log.lastCharge.Never?
    else e.log.lastCharge.Last? && e.log.lastCharge.charged == Out(e)[|Out(e)| - 1]
  }

  /** The packet charged last was admitted, and is neither accepted nor in hand. */
  ghost predicate LastChargeStaysIn(e: Engine) {
    && Hand(e) == [] && e.log.lastCharge.Last?
    && Count(e.log.admitted, e.log.lastCharge.charged.packet) > 0
    && CountCharged(e.log.accepted, e.log.lastCharge.charged.packet) == 0
  }

  ghost predicate ChargesSound(cfg: Config, e: Engine) {
    && LastMarked(cfg, e) && OutMarked(cfg, e)
    && (if e.log.putBack then LastChargeStaysIn(e) else LastChargeGoesOut(e))
  }

  // the actions

  /** The pass of a drainer that has nothing in hand. */
  ghost predicate DrainsWith(cfg: Config, e: Engine, t: nat, r: Pass) {
    && t < |e.threads| && e.log.drainer == t && e.threads[t].pc == Issuing([])
    && r.credits + SumCredits(r.taken) == e.credits && (r.taken == [] ==> r.credits == e.credits)
    && forall i :: 0 <= i < |r.taken| ==> AsksRightly(cfg, r.taken[i], e.credits - SumCredits(r.taken[..i + 1]))
  }

  lemma AfterPassHand(cfg: Config, e: Engine, t: nat, r: Pass)
    requires DrainsWith(cfg, e, t, r)
    ensures Hand(e) == [] && Out(e) == e.log.accepted && Out(AfterPass(e, t, r)) == Out(e) + r.taken
    ensures Hand(AfterPass(e, t, r)) == r.taken
  {
    hide SumCredits;
    assert Hand(e) == [] && Hand(AfterPass(e, t, r)) == r.taken;
  }

  lemma AfterPassOut(cfg: Config, e: Engine, t: nat, r: Pass)
    requires DrainsWith(cfg, e, t, r) && OutMarked(cfg, e)
    ensures OutMarked(cfg, AfterPass(e, t, r))
  {
    hide SumCredits, Out, AsksRightly;
    AfterPassHand(cfg, e, t, r);
    var f, s := AfterPass(e, t, r), Charges(r.taken, e.credits);
    if r.taken == [] {
      assert Out(e) + [] == Out(e);
    } else {
      assert f.log.outgoing == e.log.outgoing + s;
      forall i | 0 <= i < |f.log.outgoing|
        ensures f.log.outgoing[i].charged == Out(f)[i] && AsksRightly(cfg, f.log.outgoing[i].charged, f.log.outgoing[i].creditsAfter)
      {
        if i >= |e.log.outgoing| {
          assert f.log.outgoing[i] == s[i - |e.log.outgoing|];
        }
      }
    }
  }

  lemma AfterPassCharges(cfg: Config, e: Engine, t: nat, r: Pass)
    requires DrainsWith(cfg, e, t, r) && ChargesSound(cfg, e)
    ensures ChargesSound(cfg, AfterPass(e, t, r))
  {
    hide SumCredits, Count, CountCharged, Charges, Out, Hand, OutMarked;
    AfterPassHand(cfg, e, t, r);
    AfterPassOut(cfg, e, t, r);
    if r.taken == [] {
      assert Out(e) + [] == Out(e);
    } else {
      assert r.taken[..|r.taken|] == r.taken;
      assert AsksRightly(cfg, r.taken[|r.taken| - 1], r.credits);
    }
  }

  lemma DrainCharges(cfg: Config, e: Engine, t: nat, bus: Bus)
    requires cfg.Valid() && t < |e.threads| && e.log.drainer == t && e.threads[t].pc == Issuing([]) && ChargesSound(cfg, e)
    ensures ChargesSound(cfg, Drain(cfg, e, t, bus))
  {
    hide SumCredits, GetPackets, Count, CountCharged;
    if e.txQueue == [] {
      assert Hand(e) == [] && Hand(Drain(cfg, e, t, bus)) == [];
    } else {
      var r := GetPackets(cfg, e.credits, e.txQueue, bus);
      GetPacketsPays(cfg, e.credits, e.txQueue, bus);
      SumOfNone();
      forall i | 0 <= i < |r.taken| ensures AsksRightly(cfg, r.taken[i], e.credits - SumCredits(r.taken[..i + 1])) {
        GetPacketsMarks(cfg, e.credits, e.txQueue, bus, i);
      }
      AfterPassCharges(cfg, e, t, r);
    }
  }

  lemma SumOfNone()
    ensures SumCredits([]) == 0
  {
  }

  /** Appending and becoming the drainer change neither the hand nor the charges. */
  lemma AppendCharges(cfg: Config, e: Engine, f: Engine, batch: seq<Packet>)
    requires ChargesSound(cfg, e) && Hand(f) == Hand(e) && f.credits == e.credits
    requires f.log.accepted == e.log.accepted && f.log.lastCharge == e.log.lastCharge
    requires f.log.putBack == e.log.putBack && f.log.outgoing == e.log.outgoing
    requires f.log.admitted == e.log.admitted + batch
    ensures ChargesSound(cfg, f)
  {
    hide Hand;
    if e.log.putBack {
      CountConcat(e.log.admitted, batch, e.log.lastCharge.charged.packet);
    }
  }

  lemma EnterCharges(cfg: Config, e: Engine, t: nat, bus: Bus)
    requires cfg.Valid() && t < |e.threads| && e.threads[t].pc.Entering? && OneDrainer(e) && ChargesSound(cfg, e)
    ensures ChargesSound(cfg, DoEnter(cfg, e, t, bus))
  {
    hide ChargesSound;
    var batch := e.threads[t].pc.batch;
    if e.processCount == 1 {
      AppendCharges(cfg, e, SetPc(Append(e, t), t, Leaving), batch);
    } else {
      assert Hand(e) == [] && Hand(Join(e, t)) == [];
      AppendCharges(cfg, e, Join(e, t), batch);
      DrainCharges(cfg, Join(e, t), t, bus);
    }
  }

  /** Issuing, accepting and refusing leave what is out, or about to go, as it is. */
  lemma SameOut(cfg: Config, e: Engine, f: Engine)
    requires ChargesSound(cfg, e) && Out(f) == Out(e) && !e.log.putBack && !f.log.putBack
    requires f.credits >= e.credits && f.log.lastCharge == e.log.lastCharge && f.log.outgoing == e.log.outgoing
    ensures ChargesSound(cfg, f)
  {
    hide Out;
  }

  lemma IssueCharges(cfg: Config, e: Engine, t: nat)
    requires t < |e.threads| && OneDrainer(e) && ChargesSound(cfg, e)
    requires e.threads[t].pc.Issuing? && e.threads[t].pc.queue != []
    ensures ChargesSound(cfg, DoIssue(e, t))
  {
    hide Count, CountCharged;
    assert Hand(DoIssue(e, t)) == Hand(e) == e.threads[t].pc.queue;
    SameOut(cfg, e, DoIssue(e, t));
  }

  lemma AcceptCharges(cfg: Config, e: Engine, t: nat)
    requires t < |e.threads| && OneDrainer(e) && ChargesSound(cfg, e) && e.threads[t].pc.Sending?
    ensures ChargesSound(cfg, DoAccept(e, t))
  {
    hide Count, CountCharged;
    var pc := e.threads[t].pc;
    assert Hand(e) == [pc.current] + pc.queue && Hand(DoAccept(e, t)) == pc.queue;
    assert Out(DoAccept(e, t)) == Out(e);
    SameOut(cfg, e, DoAccept(e, t));
  }

  lemma RejectCharges(cfg: Config, e: Engine, t: nat)
    requires t < |e.threads| && OneDrainer(e) && ChargesSound(cfg, e)
    requires e.threads[t].pc.Sending? && e.threads[t].pc.current.credits >= 0
    ensures ChargesSound(cfg, DoReject(e, t))
  {
    hide Count, CountCharged, RemoveFirst;
    var pc := e.threads[t].pc;
    assert Hand(e) == [pc.current] + pc.queue == Hand(DoReject(e, t));
    SameOut(cfg, e, DoReject(e, t));
  }

  /** A failed batch takes the packet charged last back to TxQueue. */
  lemma RequeueCharges(cfg: Config, e: Engine, t: nat)
    requires cfg.Valid() && t < |e.threads| && e.threads[t].pc.Returning? && OneDrainer(e) && Conserved(e) && ChargesSound(cfg, e)
    ensures ChargesSound(cfg, DoRequeue(e, t))
  {
    hide Count, CountCharged, Conserved;
    var f, queue := DoRequeue(e, t), e.threads[t].pc.queue;
    assert Hand(e) == queue && Hand(f) == [];
    assert Out(f) == e.log.accepted && Out(e)[..|e.log.accepted|] == e.log.accepted;
    LastInHand(e, queue);
    assert Out(e)[|Out(e)| - 1] == queue[|queue| - 1];
  }

  lemma LastInHand(e: Engine, queue: seq<Charged>)
    requires Conserved(e) && Hand(e) == queue && queue != []
    ensures var p := queue[|queue| - 1].packet; Count(e.log.admitted, p) > 0 && CountCharged(e.log.accepted, p) == 0
  {
    var p := queue[|queue| - 1].packet;
    CountChargedAt(queue, |queue| - 1);
    AdmittedOnce(e, p);
    assert ConservedAt(e, p);
  }

  lemma QuietCharges(cfg: Config, e: Engine, f: Engine)
    requires ChargesSound(cfg, e) && SameDrain(e, f) && f.credits >= e.credits
    ensures ChargesSound(cfg, f)
  {
  }

  lemma ChargesKept(cfg: Config, e: Engine, a: Action)
    requires cfg.Valid() && Enabled(cfg, e, a) && OneDrainer(e) && Conserved(e) && ChargesSound(cfg, e)
    requires a.Reject? ==> e.threads[a.t].pc.current.credits >= 0
    ensures ChargesSound(cfg, Do(cfg, e, a))
  {
    hide GetPackets, AdmitSplit, RemoveFirst, FirstMatch, SumCredits, ChargesSound, Conserved;
    match a
    case Enter(t, bus) => EnterCharges(cfg, e, t, bus);
    case Relock(t, bus) => RelockCharges(cfg, e, t, bus);
    case Issue(t) => IssueCharges(cfg, e, t);
    case Accept(t) => AcceptCharges(cfg, e, t);
    case Reject(t) => RejectCharges(cfg, e, t);
    case Requeue(t) => RequeueCharges(cfg, e, t);
    case _ =>
      QuietActions(cfg, e, a);
      QuietCharges(cfg, e, Do(cfg, e, a));
  }

  lemma RelockCharges(cfg: Config, e: Engine, t: nat, bus: Bus)
    requires cfg.Valid() && Enabled(cfg, e, Relock(t, bus)) && OneDrainer(e) && ChargesSound(cfg, e)
    ensures ChargesSound(cfg, Drain(cfg, e, t, bus))
  {
    DrainCharges(cfg, e, t, bus);
  }

  // ---------- consequences ----------

  /** The packet charged last goes out exactly if no failed batch has been put back
    * since. */
  lemma {:induction false} PutBackDecides(cfg: Config, e: Engine)
    requires ChargesSound(cfg, e)
    ensures LastChargeGoesOut(e) <==> !e.log.putBack
  {
    if e.log.putBack && e.log.accepted != [] {
      CountChargedAt(e.log.accepted, |e.log.accepted| - 1);
    }
  }

  /** No silent starvation.  If every message fits the maximum the endpoint was
    * connected with, then a queue that is blocked for credits is blocked below the
    * threshold: unless nothing was ever charged, the packet charged last asked. */
  lemma {:induction false} NoSilentStarvation(cfg: Config, e: Engine)
    requires cfg.Valid() && CoversMaxMessage(cfg) && ChargesSound(cfg, e)
    requires Blocked(cfg, e.credits, e.txQueue) && FitsMaxMessage(cfg, EffectiveHead(cfg, e.txQueue))
    ensures e.log.lastCharge.Last? ==>
      e.log.lastCharge.charged.needUpdate && e.log.lastCharge.creditsAfter <= cfg.creditsPerMaxMsg
  {
    MaxMessageBoundsRequired(cfg, EffectiveHead(cfg, e.txQueue));
  }
}
