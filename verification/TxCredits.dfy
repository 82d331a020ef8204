/** Credit accounting over whole runs: nothing is overdrawn, and every credit is
  * somewhere. */
module TxCredits {
  import opened TxModel
  import opened TxEngine
  import opened TxSafety

  /** Credits paid for what the drainer holds.  When HIF has refused a packet its
    * price has been refunded already. */
  function HandCredits(pc: Pc): int {
    if pc.Returning? && pc.queue != [] then SumCredits(pc.queue[1..]) else SumCredits(HandOf(pc))
  }

  function InHand(e: Engine): int {
    HandCredits(DrainerPc(e))
  }

  ghost predicate AllProper(cfg: Config, s: seq<Charged>)
    requires cfg.Valid()
  {
    forall i :: 0 <= i < |s| ==> ProperlyCharged(cfg, s[i])
  }

  /** TxCredits, the price of what is in the drainer's hand, the price of what HIF
    * accepted and the price of what was requeued behind a failed packet add up to
    * the initial allocation plus all credits reported. */
  ghost predicate Balanced(cfg: Config, e: Engine) {
    && e.credits >= 0
    && e.credits + InHand(e) + SumCredits(e.log.accepted) + e.log.leaked == cfg.initialCredits + e.log.reported
  }

  /** Every price is the right one; and credits leak exactly when HIF fails before
    * the last packet of a batch, on an endpoint that pays credits at all. */
  ghost predicate LeakExplained(cfg: Config, e: Engine)
    requires cfg.Valid()
  {
    && AllProper(cfg, Hand(e)) && AllProper(cfg, e.log.accepted)
    && e.log.leaked >= 0
    && (e.log.leaked == 0 <==> cfg.id == ENDPOINT_0 || e.log.midBatchFailures == 0)
  }

  ghost predicate CreditsSound(cfg: Config, e: Engine)
    requires cfg.Valid()
  {
    Balanced(cfg, e) && LeakExplained(cfg, e)
  }

  lemma {:induction false} ProperSum(cfg: Config, s: seq<Charged>)
    requires cfg.Valid() && AllProper(cfg, s)
    ensures SumCredits(s) >= 0
    ensures cfg.id != ENDPOINT_0 && s != [] ==> SumCredits(s) > 0
    ensures cfg.id == ENDPOINT_0 ==> SumCredits(s) == 0
  {
    if s != [] {
      ProperSum(cfg, s[1..]);
    }
  }

  // the actions

  lemma AfterPassCredits(cfg: Config, e: Engine, t: nat, r: Pass)
    requires cfg.Valid() && t < |e.threads| && e.log.drainer == t && e.threads[t].pc == Issuing([])
    requires CreditsSound(cfg, e)
    requires r.credits + SumCredits(r.taken) == e.credits && r.credits >= 0 && AllProper(cfg, r.taken)
    ensures CreditsSound(cfg, AfterPass(e, t, r))
  {
    var f := AfterPass(e, t, r);
    assert Hand(e) == [] && Hand(f) == r.taken;
  }

  lemma DrainCredits(cfg: Config, e: Engine, t: nat, bus: Bus)
    requires cfg.Valid() && t < |e.threads| && e.log.drainer == t && e.threads[t].pc == Issuing([])
    requires CreditsSound(cfg, e)
    ensures CreditsSound(cfg, Drain(cfg, e, t, bus))
  {
    if e.txQueue == [] {
      assert Hand(e) == [] && Hand(Drain(cfg, e, t, bus)) == [];
    } else {
      GetPacketsPays(cfg, e.credits, e.txQueue, bus);
      AfterPassCredits(cfg, e, t, GetPackets(cfg, e.credits, e.txQueue, bus));
    }
  }

  lemma EnterCredits(cfg: Config, e: Engine, t: nat, bus: Bus)
    requires cfg.Valid() && t < |e.threads| && e.threads[t].pc.Entering? && OneDrainer(e) && CreditsSound(cfg, e)
    ensures CreditsSound(cfg, DoEnter(cfg, e, t, bus))
  {
    if e.processCount == 1 {
      assert Hand(SetPc(Append(e, t), t, Leaving)) == Hand(e);
    } else {
      var d := Join(e, t);
      assert Hand(e) == [] && InHand(e) == 0;
      assert Hand(d) == [] && InHand(d) == 0;
      DrainCredits(cfg, d, t, bus);
    }
  }

  lemma IssueCredits(cfg: Config, e: Engine, t: nat)
    requires cfg.Valid() && t < |e.threads| && e.threads[t].pc.Issuing? && e.threads[t].pc.queue != []
    requires OneDrainer(e) && CreditsSound(cfg, e)
    ensures CreditsSound(cfg, DoIssue(e, t))
  {
    assert Hand(DoIssue(e, t)) == Hand(e);
  }

  lemma AcceptCredits(cfg: Config, e: Engine, t: nat)
    requires cfg.Valid() && t < |e.threads| && e.threads[t].pc.Sending? && OneDrainer(e) && CreditsSound(cfg, e)
    ensures CreditsSound(cfg, DoAccept(e, t))
  {
    var f, pc := DoAccept(e, t), e.threads[t].pc;
    assert Hand(e) == [pc.current] + pc.queue && Hand(f) == pc.queue;
    assert Balanced(cfg, f) by {
      SumConcat(e.log.accepted, [pc.current]);
      SumConcat([pc.current], pc.queue);
    }
    assert LeakExplained(cfg, f) by {
      assert ProperlyCharged(cfg, Hand(e)[0]);
      assert forall i :: 0 <= i < |pc.queue| ==> pc.queue[i] == Hand(e)[i + 1];
    }
  }

  /** Only the packet HIF refused is refunded. */
  lemma RejectCredits(cfg: Config, e: Engine, t: nat)
    requires cfg.Valid() && t < |e.threads| && e.threads[t].pc.Sending? && OneDrainer(e) && CreditsSound(cfg, e)
    ensures CreditsSound(cfg, DoReject(e, t))
  {
    var f, pc := DoReject(e, t), e.threads[t].pc;
    assert Hand(f) == Hand(e) == [pc.current] + pc.queue;
    assert Hand(f)[1..] == pc.queue;
    assert ProperlyCharged(cfg, Hand(e)[0]);
    SumConcat([pc.current], pc.queue);
  }

  lemma RequeueCredits(cfg: Config, e: Engine, t: nat)
    requires cfg.Valid() && t < |e.threads| && e.threads[t].pc.Returning? && OneDrainer(e) && CreditsSound(cfg, e)
    ensures CreditsSound(cfg, DoRequeue(e, t))
  {
    var queue := e.threads[t].pc.queue;
    assert Hand(DoRequeue(e, t)) == [] && Hand(e) == queue;
    assert AllProper(cfg, queue[1..]);
    ProperSum(cfg, queue[1..]);
  }

  lemma QuietCredits(cfg: Config, e: Engine, f: Engine)
    requires cfg.Valid() && CreditsSound(cfg, e) && SameDrain(e, f)
    requires f.credits - e.credits == f.log.reported - e.log.reported >= 0
    ensures CreditsSound(cfg, f)
  {
  }

  lemma CreditsKept(cfg: Config, e: Engine, a: Action)
    requires cfg.Valid() && Enabled(cfg, e, a) && OneDrainer(e) && CreditsSound(cfg, e)
    ensures CreditsSound(cfg, Do(cfg, e, a))
  {
    hide GetPackets, AdmitSplit, RemoveFirst, FirstMatch, SumCredits;
    match a
    case Enter(t, bus) => EnterCredits(cfg, e, t, bus);
    case Relock(t, bus) => DrainCredits(cfg, e, t, bus);
    case Issue(t) => IssueCredits(cfg, e, t);
    case Accept(t) => AcceptCredits(cfg, e, t);
    case Reject(t) => RejectCredits(cfg, e, t);
    case Requeue(t) => RequeueCredits(cfg, e, t);
    case _ =>
      QuietActions(cfg, e, a);
      QuietCredits(cfg, e, Do(cfg, e, a));
  }
}
