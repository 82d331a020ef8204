/** Concrete runs: what a HIF failure costs in the middle of a batch, and during a search. */
module TxExamples {
  import opened TxModel
  import opened TxEngine
  import opened TxSafety
  import opened TxCredits
  import opened TxTheorems
  import opened TxWalks

  /** An endpoint with credits of 100 bytes, four of them, and messages of at most
    * two credits. */
  function Sample(): Config {
    Config(1, 100, 4, 200, 2, 10, false)
  }

  function Small(n: nat): Packet { Packet(n, 10, 0) }
  function Large(n: nat): Packet { Packet(n, 150, 0) }

  lemma Prices()
    ensures forall n: nat :: Required(Sample(), Small(n)) == 1 && Required(Sample(), Large(n)) == 2
  {
  }

  /** The three passes of the runs below. */
  lemma {:induction false} Passes()
    ensures GetPackets(Sample(), 4, [Small(0)], Awake) == Pass([Charged(Small(0), 1, false)], [], 3, Drained)
    ensures GetPackets(Sample(), 3, [Small(1), Large(2)], Awake) ==
      Pass([Charged(Small(1), 1, true), Charged(Large(2), 2, true)], [], 0, Drained)
    ensures GetPackets(Sample(), 1, [Large(3)], Awake) == Pass([], [Large(3)], 1, OutOfCredits)
    ensures Blocked(Sample(), 1, [Large(3)]) && EffectiveHead(Sample(), [Large(3)]) == Large(3)
  {
    hide Required, CreditsFor;
    var cfg := Sample();
    Prices();
    var c, d := Charged(Small(1), 1, true), Charged(Large(2), 2, true);
    var batch := [Small(1), Large(2)];
    assert Select(cfg, [Small(0)], true) == [] && Select(cfg, [Large(3)], true) == [];
    assert TakeFrom(cfg, 3, [], Awake) == Pass([], [], 3, Drained);
    assert batch[1..] == [Large(2)];
    assert Select(cfg, [Large(2)], true) == [] && Select(cfg, batch, true) == [];
    assert TakeFrom(cfg, 0, [], Awake) == Pass([], [], 0, Drained);
    assert TakeFrom(cfg, 2, [Large(2)], Awake) == Pass([d], [], 0, Drained);
    assert TakeFrom(cfg, 3, batch, Awake) == Pass([c, d], [], 0, Drained);
  }

  /** The first packet goes through; three credits remain, above the threshold of
    * two, so it carries no request for credits. */
  lemma {:induction false} Deliver(cfg: Config, e: Engine) returns (f: Engine)
    requires cfg == Sample() && e == Init(cfg, 1) && Reachable(cfg, e)
    ensures Reachable(cfg, f) && f.threads == [Thread(Idle, [])]
    ensures f.credits == 3 && f.processCount == 0 && f.txQueue == [] && f.search == NoSearch
    ensures f.lookup == f.log.accepted == [Charged(Small(0), 1, false)]
    ensures f.log.submitted == [Small(0)] && f.log.reported == 0
  {
    hide Reachable, GetPackets, TakeFrom, Select, Required, CreditsFor;
    Passes();
    var batch := [Small(0)];
    assert e.threads == [Thread(Idle, [])];
    ReachableStep(cfg, e, Submit(0, batch, 0, 0, NoHandler));
    var e1 := Do(cfg, e, Submit(0, batch, 0, 0, NoHandler));
    assert e1.threads == [Thread(Entering(batch), [])];
    ReachableStep(cfg, e1, Enter(0, Awake));
    assert e1.txQueue + batch == batch;
    f := SendLast(cfg, Do(cfg, e1, Enter(0, Awake)));
  }

  lemma {:induction false} SendLast(cfg: Config, e: Engine) returns (f: Engine)
    requires cfg == Sample() && Reachable(cfg, e)
    requires e.threads == [Thread(Issuing([Charged(Small(0), 1, false)]), [])] && e.txQueue == []
    requires e.lookup == e.log.accepted == []
    ensures Reachable(cfg, f) && f.threads == [Thread(Idle, [])]
    ensures f.credits == e.credits && f.processCount == 0 && f.txQueue == [] && f.search == e.search
    ensures f.lookup == f.log.accepted == [Charged(Small(0), 1, false)]
    ensures f.log.submitted == e.log.submitted && f.log.reported == e.log.reported
  {
    hide Reachable, GetPackets, RemoveFirst;
    var c := Charged(Small(0), 1, false);
    assert [c][1..] == [] && [] + [c] == [c];
    ReachableStep(cfg, e, Issue(0));
    var e1 := Do(cfg, e, Issue(0));
    assert e1.threads == [Thread(Sending(c, []), [])];
    ReachableStep(cfg, e1, Accept(0));
    var e2 := Do(cfg, e1, Accept(0));
    assert e2.threads == [Thread(Issuing([]), [])];
    f := LeaveDrained(cfg, e2);
  }

  lemma {:induction false} LeaveDrained(cfg: Config, e: Engine) returns (f: Engine)
    requires cfg == Sample() && Reachable(cfg, e) && e.threads == [Thread(Issuing([]), [])] && e.txQueue == []
    ensures Reachable(cfg, f)
    ensures f == e.(threads := [Thread(Idle, [])], processCount := 0, log := e.log.(stalled := false))
  {
    hide Reachable, GetPackets, RemoveFirst;
    ReachableStep(cfg, e, Relock(0, Awake));
    var e1 := Do(cfg, e, Relock(0, Awake));
    assert e1.threads == [Thread(Leaving, [])];
    ReachableStep(cfg, e1, Leave(0));
    f := Do(cfg, e1, Leave(0));
    assert e1.log.dropped + [] == e1.log.dropped;
  }

  /** The first packet of a batch of two fails: its credit comes back, but the
    * credits of the packet behind it do not, although that packet is back in
    * TxQueue and will be charged again. */
  lemma {:induction false} FailureLeaksCredits() returns (e: Engine)
    ensures Reachable(Sample(), e)
    ensures e.txQueue == [Small(1), Large(2)] && Hand(e) == [] && e.log.accepted == [Charged(Small(0), 1, false)]
    ensures e.credits + SumCredits(e.log.accepted) == Sample().initialCredits + e.log.reported - 2
    ensures e.credits == 1 && e.processCount == 0 && e.threads == [Thread(Leaving, [])] && e.search == NoSearch
    ensures e.lookup == [Charged(Small(0), 1, false)] && e.log.submitted == [Small(0), Small(1), Large(2)] && e.log.putBack
  {
    var cfg := Sample();
    var e0 := Init(cfg, 1);
    assert Runs(cfg, e0, []) && After(cfg, e0, []) == e0;
    var e1 := Deliver(cfg, e0);
    var e2 := TakeBatch(cfg, e1);
    e := FailBatch(cfg, e2);
  }

  /** Both packets of the batch are charged, and both ask for credits back. */
  lemma {:induction false} TakeBatch(cfg: Config, e: Engine) returns (f: Engine)
    requires cfg == Sample() && Reachable(cfg, e)
    requires e.threads == [Thread(Idle, [])] && e.credits == 3 && e.processCount == 0 && e.txQueue == []
    requires e.log.submitted == [Small(0)]
    ensures Reachable(cfg, f) && f.threads == [Thread(Issuing([Charged(Small(1), 1, true), Charged(Large(2), 2, true)]), [])]
    ensures f.credits == 0 && f.processCount == 1 && f.txQueue == [] && f.lookup == e.lookup && f.search == e.search
    ensures f.log.drainer == 0 && f.log.accepted == e.log.accepted && f.log.reported == e.log.reported
    ensures f.log.submitted == [Small(0), Small(1), Large(2)]
  {
    hide Reachable, GetPackets, TakeFrom, Select, Required, CreditsFor;
    Passes();
    var batch := [Small(1), Large(2)];
    ReachableStep(cfg, e, Submit(0, batch, 0, 0, NoHandler));
    var e1 := Do(cfg, e, Submit(0, batch, 0, 0, NoHandler));
    assert e1.threads == [Thread(Entering(batch), [])];
    ReachableStep(cfg, e1, Enter(0, Awake));
    f := Do(cfg, e1, Enter(0, Awake));
    assert e1.txQueue + batch == batch;
  }

  lemma {:induction false} FailBatch(cfg: Config, e: Engine) returns (f: Engine)
    requires cfg == Sample() && Reachable(cfg, e)
    requires e.threads == [Thread(Issuing([Charged(Small(1), 1, true), Charged(Large(2), 2, true)]), [])]
    requires e.credits == 0 && e.txQueue == [] && e.search == NoSearch && e.log.drainer == 0
    requires e.lookup == e.log.accepted == [Charged(Small(0), 1, false)] && e.log.reported == 0
    ensures Reachable(cfg, f) && f.threads == [Thread(Leaving, [])] && f.txQueue == [Small(1), Large(2)]
    ensures f.credits == 1 && f.processCount == 0 && f.lookup == e.lookup && f.search == NoSearch
    ensures f.log.submitted == e.log.submitted && f.log.accepted == e.log.accepted && f.log.reported == 0
    ensures Hand(f) == [] && SumCredits(f.log.accepted) == 1 && f.log.putBack
  {
    hide Reachable;
    var c, d := Charged(Small(1), 1, true), Charged(Large(2), 2, true);
    ReachableStep(cfg, e, Issue(0));
    var e1 := Do(cfg, e, Issue(0));
    assert e1.threads == [Thread(Sending(c, [d]), [])];
    ReachableStep(cfg, e1, Reject(0));
    var e2 := Do(cfg, e1, Reject(0));
    var l := e.lookup;
    assert FirstMatch(l + [c], 1) == 1 && (l + [c])[..1] + (l + [c])[2..] == l;
    assert [c] + [d] == [c, d] && e2.threads == [Thread(Returning([c, d]), [])];
    ReachableStep(cfg, e2, Requeue(0));
    f := Do(cfg, e2, Requeue(0));
    assert Packets([c, d]) == [Small(1), Large(2)];
  }

  /** The failed batch is flushed, and its sender returns. */
  lemma {:induction false} FlushBatch() returns (e: Engine)
    ensures Reachable(Sample(), e) && e.threads == [Thread(Idle, [])]
    ensures e.txQueue == [] && e.credits == 1 && e.processCount == 0 && e.log.putBack
    ensures e.log.submitted == [Small(0), Small(1), Large(2)] && e.log.accepted == [Charged(Small(0), 1, false)]
  {
    hide Reachable;
    var cfg := Sample();
    var e1 := FailureLeaksCredits();
    ReachableStep(cfg, e1, Flush);
    var e2 := Do(cfg, e1, Flush);
    ReachableStep(cfg, e2, Leave(0));
    e := Do(cfg, e2, Leave(0));
    assert e.threads == [Thread(Idle, [])];
  }

  /** A flush and one more message later the endpoint starves in silence: nobody
    * drains, nobody owes a kick, the head is not covered by the credits, and the
    * only packet the target ever got did not ask for credits back.  (The packet
    * charged last asked, but HIF never got it.) */
  lemma {:induction false} FailureCanStarveInSilence() returns (e: Engine)
    ensures Reachable(Sample(), e)
    ensures Blocked(Sample(), e.credits, e.txQueue) && FitsMaxMessage(Sample(), EffectiveHead(Sample(), e.txQueue))
    ensures e.processCount == 0 && !KickOwed(e) && !e.log.stalled
    ensures e.log.accepted == [Charged(Small(0), 1, false)] && Hand(e) == [] && e.log.putBack
  {
    hide Reachable, GetPackets, TakeFrom, Select, Required, CreditsFor;
    var cfg := Sample();
    Passes();
    var e3 := FlushBatch();
    var batch := [Large(3)];
    ReachableStep(cfg, e3, Submit(0, batch, 0, 0, NoHandler));
    var e4 := Do(cfg, e3, Submit(0, batch, 0, 0, NoHandler));
    assert e4.threads == [Thread(Entering(batch), [])];
    ReachableStep(cfg, e4, Enter(0, Awake));
    assert e4.txQueue + batch == batch;
    e := Do(cfg, e4, Enter(0, Awake));
    assert e.threads == [Thread(Leaving, [])];
  }

  // ---------- a packet refused while the lookup queue is detached ----------

  function First(): Charged { Charged(Small(0), 1, false) }
  function Second(): Charged { Charged(Small(1), 1, true) }
  function Third(): Charged { Charged(Small(2), 1, true) }

  lemma {:induction false} PassOfThree()
    ensures GetPackets(Sample(), 4, [Small(0), Small(1), Small(2)], Awake) == Pass([First(), Second(), Third()], [], 1, Drained)
  {
    hide Required, CreditsFor;
    var cfg, q := Sample(), [Small(0), Small(1), Small(2)];
    Prices();
    assert q[1..] == [Small(1), Small(2)] && q[2..] == [Small(2)] && q[1..][1..] == q[2..];
    assert Select(cfg, [Small(2)], true) == [] && Select(cfg, q[1..], true) == [] && Select(cfg, q, true) == [];
    assert TakeFrom(cfg, 1, [], Awake) == Pass([], [], 1, Drained);
    assert TakeFrom(cfg, 2, [Small(2)], Awake) == Pass([Third()], [], 1, Drained);
    assert TakeFrom(cfg, 3, q[1..], Awake) == Pass([Second(), Third()], [], 1, Drained);
    assert TakeFrom(cfg, 4, q, Awake) == Pass([First(), Second(), Third()], [], 1, Drained);
  }

  /** Three packets are charged. */
  lemma {:induction false} TakeThree() returns (e: Engine)
    ensures Reachable(Sample(), e) && e.threads == [Thread(Issuing([First(), Second(), Third()]), [])]
    ensures e.lookup == e.log.accepted == [] && e.lookupDepth == 0 && e.search == NoSearch && e.log.refused == []
  {
    hide Reachable, GetPackets, TakeFrom, Select, Required, CreditsFor;
    var cfg := Sample();
    var e0 := Init(cfg, 1);
    InitIsReachable(cfg, 1);
    PassOfThree();
    var batch := [Small(0), Small(1), Small(2)];
    assert e0.threads == [Thread(Idle, [])];
    ReachableStep(cfg, e0, Submit(0, batch, 0, 0, NoHandler));
    var e1 := Do(cfg, e0, Submit(0, batch, 0, 0, NoHandler));
    assert e1.threads == [Thread(Entering(batch), [])];
    ReachableStep(cfg, e1, Enter(0, Awake));
    assert e1.txQueue + batch == batch;
    e := Do(cfg, e1, Enter(0, Awake));
    assert e.threads == [Thread(Issuing([First(), Second(), Third()]), [])];
  }

  /** One packet of the sendQueue is issued and accepted. */
  lemma {:induction false} SendOne(cfg: Config, e: Engine, c: Charged, rest: seq<Charged>) returns (f: Engine)
    requires cfg.Valid() && Reachable(cfg, e) && e.threads == [Thread(Issuing([c] + rest), [])]
    ensures Reachable(cfg, f) && f.threads == [Thread(Issuing(rest), [])]
    ensures f.lookup == e.lookup + [c] && f.lookupDepth == e.lookupDepth + 1 && f.search == e.search
    ensures f.log.accepted == e.log.accepted + [c] && f.log.refused == e.log.refused
  {
    hide Reachable, GetPackets, RemoveFirst;
    assert ([c] + rest)[0] == c && ([c] + rest)[1..] == rest;
    ReachableStep(cfg, e, Issue(0));
    var e1 := Do(cfg, e, Issue(0));
    assert e1.threads == [Thread(Sending(c, rest), [])];
    ReachableStep(cfg, e1, Accept(0));
    f := Do(cfg, e1, Accept(0));
    assert f.threads == [Thread(Issuing(rest), [])];
  }

  /** The second packet completes while HIF is deciding on the third, and HIF refuses the
    * third while all three are detached: Depth of the empty lookup queue is -1. */
  lemma {:induction false} RefusedWhileDetached() returns (e: Engine)
    ensures Reachable(Sample(), e)
    ensures e.lookup == [] && e.lookupDepth == -1
    ensures e.search == Searching(1, [First(), Second()], 3) && e.log.refused == [Small(2)]
  {
    hide Reachable, GetPackets, RemoveFirst;
    var cfg := Sample();
    var e1 := TakeThree();
    var e3 := SendTwo(cfg, e1);
    e := RefuseThird(cfg, e3);
  }

  lemma {:induction false} SendTwo(cfg: Config, e1: Engine) returns (e3: Engine)
    requires cfg == Sample() && Reachable(cfg, e1) && e1.threads == [Thread(Issuing([First(), Second(), Third()]), [])]
    requires e1.lookup == e1.log.accepted == [] && e1.lookupDepth == 0 && e1.search == NoSearch
    ensures Reachable(cfg, e3) && e3.threads == [Thread(Issuing([Third()]), [])]
    ensures e3.lookup == e3.log.accepted == [First(), Second()] && e3.lookupDepth == 2 && e3.search == NoSearch
  {
    assert [First(), Second(), Third()] == [First()] + [Second(), Third()];
    var e2 := SendOne(cfg, e1, First(), [Second(), Third()]);
    assert [Second(), Third()] == [Second()] + [Third()];
    e3 := SendOne(cfg, e2, Second(), [Third()]);
    assert [First()] + [Second()] == [First(), Second()];
  }

  lemma {:induction false} RefuseThird(cfg: Config, e3: Engine) returns (e: Engine)
    requires cfg == Sample() && Reachable(cfg, e3) && e3.threads == [Thread(Issuing([Third()]), [])]
    requires e3.lookup == e3.log.accepted == [First(), Second()] && e3.lookupDepth == 2 && e3.search == NoSearch
    ensures Reachable(cfg, e) && e.lookup == [] && e.lookupDepth == -1
    ensures e.search == Searching(1, [First(), Second()], 3) && e.log.refused == [Small(2)]
  {
    hide Reachable, GetPackets, RemoveFirst;
    ReachableStep(cfg, e3, Issue(0));
    var e4 := Do(cfg, e3, Issue(0));
    assert [Third()][1..] == [];
    assert e4.threads == [Thread(Sending(Third(), []), [])];
    var all := [First(), Second(), Third()];
    assert e4.lookup == all && e4.log.accepted[1].packet.netbuf == 1;
    ReachableStep(cfg, e4, Complete(1));
    var e5 := Do(cfg, e4, Complete(1));
    ReachableStep(cfg, e5, Reject(0));
    e := Do(cfg, e5, Reject(0));
    ThirdIsLast();
  }

  lemma ThirdIsLast()
    ensures RemoveFirst([First(), Second(), Third()], 2) == Lookup(Hit(Third()), [First(), Second()])
    ensures RemoveFirst([], 2) == Lookup(Missing, [])
  {
    var all := [First(), Second(), Third()];
    assert FirstMatch(all, 2) == 2;
    assert all[..2] + all[3..] == [First(), Second()];
  }

  // ---------- a walk that goes astray ----------

  /** The first packet is completed, and the second is with HIF. */
  lemma {:induction false} SecondIsOffered() returns (e: Engine)
    ensures Reachable(Sample(), e) && e.search == NoSearch
    ensures e.threads == [Thread(Sending(Second(), [Third()]), [])]
    ensures e.lookup == [Second()] && e.log.accepted == [First()]
  {
    hide Reachable, GetPackets;
    var cfg := Sample();
    var e1 := TakeThree();
    assert [First(), Second(), Third()] == [First()] + [Second(), Third()];
    var e2 := SendOne(cfg, e1, First(), [Second(), Third()]);
    assert e2.log.accepted[0].packet.netbuf == 0;
    ReachableStep(cfg, e2, Complete(0));
    var e3 := Do(cfg, e2, Complete(0));
    ReachableStep(cfg, e3, Issue(0));
    e := Do(cfg, e3, Issue(0));
    assert [Second(), Third()][1..] == [Third()];
    assert e.threads == [Thread(Sending(Second(), [Third()]), [])];
  }

  /** HIF reports the completion of the first packet a second time, and refuses the second
    * packet while the walk stands at it: the walk goes on in the sendQueue. */
  lemma {:induction false} RepeatedCompletionGoesAstray() returns (s: Fine)
    ensures FineReachable(Sample(), s) && s.walk.Astray?
  {
    hide Reachable, FineReachable, GetPackets;
    var cfg := Sample();
    var e := SecondIsOffered();
    ReachableIsShown(cfg, e);
    assert e.log.accepted[0].packet.netbuf == 0;
    var s1 := Fine(e, NoWalk);
    FineReachableStep(cfg, s1, Act(Complete(0)));
    var s2 := DoStep(cfg, s1, Act(Complete(0)));
    assert s2.walk == Walking([], [Second()]) && s2.e.lookup == [];
    FineReachableStep(cfg, s2, Act(Reject(0)));
    s := DoStep(cfg, s2, Act(Reject(0)));
  }
}
