/** What holds in every reachable state of the transmit engine, for any number of
  * threads and any interleaving of senders, credit reports, kicks, flushes, HIF
  * failures and completions. */
module TxTheorems {
  import opened TxModel
  import opened TxEngine
  import opened TxSafety
  import opened TxOrder
  import opened TxCredits
  import opened TxStarvation
  import opened TxLookup

  /** ul_outstanding_cnt is the number of packets in the lookup queue, up to
    * completions whose packet is still being looked for or was not found. */
  ghost predicate OutstandingExact(e: Engine) {
    e.outstanding + e.log.misses + (if e.search.Searching? then 1 else 0) == |e.lookup| + |SearchList(e)|
  }

  lemma RejectOutstanding(e: Engine, t: nat)
    requires t < |e.threads| && e.threads[t].pc.Sending? && OneDrainer(e) && Conserved(e) && OutstandingExact(e)
    ensures OutstandingExact(DoReject(e, t))
  {
    hide OneDrainer, Conserved;
    UndecidedAt(e, t);
  }

  lemma UndecidedAt(e: Engine, t: nat)
    requires t < |e.threads| && e.threads[t].pc.Sending? && OneDrainer(e) && Conserved(e)
    ensures RemoveFirst(e.lookup, e.threads[t].pc.current.packet.netbuf).found.Hit? ||
      (e.search.Searching? && RemoveFirst(e.search.list, e.threads[t].pc.current.packet.netbuf).found.Hit?)
  {
    UndecidedIsFound(e, t);
  }

  lemma OutstandingKept(cfg: Config, e: Engine, a: Action)
    requires cfg.Valid() && Enabled(cfg, e, a) && OneDrainer(e) && Conserved(e) && OutstandingExact(e)
    ensures OutstandingExact(Do(cfg, e, a))
  {
    hide GetPackets, AdmitSplit, FirstMatch, RemoveFirst, OneDrainer, Conserved, DoReject, DoFinishSearch, FreshBatch, WasAccepted, OutstandingExact;
    match a
    case Reject(t) => RejectOutstanding(e, t);
    case FinishSearch => FinishSearchOutstanding(e);
    case Issue(t) => IssueOutstanding(e, t);
    case Complete(netbuf) => CompleteOutstanding(e, netbuf);
    case _ => SameOutstanding(cfg, e, a);
  }

  lemma IssueOutstanding(e: Engine, t: nat)
    requires t < |e.threads| && e.threads[t].pc.Issuing? && e.threads[t].pc.queue != [] && OutstandingExact(e)
    ensures OutstandingExact(DoIssue(e, t))
  {
  }

  lemma CompleteOutstanding(e: Engine, netbuf: nat)
    requires e.search.NoSearch? && OutstandingExact(e)
    ensures OutstandingExact(DoComplete(e, netbuf))
  {
  }

  lemma SameOutstanding(cfg: Config, e: Engine, a: Action)
    requires cfg.Valid() && Enabled(cfg, e, a) && OutstandingExact(e)
    requires !a.Reject? && !a.FinishSearch? && !a.Issue? && !a.Complete?
    ensures OutstandingExact(Do(cfg, e, a))
  {
    hide GetPackets, AdmitSplit, FreshBatch, WasAccepted;
    var f := Do(cfg, e, a);
    assert f.outstanding == e.outstanding && f.lookup == e.lookup && f.search == e.search && f.log.misses == e.log.misses;
  }

  lemma FinishSearchOutstanding(e: Engine)
    requires e.search.Searching? && OutstandingExact(e)
    ensures OutstandingExact(DoFinishSearch(e))
  {
  }

  /** Everything that is kept. */
  ghost predicate Sound(cfg: Config, e: Engine)
    requires cfg.Valid()
  {
    && OneDrainer(e) && SearchSound(e) && NoLostWakeup(cfg, e) && Conserved(e)
    && InOrder(cfg, e) && CreditsSound(cfg, e) && ChargesSound(cfg, e) && LookupSound(e) && OutstandingExact(e)
  }

  lemma InitiallySound(cfg: Config, threads: nat)
    requires cfg.Valid()
    ensures Sound(cfg, Init(cfg, threads))
  {
    var e := Init(cfg, threads);
    forall p ensures ConservedAt(e, p) {
      HeldIdle(e.threads, p);
    }
    assert DrainerPc(e) == Idle && Packets([]) == [];
    assert Line(e) == [];
    assert Hand(e) == [];
    assert CreditsSound(cfg, e) && ChargesSound(cfg, e) && LookupSound(e);
  }

  lemma RefundIsNotNegative(cfg: Config, e: Engine, a: Action)
    requires cfg.Valid() && Enabled(cfg, e, a) && OneDrainer(e) && CreditsSound(cfg, e)
    ensures a.Reject? ==> e.threads[a.t].pc.current.credits >= 0
  {
    if a.Reject? {
      assert ProperlyCharged(cfg, Hand(e)[0]);
    }
  }

  lemma StepKeepsSound(cfg: Config, e: Engine, a: Action)
    requires cfg.Valid() && Enabled(cfg, e, a) && Sound(cfg, e)
    ensures Sound(cfg, Do(cfg, e, a))
  {
    hide Do, Enabled, OneDrainer, SearchSound, NoLostWakeup, Conserved, InOrder, CreditsSound, ChargesSound, LookupSound, OutstandingExact;
    OneDrainerKept(cfg, e, a);
    SearchSoundKept(cfg, e, a);
    NoLostWakeupKept(cfg, e, a);
    ConservedKept(cfg, e, a);
    InOrderKept(cfg, e, a);
    CreditsKept(cfg, e, a);
    RefundIsNotNegative(cfg, e, a);
    ChargesKept(cfg, e, a);
    LookupKept(cfg, e, a);
    OutstandingKept(cfg, e, a);
  }

  lemma {:induction false} RunKeepsSound(cfg: Config, e: Engine, run: seq<Action>)
    requires cfg.Valid() && Sound(cfg, e) && Runs(cfg, e, run)
    ensures Sound(cfg, After(cfg, e, run))
    decreases |run|
  {
    hide Sound, Do, Enabled;
    if run != [] {
      StepKeepsSound(cfg, e, run[0]);
      RunKeepsSound(cfg, Do(cfg, e, run[0]), run[1..]);
    }
  }

  lemma {:induction false} ReachableIsSound(cfg: Config, e: Engine)
    requires cfg.Valid() && Reachable(cfg, e)
    ensures Sound(cfg, e)
  {
    hide Sound, Do, Enabled, Runs, After;
    var threads: nat, run: seq<Action> :|
      Runs(cfg, Init(cfg, threads), run) && After(cfg, Init(cfg, threads), run) == e;
    InitiallySound(cfg, threads);
    RunKeepsSound(cfg, Init(cfg, threads), run);
  }

  lemma InitIsReachable(cfg: Config, threads: nat)
    requires cfg.Valid()
    ensures Reachable(cfg, Init(cfg, threads))
  {
    assert Runs(cfg, Init(cfg, threads), []) && After(cfg, Init(cfg, threads), []) == Init(cfg, threads);
  }

  lemma {:induction false} RunsSnoc(cfg: Config, e: Engine, run: seq<Action>, a: Action)
    requires cfg.Valid() && Runs(cfg, e, run) && Enabled(cfg, After(cfg, e, run), a)
    ensures Runs(cfg, e, run + [a]) && After(cfg, e, run + [a]) == Do(cfg, After(cfg, e, run), a)
    decreases |run|
  {
    hide Do, Enabled;
    if run == [] {
      assert run + [a] == [a];
      assert Runs(cfg, Do(cfg, e, a), []);
    } else {
      assert (run + [a])[1..] == run[1..] + [a];
      RunsSnoc(cfg, Do(cfg, e, run[0]), run[1..], a);
    }
  }

  /** One more enabled action leads from reachable states to reachable states. */
  lemma {:induction false} ReachableStep(cfg: Config, e: Engine, a: Action)
    requires cfg.Valid() && Reachable(cfg, e) && Enabled(cfg, e, a)
    ensures Reachable(cfg, Do(cfg, e, a))
  {
    hide Do, Enabled, Runs, After;
    var threads: nat, run: seq<Action> :|
      Runs(cfg, Init(cfg, threads), run) && After(cfg, Init(cfg, threads), run) == e;
    RunsSnoc(cfg, Init(cfg, threads), run, a);
  }

  // ---------- the theorems ----------

  /** Single drainer. */
  lemma {:induction false} SingleDrainer(cfg: Config, e: Engine)
    requires cfg.Valid() && Reachable(cfg, e)
    ensures forall t, u :: 0 <= t < |e.threads| && 0 <= u < |e.threads| && Draining(e.threads[t].pc) && Draining(e.threads[u].pc) ==> t == u
    ensures e.processCount ==
      if exists t :: 0 <= t < |e.threads| && Draining(e.threads[t].pc) then 1 else 0
  {
    ReachableIsSound(cfg, e);
  }

  /** No lost wakeup. */
  lemma {:induction false} WakeupsAreNotLost(cfg: Config, e: Engine)
    requires cfg.Valid() && Reachable(cfg, e)
    ensures (forall t :: 0 <= t < |e.threads| ==> !Draining(e.threads[t].pc)) && e.txQueue != [] ==>
      || Blocked(cfg, e.credits, e.txQueue)
      || KickOwed(e)
      || e.log.stalled
  {
    ReachableIsSound(cfg, e);
  }

  /** And a kick does its work: if the credits cover the effective head and the bus
    * is awake, entering with nobody draining takes packets off the queue. */
  lemma {:induction false} KickDrains(cfg: Config, e: Engine, t: nat)
    requires cfg.Valid() && Reachable(cfg, e) && t < |e.threads| && e.threads[t].pc == Entering([])
    requires e.processCount == 0 && e.txQueue != [] && !Blocked(cfg, e.credits, e.txQueue)
    ensures Enabled(cfg, e, Enter(t, Awake))
    ensures var f := Do(cfg, e, Enter(t, Awake));
      && f.threads[t].pc.Issuing? && f.threads[t].pc.queue != []
      && f.threads[t].pc.queue[0].packet == EffectiveHead(cfg, e.txQueue)
  {
    var q, pm := e.txQueue, Select(cfg, e.txQueue, true);
    var queue := if pm == [] then q else pm;
    GetPacketsEmptyHanded(cfg, e.credits, q, Awake);
    assert e.txQueue + e.threads[t].pc.batch == e.txQueue;
    var r := GetPackets(cfg, e.credits, q, Awake);
    TakeFromOrder(cfg, e.credits, queue, Awake);
    assert r.taken == TakeFrom(cfg, e.credits, queue, Awake).taken;
    assert Packets(r.taken)[0] == (Packets(r.taken) + TakeFrom(cfg, e.credits, queue, Awake).rest)[0];
  }

  /** A turn of the drain loop, on entering and later: a whole pass over what is queued,
    * as far as credits and bus go; what it takes is in the drainer's hand and paid for. */
  lemma {:induction false} DrainTurnIsAPass(cfg: Config, e: Engine, a: Action)
    requires cfg.Valid() && Enabled(cfg, e, a) && (a.Relock? || (a.Enter? && e.processCount == 0))
    ensures var f := Do(cfg, e, a); var queued := if a.Enter? then e.txQueue + e.threads[a.t].pc.batch else e.txQueue;
      var hand := HandOf(f.threads[a.t].pc);
      && PassEnded(cfg, queued, a.bus, |hand|, f.credits, f.txQueue)
      && (Select(cfg, queued, true) == [] && a.bus.SuspendsAfter? ==> |hand| <= a.bus.grants)
      && f.credits + SumCredits(hand) == e.credits
      && (forall pm: bool :: Select(cfg, Packets(hand) + f.txQueue, pm) == Select(cfg, queued, pm))
      && f.threads[a.t].pc == (if hand == [] then Leaving else Issuing(hand))
  {
    hide PassEnded, GetPackets, Select, FreshBatch;
    var d := if a.Enter? then Join(e, a.t) else e;
    assert Do(cfg, e, a) == Drain(cfg, d, a.t, a.bus);
    DrainIsAPass(cfg, d, a.t, a.bus);
  }

  lemma {:induction false} DrainIsAPass(cfg: Config, e: Engine, t: nat, bus: Bus)
    requires cfg.Valid() && t < |e.threads|
    ensures var f := Drain(cfg, e, t, bus); var hand := HandOf(f.threads[t].pc);
      && PassEnded(cfg, e.txQueue, bus, |hand|, f.credits, f.txQueue)
      && (Select(cfg, e.txQueue, true) == [] && bus.SuspendsAfter? ==> |hand| <= bus.grants)
      && f.credits + SumCredits(hand) == e.credits
      && (forall pm: bool :: Select(cfg, Packets(hand) + f.txQueue, pm) == Select(cfg, e.txQueue, pm))
      && f.threads[t].pc == (if hand == [] then Leaving else Issuing(hand))
  {
    if e.txQueue == [] {
      assert Packets([]) + e.txQueue == e.txQueue;
    } else {
      hide PassEnded, GetPackets, Select, Charges, Blocked, Required;
      PassShown(e, t, GetPackets(cfg, e.credits, e.txQueue, bus));
      GetPacketsHasEnded(cfg, e.credits, e.txQueue, bus);
      GetPacketsEnds(cfg, e.credits, e.txQueue, bus);
      GetPacketsPays(cfg, e.credits, e.txQueue, bus);
      GetPacketsStablePartition(cfg, e.credits, e.txQueue, bus);
    }
  }

  lemma PassShown(e: Engine, t: nat, r: Pass)
    requires t < |e.threads|
    ensures var f := AfterPass(e, t, r);
      && |f.threads| == |e.threads| && HandOf(f.threads[t].pc) == r.taken && f.credits == r.credits && f.txQueue == r.rest
      && f.threads[t].pc == (if r.taken == [] then Leaving else Issuing(r.taken))
  {
    hide Charges;
  }

  /** First in, first out.  Per class always; over all packets when the endpoint
    * does not promote power management packets. */
  lemma {:induction false} FirstInFirstOut(cfg: Config, e: Engine)
    requires cfg.Valid() && Reachable(cfg, e)
    ensures forall pm: bool ::
      Select(cfg, Surviving(e.log.admitted, e.log.flushed), pm) ==
        Select(cfg, Packets(e.log.accepted) + Packets(Hand(e)) + e.txQueue, pm)
    ensures !cfg.pmFirst ==>
      Surviving(e.log.admitted, e.log.flushed) == Packets(e.log.accepted) + Packets(Hand(e)) + e.txQueue
  {
    ReachableIsSound(cfg, e);
    if !cfg.pmFirst {
      SelectOfClass(cfg, Surviving(e.log.admitted, e.log.flushed), false);
      SelectOfClass(cfg, Line(e), false);
    }
  }

  /** Credit conservation, with the leak made explicit: the naive law, that credits
    * held, in hand and outstanding add up to what was ever granted, holds exactly
    * when no HIF failure left packets behind it in its batch. */
  lemma {:induction false} CreditConservation(cfg: Config, e: Engine)
    requires cfg.Valid() && Reachable(cfg, e)
    ensures e.credits >= 0
    ensures e.credits + InHand(e) + SumCredits(e.log.accepted) + e.log.leaked == cfg.initialCredits + e.log.reported
    ensures e.credits + InHand(e) + SumCredits(e.log.accepted) == cfg.initialCredits + e.log.reported <==>
      cfg.id == ENDPOINT_0 || e.log.midBatchFailures == 0
  {
    ReachableIsSound(cfg, e);
  }

  /** Whatever HIF accepted carries the least number of credits whose bytes cover it and
    * its header; on endpoint 0 nothing is charged. */
  lemma {:induction false} AcceptedArePaidFor(cfg: Config, e: Engine, i: nat)
    requires cfg.Valid() && Reachable(cfg, e) && i < |e.log.accepted|
    ensures var c := e.log.accepted[i];
      if cfg.id == ENDPOINT_0 then c.credits == 0
      else (c.credits - 1) * cfg.creditSize < c.packet.length + HTC_HDR_LENGTH <= c.credits * cfg.creditSize
  {
    hide Required;
    ReachableIsSound(cfg, e);
    RequiredCovers(cfg, e.log.accepted[i].packet);
  }

  /** Occurrences of a packet among the completed ones. */
  function Completed(e: Engine, p: Packet): nat {
    Count(e.log.dropped, p) + Count(e.log.flushed, p) + Count(e.log.finished, p)
  }

  /** Occurrences of a packet in sendQueue proper. */
  function InSendQueue(e: Engine, p: Packet): int {
    CountCharged(Hand(e), p) - CountCharged(Undecided(e), p)
  }

  /** Exactly-once ownership: a submitted packet is in exactly one place, and it is
    * completed at most once. */
  lemma {:induction false} OwnedExactlyOnce(cfg: Config, e: Engine, p: Packet)
    requires cfg.Valid() && Reachable(cfg, e)
    ensures Held(e.threads, p) + Count(e.txQueue, p) + InSendQueue(e, p)
      + CountCharged(e.lookup, p) + CountCharged(SearchList(e), p) + Completed(e, p)
      == if p in e.log.submitted then 1 else 0
    ensures InSendQueue(e, p) >= 0
    ensures Completed(e, p) <= 1
  {
    ReachableIsSound(cfg, e);
    assert ConservedAt(e, p);
    SubmittedOnce(e.log.submitted, p, p);
    CountMember(e.log.submitted, p);
    UndecidedInHand(e, p);
  }

  /** When everything has come to rest, every submitted packet has been completed. */
  lemma {:induction false} AtRestAllCompleted(cfg: Config, e: Engine, p: Packet)
    requires cfg.Valid() && Reachable(cfg, e) && p in e.log.submitted
    requires forall t :: 0 <= t < |e.threads| ==> e.threads[t].pc.Idle?
    requires e.txQueue == [] && e.lookup == [] && e.search.NoSearch?
    ensures Completed(e, p) == 1
  {
    OwnedExactlyOnce(cfg, e, p);
    ReachableIsSound(cfg, e);
    forall t | 0 <= t < |e.threads| ensures e.threads[t] == Thread(Idle, []) {
      assert e.threads[t].pc.Idle? && e.threads[t].left == [];
    }
    HeldIdle(e.threads, p);
  }

  /** No silent starvation, on an endpoint set up by ConnectEndpoint.  An endpoint that
    * is blocked for a fitting message has asked for credits with its last charge.  That
    * charge is on the last packet accepted or in hand exactly if no failed batch was put
    * back since; and if one was, the last packet that did go out asked exactly if the
    * credits left after its own charge were at or below the threshold. */
  lemma {:induction false} StarvationIsAnnounced(cfg: Config, e: Engine)
    requires cfg.Valid() && CoversMaxMessage(cfg) && Reachable(cfg, e)
    requires Blocked(cfg, e.credits, e.txQueue) && FitsMaxMessage(cfg, EffectiveHead(cfg, e.txQueue))
    ensures e.log.lastCharge.Never? || e.log.lastCharge.charged.needUpdate
    ensures LastChargeGoesOut(e) <==> !e.log.putBack
    ensures |e.log.outgoing| == |Out(e)|
    ensures var last := |Out(e)| - 1;
      Out(e) != [] ==>
        && e.log.outgoing[last].charged == Out(e)[last]
        && (!e.log.putBack ==> Out(e)[last].needUpdate)
        && (e.log.putBack ==> (Out(e)[last].needUpdate <==> e.log.outgoing[last].creditsAfter <= cfg.creditsPerMaxMsg))
  {
    ReachableIsSound(cfg, e);
    NoSilentStarvation(cfg, e);
    PutBackDecides(cfg, e);
  }

  /** Without the assumption that the endpoint is blocked: which packets asked, and when
    * the packet charged last is the last one out. */
  lemma {:induction false} RequestsAreRight(cfg: Config, e: Engine)
    requires cfg.Valid() && Reachable(cfg, e)
    ensures LastChargeGoesOut(e) <==> !e.log.putBack
    ensures |e.log.outgoing| == |Out(e)|
    ensures forall i :: 0 <= i < |Out(e)| ==>
      && e.log.outgoing[i].charged == Out(e)[i]
      && (Out(e)[i].needUpdate <==> cfg.id != ENDPOINT_0 && e.log.outgoing[i].creditsAfter <= cfg.creditsPerMaxMsg)
  {
    ReachableIsSound(cfg, e);
    PutBackDecides(cfg, e);
  }

  /** The Depth of the lookup queue is its length exactly if no packet of a search under
    * way was refused by HIF; otherwise it is one too small, and the Depth of the queue
    * being searched one too large. */
  lemma {:induction false} DepthIsExactUnlessRefused(cfg: Config, e: Engine)
    requires cfg.Valid() && Reachable(cfg, e)
    ensures e.lookupDepth == |e.lookup| <==> e.log.refused == []
    ensures e.log.refused != [] ==>
      e.search.Searching? && e.lookupDepth == |e.lookup| - 1 && e.search.depth == |e.search.list| + 1
    ensures e.search.Searching? ==> e.lookupDepth + e.search.depth == |e.lookup| + |e.search.list|
  {
    ReachableIsSound(cfg, e);
  }

  /** Whatever happens while a queue is detached, the lookup queue is what one queue
    * would be from which each completion takes its first match at one moment. */
  lemma {:induction false} CompletionsAreAtomic(cfg: Config, e: Engine, run: seq<Action>)
    requires cfg.Valid() && Sound(cfg, e) && Runs(cfg, e, run)
    ensures Whole(After(cfg, e, run)) == Tracked(cfg, e, run, Whole(e))
    ensures After(cfg, e, run).search.NoSearch? ==> After(cfg, e, run).lookup == Tracked(cfg, e, run, Whole(e))
    decreases |run|
  {
    hide Do, Enabled, OneDrainer, SearchSound, NoLostWakeup, Conserved, InOrder, CreditsSound, ChargesSound, LookupSound, OutstandingExact;
    if run != [] {
      WholeKept(cfg, e, run[0]);
      StepKeepsSound(cfg, e, run[0]);
      CompletionsAreAtomic(cfg, Do(cfg, e, run[0]), run[1..]);
    }
  }

  /** One completion: between the moment it detaches the queue and the moment it puts it
    * back others may issue packets and HIF may refuse one; the queue is then the old one,
    * with what was issued and without what was refused, less its first match. */
  lemma {:induction false} CompletionRemovesFirstMatch(cfg: Config, e: Engine, netbuf: nat, d: Engine, run: seq<Action>)
    requires cfg.Valid() && Reachable(cfg, e) && Enabled(cfg, e, Complete(netbuf))
    requires d == DoComplete(e, netbuf) && d.search.Searching?
    requires Runs(cfg, d, run) && forall i :: 0 <= i < |run| ==> run[i] != FinishSearch
    ensures var f, r := After(cfg, d, run), RemoveFirst(Tracked(cfg, d, run, e.lookup), netbuf);
      f.search.Searching? && DoFinishSearch(f).lookup == r.rest
      && DoFinishSearch(f).log.finished == f.log.finished + FoundPackets(r.found)
  {
    hide Sound, Tracked, RemoveFirst, Reachable, Runs, After, Whole, Do, DoComplete;
    SearchBegins(cfg, e, netbuf);
    SearchGoesOn(cfg, d, netbuf, run);
    CompletionsAreAtomic(cfg, d, run);
    RunKeepsSound(cfg, d, run);
    var f := After(cfg, d, run);
    SoundSearch(cfg, f);
    FinishSearchWhole(f);
  }

  lemma SearchBegins(cfg: Config, e: Engine, netbuf: nat)
    requires cfg.Valid() && Reachable(cfg, e) && Enabled(cfg, e, Complete(netbuf)) && DoComplete(e, netbuf).search.Searching?
    ensures Sound(cfg, DoComplete(e, netbuf)) && Whole(DoComplete(e, netbuf)) == e.lookup
    ensures DoComplete(e, netbuf).search.netbuf == netbuf
  {
    hide Sound, Reachable;
    ReachableIsSound(cfg, e);
    StepKeepsSound(cfg, e, Complete(netbuf));
    assert e.lookup + [] == e.lookup;
  }

  lemma SoundSearch(cfg: Config, e: Engine)
    requires cfg.Valid() && Sound(cfg, e)
    ensures SearchedIsDetached(e)
  {
  }

  /** A search ends only with its own last step. */
  lemma {:induction false} SearchGoesOn(cfg: Config, e: Engine, netbuf: nat, run: seq<Action>)
    requires cfg.Valid() && Runs(cfg, e, run) && e.search.Searching? && e.search.netbuf == netbuf
    requires forall i :: 0 <= i < |run| ==> run[i] != FinishSearch
    ensures After(cfg, e, run).search.Searching? && After(cfg, e, run).search.netbuf == netbuf
    decreases |run|
  {
    hide GetPackets, AdmitSplit, RemoveFirst, FreshBatch, WasAccepted;
    if run != [] {
      var f := Do(cfg, e, run[0]);
      assert f.search.Searching? && f.search.netbuf == netbuf;
      SearchGoesOn(cfg, f, netbuf, run[1..]);
    }
  }

  /** ul_outstanding_cnt is the number of packets that wait for their completion, less
    * the completions that matched none of them and the one that is searching. */
  lemma {:induction false} OutstandingIsExact(cfg: Config, e: Engine)
    requires cfg.Valid() && Reachable(cfg, e)
    ensures e.outstanding == |e.lookup| + |SearchList(e)| - e.log.misses - (if e.search.Searching? then 1 else 0)
  {
    ReachableIsSound(cfg, e);
  }
}
