/** The lookup queue while completions come in.  A completion that does not match the
  * head detaches the whole queue, searches it with the lock released and puts it back
  * in front.  Its effect is nevertheless that of taking the first match out of one
  * queue; and the Depth counters, which go wrong meanwhile, come right again. */
module TxLookup {
  import opened TxModel
  import opened TxEngine
  import opened TxSafety

  /** The lookup queue as if it were never detached. */
  function Whole(e: Engine): seq<Charged> {
    SearchList(e) + e.lookup
  }

  /** The counters, where they are off, and by how much. */
  ghost predicate DepthSound(e: Engine) {
    && e.lookupDepth == |e.lookup| - |e.log.refused|
    && (e.search.Searching? ==> e.search.depth == |e.search.list| + |e.log.refused|)
    && (e.search.NoSearch? ==> e.log.refused == [])
  }

  /** A search can lose one packet to HIF, the one HIF was deciding on when the queue
    * was detached. */
  ghost predicate RefusedOnce(e: Engine) {
    && |e.log.refused| <= 1
    && (e.log.refused != [] && Undecided(e) != [] ==> CountCharged(SearchList(e), Undecided(e)[0].packet) == 0)
  }

  /** What is being searched for was not put in the lookup queue meanwhile. */
  ghost predicate SearchedIsDetached(e: Engine) {
    e.search.Searching? ==> RemoveFirst(e.lookup, e.search.netbuf).found.Missing?
  }

  ghost predicate LookupSound(e: Engine) {
    DepthSound(e) && RefusedOnce(e) && SearchedIsDetached(e)
  }

  // the actions

  /** A packet in the drainer's hand that HIF has not been offered is in no lookup queue. */
  lemma NotOffered(e: Engine, c: Charged)
    requires Conserved(e) && CountCharged(Hand(e), c.packet) > 0 && Undecided(e) == []
    ensures CountCharged(e.lookup, c.packet) == 0 && CountCharged(SearchList(e), c.packet) == 0
    ensures CountCharged(e.log.accepted, c.packet) == 0
  {
    hide Count, Held;
    AdmittedOnce(e, c.packet);
    assert ConservedAt(e, c.packet);
    CountNone(c.packet);
  }

  /** An accepted packet and one in the drainer's hand have different netbufs. */
  lemma AcceptedDiffers(e: Engine, c: Charged, netbuf: nat)
    requires Conserved(e) && CountCharged(Hand(e), c.packet) > 0 && WasAccepted(e, netbuf)
    ensures c.packet.netbuf != netbuf
  {
    hide Count, Held;
    var i :| 0 <= i < |e.log.accepted| && e.log.accepted[i].packet.netbuf == netbuf;
    var p := e.log.accepted[i].packet;
    CountChargedAt(e.log.accepted, i);
    AdmittedOnce(e, p);
    assert ConservedAt(e, p) && ConservedAt(e, c.packet);
    SubmittedOnce(e.log.submitted, p, c.packet);
  }

  lemma MissingInMore(q: seq<Charged>, c: Charged, netbuf: nat)
    requires RemoveFirst(q, netbuf).found.Missing? && c.packet.netbuf != netbuf
    ensures RemoveFirst(q + [c], netbuf).found.Missing?
  {
    hide RemoveFirst;
  }

  lemma IssueLookup(e: Engine, t: nat)
    requires t < |e.threads| && e.threads[t].pc.Issuing? && e.threads[t].pc.queue != []
    requires OneDrainer(e) && SearchSound(e) && Conserved(e) && LookupSound(e)
    ensures LookupSound(DoIssue(e, t))
  {
    hide Conserved, RemoveFirst, CountCharged;
    var f, c := DoIssue(e, t), e.threads[t].pc.queue[0];
    assert Hand(e) == e.threads[t].pc.queue && Undecided(e) == [] && Undecided(f) == [c];
    CountChargedAt(Hand(e), 0);
    NotOffered(e, c);
    if e.search.Searching? {
      AcceptedDiffers(e, c, e.search.netbuf);
      MissingInMore(e.lookup, c, e.search.netbuf);
    }
  }

  lemma RemoveFirstShrinks(q: seq<Charged>, netbuf: nat)
    ensures var r := RemoveFirst(q, netbuf); |r.rest| == |q| - if r.found.Hit? then 1 else 0
  {
  }

  lemma StillMissing(q: seq<Charged>, netbuf: nat, other: nat)
    requires RemoveFirst(q, netbuf).found.Missing?
    ensures RemoveFirst(RemoveFirst(q, other).rest, netbuf).found.Missing?
  {
    var r := RemoveFirst(q, other);
    if r.found.Hit? {
      var k := FirstMatch(q, other);
      assert forall i :: 0 <= i < |r.rest| ==> r.rest[i] == q[if i < k then i else i + 1];
    }
  }

  lemma RejectLookup(e: Engine, t: nat)
    requires t < |e.threads| && e.threads[t].pc.Sending? && OneDrainer(e) && Conserved(e) && LookupSound(e)
    ensures LookupSound(DoReject(e, t))
  {
    hide Conserved, RemoveFirst, CountCharged;
    var f, current := DoReject(e, t), e.threads[t].pc.current;
    var netbuf := current.packet.netbuf;
    assert Undecided(e) == [current] && Undecided(f) == [];
    UndecidedIsFound(e, t);
    RemoveFirstShrinks(e.lookup, netbuf);
    RemoveFirstShrinks(SearchList(e), netbuf);
    if e.search.Searching? {
      StillMissing(e.lookup, e.search.netbuf, netbuf);
    }
    if RemoveFirst(e.lookup, netbuf).found.Missing? {
      HitCounts(SearchList(e), netbuf);
    }
  }

  lemma HitCounts(q: seq<Charged>, netbuf: nat)
    requires RemoveFirst(q, netbuf).found.Hit?
    ensures CountCharged(q, RemoveFirst(q, netbuf).found.charged.packet) > 0
  {
    CountChargedAt(q, FirstMatch(q, netbuf));
  }

  lemma MissingIfNone(netbuf: nat)
    ensures RemoveFirst([], netbuf) == Lookup(Missing, [])
  {
  }

  lemma CompleteLookup(e: Engine, netbuf: nat)
    requires e.search.NoSearch? && LookupSound(e)
    ensures LookupSound(DoComplete(e, netbuf))
  {
    hide RemoveFirst, CountCharged;
    MissingIfNone(netbuf);
  }

  lemma FinishSearchLookup(e: Engine)
    requires e.search.Searching? && LookupSound(e)
    ensures LookupSound(DoFinishSearch(e))
  {
    hide RemoveFirst, CountCharged;
    RemoveFirstShrinks(e.search.list, e.search.netbuf);
  }

  /** Everything else leaves the lookup queue and its search alone. */
  lemma SameLookup(e: Engine, f: Engine)
    requires LookupSound(e) && f.lookup == e.lookup && f.lookupDepth == e.lookupDepth && f.search == e.search
    requires f.log.refused == e.log.refused && (Undecided(f) == [] || Undecided(f) == Undecided(e))
    ensures LookupSound(f)
  {
  }

  lemma DrainUndecided(cfg: Config, e: Engine, t: nat, bus: Bus)
    requires cfg.Valid() && t < |e.threads| && e.log.drainer == t && LookupSound(e)
    ensures LookupSound(Drain(cfg, e, t, bus))
  {
    hide GetPackets;
    SameLookup(e, Drain(cfg, e, t, bus));
  }

  lemma EnterLookup(cfg: Config, e: Engine, t: nat, bus: Bus)
    requires cfg.Valid() && t < |e.threads| && e.threads[t].pc.Entering? && LookupSound(e)
    ensures LookupSound(DoEnter(cfg, e, t, bus))
  {
    hide Drain;
    if e.processCount + 1 > 1 {
      SameLookup(e, SetPc(Append(e, t), t, Leaving));
    } else {
      SameLookup(e, Join(e, t));
      DrainUndecided(cfg, Join(e, t), t, bus);
    }
  }

  lemma OtherLookup(cfg: Config, e: Engine, a: Action)
    requires cfg.Valid() && Enabled(cfg, e, a) && OneDrainer(e) && LookupSound(e)
    requires a.Submit? || a.Kick? || a.Report? || a.Leave? || a.Flush? || a.Accept? || a.Requeue?
    ensures LookupSound(Do(cfg, e, a))
  {
    hide GetPackets, AdmitSplit, RemoveFirst, FirstMatch, FreshBatch, WasAccepted, LookupSound;
    if !a.Accept? && !a.Requeue? {
      QuietActions(cfg, e, a);
    }
    SameLookup(e, Do(cfg, e, a));
  }

  lemma LookupKept(cfg: Config, e: Engine, a: Action)
    requires cfg.Valid() && Enabled(cfg, e, a) && OneDrainer(e) && SearchSound(e) && Conserved(e) && LookupSound(e)
    ensures LookupSound(Do(cfg, e, a))
  {
    hide LookupSound, OneDrainer, SearchSound, Conserved;
    match a
    case Enter(t, bus) => EnterLookup(cfg, e, t, bus);
    case Relock(t, bus) => RelockLookup(cfg, e, t, bus);
    case Issue(t) => IssueLookup(e, t);
    case Reject(t) => RejectLookup(e, t);
    case Complete(netbuf) => CompleteLookup(e, netbuf);
    case FinishSearch => FinishSearchLookup(e);
    case _ => OtherLookup(cfg, e, a);
  }

  lemma RelockLookup(cfg: Config, e: Engine, t: nat, bus: Bus)
    requires cfg.Valid() && Enabled(cfg, e, Relock(t, bus)) && OneDrainer(e) && LookupSound(e)
    ensures LookupSound(Drain(cfg, e, t, bus))
  {
    DrainUndecided(cfg, e, t, bus);
  }

  // ---------- one queue ----------

  /** What an action does to a lookup queue that is never detached: a completion takes
    * the first match out of it at one moment, the end of its search if it has one. */
  function Track(e: Engine, a: Action, q: seq<Charged>): seq<Charged> {
    match a
    case Issue(t) => if t < |e.threads| && e.threads[t].pc.Issuing? && e.threads[t].pc.queue != [] then q + [e.threads[t].pc.queue[0]] else q
    case Reject(t) => if t < |e.threads| && e.threads[t].pc.Sending? then RemoveFirst(q, e.threads[t].pc.current.packet.netbuf).rest else q
    case Complete(netbuf) => if DoComplete(e, netbuf).search.NoSearch? then RemoveFirst(q, netbuf).rest else q
    case FinishSearch => if e.search.Searching? then RemoveFirst(q, e.search.netbuf).rest else q
    case _ => q
  }

  function Tracked(cfg: Config, e: Engine, run: seq<Action>, q: seq<Charged>): seq<Charged>
    requires cfg.Valid() && Runs(cfg, e, run)
    decreases |run|
  {
    if run == [] then q else Tracked(cfg, Do(cfg, e, run[0]), run[1..], Track(e, run[0], q))
  }

  lemma {:induction false} FirstMatchSkips(q: seq<Charged>, more: seq<Charged>, netbuf: nat)
    requires forall i :: 0 <= i < |q| ==> q[i].packet.netbuf != netbuf
    ensures FirstMatch(q + more, netbuf) == |q| + FirstMatch(more, netbuf)
  {
    if q == [] {
      assert q + more == more;
    } else {
      assert (q + more)[1..] == q[1..] + more;
      FirstMatchSkips(q[1..], more, netbuf);
    }
  }

  lemma RemoveFirstSkips(q: seq<Charged>, more: seq<Charged>, netbuf: nat)
    requires RemoveFirst(q, netbuf).found.Missing?
    ensures RemoveFirst(q + more, netbuf) == Lookup(RemoveFirst(more, netbuf).found, q + RemoveFirst(more, netbuf).rest)
  {
    hide FirstMatch;
    FirstMatchSkips(q, more, netbuf);
    var k := FirstMatch(more, netbuf);
    if k < |more| {
      Cut(q, more, k);
    }
  }

  lemma Cut(q: seq<Charged>, more: seq<Charged>, k: nat)
    requires k < |more|
    ensures (q + more)[|q| + k] == more[k]
    ensures (q + more)[..|q| + k] + (q + more)[|q| + k + 1..] == q + (more[..k] + more[k + 1..])
  {
    assert (q + more)[..|q| + k] == q + more[..k];
    assert (q + more)[|q| + k + 1..] == more[k + 1..];
  }

  /** No netbuf is in both parts of the queue. */
  lemma InOnePart(e: Engine, netbuf: nat)
    requires Conserved(e)
    ensures RemoveFirst(e.lookup, netbuf).found.Missing? || RemoveFirst(SearchList(e), netbuf).found.Missing?
  {
    hide Held;
    if RemoveFirst(e.lookup, netbuf).found.Hit? && RemoveFirst(SearchList(e), netbuf).found.Hit? {
      HitCounts(e.lookup, netbuf);
      HitCounts(SearchList(e), netbuf);
      var p, r := RemoveFirst(e.lookup, netbuf).found.charged.packet, RemoveFirst(SearchList(e), netbuf).found.charged.packet;
      OfferedWasSubmitted(e, p);
      OfferedWasSubmitted(e, r);
      SubmittedOnce(e.log.submitted, p, r);
      assert false;
    }
  }

  /** What is in the lookup queue was submitted, and is there once. */
  lemma OfferedWasSubmitted(e: Engine, p: Packet)
    requires Conserved(e)
    ensures CountCharged(e.lookup, p) + CountCharged(SearchList(e), p) <= 1
    ensures CountCharged(e.lookup, p) + CountCharged(SearchList(e), p) > 0 ==> Count(e.log.submitted, p) > 0
  {
    AdmittedOnce(e, p);
    assert ConservedAt(e, p);
    UndecidedInHand(e, p);
  }

  lemma RejectWhole(e: Engine, t: nat)
    requires t < |e.threads| && e.threads[t].pc.Sending? && OneDrainer(e) && Conserved(e)
    ensures Whole(DoReject(e, t)) == RemoveFirst(Whole(e), e.threads[t].pc.current.packet.netbuf).rest
  {
    hide Conserved, RemoveFirst;
    var netbuf := e.threads[t].pc.current.packet.netbuf;
    UndecidedIsFound(e, t);
    InOnePart(e, netbuf);
    if RemoveFirst(e.lookup, netbuf).found.Hit? {
      RemoveFirstSkips(SearchList(e), e.lookup, netbuf);
    } else {
      RemoveFirstIgnoresAppended(SearchList(e), e.lookup, netbuf);
    }
  }

  lemma FinishSearchWhole(e: Engine)
    requires e.search.Searching? && SearchedIsDetached(e)
    ensures var f, r := DoFinishSearch(e), RemoveFirst(Whole(e), e.search.netbuf);
      Whole(f) == f.lookup == r.rest && f.log.finished == e.log.finished + FoundPackets(r.found)
  {
    hide RemoveFirst;
    var netbuf := e.search.netbuf;
    if RemoveFirst(e.search.list, netbuf).found.Hit? {
      RemoveFirstIgnoresAppended(e.search.list, e.lookup, netbuf);
    } else {
      RemoveFirstSkips(e.search.list, e.lookup, netbuf);
      MissingKeeps(e.search.list, netbuf);
      MissingKeeps(e.lookup, netbuf);
    }
  }

  lemma MissingKeeps(q: seq<Charged>, netbuf: nat)
    ensures RemoveFirst(q, netbuf).found.Missing? ==> RemoveFirst(q, netbuf).rest == q
  {
  }

  lemma CompleteWhole(e: Engine, netbuf: nat)
    requires e.search.NoSearch?
    ensures var f := DoComplete(e, netbuf);
      Whole(f) == if f.search.NoSearch? then RemoveFirst(Whole(e), netbuf).rest else Whole(e)
  {
    assert Whole(e) == e.lookup;
    if e.lookup != [] && e.lookup[0].packet.netbuf == netbuf {
      assert FirstMatch(e.lookup, netbuf) == 0;
      assert e.lookup[..0] + e.lookup[1..] == e.lookup[1..];
    }
  }

  /** Detaching, searching and putting back come to taking the first match out. */
  lemma WholeKept(cfg: Config, e: Engine, a: Action)
    requires cfg.Valid() && Enabled(cfg, e, a) && OneDrainer(e) && Conserved(e) && LookupSound(e)
    ensures Whole(Do(cfg, e, a)) == Track(e, a, Whole(e))
  {
    hide Conserved, OneDrainer, RemoveFirst, GetPackets, AdmitSplit, FreshBatch, WasAccepted;
    match a
    case Reject(t) => RejectWhole(e, t);
    case Complete(netbuf) => CompleteWhole(e, netbuf);
    case FinishSearch => FinishSearchWhole(e);
    case Issue(t) => assert Whole(DoIssue(e, t)) == Whole(e) + [e.threads[t].pc.queue[0]];
    case _ =>
  }

  // ---------- finding a packet by its network buffer ----------

  lemma {:induction false} CountTwice(q: seq<Charged>, j: nat, k: nat)
    requires j < k < |q| && q[j].packet == q[k].packet
    ensures CountCharged(q, q[k].packet) >= 2
  {
    if j > 0 {
      CountTwice(q[1..], j - 1, k - 1);
    } else {
      CountChargedAt(q[1..], k - 1);
    }
  }

  /** In either part of the lookup queue a netbuf occurs once. */
  lemma FirstIsOnly(e: Engine, q: seq<Charged>, k: nat)
    requires Conserved(e) && (q == e.lookup || q == SearchList(e)) && k < |q|
    ensures FirstMatch(q, q[k].packet.netbuf) == k
  {
    hide FirstMatch, Held;
    var j := FirstMatch(q, q[k].packet.netbuf);
    if j < k {
      CountChargedAt(q, j);
      CountChargedAt(q, k);
      OfferedWasSubmitted(e, q[j].packet);
      OfferedWasSubmitted(e, q[k].packet);
      SubmittedOnce(e.log.submitted, q[j].packet, q[k].packet);
      CountTwice(q, j, k);
    }
  }

  lemma HitAt(q: seq<Charged>, k: nat)
    requires k < |q|
    ensures RemoveFirst(q, q[k].packet.netbuf).found.Hit?
  {
  }
}
