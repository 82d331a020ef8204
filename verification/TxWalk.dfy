/** The walk of htc_lookup_tx_packet over the packets it has detached, one node at a
  * time.  The lock is released meanwhile, so anything may come between two nodes.
  *
  * TxEngine makes one step of the walk.  Here each node is a step of its own, and HIF may
  * refuse a packet under the walk's feet: if it is the one the walk stands at, the walk
  * leaves the detached queue with it. */
module TxWalks {
  import opened TxModel
  import opened TxEngine
  import opened TxSafety
  import opened TxOrder
  import opened TxCredits
  import opened TxStarvation
  import opened TxLookup
  import opened TxTheorems

  /** Where the walk is: the nodes behind it and those from pTemp on; or the loop has ended,
    * with what was found and what is left; or pTemp is in some other queue. */
  datatype Walk =
    | NoWalk
    | Walking(passed: seq<Charged>, ahead: seq<Charged>)
    | Ended(found: Found, rest: seq<Charged>)
    | Astray

  /** The engine, and the walk over what it has detached. */
  datatype Fine = Fine(e: Engine, walk: Walk)

  datatype Step = Act(a: Action) | Turn | PutBack

  /** FinishSearch is taken apart into the turns of the walk and what follows it. */
  predicate CanStep(cfg: Config, s: Fine, a: Step) {
    match a
    case Act(b) => Enabled(cfg, s.e, b) && !b.FinishSearch?
    case Turn => (s.walk.Walking? || s.walk.Astray?) && s.e.search.Searching?
    case PutBack => s.walk.Ended? && s.e.search.Searching?
  }

  /** The refusal of a packet that was detached: its list link takes it out of where it is.
    * If pTemp points to it, pTemp points into the sendQueue afterwards. */
  function Refuse(walk: Walk, netbuf: nat): Walk {
    match walk
    case Walking(passed, ahead) =>
      if RemoveFirst(passed, netbuf).found.Hit? then Walking(RemoveFirst(passed, netbuf).rest, ahead)
      else if ahead != [] && ahead[0].packet.netbuf == netbuf then Astray
      else Walking(passed, RemoveFirst(ahead, netbuf).rest)
    case Ended(found, rest) => Ended(found, RemoveFirst(rest, netbuf).rest)
    case _ => walk
  }

  /** HIF refuses a packet that a search has detached. */
  predicate RefusesDetached(e: Engine, a: Action) {
    && a.Reject? && a.t < |e.threads| && e.threads[a.t].pc.Sending? && e.search.Searching?
    && RemoveFirst(e.lookup, e.threads[a.t].pc.current.packet.netbuf).found.Missing?
  }

  function Meanwhile(e: Engine, walk: Walk, a: Action): Walk {
    if a.Complete? && DoComplete(e, a.netbuf).search.Searching? then Walking([], e.lookup)
    else if RefusesDetached(e, a) then Refuse(walk, e.threads[a.t].pc.current.packet.netbuf)
    else walk
  }

  /** A turn of the loop (1752-1769). */
  function TurnOf(walk: Walk, netbuf: nat): Walk {
    match walk
    case Walking(passed, ahead) =>
      if ahead == [] then Ended(Missing, passed)
      else if ahead[0].packet.netbuf == netbuf then Ended(Hit(ahead[0]), passed + ahead[1..])
      else Walking(passed + [ahead[0]], ahead[1..])
    case _ => walk
  }

  /** The critical section after the loop (1771-1774), with what the loop came to. */
  function DoPutBack(e: Engine, found: Found, rest: seq<Charged>): Engine
    requires e.search.Searching?
  {
    e.(lookup := rest + e.lookup, search := NoSearch,
       lookupDepth := e.lookupDepth + e.search.depth - (if found.Hit? then 1 else 0),
       log := e.log.(finished := e.log.finished + FoundPackets(found), refused := [],
                     misses := e.log.misses + (if found.Missing? then 1 else 0)))
  }

  function DoStep(cfg: Config, s: Fine, a: Step): Fine
    requires cfg.Valid() && CanStep(cfg, s, a)
  {
    match a
    case Act(b) => Fine(Do(cfg, s.e, b), Meanwhile(s.e, s.walk, b))
    case Turn => s.(walk := TurnOf(s.walk, s.e.search.netbuf))
    case PutBack => Fine(DoPutBack(s.e, s.walk.found, s.walk.rest), NoWalk)
  }

  predicate FineRuns(cfg: Config, s: Fine, run: seq<Step>)
    requires cfg.Valid()
    decreases |run|
  {
    run == [] || (CanStep(cfg, s, run[0]) && FineRuns(cfg, DoStep(cfg, s, run[0]), run[1..]))
  }

  function FineAfter(cfg: Config, s: Fine, run: seq<Step>): Fine
    requires cfg.Valid() && FineRuns(cfg, s, run)
    decreases |run|
  {
    if run == [] then s else FineAfter(cfg, DoStep(cfg, s, run[0]), run[1..])
  }

  ghost predicate FineReachable(cfg: Config, s: Fine)
    requires cfg.Valid()
  {
    exists threads: nat, run: seq<Step> ::
      FineRuns(cfg, Fine(Init(cfg, threads), NoWalk), run) && FineAfter(cfg, Fine(Init(cfg, threads), NoWalk), run) == s
  }

  /** What the engine sees of a step, and of a run. */
  function Seen(a: Step): seq<Action> {
    match a
    case Act(b) => [b]
    case Turn => []
    case PutBack => [FinishSearch]
  }

  function SeenOf(run: seq<Step>): seq<Action> {
    if run == [] then [] else Seen(run[0]) + SeenOf(run[1..])
  }

  // ---------- what is kept ----------

  /** The packet HIF is deciding on was the last to join the lookup queue. */
  ghost predicate LastOffered(e: Engine) {
    Undecided(e) != [] ==> Whole(e) != [] && Whole(e)[|Whole(e)| - 1] == Undecided(e)[0]
  }

  /** The walk against the search of the engine that makes one step of it. */
  ghost predicate WalkSound(s: Fine) {
    match s.walk
    case NoWalk => s.e.search.NoSearch?
    case Walking(passed, ahead) =>
      s.e.search.Searching? && passed + ahead == s.e.search.list && RemoveFirst(passed, s.e.search.netbuf).found.Missing?
    case Ended(found, rest) =>
      s.e.search.Searching? && RemoveFirst(s.e.search.list, s.e.search.netbuf) == Lookup(found, rest)
    case Astray =>
      s.e.search.Searching? && RemoveFirst(s.e.search.list, s.e.search.netbuf).found.Missing? && s.e.log.refused != []
  }

  ghost predicate FineSound(cfg: Config, s: Fine)
    requires cfg.Valid()
  {
    Sound(cfg, s.e) && LastOffered(s.e) && WalkSound(s)
  }

  lemma RemoveFirstKeepsLast(q: seq<Charged>, netbuf: nat)
    requires q != [] && q[|q| - 1].packet.netbuf != netbuf
    ensures var rest := RemoveFirst(q, netbuf).rest; rest != [] && rest[|rest| - 1] == q[|q| - 1]
  {
    hide FirstMatch;
    var k := FirstMatch(q, netbuf);
    if k < |q| {
      var rest := q[..k] + q[k + 1..];
      assert k < |q| - 1;
      assert rest[|rest| - 1] == q[k + 1..][|q| - k - 2];
    }
  }

  lemma UndecidedIsOther(e: Engine, netbuf: nat)
    requires Conserved(e) && WasAccepted(e, netbuf) && Undecided(e) != []
    ensures Undecided(e)[0].packet.netbuf != netbuf
  {
    CountChargedAt(Hand(e), 0);
    AcceptedDiffers(e, Undecided(e)[0], netbuf);
  }

  /** Apart from issuing and HIF's answers nothing changes what HIF is deciding on. */
  lemma UndecidedStays(cfg: Config, e: Engine, a: Action)
    requires cfg.Valid() && Enabled(cfg, e, a) && OneDrainer(e) && !a.Issue?
    ensures var f := Do(cfg, e, a); Undecided(f) == [] || Undecided(f) == Undecided(e)
  {
    hide GetPackets, AdmitSplit, RemoveFirst, FreshBatch, WasAccepted;
    match a
    case Enter(t, bus) => EnterUndecided(cfg, e, t, bus);
    case Relock(t, bus) => DrainHasNone(cfg, e, t, bus);
    case Accept(_) =>
    case Reject(_) =>
    case Requeue(_) =>
    case Complete(_) =>
    case FinishSearch =>
    case _ => QuietActions(cfg, e, a);
  }

  lemma DrainHasNone(cfg: Config, e: Engine, t: nat, bus: Bus)
    requires cfg.Valid() && t < |e.threads| && e.log.drainer == t
    ensures Undecided(Drain(cfg, e, t, bus)) == []
  {
    hide GetPackets;
  }

  lemma EnterUndecided(cfg: Config, e: Engine, t: nat, bus: Bus)
    requires cfg.Valid() && t < |e.threads| && e.threads[t].pc.Entering? && OneDrainer(e)
    ensures var f := DoEnter(cfg, e, t, bus); Undecided(f) == [] || Undecided(f) == Undecided(e)
  {
    hide Drain;
    if e.processCount + 1 <= 1 {
      DrainHasNone(cfg, Join(e, t), t, bus);
    }
  }

  lemma LastOfferedKept(cfg: Config, e: Engine, a: Action)
    requires cfg.Valid() && Enabled(cfg, e, a) && Sound(cfg, e) && LastOffered(e)
    ensures LastOffered(Do(cfg, e, a))
  {
    hide Do, Enabled, GetPackets, AdmitSplit, RemoveFirst, Conserved, NoLostWakeup, InOrder, CreditsSound, ChargesSound, OutstandingExact, Whole;
    var f := Do(cfg, e, a);
    WholeKept(cfg, e, a);
    if a.Issue? {
      IssueUndecided(cfg, e, a.t);
    } else {
      UndecidedStays(cfg, e, a);
      if Undecided(f) != [] {
        NotAnswered(cfg, e, a);
        if a.Complete? {
          UndecidedIsOther(e, a.netbuf);
          RemoveFirstKeepsLast(Whole(e), a.netbuf);
        }
        if a.FinishSearch? && e.search.Searching? {
          UndecidedIsOther(e, e.search.netbuf);
          RemoveFirstKeepsLast(Whole(e), e.search.netbuf);
        }
      }
    }
  }

  lemma IssueUndecided(cfg: Config, e: Engine, t: nat)
    requires cfg.Valid() && Enabled(cfg, e, Issue(t)) && OneDrainer(e)
    ensures Undecided(Do(cfg, e, Issue(t))) == [e.threads[t].pc.queue[0]]
    ensures Track(e, Issue(t), Whole(e)) == Whole(e) + [e.threads[t].pc.queue[0]]
  {
  }

  lemma NotAnswered(cfg: Config, e: Engine, a: Action)
    requires cfg.Valid() && Enabled(cfg, e, a) && OneDrainer(e) && Undecided(Do(cfg, e, a)) != [] && !a.Issue?
    ensures !a.Reject? && (a.Complete? ==> WasAccepted(e, a.netbuf))
  {
  }

  /** In a search, what HIF is deciding on and refuses is the last of the detached. */
  lemma RefusedIsLast(e: Engine, t: nat)
    requires t < |e.threads| && RefusesDetached(e, Reject(t)) && OneDrainer(e) && SearchSound(e) && Conserved(e) && LastOffered(e)
    ensures var c, list := e.threads[t].pc.current, e.search.list;
      && list != [] && list[|list| - 1] == c && FirstMatch(list, c.packet.netbuf) == |list| - 1
      && c.packet.netbuf != e.search.netbuf
  {
    hide Conserved, FirstMatch;
    var c := e.threads[t].pc.current;
    assert Undecided(e) == [c];
    UndecidedIsOther(e, e.search.netbuf);
    LastIsFound(e.search.list, e.lookup);
    FirstIsOnly(e, e.search.list, |e.search.list| - 1);
  }

  lemma LastIsFound(list: seq<Charged>, lookup: seq<Charged>)
    ensures lookup != [] ==>
      var all := list + lookup; RemoveFirst(lookup, all[|all| - 1].packet.netbuf).found.Hit?
  {
    hide FirstMatch;
  }

  lemma MatchIs(q: seq<Charged>, netbuf: nat, k: nat)
    requires k <= |q| && (k < |q| ==> q[k].packet.netbuf == netbuf)
    requires forall i :: 0 <= i < k ==> q[i].packet.netbuf != netbuf
    ensures FirstMatch(q, netbuf) == k
  {
    hide FirstMatch;
    var j := FirstMatch(q, netbuf);
    assert j <= k;
  }

  lemma LastRemoved(init: seq<Charged>, c: Charged)
    requires FirstMatch(init + [c], c.packet.netbuf) == |init|
    ensures RemoveFirst(init + [c], c.packet.netbuf) == Lookup(Hit(c), init)
    ensures forall i :: 0 <= i < |init| ==> init[i].packet.netbuf != c.packet.netbuf
  {
    hide FirstMatch;
    assert (init + [c])[..|init|] + (init + [c])[|init| + 1..] == init;
    forall i | 0 <= i < |init| ensures init[i].packet.netbuf != c.packet.netbuf {
      assert (init + [c])[i] == init[i];
    }
  }

  /** Among the others the refused packet is not found. */
  lemma NotAmong(q: seq<Charged>, init: seq<Charged>, at: nat, netbuf: nat)
    requires at + |q| <= |init| && q == init[at..at + |q|] && forall i :: 0 <= i < |init| ==> init[i].packet.netbuf != netbuf
    ensures forall i :: 0 <= i < |q| ==> q[i].packet.netbuf != netbuf
    ensures FirstMatch(q, netbuf) == |q| && RemoveFirst(q, netbuf) == Lookup(Missing, q)
  {
    hide FirstMatch;
    forall i | 0 <= i < |q| ensures q[i].packet.netbuf != netbuf {
      assert q[i] == init[at + i];
    }
  }

  lemma LastAdded(more: seq<Charged>, c: Charged)
    requires forall i :: 0 <= i < |more| ==> more[i].packet.netbuf != c.packet.netbuf
    ensures FirstMatch(more + [c], c.packet.netbuf) == |more| && RemoveFirst(more + [c], c.packet.netbuf) == Lookup(Hit(c), more)
  {
    hide FirstMatch, RemoveFirst;
    MatchIs(more + [c], c.packet.netbuf, |more|);
    LastRemoved(more, c);
  }

  /** The walk while the last of the detached packets is refused, and it has passed it, or
    * has others before it, or stands at it. */
  lemma RefusePassed(passed: seq<Charged>, init: seq<Charged>, c: Charged)
    requires passed == init + [c] && FirstMatch(passed, c.packet.netbuf) == |init|
    ensures Refuse(Walking(passed, []), c.packet.netbuf) == Walking(init, [])
  {
    hide FirstMatch, RemoveFirst;
    LastRemoved(init, c);
  }

  lemma RefuseAhead(passed: seq<Charged>, more: seq<Charged>, c: Charged)
    requires RemoveFirst(passed, c.packet.netbuf).found.Missing?
    requires forall i :: 0 <= i < |more| ==> more[i].packet.netbuf != c.packet.netbuf
    ensures Refuse(Walking(passed, more + [c]), c.packet.netbuf) == if more == [] then Astray else Walking(passed, more)
  {
    hide FirstMatch, RemoveFirst;
    LastAdded(more, c);
    assert (more + [c])[0] == if more == [] then c else more[0];
  }

  lemma RefuseWalking(passed: seq<Charged>, ahead: seq<Charged>, init: seq<Charged>, c: Charged, netbuf: nat)
    requires passed + ahead == init + [c] && FirstMatch(init + [c], c.packet.netbuf) == |init|
    requires RemoveFirst(passed, netbuf).found.Missing? && c.packet.netbuf != netbuf
    ensures match Refuse(Walking(passed, ahead), c.packet.netbuf)
      case Walking(p, h) => p + h == init && RemoveFirst(p, netbuf).found.Missing? && ahead != [c]
      case _ => ahead == [c] && RemoveFirst(init, netbuf).found.Missing? && Refuse(Walking(passed, ahead), c.packet.netbuf) == Astray
  {
    hide FirstMatch, RemoveFirst, Refuse;
    LastRemoved(init, c);
    if ahead == [] {
      assert passed + [] == passed && init + [] == init;
      RefusePassed(passed, init, c);
      StillMissing(passed, netbuf, c.packet.netbuf);
    } else {
      var more := ahead[..|ahead| - 1];
      AllButLast(passed, ahead, init, c);
      NotAmong(passed, init, 0, c.packet.netbuf);
      NotAmong(more, init, |passed|, c.packet.netbuf);
      RefuseAhead(passed, more, c);
      if more == [] {
        assert passed + [] == passed && [] + [c] == [c];
      }
    }
  }

  lemma AllButLast(passed: seq<Charged>, ahead: seq<Charged>, init: seq<Charged>, c: Charged)
    requires passed + ahead == init + [c] && ahead != []
    ensures var more := ahead[..|ahead| - 1];
      && ahead == more + [c] && passed + more == init
      && passed == init[..|passed|] && more == init[|passed|..]
  {
    var more := ahead[..|ahead| - 1];
    assert ahead[|ahead| - 1] == (passed + ahead)[|passed| + |ahead| - 1] == c;
    assert passed + more == (passed + ahead)[..|init|] == init;
  }

  lemma RefuseEnded(found: Found, rest: seq<Charged>, init: seq<Charged>, c: Charged, netbuf: nat)
    requires FirstMatch(init + [c], c.packet.netbuf) == |init| && c.packet.netbuf != netbuf
    requires RemoveFirst(init + [c], netbuf) == Lookup(found, rest)
    ensures RemoveFirst(init, netbuf) == Lookup(found, RemoveFirst(rest, c.packet.netbuf).rest)
  {
    hide FirstMatch, RemoveFirst;
    LastRemoved(init, c);
    if RemoveFirst(init, netbuf).found.Hit? {
      RemoveFirstIgnoresAppended(init, [c], netbuf);
      var left := RemoveFirst(init, netbuf).rest;
      RestMisses(init, netbuf, c.packet.netbuf);
      LastAdded(left, c);
    } else {
      RemoveFirstSkips(init, [c], netbuf);
      NotAmong([c], [c], 0, netbuf);
    }
  }

  lemma RestMisses(q: seq<Charged>, netbuf: nat, other: nat)
    requires forall i :: 0 <= i < |q| ==> q[i].packet.netbuf != other
    ensures var rest := RemoveFirst(q, netbuf).rest; forall i :: 0 <= i < |rest| ==> rest[i].packet.netbuf != other
  {
    hide FirstMatch;
  }

  /** HIF refuses the very packet the walk stands at. */
  predicate Misled(s: Fine, a: Step) {
    && a.Act? && RefusesDetached(s.e, a.a) && s.walk.Walking? && s.walk.ahead != []
    && s.walk.ahead[0] == s.e.threads[a.a.t].pc.current
  }

  lemma TurnKeepsWalk(s: Fine)
    requires WalkSound(s) && (s.walk.Walking? || s.walk.Astray?)
    ensures WalkSound(s.(walk := TurnOf(s.walk, s.e.search.netbuf)))
    ensures TurnOf(s.walk, s.e.search.netbuf).Astray? <==> s.walk.Astray?
  {
    hide FirstMatch, RemoveFirst;
    if s.walk.Walking? {
      var passed, ahead, netbuf := s.walk.passed, s.walk.ahead, s.e.search.netbuf;
      if ahead == [] {
        assert passed + ahead == passed;
      } else if ahead[0].packet.netbuf == netbuf {
        HeadMatches(ahead, netbuf);
        RemoveFirstSkips(passed, ahead, netbuf);
      } else {
        assert (passed + [ahead[0]]) + ahead[1..] == passed + ahead;
      }
    }
  }

  lemma HeadMatches(q: seq<Charged>, netbuf: nat)
    requires q != [] && q[0].packet.netbuf == netbuf
    ensures RemoveFirst(q, netbuf) == Lookup(Hit(q[0]), q[1..])
  {
    assert FirstMatch(q, netbuf) == 0 && q[..0] + q[1..] == q[1..];
  }

  lemma RefuseKeepsWalk(cfg: Config, s: Fine, t: nat)
    requires cfg.Valid() && FineSound(cfg, s) && Enabled(cfg, s.e, Reject(t)) && RefusesDetached(s.e, Reject(t))
    ensures WalkSound(DoStep(cfg, s, Act(Reject(t))))
    ensures DoStep(cfg, s, Act(Reject(t))).walk.Astray? <==> s.walk.Astray? || Misled(s, Act(Reject(t)))
  {
    hide FirstMatch, RemoveFirst, Conserved, NoLostWakeup, InOrder, CreditsSound, ChargesSound, OutstandingExact, LookupSound, Whole,
      OneDrainer, LastOffered, DoReject, Refuse;
    var c, list, netbuf := s.e.threads[t].pc.current, s.e.search.list, s.e.search.netbuf;
    RefusedIsLast(s.e, t);
    var init := list[..|list| - 1];
    assert list == init + [c];
    LastRemoved(init, c);
    RejectTakes(s.e, t);
    RefuseOthers(s.walk, c.packet.netbuf);
    match s.walk
    case Walking(passed, ahead) =>
      RefuseWalking(passed, ahead, init, c, netbuf);
      StandsAtLast(passed, ahead, init, c);
    case Ended(found, rest) => RefuseEnded(found, rest, init, c, netbuf);
    case Astray => StillMissing(list, netbuf, c.packet.netbuf);
  }

  lemma RejectTakes(e: Engine, t: nat)
    requires t < |e.threads| && RefusesDetached(e, Reject(t))
    ensures var f := DoReject(e, t);
      && f.search == e.search.(list := RemoveFirst(e.search.list, e.threads[t].pc.current.packet.netbuf).rest)
      && f.log.refused != []
  {
    hide RemoveFirst;
  }

  lemma RefuseOthers(walk: Walk, netbuf: nat)
    ensures walk.Ended? ==> Refuse(walk, netbuf) == Ended(walk.found, RemoveFirst(walk.rest, netbuf).rest)
    ensures walk.Astray? || walk.NoWalk? ==> Refuse(walk, netbuf) == walk
  {
  }

  lemma StandsAtLast(passed: seq<Charged>, ahead: seq<Charged>, init: seq<Charged>, c: Charged)
    requires passed + ahead == init + [c] && forall i :: 0 <= i < |init| ==> init[i].packet.netbuf != c.packet.netbuf
    ensures ahead != [] && ahead[0] == c <==> ahead == [c]
  {
    if ahead != [] && ahead[0] == c {
      assert (init + [c])[|passed|] == c;
    }
  }

  /** Nothing else touches what is detached. */
  lemma SearchStays(cfg: Config, e: Engine, a: Action)
    requires cfg.Valid() && Enabled(cfg, e, a) && !a.Complete? && !a.FinishSearch? && !RefusesDetached(e, a)
    ensures var f := Do(cfg, e, a); f.search == e.search && f.log.refused == e.log.refused
  {
    hide GetPackets, AdmitSplit, RemoveFirst, FreshBatch, WasAccepted;
  }

  lemma CompleteStartsWalk(cfg: Config, s: Fine, netbuf: nat)
    requires cfg.Valid() && WalkSound(s) && Enabled(cfg, s.e, Complete(netbuf))
    ensures WalkSound(DoStep(cfg, s, Act(Complete(netbuf)))) && !DoStep(cfg, s, Act(Complete(netbuf))).walk.Astray?
    ensures !s.walk.Astray?
  {
    hide WasAccepted, RemoveFirst, DoComplete, Refuse;
    MissingIfNone(netbuf);
    DetachesAll(s.e, netbuf);
    assert [] + s.e.lookup == s.e.lookup;
  }

  lemma DetachesAll(e: Engine, netbuf: nat)
    requires e.search.NoSearch?
    ensures var f := DoComplete(e, netbuf); f.search.Searching? ==> f.search.netbuf == netbuf && f.search.list == e.lookup
  {
  }

  lemma PutBackFinishes(cfg: Config, s: Fine)
    requires cfg.Valid() && WalkSound(s) && s.walk.Ended?
    ensures CanStep(cfg, s, PutBack) && Enabled(cfg, s.e, FinishSearch)
    ensures DoStep(cfg, s, PutBack) == Fine(Do(cfg, s.e, FinishSearch), NoWalk) && WalkSound(DoStep(cfg, s, PutBack))
  {
    hide RemoveFirst;
  }

  /** Every step keeps the walk and the search in step; and the walk goes astray exactly
    * when HIF refuses the packet it stands at. */
  lemma StepKeepsWalk(cfg: Config, s: Fine, a: Step)
    requires cfg.Valid() && FineSound(cfg, s) && CanStep(cfg, s, a)
    ensures FineSound(cfg, DoStep(cfg, s, a))
    ensures Runs(cfg, s.e, Seen(a)) && After(cfg, s.e, Seen(a)) == DoStep(cfg, s, a).e
    ensures DoStep(cfg, s, a).walk.Astray? <==> s.walk.Astray? || Misled(s, a)
  {
    hide Sound, LastOffered, WalkSound, Do, Enabled, TurnOf, RemoveFirst;
    match a
    case Turn => TurnKeepsWalk(s);
    case PutBack =>
      assert s.walk.Ended?;
      PutBackFinishes(cfg, s);
      OneStep(cfg, s.e, FinishSearch);
    case Act(b) =>
      ActKeepsWalk(cfg, s, b);
      OneStep(cfg, s.e, b);
  }

  lemma OneStep(cfg: Config, e: Engine, a: Action)
    requires cfg.Valid() && Sound(cfg, e) && LastOffered(e) && Enabled(cfg, e, a)
    ensures Runs(cfg, e, [a]) && After(cfg, e, [a]) == Do(cfg, e, a)
    ensures Sound(cfg, Do(cfg, e, a)) && LastOffered(Do(cfg, e, a))
  {
    hide Sound, LastOffered, Do, Enabled;
    StepKeepsSound(cfg, e, a);
    LastOfferedKept(cfg, e, a);
    var f := Do(cfg, e, a);
    assert [a][1..] == [] && Runs(cfg, f, []);
  }

  lemma ActKeepsWalk(cfg: Config, s: Fine, a: Action)
    requires cfg.Valid() && FineSound(cfg, s) && CanStep(cfg, s, Act(a))
    ensures WalkSound(DoStep(cfg, s, Act(a)))
    ensures DoStep(cfg, s, Act(a)).walk.Astray? <==> s.walk.Astray? || Misled(s, Act(a))
  {
    hide Sound, LastOffered, Do, RemoveFirst;
    if RefusesDetached(s.e, a) {
      RefuseKeepsWalk(cfg, s, a.t);
    } else if a.Complete? {
      CompleteStartsWalk(cfg, s, a.netbuf);
    } else {
      SearchStays(cfg, s.e, a);
    }
  }

  // ---------- runs ----------

  /** A run with the walk taken apart is a run of the engine, with the same states of it:
    * what holds of every reachable state of the engine holds here. */
  lemma {:induction false} FineRunIsRun(cfg: Config, s: Fine, run: seq<Step>)
    requires cfg.Valid() && FineSound(cfg, s) && FineRuns(cfg, s, run)
    ensures Runs(cfg, s.e, SeenOf(run)) && After(cfg, s.e, SeenOf(run)) == FineAfter(cfg, s, run).e
    ensures FineSound(cfg, FineAfter(cfg, s, run))
    decreases |run|
  {
    hide FineSound, DoStep, CanStep, Do, Enabled, Seen;
    if run != [] {
      StepKeepsWalk(cfg, s, run[0]);
      FineRunIsRun(cfg, DoStep(cfg, s, run[0]), run[1..]);
      RunsJoin(cfg, s.e, Seen(run[0]), SeenOf(run[1..]));
    }
  }

  lemma {:induction false} RunsJoin(cfg: Config, e: Engine, a: seq<Action>, b: seq<Action>)
    requires cfg.Valid() && Runs(cfg, e, a) && Runs(cfg, After(cfg, e, a), b)
    ensures Runs(cfg, e, a + b) && After(cfg, e, a + b) == After(cfg, After(cfg, e, a), b)
    decreases |a|
  {
    hide Do, Enabled;
    if a == [] {
      assert a + b == b;
    } else {
      assert (a + b)[1..] == a[1..] + b;
      RunsJoin(cfg, Do(cfg, e, a[0]), a[1..], b);
    }
  }

  lemma InitiallyFine(cfg: Config, threads: nat)
    requires cfg.Valid()
    ensures FineSound(cfg, Fine(Init(cfg, threads), NoWalk))
  {
    hide Sound;
    InitiallySound(cfg, threads);
  }

  lemma {:induction false} FineReachableIsSound(cfg: Config, s: Fine)
    requires cfg.Valid() && FineReachable(cfg, s)
    ensures FineSound(cfg, s) && Reachable(cfg, s.e)
  {
    hide FineSound, FineRuns, FineAfter, Runs, After;
    var threads: nat, run: seq<Step> :|
      FineRuns(cfg, Fine(Init(cfg, threads), NoWalk), run) && FineAfter(cfg, Fine(Init(cfg, threads), NoWalk), run) == s;
    InitiallyFine(cfg, threads);
    FineRunIsRun(cfg, Fine(Init(cfg, threads), NoWalk), run);
  }

  // ---------- the theorems ----------

  /** Over a run: HIF refuses a packet at the moment the walk stands at it. */
  ghost predicate EverMisled(cfg: Config, s: Fine, run: seq<Step>)
    requires cfg.Valid() && FineRuns(cfg, s, run)
    decreases |run|
  {
    run != [] && (Misled(s, run[0]) || EverMisled(cfg, DoStep(cfg, s, run[0]), run[1..]))
  }

  /** Over any run a walk goes astray exactly if that happens, and then it stays astray: the
    * loop does not end, and what was detached is not put back. */
  lemma {:induction false} AstrayExactlyIfMisled(cfg: Config, s: Fine, run: seq<Step>)
    requires cfg.Valid() && FineSound(cfg, s) && FineRuns(cfg, s, run)
    ensures FineAfter(cfg, s, run).walk.Astray? <==> s.walk.Astray? || EverMisled(cfg, s, run)
    decreases |run|
  {
    hide FineSound, DoStep, CanStep, Misled;
    if run != [] {
      StepKeepsWalk(cfg, s, run[0]);
      AstrayExactlyIfMisled(cfg, DoStep(cfg, s, run[0]), run[1..]);
    }
  }

  /** A walk that ends has found what one look at the whole queue would have found, and
    * leaves what that would have left, in whatever order refusals and issues came between. */
  lemma {:induction false} WalkFindsFirstMatch(cfg: Config, s: Fine)
    requires cfg.Valid() && FineReachable(cfg, s) && s.walk.Ended? && s.e.search.Searching?
    ensures RemoveFirst(Whole(s.e), s.e.search.netbuf) == Lookup(s.walk.found, s.walk.rest + s.e.lookup)
    ensures DoStep(cfg, s, PutBack) == Fine(Do(cfg, s.e, FinishSearch), NoWalk)
  {
    hide RemoveFirst, Whole, Do, DoStep, Sound, LastOffered, Reachable, FineReachable;
    FineReachableIsSound(cfg, s);
    PutBackFinishes(cfg, s);
    SoundSearch(cfg, s.e);
    WholeMatch(s.e);
  }

  lemma WholeMatch(e: Engine)
    requires e.search.Searching? && SearchedIsDetached(e)
    ensures var r := RemoveFirst(e.search.list, e.search.netbuf);
      RemoveFirst(Whole(e), e.search.netbuf) == Lookup(r.found, r.rest + e.lookup)
  {
    hide RemoveFirst;
    if RemoveFirst(e.search.list, e.search.netbuf).found.Hit? {
      RemoveFirstIgnoresAppended(e.search.list, e.lookup, e.search.netbuf);
    } else {
      RemoveFirstSkips(e.search.list, e.lookup, e.search.netbuf);
    }
  }

  /** Over any run, node by node: detached packets and lookup queue together are what one
    * queue would be from which each completion takes its first match at one moment. */
  lemma {:induction false} WalksAreAtomic(cfg: Config, s: Fine, run: seq<Step>)
    requires cfg.Valid() && FineSound(cfg, s) && FineRuns(cfg, s, run)
    ensures Runs(cfg, s.e, SeenOf(run))
    ensures var f := FineAfter(cfg, s, run);
      && Whole(f.e) == Tracked(cfg, s.e, SeenOf(run), Whole(s.e))
      && (f.walk.NoWalk? ==> f.e.lookup == Tracked(cfg, s.e, SeenOf(run), Whole(s.e)))
  {
    hide Sound, LastOffered, Runs, After, FineRuns, FineAfter, Tracked, Whole;
    FineRunIsRun(cfg, s, run);
    CompletionsAreAtomic(cfg, s.e, SeenOf(run));
  }

  /** A walk goes astray only when HIF reports a completion twice: every packet with the
    * network buffer that HIF accepted is completed already.  What waits for its first
    * completion is always found. */
  lemma {:induction false} OnlyRepeatedCompletionsGoAstray(cfg: Config, s: Fine, p: Packet)
    requires cfg.Valid() && FineReachable(cfg, s) && s.walk.Astray? && s.e.search.Searching? && p.netbuf == s.e.search.netbuf
    ensures Count(s.e.log.finished, p) == CountCharged(s.e.log.accepted, p)
  {
    hide RemoveFirst, Whole, Do, DoStep, LastOffered, Reachable, FineReachable, Count, Held;
    FineReachableIsSound(cfg, s);
    NotWaiting(s.e.lookup, p);
    NotWaiting(s.e.search.list, p);
    assert ConservedAt(s.e, p);
    if Undecided(s.e) != [] {
      UndecidedIsOther(s.e, s.e.search.netbuf);
    }
    UndecidedCount(s.e, p);
  }

  lemma UndecidedCount(e: Engine, p: Packet)
    requires Undecided(e) != [] ==> Undecided(e)[0].packet != p
    ensures CountCharged(Undecided(e), p) == 0
  {
  }

  lemma {:induction false} NotWaiting(q: seq<Charged>, p: Packet)
    requires RemoveFirst(q, p.netbuf).found.Missing?
    ensures CountCharged(q, p) == 0
  {
    if CountCharged(q, p) > 0 {
      var k := CountChargedWitness(q, p);
    }
  }

  /** How many turns a walk still takes. */
  function TurnsLeft(walk: Walk): nat {
    if walk.Walking? then |walk.ahead| + 1 else 0
  }

  function Turns(run: seq<Step>): nat {
    if run == [] then 0 else (if run[0].Turn? then 1 else 0) + Turns(run[1..])
  }

  /** A walk that is not led astray ends: its turns are bounded by what was detached. */
  lemma {:induction false} WalkEnds(cfg: Config, s: Fine, run: seq<Step>)
    requires cfg.Valid() && FineSound(cfg, s) && FineRuns(cfg, s, run)
    requires s.e.search.Searching? && (forall i :: 0 <= i < |run| ==> run[i] != PutBack) && !FineAfter(cfg, s, run).walk.Astray?
    ensures Turns(run) + TurnsLeft(FineAfter(cfg, s, run).walk) <= TurnsLeft(s.walk)
    decreases |run|
  {
    hide FineSound, DoStep, CanStep, Misled;
    if run != [] {
      var next := DoStep(cfg, s, run[0]);
      StepKeepsWalk(cfg, s, run[0]);
      AstrayExactlyIfMisled(cfg, next, run[1..]);
      StepTurns(cfg, s, run[0]);
      WalkEnds(cfg, next, run[1..]);
    }
  }

  lemma StepTurns(cfg: Config, s: Fine, a: Step)
    requires cfg.Valid() && FineSound(cfg, s) && CanStep(cfg, s, a) && s.e.search.Searching? && a != PutBack
    ensures var f := DoStep(cfg, s, a);
      && f.e.search.Searching?
      && (!f.walk.Astray? ==> (if a.Turn? then 1 else 0) + TurnsLeft(f.walk) <= TurnsLeft(s.walk))
  {
    hide Sound, LastOffered, RemoveFirst, Do;
    if a.Act? {
      ActTurns(cfg, s, a.a);
    }
  }

  lemma ActTurns(cfg: Config, s: Fine, a: Action)
    requires cfg.Valid() && Enabled(cfg, s.e, a) && s.e.search.Searching? && !a.FinishSearch?
    ensures Do(cfg, s.e, a).search.Searching? && !a.Complete?
    ensures TurnsLeft(Meanwhile(s.e, s.walk, a)) <= TurnsLeft(s.walk)
  {
    hide GetPackets, AdmitSplit, FreshBatch, WasAccepted, FirstMatch;
  }

  // ---------- nothing is lost by taking one step of a walk ----------

  lemma FineInitIsReachable(cfg: Config, threads: nat)
    requires cfg.Valid()
    ensures FineReachable(cfg, Fine(Init(cfg, threads), NoWalk))
  {
    var s := Fine(Init(cfg, threads), NoWalk);
    assert FineRuns(cfg, s, []) && FineAfter(cfg, s, []) == s;
  }

  lemma {:induction false} FineRunsSnoc(cfg: Config, s: Fine, run: seq<Step>, a: Step)
    requires cfg.Valid() && FineRuns(cfg, s, run) && CanStep(cfg, FineAfter(cfg, s, run), a)
    ensures FineRuns(cfg, s, run + [a]) && FineAfter(cfg, s, run + [a]) == DoStep(cfg, FineAfter(cfg, s, run), a)
    decreases |run|
  {
    hide DoStep, CanStep;
    if run == [] {
      assert [a][1..] == [] && run + [a] == [a];
      assert FineRuns(cfg, DoStep(cfg, s, a), []);
    } else {
      assert (run + [a])[1..] == run[1..] + [a];
      FineRunsSnoc(cfg, DoStep(cfg, s, run[0]), run[1..], a);
    }
  }

  lemma FineReachableStep(cfg: Config, s: Fine, a: Step)
    requires cfg.Valid() && FineReachable(cfg, s) && CanStep(cfg, s, a)
    ensures FineReachable(cfg, DoStep(cfg, s, a))
  {
    hide FineRuns, FineAfter, DoStep, CanStep;
    var threads: nat, run: seq<Step> :|
      FineRuns(cfg, Fine(Init(cfg, threads), NoWalk), run) && FineAfter(cfg, Fine(Init(cfg, threads), NoWalk), run) == s;
    FineRunsSnoc(cfg, Fine(Init(cfg, threads), NoWalk), run, a);
  }

  /** Undisturbed, a walk goes on to its end. */
  lemma {:induction false} WalkOn(cfg: Config, s: Fine) returns (f: Fine)
    requires cfg.Valid() && FineReachable(cfg, s) && s.walk.Walking?
    ensures FineReachable(cfg, f) && f.e == s.e && f.walk.Ended?
    decreases TurnsLeft(s.walk)
  {
    hide FineReachable, Sound, LastOffered, RemoveFirst, Reachable;
    FineReachableIsSound(cfg, s);
    FineReachableStep(cfg, s, Turn);
    f := DoStep(cfg, s, Turn);
    if f.walk.Walking? {
      f := WalkOn(cfg, f);
    }
  }

  /** Every reachable state of the engine is one that it shows while a walk is taken apart. */
  lemma {:induction false} EngineIsShown(cfg: Config, threads: nat, run: seq<Action>) returns (s: Fine)
    requires cfg.Valid() && Runs(cfg, Init(cfg, threads), run)
    ensures FineReachable(cfg, s) && s.e == After(cfg, Init(cfg, threads), run) && !s.walk.Walking? && !s.walk.Astray?
    decreases |run|
  {
    hide FineReachable, Runs, After, Do, Enabled, Sound, LastOffered, Reachable, RemoveFirst;
    if run == [] {
      FineInitIsReachable(cfg, threads);
      s := Fine(Init(cfg, threads), NoWalk);
      NoRun(cfg, Init(cfg, threads));
    } else {
      var before, a := run[..|run| - 1], run[|run| - 1];
      assert run == before + [a];
      RunsSplit(cfg, Init(cfg, threads), before, a);
      var b := EngineIsShown(cfg, threads, before);
      s := ActionIsShown(cfg, b, a);
    }
  }

  lemma NoRun(cfg: Config, e: Engine)
    requires cfg.Valid()
    ensures Runs(cfg, e, []) && After(cfg, e, []) == e
  {
  }

  lemma {:induction false} RunsSplit(cfg: Config, e: Engine, run: seq<Action>, a: Action)
    requires cfg.Valid() && Runs(cfg, e, run + [a])
    ensures Runs(cfg, e, run) && Enabled(cfg, After(cfg, e, run), a)
    ensures After(cfg, e, run + [a]) == Do(cfg, After(cfg, e, run), a)
    decreases |run|
  {
    hide Do, Enabled;
    if run == [] {
      assert run + [a] == [a] && [a][1..] == [];
    } else {
      assert (run + [a])[1..] == run[1..] + [a];
      RunsSplit(cfg, Do(cfg, e, run[0]), run[1..], a);
    }
  }

  lemma ActionIsShown(cfg: Config, s: Fine, a: Action) returns (f: Fine)
    requires cfg.Valid() && FineReachable(cfg, s) && Enabled(cfg, s.e, a) && !s.walk.Walking? && !s.walk.Astray?
    ensures FineReachable(cfg, f) && f.e == Do(cfg, s.e, a) && !f.walk.Walking? && !f.walk.Astray?
  {
    hide FineReachable, Do, Sound, LastOffered, Reachable, RemoveFirst, WalkSound;
    FineReachableIsSound(cfg, s);
    if a.FinishSearch? {
      SearchHasWalk(s);
      PutBackFinishes(cfg, s);
      FineReachableStep(cfg, s, PutBack);
      f := DoStep(cfg, s, PutBack);
    } else {
      FineReachableStep(cfg, s, Act(a));
      StepKeepsWalk(cfg, s, Act(a));
      f := DoStep(cfg, s, Act(a));
      if f.walk.Walking? {
        f := WalkOn(cfg, f);
      }
    }
  }

  lemma SearchHasWalk(s: Fine)
    requires WalkSound(s) && s.e.search.Searching?
    ensures !s.walk.NoWalk?
  {
  }

  lemma ReachableIsShown(cfg: Config, e: Engine)
    requires cfg.Valid() && Reachable(cfg, e) && e.search.NoSearch?
    ensures FineReachable(cfg, Fine(e, NoWalk))
  {
    hide FineReachable, Runs, After, Sound, LastOffered;
    var threads: nat, run: seq<Action> :| Runs(cfg, Init(cfg, threads), run) && After(cfg, Init(cfg, threads), run) == e;
    var s := EngineIsShown(cfg, threads, run);
    FineReachableIsSound(cfg, s);
    assert WalkSound(s) && s == Fine(e, NoWalk);
  }
}
