/** The HTC transmit engine of one credit-flow endpoint as a transition system.
  *
  * Any number of threads run htc_send_pkts_multiple, credit reports, queue kicks
  * and flushes; the host interface (HIF) accepts, rejects and completes packets
  * when it likes.  One action is one region of core/htc/htc_send.c under
  * HTCTxLock, or one step between two such regions; everything else may
  * interleave. */
module TxEngine {
  import opened TxModel

  /** Where a thread is. */
  datatype Pc =
    | Idle
    | Entering(batch: seq<Packet>)                         // about to take the lock in htc_try_send; no batch: htc_try_send(NULL)
    | Issuing(queue: seq<Charged>)                         // in htc_issue_packets, lock released
    | Sending(current: Charged, queue: seq<Charged>)       // `current` is in the lookup queue, HIF has not answered yet
    | Returning(queue: seq<Charged>)                       // htc_issue_packets failed, its first packet is refunded
    | Leaving                                              // htc_try_send has returned

  /** `left` are the packets that stayed in the caller's queue. */
  datatype Thread = Thread(pc: Pc, left: seq<Packet>)

  /** The completion handler's search with the lock released. */
  datatype Search = NoSearch | Searching(netbuf: nat, list: seq<Charged>, depth: int)

  datatype LastCharge = Never | Last(charged: Charged, creditsAfter: int)

  /** A charged packet, and the credits that remained once it was charged. */
  datatype Charge = Charge(charged: Charged, creditsAfter: int)

  /** What happened so far; no action reads it. */
  datatype Log = Log(
    drainer: nat,                // the thread that last got past the busy check
    stalled: bool,               // the last drain ended on a HIF failure or a suspended bus, and nobody kicked since
    submitted: seq<Packet>,      // handed to htc_send_pkts_multiple
    admitted: seq<Packet>,       // appended to TxQueue, in order
    accepted: seq<Charged>,      // accepted by HIF, in order
    flushed: seq<Packet>,        // completed by a flush
    dropped: seq<Packet>,        // completed because they did not fit
    finished: seq<Packet>,       // completed by HIF
    misses: nat,                 // completions that matched no packet
    reported: nat,               // credits reported by the target
    leaked: int,                 // credits of packets requeued behind a failed one
    failures: nat,
    midBatchFailures: nat,
    lastCharge: LastCharge,
    putBack: bool,               // a failed batch was put back after the last charge
    outgoing: seq<Charge>,       // the charges of what HIF accepted and of what is in sendQueue
    refused: seq<Packet>)        // refused by HIF after the search under way had detached them

  datatype Engine = Engine(
    threads: seq<Thread>,
    credits: int,                // TxCredits
    processCount: int,           // TxProcessCount
    outstanding: int,            // ul_outstanding_cnt
    txQueue: seq<Packet>,
    lookup: seq<Charged>,        // TxLookupQueue
    lookupDepth: int,            // and its Depth counter
    search: Search,
    log: Log)

  datatype Action =
    | Submit(t: nat, packets: seq<Packet>, firstDepth: nat, secondDepth: nat, handler: FullHandler)
    | Kick(t: nat)
    | Report(t: nat, credits: nat)
    | Enter(t: nat, bus: Bus)
    | Issue(t: nat)
    | Accept(t: nat)
    | Reject(t: nat)
    | Requeue(t: nat)
    | Relock(t: nat, bus: Bus)
    | Leave(t: nat)
    | Flush
    | Complete(netbuf: nat)
    | FinishSearch

  function Init(cfg: Config, threads: nat): Engine {
    Engine(seq(threads, i => Thread(Idle, [])), cfg.initialCredits, 0, 0, [], [], 0, NoSearch,
           Log(0, false, [], [], [], [], [], [], 0, 0, 0, 0, 0, Never, false, [], []))
  }

  /** The drainer's sendQueue, with the packet HIF is deciding on in front. */
  function HandOf(pc: Pc): seq<Charged> {
    match pc
    case Issuing(queue) => queue
    case Sending(current, queue) => [current] + queue
    case Returning(queue) => queue
    case _ => []
  }

  predicate Draining(pc: Pc) {
    pc.Issuing? || pc.Sending? || pc.Returning?
  }

  predicate FreshBatch(submitted: seq<Packet>, packets: seq<Packet>) {
    forall i, j :: 0 <= i < j < |submitted + packets| && j >= |submitted| ==>
      (submitted + packets)[i].netbuf != (submitted + packets)[j].netbuf
  }

  predicate WasAccepted(e: Engine, netbuf: nat) {
    exists i :: 0 <= i < |e.log.accepted| && e.log.accepted[i].packet.netbuf == netbuf
  }

  /** When an action can happen.  Of HIF it is only asked that it reports no
    * completion for a packet it has not accepted. */
  predicate Enabled(cfg: Config, e: Engine, a: Action) {
    match a
    case Submit(t, packets, _, _, _) =>
      t < |e.threads| && e.threads[t].pc.Idle? && packets != [] && FreshBatch(e.log.submitted, packets)
    case Kick(t) => t < |e.threads| && e.threads[t].pc.Idle?
    case Report(t, _) => t < |e.threads| && e.threads[t].pc.Idle?
    case Enter(t, _) => t < |e.threads| && e.threads[t].pc.Entering?
    case Issue(t) => t < |e.threads| && e.threads[t].pc.Issuing? && e.threads[t].pc.queue != []
    case Relock(t, _) => t < |e.threads| && e.threads[t].pc.Issuing? && e.threads[t].pc.queue == []
    case Accept(t) => t < |e.threads| && e.threads[t].pc.Sending?
    case Reject(t) => t < |e.threads| && e.threads[t].pc.Sending?
    case Requeue(t) => t < |e.threads| && e.threads[t].pc.Returning?
    case Leave(t) => t < |e.threads| && e.threads[t].pc.Leaving?
    case Flush => true
    case Complete(netbuf) => e.search.NoSearch? && WasAccepted(e, netbuf)
    case FinishSearch => e.search.Searching?
  }

  function SetPc(e: Engine, t: nat, pc: Pc): Engine
    requires t < |e.threads|
  {
    e.(threads := e.threads[t := e.threads[t].(pc := pc)])
  }

  /** The charges of a pass that started with these credits. */
  function Charges(taken: seq<Charged>, credits: int): (r: seq<Charge>)
    ensures |r| == |taken| && forall i :: 0 <= i < |r| ==> r[i].charged == taken[i]
  {
    seq(|taken|, i requires 0 <= i < |taken| => Charge(taken[i], credits - SumCredits(taken[..i + 1])))
  }

  function Front(s: seq<Charge>, n: nat): seq<Charge> {
    if n <= |s| then s[..n] else s
  }

  /** The state after a pass `r` of the drainer over TxQueue. */
  function AfterPass(e: Engine, t: nat, r: Pass): Engine
    requires t < |e.threads|
  {
    var d := e.(credits := r.credits, txQueue := r.rest);
    if r.taken == [] then
      SetPc(d, t, Leaving).(processCount := 0, log := e.log.(stalled := r.stop.Suspended?))
    else
      SetPc(d, t, Issuing(r.taken)).(log := e.log.(
        lastCharge := Last(r.taken[|r.taken| - 1], r.credits), putBack := false,
        outgoing := e.log.outgoing + Charges(r.taken, e.credits)))
  }

  /** The body of the drain loop with the lock held, from the test of TxQueue to
    * the next release of the lock (1118-1165, 1194-1197). */
  function Drain(cfg: Config, e: Engine, t: nat, bus: Bus): Engine
    requires cfg.Valid() && t < |e.threads|
  {
    if e.txQueue == [] then
      SetPc(e, t, Leaving).(processCount := 0, log := e.log.(stalled := false))
    else
      AfterPass(e, t, GetPackets(cfg, e.credits, e.txQueue, bus))
  }

  function FoundPackets(f: Found): seq<Packet> {
    if f.Hit? then [f.charged.packet] else []
  }

  // ---------- the actions ----------

  /** htc_send_pkts_multiple up to the lock in htc_try_send (972-1084, 1296-1375). */
  function DoSubmit(cfg: Config, e: Engine, t: nat, packets: seq<Packet>, d1: nat, d2: nat, handler: FullHandler): Engine
    requires t < |e.threads|
  {
    AfterSplit(e, t, packets, AdmitSplit(cfg, d1, d2, handler, packets))
  }

  function AfterSplit(e: Engine, t: nat, packets: seq<Packet>, r: Split): Engine
    requires t < |e.threads|
  {
    e.(threads := e.threads[t := Thread(if r.send == [] then Leaving else Entering(r.send), r.left)],
       log := e.log.(submitted := e.log.submitted + packets))
  }

  /** htc_kick_queues or htc_tx_resource_avail_handler calling htc_try_send(NULL). */
  function DoKick(e: Engine, t: nat): Engine
    requires t < |e.threads|
  {
    SetPc(e, t, Entering([])).(log := e.log.(stalled := false))
  }

  /** One entry of a credit report (2015-2039). */
  function DoReport(e: Engine, t: nat, credits: nat): Engine
    requires t < |e.threads|
  {
    var d := e.(credits := e.credits + credits, log := e.log.(reported := e.log.reported + credits));
    if d.credits != 0 && d.txQueue != [] then DoKick(d, t) else d
  }

  /** The batch goes to the tail of TxQueue (1096-1102). */
  function Append(e: Engine, t: nat): Engine
    requires t < |e.threads| && e.threads[t].pc.Entering?
  {
    var batch := e.threads[t].pc.batch;
    e.(txQueue := e.txQueue + batch, log := e.log.(admitted := e.log.admitted + batch))
  }

  /** The thread becomes the drainer, with an empty sendQueue. */
  function Join(e: Engine, t: nat): Engine
    requires t < |e.threads| && e.threads[t].pc.Entering?
  {
    SetPc(Append(e, t), t, Issuing([])).(
      processCount := e.processCount + 1, log := Append(e, t).log.(drainer := t))
  }

  /** The critical section at the top of htc_try_send (1094-1112), and the first
    * turn of the drain loop if nobody else is draining. */
  function DoEnter(cfg: Config, e: Engine, t: nat, bus: Bus): Engine
    requires cfg.Valid() && t < |e.threads| && e.threads[t].pc.Entering?
  {
    if e.processCount + 1 > 1 then SetPc(Append(e, t), t, Leaving) else Drain(cfg, Join(e, t), t, bus)
  }

  /** htc_issue_packets puts the next packet in the lookup queue (618-623). */
  function DoIssue(e: Engine, t: nat): Engine
    requires t < |e.threads| && e.threads[t].pc.Issuing? && e.threads[t].pc.queue != []
  {
    var queue := e.threads[t].pc.queue;
    SetPc(e, t, Sending(queue[0], queue[1..])).(
      lookup := e.lookup + [queue[0]], lookupDepth := e.lookupDepth + 1, outstanding := e.outstanding + 1)
  }

  /** hif_send_head succeeds. */
  function DoAccept(e: Engine, t: nat): Engine
    requires t < |e.threads| && e.threads[t].pc.Sending?
  {
    var pc := e.threads[t].pc;
    SetPc(e, t, Issuing(pc.queue)).(log := e.log.(accepted := e.log.accepted + [pc.current]))
  }

  /** hif_send_head fails: the packet is refunded and goes back (648-658).  Its
    * list link takes it out of whichever list it is in; the counter that is
    * decremented is always that of the lookup queue. */
  function DoReject(e: Engine, t: nat): Engine
    requires t < |e.threads| && e.threads[t].pc.Sending?
  {
    var pc := e.threads[t].pc;
    var netbuf := pc.current.packet.netbuf;
    var d := SetPc(e, t, Returning([pc.current] + pc.queue)).(
      credits := e.credits + pc.current.credits, outstanding := e.outstanding - 1, lookupDepth := e.lookupDepth - 1,
      log := e.log.(failures := e.log.failures + 1));
    if RemoveFirst(e.lookup, netbuf).found.Hit? || e.search.NoSearch? then
      d.(lookup := RemoveFirst(e.lookup, netbuf).rest)
    else
      d.(search := e.search.(list := RemoveFirst(e.search.list, netbuf).rest),
         log := d.log.(refused := e.log.refused + [pc.current.packet]))
  }

  /** htc_try_send puts a failed batch back in front and stops draining (1178-1181,
    * 1194-1197); the transfer just before the lock is taken as part of it. */
  function DoRequeue(e: Engine, t: nat): Engine
    requires t < |e.threads| && e.threads[t].pc.Returning?
  {
    var queue := e.threads[t].pc.queue;
    SetPc(e, t, Leaving).(
      txQueue := Packets(queue) + e.txQueue, processCount := 0,
      log := e.log.(stalled := true, putBack := true, outgoing := Front(e.log.outgoing, |e.log.accepted|),
                    leaked := e.log.leaked + SumCredits(queue) - (if queue == [] then 0 else queue[0].credits),
                    midBatchFailures := e.log.midBatchFailures + (if |queue| > 1 then 1 else 0)))
  }

  /** htc_send_pkts_multiple completes what did not get in (1378-1394). */
  function DoLeave(e: Engine, t: nat): Engine
    requires t < |e.threads|
  {
    e.(threads := e.threads[t := Thread(Idle, [])], log := e.log.(dropped := e.log.dropped + e.threads[t].left))
  }

  /** htc_flush_endpoint_tx */
  function DoFlush(e: Engine): Engine {
    e.(txQueue := [], log := e.log.(flushed := e.log.flushed + e.txQueue))
  }

  /** The first critical section of htc_lookup_tx_packet (1726-1750). */
  function DoComplete(e: Engine, netbuf: nat): Engine {
    var d := e.(outstanding := e.outstanding - 1);
    if e.lookup == [] then
      d.(log := e.log.(misses := e.log.misses + 1))
    else if e.lookup[0].packet.netbuf == netbuf then
      d.(lookup := e.lookup[1..], lookupDepth := e.lookupDepth - 1,
         log := e.log.(finished := e.log.finished + [e.lookup[0].packet]))
    else
      d.(lookup := [], lookupDepth := 0, search := Searching(netbuf, e.lookup, e.lookupDepth),
         log := e.log.(refused := []))
  }

  /** The search of the detached list and the critical section that puts the rest
    * back in front (1752-1774). */
  function DoFinishSearch(e: Engine): Engine
    requires e.search.Searching?
  {
    var r := RemoveFirst(e.search.list, e.search.netbuf);
    e.(lookup := r.rest + e.lookup, search := NoSearch,
       lookupDepth := e.lookupDepth + e.search.depth - (if r.found.Hit? then 1 else 0),
       log := e.log.(finished := e.log.finished + FoundPackets(r.found), refused := [],
                     misses := e.log.misses + (if r.found.Missing? then 1 else 0)))
  }

  function Do(cfg: Config, e: Engine, a: Action): Engine
    requires cfg.Valid() && Enabled(cfg, e, a)
  {
    match a
    case Submit(t, packets, d1, d2, handler) => DoSubmit(cfg, e, t, packets, d1, d2, handler)
    case Kick(t) => DoKick(e, t)
    case Report(t, credits) => DoReport(e, t, credits)
    case Enter(t, bus) => DoEnter(cfg, e, t, bus)
    case Issue(t) => DoIssue(e, t)
    case Accept(t) => DoAccept(e, t)
    case Reject(t) => DoReject(e, t)
    case Requeue(t) => DoRequeue(e, t)
    case Relock(t, bus) => Drain(cfg, e, t, bus)
    case Leave(t) => DoLeave(e, t)
    case Flush => DoFlush(e)
    case Complete(netbuf) => DoComplete(e, netbuf)
    case FinishSearch => DoFinishSearch(e)
  }

  // ---------- runs ----------

  /** A sequence of actions each of which is enabled when its turn comes. */
  predicate Runs(cfg: Config, e: Engine, run: seq<Action>)
    requires cfg.Valid()
    decreases |run|
  {
    run == [] || (Enabled(cfg, e, run[0]) && Runs(cfg, Do(cfg, e, run[0]), run[1..]))
  }

  function After(cfg: Config, e: Engine, run: seq<Action>): Engine
    requires cfg.Valid() && Runs(cfg, e, run)
    decreases |run|
  {
    if run == [] then e else After(cfg, Do(cfg, e, run[0]), run[1..])
  }

  ghost predicate Reachable(cfg: Config, e: Engine)
    requires cfg.Valid()
  {
    exists threads: nat, run: seq<Action> ::
      Runs(cfg, Init(cfg, threads), run) && After(cfg, Init(cfg, threads), run) == e
  }
}
