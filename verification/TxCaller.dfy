/** From the caller's queue to HIF: what one call of htc_send_pkts_multiple gets in goes
  * into TxQueue in a row, and HIF gets it in the order of the caller's queue. */
module TxCaller {
  import opened TxModel
  import opened TxEngine
  import opened TxSafety
  import opened TxOrder
  import opened TxTheorems

  /** One packet before another. */
  ghost predicate Precedes(q: seq<Packet>, p: Packet, r: Packet) {
    exists m, n :: 0 <= m < n < |q| && q[m] == p && q[n] == r
  }

  /** The packets of `part` next to each other, in their order. */
  ghost predicate InARow(q: seq<Packet>, part: seq<Packet>) {
    exists before, behind :: q == before + part + behind
  }

  // ---------- order in sequences ----------

  lemma Ahead(q: seq<Packet>, p: Packet, r: Packet, m: nat, n: nat)
    requires m < n < |q| && q[m] == p && q[n] == r
    ensures Precedes(q, p, r)
  {
  }

  /** In a longer queue the order is the same. */
  lemma PrecedesMore(a: seq<Packet>, q: seq<Packet>, b: seq<Packet>, p: Packet, r: Packet)
    requires Precedes(q, p, r)
    ensures Precedes(a + q + b, p, r)
  {
    var m, n :| 0 <= m < n < |q| && q[m] == p && q[n] == r;
    Ahead(a + q + b, p, r, |a| + m, |a| + n);
  }

  lemma InARowPrecedes(q: seq<Packet>, part: seq<Packet>, i: nat, j: nat)
    requires InARow(q, part) && i < j < |part|
    ensures Precedes(q, part[i], part[j])
  {
    var before, behind :| q == before + part + behind;
    Ahead(part, part[i], part[j], i, j);
    PrecedesMore(before, part, behind, part[i], part[j]);
  }

  lemma InARowMore(q: seq<Packet>, part: seq<Packet>, more: seq<Packet>)
    requires InARow(q, part)
    ensures InARow(q + more, part)
  {
    var before, behind :| q == before + part + behind;
    assert q + more == before + part + (behind + more);
  }

  lemma InARowLast(q: seq<Packet>, part: seq<Packet>)
    ensures InARow(q + part, part)
  {
    assert q + part == q + part + [];
  }

  /** A queue before, between and after two packets. */
  lemma Parts(q: seq<Packet>, p: Packet, r: Packet) returns (a: seq<Packet>, b: seq<Packet>, c: seq<Packet>)
    requires Precedes(q, p, r)
    ensures q == (a + [p] + b) + [r] + c
  {
    var m, n :| 0 <= m < n < |q| && q[m] == p && q[n] == r;
    a, b, c := q[..m], q[m + 1..n], q[n + 1..];
  }

  lemma FromParts(a: seq<Packet>, b: seq<Packet>, c: seq<Packet>, p: Packet, r: Packet)
    ensures Precedes((a + [p] + b) + [r] + c, p, r)
  {
    Ahead((a + [p] + b) + [r] + c, p, r, |a|, |a| + 1 + |b|);
  }

  lemma {:induction false} SurvivingPrecedes(q: seq<Packet>, gone: seq<Packet>, p: Packet, r: Packet)
    requires Precedes(q, p, r) && p !in gone && r !in gone
    ensures Precedes(Surviving(q, gone), p, r)
  {
    var a, b, c := Parts(q, p, r);
    SurvivingConcat((a + [p] + b) + [r], c, gone);
    SurvivingConcat(a + [p] + b, [r], gone);
    SurvivingConcat(a + [p], b, gone);
    SurvivingConcat(a, [p], gone);
    SurvivingAll([p], gone);
    SurvivingAll([r], gone);
    FromParts(Surviving(a, gone), Surviving(b, gone), Surviving(c, gone), p, r);
  }

  lemma {:induction false} SelectPrecedes(cfg: Config, q: seq<Packet>, p: Packet, r: Packet)
    requires Precedes(q, p, r) && IsPm(cfg, p) == IsPm(cfg, r)
    ensures Precedes(Select(cfg, q, IsPm(cfg, p)), p, r)
  {
    hide IsPm;
    var pm := IsPm(cfg, p);
    var a, b, c := Parts(q, p, r);
    SelectConcat(cfg, (a + [p] + b) + [r], c, pm);
    SelectConcat(cfg, a + [p] + b, [r], pm);
    SelectConcat(cfg, a + [p], b, pm);
    SelectConcat(cfg, a, [p], pm);
    SelectOfClass(cfg, [p], pm);
    SelectOfClass(cfg, [r], pm);
    FromParts(Select(cfg, a, pm), Select(cfg, b, pm), Select(cfg, c, pm), p, r);
  }

  /** What is in order in one class was in order. */
  lemma {:induction false} SelectedPrecedes(cfg: Config, q: seq<Packet>, pm: bool, p: Packet, r: Packet)
    requires Precedes(Select(cfg, q, pm), p, r)
    ensures Precedes(q, p, r)
  {
    hide IsPm;
    var rest := q[1..];
    if IsPm(cfg, q[0]) == pm {
      var m, n :| 0 <= m < n < |Select(cfg, q, pm)| && Select(cfg, q, pm)[m] == p && Select(cfg, q, pm)[n] == r;
      if m == 0 {
        SelectMembers(cfg, rest, pm);
        assert r == Select(cfg, rest, pm)[n - 1] && r in rest;
        var k :| 0 <= k < |rest| && rest[k] == r;
        Ahead(q, p, r, 0, k + 1);
        return;
      }
      Ahead(Select(cfg, rest, pm), p, r, m - 1, n - 1);
    }
    SelectedPrecedes(cfg, rest, pm, p, r);
    PrecedesMore([q[0]], rest, [], p, r);
    assert [q[0]] + rest + [] == q;
  }

  lemma {:induction false} CountTwoPlaces(q: seq<Packet>, j: nat, k: nat)
    requires j < k < |q| && q[j] == q[k]
    ensures Count(q, q[k]) >= 2
  {
    if j > 0 {
      CountTwoPlaces(q[1..], j - 1, k - 1);
    } else {
      CountMember(q[1..], q[k]);
      assert q[1..][k - 1] == q[k];
    }
  }

  /** If the later one stands in the front part, and nowhere else, so does the earlier. */
  lemma PrecedesInFront(front: seq<Packet>, back: seq<Packet>, p: Packet, r: Packet)
    requires Precedes(front + back, p, r) && r in front && Count(front + back, r) <= 1
    ensures Precedes(front, p, r)
  {
    var q := front + back;
    var m, n :| 0 <= m < n < |q| && q[m] == p && q[n] == r;
    var x :| 0 <= x < |front| && front[x] == r;
    assert q[x] == r;
    if n < x {
      CountTwoPlaces(q, n, x);
    } else if x < n {
      CountTwoPlaces(q, x, n);
    }
    Ahead(front, p, r, m, n);
  }

  /** A call goes on to the lock of htc_try_send exactly if one of its packets finds room or
    * is spared by the callback; otherwise it is over but for its completions. */
  lemma {:induction false} SubmitGoesOn(cfg: Config, e: Engine, a: Action)
    requires cfg.Valid() && a.Submit? && Enabled(cfg, e, a)
    ensures var f := Do(cfg, e, a);
      if forall i :: 0 <= i < |a.packets| ==> StaysBehind(cfg, a.firstDepth, a.secondDepth, a.handler, a.packets, i)
      then f.threads[a.t] == Thread(Leaving, a.packets)
      else f.threads[a.t].pc.Entering? && f.threads[a.t].pc.batch != []
  {
    hide AdmitSplit, StaysBehind, FreshBatch;
    SomethingGoesOn(cfg, a.firstDepth, a.secondDepth, a.handler, a.packets);
  }

  // ---------- a batch on its way in ----------

  /** What an action adds to TxQueue's tail. */
  function Joining(e: Engine, a: Action): seq<Packet> {
    if a.Enter? && a.t < |e.threads| && e.threads[a.t].pc.Entering? then e.threads[a.t].pc.batch else []
  }

  lemma AdmittedGrows(cfg: Config, e: Engine, a: Action)
    requires cfg.Valid() && Enabled(cfg, e, a)
    ensures Do(cfg, e, a).log.admitted == e.log.admitted + Joining(e, a)
  {
    hide GetPackets, AdmitSplit, RemoveFirst, FreshBatch, WasAccepted;
    assert e.log.admitted + [] == e.log.admitted;
  }

  lemma EnteringWaits(cfg: Config, e: Engine, a: Action, t: nat)
    requires cfg.Valid() && Enabled(cfg, e, a) && t < |e.threads| && e.threads[t].pc.Entering? && !(a.Enter? && a.t == t)
    ensures t < |Do(cfg, e, a).threads| && Do(cfg, e, a).threads[t] == e.threads[t]
  {
    hide GetPackets, AdmitSplit, RemoveFirst, FreshBatch, WasAccepted;
  }

  lemma {:induction false} RowStays(cfg: Config, e: Engine, batch: seq<Packet>, run: seq<Action>)
    requires cfg.Valid() && Runs(cfg, e, run) && InARow(e.log.admitted, batch)
    ensures InARow(After(cfg, e, run).log.admitted, batch)
    decreases |run|
  {
    hide Do, Enabled, InARow;
    if run != [] {
      AdmittedGrows(cfg, e, run[0]);
      InARowMore(e.log.admitted, batch, Joining(e, run[0]));
      RowStays(cfg, Do(cfg, e, run[0]), batch, run[1..]);
    }
  }

  /** A batch waits, or has gone in in a row. */
  lemma {:induction false} BatchGoesInTogether(cfg: Config, e: Engine, t: nat, batch: seq<Packet>, run: seq<Action>)
    requires cfg.Valid() && Runs(cfg, e, run) && t < |e.threads| && e.threads[t].pc == Entering(batch)
    ensures var f := After(cfg, e, run);
      (t < |f.threads| && f.threads[t] == e.threads[t]) || InARow(f.log.admitted, batch)
    decreases |run|
  {
    hide Do, Enabled, InARow;
    if run != [] {
      var f := Do(cfg, e, run[0]);
      AdmittedGrows(cfg, e, run[0]);
      if run[0].Enter? && run[0].t == t {
        InARowLast(e.log.admitted, batch);
        RowStays(cfg, f, batch, run[1..]);
      } else {
        EnteringWaits(cfg, e, run[0], t);
        BatchGoesInTogether(cfg, f, t, batch, run[1..]);
      }
    }
  }

  lemma {:induction false} ReachableRun(cfg: Config, e: Engine, run: seq<Action>)
    requires cfg.Valid() && Reachable(cfg, e) && Runs(cfg, e, run)
    ensures Reachable(cfg, After(cfg, e, run))
    decreases |run|
  {
    hide Reachable, Do, Enabled;
    if run != [] {
      ReachableStep(cfg, e, run[0]);
      ReachableRun(cfg, Do(cfg, e, run[0]), run[1..]);
    }
  }

  // ---------- the order HIF sees ----------

  /** Of two admitted packets of one class, HIF gets the one admitted first before the
    * other, unless a flush took it. */
  lemma {:induction false} AdmittedFirstIsSentFirst(cfg: Config, e: Engine, p: Packet, r: Packet)
    requires cfg.Valid() && Sound(cfg, e) && Precedes(e.log.admitted, p, r) && IsPm(cfg, p) == IsPm(cfg, r)
    requires r in Packets(e.log.accepted) && p !in e.log.flushed
    ensures Precedes(Packets(e.log.accepted), p, r)
  {
    hide IsPm, Held, Conserved, OneDrainer, NoLostWakeup, Precedes;
    SentOnce(e, r);
    SurvivingPrecedes(e.log.admitted, e.log.flushed, p, r);
    SelectPrecedes(cfg, Surviving(e.log.admitted, e.log.flushed), p, r);
    SelectedPrecedes(cfg, Line(e), IsPm(cfg, p), p, r);
    var front, back := Packets(e.log.accepted), Packets(Hand(e)) + e.txQueue;
    assert Line(e) == front + back;
    PrecedesInFront(front, back, p, r);
  }

  lemma SentOnce(e: Engine, r: Packet)
    requires Conserved(e) && r in Packets(e.log.accepted)
    ensures r !in e.log.flushed && Count(Packets(e.log.accepted) + (Packets(Hand(e)) + e.txQueue), r) <= 1
    ensures Held(e.threads, r) == 0
  {
    hide Held, Conserved;
    AdmittedOnce(e, r);
    CountMember(Packets(e.log.accepted), r);
    CountMember(e.log.flushed, r);
    CountPackets(e.log.accepted, r);
    CountPackets(Hand(e), r);
    CountConcat(Packets(Hand(e)), e.txQueue, r);
    CountConcat(Packets(e.log.accepted), Packets(Hand(e)) + e.txQueue, r);
  }

  lemma NotWaiting(e: Engine, t: nat, r: Packet)
    requires t < |e.threads| && e.threads[t].pc.Entering? && r in e.threads[t].pc.batch
    ensures Held(e.threads, r) > 0
  {
    hide Held;
    HeldIncludes(e.threads, t, r);
    CountMember(e.threads[t].pc.batch, r);
  }

  /** The packets of one submission that get in, in TxQueue and to HIF. */
  lemma {:induction false} BatchIsSentInOrder(cfg: Config, e: Engine, t: nat, batch: seq<Packet>, run: seq<Action>, i: nat, j: nat)
    requires cfg.Valid() && Reachable(cfg, e) && Runs(cfg, e, run) && t < |e.threads| && e.threads[t].pc == Entering(batch)
    requires i < j < |batch| && IsPm(cfg, batch[i]) == IsPm(cfg, batch[j])
    ensures var f := After(cfg, e, run);
      batch[j] in Packets(f.log.accepted) && batch[i] !in f.log.flushed ==>
        Precedes(Packets(f.log.accepted), batch[i], batch[j])
  {
    hide Reachable, Sound, Runs, After, IsPm, Held, InARow, Precedes;
    var f := After(cfg, e, run);
    BatchGoesInTogether(cfg, e, t, batch, run);
    ReachableRun(cfg, e, run);
    ReachableIsSound(cfg, f);
    if batch[j] in Packets(f.log.accepted) && batch[i] !in f.log.flushed {
      SoundIsConserved(cfg, f);
      SentOnce(f, batch[j]);
      if t < |f.threads| && f.threads[t].pc == Entering(batch) {
        NotWaiting(f, t, batch[j]);
      }
      InARowPrecedes(f.log.admitted, batch, i, j);
      AdmittedFirstIsSentFirst(cfg, f, batch[i], batch[j]);
    }
  }

  lemma SoundIsConserved(cfg: Config, e: Engine)
    requires cfg.Valid() && Sound(cfg, e)
    ensures Conserved(e)
  {
  }

  /** First in, first out, from the caller's queue: of two packets of one class that a
    * caller hands over together, and that both find room or are spared by the callback,
    * HIF gets the first before the second, unless a flush takes the first. */
  lemma {:induction false} SubmittedFirstIsSentFirst(cfg: Config, e: Engine, a: Action, run: seq<Action>, i: nat, j: nat)
    requires cfg.Valid() && Reachable(cfg, e) && a.Submit? && Enabled(cfg, e, a) && Runs(cfg, Do(cfg, e, a), run)
    requires i < j < |a.packets| && IsPm(cfg, a.packets[i]) == IsPm(cfg, a.packets[j])
    requires !StaysBehind(cfg, a.firstDepth, a.secondDepth, a.handler, a.packets, i)
    requires !StaysBehind(cfg, a.firstDepth, a.secondDepth, a.handler, a.packets, j)
    ensures var f := After(cfg, Do(cfg, e, a), run);
      a.packets[j] in Packets(f.log.accepted) && a.packets[i] !in f.log.flushed ==>
        Precedes(Packets(f.log.accepted), a.packets[i], a.packets[j])
  {
    hide Reachable, Runs, After, IsPm, AdmitSplit, Room, Precedes, FreshBatch;
    var r := AdmitSplit(cfg, a.firstDepth, a.secondDepth, a.handler, a.packets);
    var send, left := AdmitSplitInOrder(cfg, a.firstDepth, a.secondDepth, a.handler, a.packets);
    assert i in send && j in send;
    var m :| 0 <= m < |send| && send[m] == i;
    var n :| 0 <= n < |send| && send[n] == j;
    assert m < n;
    ReachableStep(cfg, e, a);
    BatchIsSentInOrder(cfg, Do(cfg, e, a), a.t, r.send, run, m, n);
  }
}
