/** The credit reports of the target, from the bytes of its trailers to the credits of
  * an endpoint: what the bytes grant is what a run of the engine adds, whatever sends
  * the reports set off on the way. */
module TxReports {
  import opened Bytes
  import Trailer
  import opened TxModel
  import opened TxEngine
  import opened TxSafety
  import opened TxCredits
  import opened TxTheorems

  /** The credit counts of the reports an engine receives in a run. */
  function Received(run: seq<Action>): seq<nat> {
    if run == [] then []
    else (if run[0].Report? then [run[0].credits] else []) + Received(run[1..])
  }

  /** The credit counts of the entries for one endpoint. */
  function EntriesFor(reports: seq<Trailer.Report>, endpoint: nat): seq<nat> {
    if reports == [] then []
    else (if reports[0].endpoint == endpoint then [reports[0].credits] else []) + EntriesFor(reports[1..], endpoint)
  }

  function Sum(s: seq<nat>): nat {
    if s == [] then 0 else s[0] + Sum(s[1..])
  }

  lemma SumCons(x: nat, s: seq<nat>)
    ensures Sum([x] + s) == x + Sum(s) && [] + s == s
  {
    assert ([x] + s)[1..] == s;
  }

  lemma {:induction false} GrantedIsSum(reports: seq<Trailer.Report>, endpoint: nat)
    ensures Sum(EntriesFor(reports, endpoint)) == Trailer.Granted(reports, endpoint)
  {
    if reports != [] {
      GrantedIsSum(reports[1..], endpoint);
      SumCons(reports[0].credits, EntriesFor(reports[1..], endpoint));
    }
  }

  lemma {:induction false} ReportedIsReceived(cfg: Config, e: Engine, run: seq<Action>)
    requires cfg.Valid() && Runs(cfg, e, run)
    ensures After(cfg, e, run).log.reported == e.log.reported + Sum(Received(run))
    decreases |run|
  {
    hide Do, Enabled;
    if run != [] {
      ReportedByStep(cfg, e, run[0]);
      ReportedIsReceived(cfg, Do(cfg, e, run[0]), run[1..]);
      SumCons(if run[0].Report? then run[0].credits else 0, Received(run[1..]));
    }
  }

  lemma ReportedByStep(cfg: Config, e: Engine, a: Action)
    requires cfg.Valid() && Enabled(cfg, e, a)
    ensures Do(cfg, e, a).log.reported == e.log.reported + (if a.Report? then a.credits else 0)
  {
    hide GetPackets, AdmitSplit, RemoveFirst, FreshBatch, WasAccepted;
  }

  /** When the reports an endpoint receives in a run are, in order, the entries for it in
    * the trailers of the target, its credits are accounted for by what those bytes grant;
    * the naive law fails exactly as CreditConservation says. */
  lemma {:induction false} BytesAccountForCredits(cfg: Config, threads: nat, run: seq<Action>, trailers: seq<seq<byte>>)
    requires cfg.Valid() && Runs(cfg, Init(cfg, threads), run)
    requires Received(run) == EntriesFor(AllReports(trailers), cfg.id)
    ensures var e := After(cfg, Init(cfg, threads), run);
      && e.credits + InHand(e) + SumCredits(e.log.accepted) + e.log.leaked == cfg.initialCredits + GrantedBy(trailers, cfg.id)
      && (e.log.leaked == 0 <==> cfg.id == ENDPOINT_0 || e.log.midBatchFailures == 0)
  {
    hide Reachable, Runs, After;
    var e := After(cfg, Init(cfg, threads), run);
    assert Reachable(cfg, e) by {
      ReachableByRun(cfg, threads, run);
    }
    CreditConservation(cfg, e);
    ReportedIsReceived(cfg, Init(cfg, threads), run);
    GrantedIsSum(AllReports(trailers), cfg.id);
    GrantedInAll(trailers, cfg.id);
  }

  lemma ReachableByRun(cfg: Config, threads: nat, run: seq<Action>)
    requires cfg.Valid() && Runs(cfg, Init(cfg, threads), run)
    ensures Reachable(cfg, After(cfg, Init(cfg, threads), run))
  {
  }

  /** The reports in a number of trailers, in order. */
  function AllReports(trailers: seq<seq<byte>>): seq<Trailer.Report> {
    if trailers == [] then []
    else Trailer.ReportsIn(Trailer.Parse(trailers[0]).records) + AllReports(trailers[1..])
  }

  /** What Target.ProcessTrailer adds for an endpoint, over a number of trailers. */
  function GrantedBy(trailers: seq<seq<byte>>, endpoint: nat): nat {
    if trailers == [] then 0
    else Trailer.Granted(Trailer.ReportsIn(Trailer.Parse(trailers[0]).records), endpoint) + GrantedBy(trailers[1..], endpoint)
  }

  lemma {:induction false} GrantedInAll(trailers: seq<seq<byte>>, endpoint: nat)
    ensures Trailer.Granted(AllReports(trailers), endpoint) == GrantedBy(trailers, endpoint)
  {
    hide Trailer.Parse, Trailer.ReportsIn;
    if trailers != [] {
      GrantedInAll(trailers[1..], endpoint);
      Trailer.GrantedConcat(Trailer.ReportsIn(Trailer.Parse(trailers[0]).records), AllReports(trailers[1..]), endpoint);
    }
  }

  /** What a packet is charged for is the frame that is sent for it. */
  lemma {:induction false} CreditsCoverTheFrame(cfg: Config, e: Engine, i: nat, endpoint: byte, flags: byte, spare: (byte, byte, byte), data: seq<byte>)
    requires cfg.Valid() && Reachable(cfg, e) && i < |e.log.accepted| && cfg.id != ENDPOINT_0
    requires |data| == e.log.accepted[i].packet.length < 65536
    ensures var frame := Trailer.EncodeFrame(endpoint, flags, spare, data, []); var credits := e.log.accepted[i].credits;
      (credits - 1) * cfg.creditSize < |frame| <= credits * cfg.creditSize
  {
    hide Reachable;
    AcceptedArePaidFor(cfg, e, i);
  }
}
