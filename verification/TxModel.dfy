/** The sequential core of the HTC transmit path, on values: what one pass over
  * an endpoint's TX queue takes, what it charges, and in which order
  * (core/htc/htc_send.c and the endpoint setup of core/htc/htc_services.c). */
module TxModel {

  const HTC_HDR_LENGTH: nat := 8
  const ENDPOINT_0: nat := 0
  const TAG_AUTO_PM: nat := 12

  /** What stays fixed about a submitted packet.  `netbuf` stands for the network
    * buffer handle, taken to differ between any two submissions. */
  datatype Packet = Packet(netbuf: nat, length: nat, tag: nat)

  /** A packet with the two fields HTC writes when it charges credits for it:
    * CreditsUsed and the NEED_CREDIT_UPDATE bit of SendFlags. */
  datatype Charged = Charged(packet: Packet, credits: int, needUpdate: bool)

  /** The fields of an endpoint that traffic does not change.  `pmFirst` holds on
    * the WMI control endpoint of a build with runtime power management. */
  datatype Config = Config(id: nat, creditSize: nat, initialCredits: nat, maxMsgLength: nat,
                           creditsPerMaxMsg: nat, maxTxQueueDepth: int, pmFirst: bool)
  {
    ghost predicate Valid() {
      creditSize > 0
    }
  }

  /** hif_pm_runtime_get as an oracle: either it always grants, or it refuses
    * after some number of grants because the bus is suspended. */
  datatype Bus = Awake | SuspendsAfter(grants: nat)
  {
    function Next(): Bus {
      if this == Awake || grants == 0 then this else SuspendsAfter(grants - 1)
    }
  }

  datatype Stop = Drained | OutOfCredits | Suspended

  datatype Pass = Pass(taken: seq<Charged>, rest: seq<Packet>, credits: int, stop: Stop)

  // ---------- credits ----------

  /** How many credits of `creditSize` bytes a transfer needs: the ceiling. */
  function CreditsFor(transferLength: nat, creditSize: nat): (r: nat)
    requires creditSize > 0
    ensures transferLength > 0 ==> r >= 1 && (r - 1) * creditSize < transferLength <= r * creditSize
  {
    if transferLength <= creditSize then
      1
    else
      var whole := transferLength / creditSize;
      assert whole * creditSize + transferLength % creditSize == transferLength;
      if transferLength % creditSize != 0 then whole + 1 else whole
  }

  /** Endpoint 0 is never charged. */
  function Required(cfg: Config, p: Packet): (r: nat)
    requires cfg.Valid()
    ensures cfg.id != ENDPOINT_0 ==> r >= 1
  {
    if cfg.id == ENDPOINT_0 then 0 else CreditsFor(p.length + HTC_HDR_LENGTH, cfg.creditSize)
  }

  /** What that means: the least number of credits whose bytes cover the packet with its
    * HTC header. */
  lemma RequiredCovers(cfg: Config, p: Packet)
    requires cfg.Valid()
    ensures cfg.id == ENDPOINT_0 ==> Required(cfg, p) == 0
    ensures cfg.id != ENDPOINT_0 ==>
      (Required(cfg, p) - 1) * cfg.creditSize < p.length + HTC_HDR_LENGTH <= Required(cfg, p) * cfg.creditSize
  {
  }

  /** There is only one such number. */
  lemma {:induction false} LeastCover(r: nat, s: nat, size: nat, bytes: nat)
    requires size > 0 && (r - 1) * size < bytes <= r * size && (s - 1) * size < bytes <= s * size
    ensures r == s
  {
    CancelFactor(r - 1, s, size);
    CancelFactor(s - 1, r, size);
  }

  /** The endpoint fields htc_connect_service fills in.  The precalculated credit
    * count of a longest message is the same ceiling as a sender computes. */
  method ConnectEndpoint(id: nat, targetCreditSize: nat, txAlloc: nat, maxMsgSize: nat,
                         maxSendQueueDepth: int, pmFirst: bool)
    returns (cfg: Config)
    requires targetCreditSize > 0
    ensures cfg.Valid() && cfg.initialCredits == txAlloc
    ensures cfg.id == id && cfg.pmFirst == pmFirst && cfg.maxTxQueueDepth == maxSendQueueDepth
    ensures cfg.maxMsgLength == maxMsgSize && cfg.creditSize == targetCreditSize
    ensures CoversMaxMessage(cfg)
    ensures cfg.creditsPerMaxMsg == if maxMsgSize > 0 then CreditsFor(maxMsgSize, targetCreditSize) else 0
  {
    var creditsPerMaxMsg := maxMsgSize / targetCreditSize;
    assert creditsPerMaxMsg * targetCreditSize + maxMsgSize % targetCreditSize == maxMsgSize;
    if maxMsgSize % targetCreditSize != 0 {
      creditsPerMaxMsg := creditsPerMaxMsg + 1;
    }
    cfg := Config(id, targetCreditSize, txAlloc, maxMsgSize, creditsPerMaxMsg, maxSendQueueDepth, pmFirst);
  }

  ghost predicate CoversMaxMessage(cfg: Config) {
    cfg.maxMsgLength <= cfg.creditsPerMaxMsg * cfg.creditSize
  }

  ghost predicate FitsMaxMessage(cfg: Config, p: Packet) {
    p.length + HTC_HDR_LENGTH <= cfg.maxMsgLength
  }

  /** The two ceilings agree: no admissible message needs more credits than the
    * threshold below which the host asks for credits back. */
  lemma {:induction false} MaxMessageBoundsRequired(cfg: Config, p: Packet)
    requires cfg.Valid() && CoversMaxMessage(cfg) && FitsMaxMessage(cfg, p)
    ensures Required(cfg, p) <= cfg.creditsPerMaxMsg
  {
    var r, m, size := CreditsFor(p.length + HTC_HDR_LENGTH, cfg.creditSize), cfg.creditsPerMaxMsg, cfg.creditSize;
    if r > m {
      assert (r - 1) * size < m * size;
      CancelFactor(r - 1, m, size);
      assert false;
    }
  }

  lemma MulMonotone(a: int, b: int, size: nat)
    requires a <= b
    ensures a * size <= b * size
  {
    assert (b - a) * size >= 0;
  }

  lemma {:induction false} CancelFactor(a: int, b: int, size: nat)
    requires size > 0 && a * size < b * size
    ensures a < b
  {
    if a >= b {
      MulMonotone(b, a, size);
      assert false;
    }
  }

  // ---------- order ----------

  predicate IsPm(cfg: Config, p: Packet) {
    cfg.pmFirst && p.tag == TAG_AUTO_PM
  }

  /** The packets of one class, power management or not, in queue order. */
  function Select(cfg: Config, q: seq<Packet>, pm: bool): (r: seq<Packet>)
    ensures |r| <= |q|
  {
    if q == [] then []
    else if IsPm(cfg, q[0]) == pm then [q[0]] + Select(cfg, q[1..], pm)
    else Select(cfg, q[1..], pm)
  }

  function Packets(s: seq<Charged>): (r: seq<Packet>)
    ensures |r| == |s|
    ensures forall i :: 0 <= i < |s| ==> r[i] == s[i].packet
  {
    seq(|s|, i requires 0 <= i < |s| => s[i].packet)
  }

  lemma {:induction false} SelectConcat(cfg: Config, a: seq<Packet>, b: seq<Packet>, pm: bool)
    ensures Select(cfg, a + b, pm) == Select(cfg, a, pm) + Select(cfg, b, pm)
  {
    if a == [] {
      assert a + b == b;
    } else {
      assert (a + b)[1..] == a[1..] + b;
      SelectConcat(cfg, a[1..], b, pm);
    }
  }

  lemma {:induction false} SelectOfClass(cfg: Config, q: seq<Packet>, pm: bool)
    requires forall p :: p in q ==> IsPm(cfg, p) == pm
    ensures Select(cfg, q, pm) == q && Select(cfg, q, !pm) == []
  {
    if q != [] {
      assert q[0] in q;
      SelectOfClass(cfg, q[1..], pm);
    }
  }

  lemma {:induction false} SelectMembers(cfg: Config, q: seq<Packet>, pm: bool)
    ensures forall p :: p in Select(cfg, q, pm) <==> p in q && IsPm(cfg, p) == pm
  {
    if q != [] {
      SelectMembers(cfg, q[1..], pm);
      assert q == [q[0]] + q[1..];
    }
  }

  lemma OneOfEither(q: seq<Packet>, a: seq<Packet>, b: seq<Packet>)
    requires q != [] && multiset(a + b) == multiset(q[1..])
    ensures multiset(([q[0]] + a) + b) == multiset(q) && multiset(a + ([q[0]] + b)) == multiset(q)
  {
    assert q == [q[0]] + q[1..];
    assert ([q[0]] + a) + b == [q[0]] + (a + b);
    assert multiset(a + ([q[0]] + b)) == multiset(a) + multiset([q[0]]) + multiset(b);
  }

  lemma {:induction false} SelectPartition(cfg: Config, q: seq<Packet>)
    ensures multiset(Select(cfg, q, true) + Select(cfg, q, false)) == multiset(q)
  {
    if q != [] {
      SelectPartition(cfg, q[1..]);
      var a, b := Select(cfg, q[1..], true), Select(cfg, q[1..], false);
      OneOfEither(q, a, b);
    }
  }

  // ---------- one pass ----------

  /** The loop of get_htc_send_packets_credit_based over one queue: charge and
    * take heads until the queue is empty, the credits do not cover the head, or
    * the bus is suspended. */
  function TakeFrom(cfg: Config, credits: int, q: seq<Packet>, bus: Bus): (r: Pass)
    requires cfg.Valid()
    decreases |q|
  {
    if bus == SuspendsAfter(0) then Pass([], q, credits, Suspended)
    else if q == [] then Pass([], q, credits, Drained)
    else if cfg.id != ENDPOINT_0 && credits < Required(cfg, q[0]) then Pass([], q, credits, OutOfCredits)
    else
      var left := credits - Required(cfg, q[0]);
      var r := TakeFrom(cfg, left, q[1..], bus.Next());
      r.(taken := [ChargeHead(cfg, q[0], left)] + r.taken)
  }

  /** A packet as it leaves the queue, with `left` credits remaining. */
  function ChargeHead(cfg: Config, p: Packet, left: int): Charged
    requires cfg.Valid()
  {
    Charged(p, Required(cfg, p), cfg.id != ENDPOINT_0 && left <= cfg.creditsPerMaxMsg)
  }

  /** get_htc_send_packets_credit_based: packets of the power management class go
    * first, without asking the bus. */
  function GetPackets(cfg: Config, credits: int, q: seq<Packet>, bus: Bus): (r: Pass)
    requires cfg.Valid()
  {
    var pm := Select(cfg, q, true);
    if pm == [] then
      TakeFrom(cfg, credits, q, bus)
    else
      var r := TakeFrom(cfg, credits, pm, Awake);
      r.(rest := r.rest + Select(cfg, q, false))
  }

  /** The packet the next pass looks at first. */
  function EffectiveHead(cfg: Config, q: seq<Packet>): Packet
    requires q != []
  {
    var pm := Select(cfg, q, true);
    if pm == [] then q[0] else pm[0]
  }

  predicate Blocked(cfg: Config, credits: int, q: seq<Packet>)
    requires cfg.Valid()
  {
    q != [] && cfg.id != ENDPOINT_0 && credits < Required(cfg, EffectiveHead(cfg, q))
  }

  function SumCredits(s: seq<Charged>): (r: int) {
    if s == [] then 0 else s[0].credits + SumCredits(s[1..])
  }

  lemma {:induction false} SumConcat(a: seq<Charged>, b: seq<Charged>)
    ensures SumCredits(a + b) == SumCredits(a) + SumCredits(b)
  {
    if a == [] {
      assert a + b == b;
    } else {
      assert (a + b)[1..] == a[1..] + b;
      SumConcat(a[1..], b);
    }
  }

  /** What a packet carries once some pass has charged it. */
  predicate ProperlyCharged(cfg: Config, c: Charged)
    requires cfg.Valid()
  {
    c.credits == Required(cfg, c.packet) && (c.needUpdate ==> cfg.id != ENDPOINT_0)
  }

  /** True when the loop of a pass ends without taking the head. */
  predicate StopsAt(cfg: Config, credits: int, q: seq<Packet>, bus: Bus)
    requires cfg.Valid()
  {
    bus == SuspendsAfter(0) || q == [] || (cfg.id != ENDPOINT_0 && credits < Required(cfg, q[0]))
  }

  /** A pass over one queue takes a prefix of it, in order. */
  lemma {:induction false} TakeFromOrder(cfg: Config, credits: int, q: seq<Packet>, bus: Bus)
    requires cfg.Valid()
    ensures Packets(TakeFrom(cfg, credits, q, bus).taken) + TakeFrom(cfg, credits, q, bus).rest == q
    decreases |q|
  {
    hide Required, CreditsFor;
    if StopsAt(cfg, credits, q, bus) {
      assert Packets([]) + q == q;
    } else {
      var left := credits - Required(cfg, q[0]);
      TakeFromOrder(cfg, left, q[1..], bus.Next());
      var r, s := TakeFrom(cfg, credits, q, bus), TakeFrom(cfg, left, q[1..], bus.Next());
      assert Packets(r.taken) == [q[0]] + Packets(s.taken);
      assert Packets(r.taken) + r.rest == [q[0]] + (Packets(s.taken) + s.rest) == q;
    }
  }

  /** It pays the price of what it takes out of the credits, never overdrawing. */
  lemma {:induction false} TakeFromPays(cfg: Config, credits: int, q: seq<Packet>, bus: Bus)
    requires cfg.Valid()
    ensures var r := TakeFrom(cfg, credits, q, bus);
      && r.credits + SumCredits(r.taken) == credits
      && (credits >= 0 ==> r.credits >= 0)
      && (forall i :: 0 <= i < |r.taken| ==> ProperlyCharged(cfg, r.taken[i]))
    decreases |q|
  {
    if !StopsAt(cfg, credits, q, bus) {
      var left := credits - Required(cfg, q[0]);
      TakeFromPays(cfg, left, q[1..], bus.Next());
      var r, s := TakeFrom(cfg, credits, q, bus), TakeFrom(cfg, left, q[1..], bus.Next());
      assert r.taken == [ChargeHead(cfg, q[0], left)] + s.taken;
    }
  }

  /** A packet asks for credits back exactly when the credits that remain once it
    * is charged are at or below the threshold. */
  lemma {:induction false} TakeFromMarks(cfg: Config, credits: int, q: seq<Packet>, bus: Bus, i: nat)
    requires cfg.Valid() && i < |TakeFrom(cfg, credits, q, bus).taken|
    ensures var taken := TakeFrom(cfg, credits, q, bus).taken;
      taken[i].needUpdate <==>
        cfg.id != ENDPOINT_0 && credits - SumCredits(taken[..i + 1]) <= cfg.creditsPerMaxMsg
    decreases |q|
  {
    hide Required, CreditsFor;
    var left := credits - Required(cfg, q[0]);
    var r, s := TakeFrom(cfg, credits, q, bus), TakeFrom(cfg, left, q[1..], bus.Next());
    var head := ChargeHead(cfg, q[0], left);
    assert r.taken == [head] + s.taken;
    assert r.taken[..i + 1] == [head] + s.taken[..i];
    if i > 0 {
      TakeFromMarks(cfg, left, q[1..], bus.Next(), i - 1);
    }
  }

  /** It goes on as long as it can: why it stopped says what holds of the rest. */
  lemma {:induction false} TakeFromStops(cfg: Config, credits: int, q: seq<Packet>, bus: Bus)
    requires cfg.Valid()
    ensures var r := TakeFrom(cfg, credits, q, bus);
      && (r.stop.Drained? ==> r.rest == [])
      && (r.stop.OutOfCredits? ==> r.rest != [] && cfg.id != ENDPOINT_0 && r.credits < Required(cfg, r.rest[0]))
      && (r.stop.Suspended? ==> bus.SuspendsAfter? && |r.taken| == bus.grants)
    decreases |q|
  {
    if !StopsAt(cfg, credits, q, bus) {
      var left := credits - Required(cfg, q[0]);
      TakeFromStops(cfg, left, q[1..], bus.Next());
    }
  }

  // ---------- admission ----------

  /** The EpSendFull callback as an oracle: absent, or asking for the packets with
    * these netbufs to be dropped. */
  datatype FullHandler = NoHandler | Drops(netbufs: set<nat>)
  {
    predicate Rejects(p: Packet) {
      Drops? && p.netbuf in netbufs
    }
  }

  datatype Split = Split(send: seq<Packet>, left: seq<Packet>)

  /** What the safe iteration over the overflowing packets keeps in the caller's
    * queue (`rejected`) or moves on: each packet is put to the callback once. */
  function Sift(handler: FullHandler, q: seq<Packet>, rejected: bool): (r: seq<Packet>)
    ensures |r| <= |q|
    ensures forall p :: p in r ==> handler.Rejects(p) == rejected
  {
    if q == [] then []
    else if handler.Rejects(q[0]) == rejected then [q[0]] + Sift(handler, q[1..], rejected)
    else Sift(handler, q[1..], rejected)
  }

  lemma {:induction false} SiftPartition(handler: FullHandler, q: seq<Packet>)
    ensures multiset(Sift(handler, q, false) + Sift(handler, q, true)) == multiset(q)
  {
    if q != [] {
      SiftPartition(handler, q[1..]);
      OneOfEither(q, Sift(handler, q[1..], false), Sift(handler, q[1..], true));
    }
  }

  lemma {:induction false} SiftAllRejected(handler: FullHandler, q: seq<Packet>)
    requires forall p :: p in q ==> handler.Rejects(p)
    ensures Sift(handler, q, false) == []
  {
    if q != [] {
      assert q[0] in q;
      SiftAllRejected(handler, q[1..]);
    }
  }

  /** How many of `n` packets overflow.  htc_try_send reads the queue depth
    * without the lock, once for the test and once for the subtraction. */
  function Overflow(cfg: Config, firstDepth: nat, secondDepth: nat, n: nat): int {
    if firstDepth >= cfg.maxTxQueueDepth then n else secondDepth + n - cfg.maxTxQueueDepth
  }

  /** The head of htc_try_send: which of the caller's packets go on and which stay. */
  function AdmitSplit(cfg: Config, firstDepth: nat, secondDepth: nat, handler: FullHandler, q: seq<Packet>): (r: Split)
  {
    var overflow := Overflow(cfg, firstDepth, secondDepth, |q|);
    if overflow <= 0 || handler.NoHandler? then
      Split(q, [])
    else
      var good := if overflow > |q| then 0 else |q| - overflow;
      Split(q[..good] + Sift(handler, q[good..], false), Sift(handler, q[good..], true))
  }

  /** Admission loses and duplicates nothing, whatever the two depth reads saw, and
    * only packets the callback rejects stay behind. */
  lemma {:induction false} AdmitSplitConserves(cfg: Config, d1: nat, d2: nat, handler: FullHandler, q: seq<Packet>)
    ensures var r := AdmitSplit(cfg, d1, d2, handler, q);
      && multiset(r.send + r.left) == multiset(q)
      && (forall p :: p in r.left ==> handler.Rejects(p))
  {
    hide Sift;
    var overflow := Overflow(cfg, d1, d2, |q|);
    if overflow <= 0 || handler.NoHandler? {
      assert q + [] == q;
    } else {
      var good := if overflow > |q| then 0 else |q| - overflow;
      SiftPartition(handler, q[good..]);
      FrontKept(q, good, Sift(handler, q[good..], false), Sift(handler, q[good..], true));
    }
  }

  lemma FrontKept(q: seq<Packet>, good: nat, kept: seq<Packet>, left: seq<Packet>)
    requires good <= |q| && multiset(kept + left) == multiset(q[good..])
    ensures multiset((q[..good] + kept) + left) == multiset(q)
  {
    assert q == q[..good] + q[good..];
    assert (q[..good] + kept) + left == q[..good] + (kept + left);
  }

  /** With a depth that does not change between the reads and a callback that
    * rejects whatever overflows, the queue is filled exactly up to its limit. */
  lemma {:induction false} AdmitSplitFills(cfg: Config, depth: nat, handler: FullHandler, q: seq<Packet>)
    requires 0 <= cfg.maxTxQueueDepth && forall p :: p in q ==> handler.Rejects(p)
    ensures depth + |AdmitSplit(cfg, depth, depth, handler, q).send| ==
              if depth >= cfg.maxTxQueueDepth then depth
              else if depth + |q| <= cfg.maxTxQueueDepth then depth + |q| else cfg.maxTxQueueDepth
  {
    var overflow := Overflow(cfg, depth, depth, |q|);
    if overflow > 0 && q != [] {
      assert handler.Rejects(q[0]);
      var good := if overflow > |q| then 0 else |q| - overflow;
      SiftAllRejected(handler, q[good..]);
    }
  }

  /** How many of the caller's packets find room: none if the first look at the depth
    * finds the queue full, and otherwise what the second one leaves of the limit. */
  function Room(cfg: Config, firstDepth: nat, secondDepth: nat): nat {
    if firstDepth >= cfg.maxTxQueueDepth || secondDepth >= cfg.maxTxQueueDepth then 0
    else cfg.maxTxQueueDepth - secondDepth
  }

  /** These positions of `q`, in increasing order, hold `part`. */
  ghost predicate InOwnOrder(part: seq<Packet>, q: seq<Packet>, at: seq<nat>) {
    && |at| == |part|
    && (forall k :: 0 <= k < |at| ==> at[k] < |q| && part[k] == q[at[k]])
    && (forall j, k :: 0 <= j < k < |at| ==> at[j] < at[k])
  }

  /** Both parts of the caller's queue keep its order, and a packet stays behind exactly
    * if it finds no room and the callback rejects it. */
  lemma {:induction false} AdmitSplitInOrder(cfg: Config, d1: nat, d2: nat, handler: FullHandler, q: seq<Packet>)
    returns (send: seq<nat>, left: seq<nat>)
    ensures InOwnOrder(AdmitSplit(cfg, d1, d2, handler, q).send, q, send)
    ensures InOwnOrder(AdmitSplit(cfg, d1, d2, handler, q).left, q, left)
    ensures forall i: nat :: i in left <==> i < |q| && i >= Room(cfg, d1, d2) && handler.Rejects(q[i])
    ensures forall i: nat :: i in send <==> i < |q| && !(i >= Room(cfg, d1, d2) && handler.Rejects(q[i]))
  {
    hide Sift, InOwnOrder;
    var overflow := Overflow(cfg, d1, d2, |q|);
    if overflow <= 0 || handler.NoHandler? {
      assert q[..|q|] == q;
      FrontInOrder(q, |q|);
      NoneInOrder(q);
      send, left := Upto(|q|), [];
    } else {
      var good := if overflow > |q| then 0 else |q| - overflow;
      var behind := SiftInOrder(handler, q, good, false);
      left := SiftInOrder(handler, q, good, true);
      FrontInOrder(q, good);
      JoinedInOrder(q[..good], Sift(handler, q[good..], false), q, Upto(good), behind, good);
      send := Upto(good) + behind;
    }
  }

  lemma NoneInOrder(q: seq<Packet>)
    ensures InOwnOrder([], q, [])
  {
  }

  lemma FrontInOrder(q: seq<Packet>, n: nat)
    requires n <= |q|
    ensures InOwnOrder(q[..n], q, Upto(n))
  {
  }

  lemma JoinedInOrder(part: seq<Packet>, more: seq<Packet>, q: seq<Packet>, at: seq<nat>, behind: seq<nat>, n: nat)
    requires InOwnOrder(part, q, at) && InOwnOrder(more, q, behind)
    requires (forall i: nat :: i in at ==> i < n) && (forall i: nat :: i in behind ==> n <= i)
    ensures InOwnOrder(part + more, q, at + behind)
  {
    var all := at + behind;
    forall j, k | 0 <= j < k < |all| ensures all[j] < all[k] {
      if j < |at| <= k {
        assert all[j] in at && all[k] in behind;
      }
    }
  }

  function Upto(n: nat): (s: seq<nat>)
    ensures |s| == n && forall k :: 0 <= k < n ==> s[k] == k
    ensures forall i: nat :: i in s <==> i < n
  {
    if n == 0 then [] else Upto(n - 1) + [n - 1]
  }

  lemma InFront(part: seq<Packet>, q: seq<Packet>, at: seq<nat>, first: nat)
    requires InOwnOrder(part, q, at) && first < |q| && forall k :: 0 <= k < |at| ==> first < at[k]
    ensures InOwnOrder([q[first]] + part, q, [first] + at)
  {
    var more := [first] + at;
    assert forall k :: 1 <= k < |more| ==> more[k] == at[k - 1];
  }

  lemma SiftStep(handler: FullHandler, q: seq<Packet>, from: nat, rejected: bool)
    requires from < |q|
    ensures Sift(handler, q[from..], rejected) ==
      (if handler.Rejects(q[from]) == rejected then [q[from]] else []) + Sift(handler, q[from + 1..], rejected)
  {
    assert q[from..][1..] == q[from + 1..];
  }

  lemma {:induction false} SiftInOrder(handler: FullHandler, q: seq<Packet>, from: nat, rejected: bool) returns (at: seq<nat>)
    requires from <= |q|
    ensures InOwnOrder(Sift(handler, q[from..], rejected), q, at)
    ensures forall i: nat :: i in at <==> from <= i < |q| && handler.Rejects(q[i]) == rejected
    decreases |q| - from
  {
    if from == |q| {
      at := [];
    } else {
      hide Sift, InOwnOrder;
      var rest := SiftInOrder(handler, q, from + 1, rejected);
      SiftStep(handler, q, from, rejected);
      if handler.Rejects(q[from]) == rejected {
        forall k | 0 <= k < |rest| ensures from < rest[k] {
          assert rest[k] in rest;
        }
        InFront(Sift(handler, q[from + 1..], rejected), q, rest, from);
        at := [from] + rest;
      } else {
        assert [] + Sift(handler, q[from + 1..], rejected) == Sift(handler, q[from + 1..], rejected);
        at := rest;
      }
    }
  }

  /** The packet at position `i` finds no room, and the callback rejects it. */
  predicate StaysBehind(cfg: Config, d1: nat, d2: nat, handler: FullHandler, q: seq<Packet>, i: nat)
    requires i < |q|
  {
    i >= Room(cfg, d1, d2) && handler.Rejects(q[i])
  }

  /** Something goes on exactly if some packet finds room or is spared; if nothing does, all
    * stay, in order. */
  lemma {:induction false} SomethingGoesOn(cfg: Config, d1: nat, d2: nat, handler: FullHandler, q: seq<Packet>)
    ensures var r := AdmitSplit(cfg, d1, d2, handler, q);
      && (r.send == [] <==> forall i :: 0 <= i < |q| ==> StaysBehind(cfg, d1, d2, handler, q, i))
      && (r.send == [] ==> r.left == q)
  {
    hide Room, InOwnOrder, AdmitSplit;
    var r := AdmitSplit(cfg, d1, d2, handler, q);
    var send, left := AdmitSplitInOrder(cfg, d1, d2, handler, q);
    SameLength(r.send, q, send);
    if r.send == [] {
      NothingSent(cfg, d1, d2, handler, q);
      forall i | 0 <= i < |q| ensures StaysBehind(cfg, d1, d2, handler, q, i) {
        assert i !in send;
      }
    } else {
      assert send[0] in send && !StaysBehind(cfg, d1, d2, handler, q, send[0]);
    }
  }

  lemma SameLength(part: seq<Packet>, q: seq<Packet>, at: seq<nat>)
    requires InOwnOrder(part, q, at)
    ensures |part| == |at|
  {
  }

  lemma {:induction false} NothingSent(cfg: Config, d1: nat, d2: nat, handler: FullHandler, q: seq<Packet>)
    requires AdmitSplit(cfg, d1, d2, handler, q).send == []
    ensures AdmitSplit(cfg, d1, d2, handler, q).left == q
  {
    hide Sift;
    var overflow := Overflow(cfg, d1, d2, |q|);
    if overflow > 0 && !handler.NoHandler? {
      var good := if overflow > |q| then 0 else |q| - overflow;
      assert q[..good] == [] && q[good..] == q;
      AllRejected(handler, q);
    }
  }

  lemma {:induction false} AllRejected(handler: FullHandler, q: seq<Packet>)
    requires Sift(handler, q, false) == []
    ensures Sift(handler, q, true) == q
  {
    if q != [] {
      AllRejected(handler, q[1..]);
    }
  }

  // ---------- completion lookup ----------

  datatype Found = Missing | Hit(charged: Charged)

  datatype Lookup = Lookup(found: Found, rest: seq<Charged>)

  /** The position of the first packet with this netbuf; |q| if there is none. */
  function FirstMatch(q: seq<Charged>, netbuf: nat): (k: nat)
    ensures k <= |q|
    ensures forall i :: 0 <= i < k ==> q[i].packet.netbuf != netbuf
    ensures k < |q| ==> q[k].packet.netbuf == netbuf
  {
    if q == [] || q[0].packet.netbuf == netbuf then 0 else 1 + FirstMatch(q[1..], netbuf)
  }

  /** The queue without its first match, all others in order; without a match the
    * queue itself. */
  function RemoveFirst(q: seq<Charged>, netbuf: nat): (r: Lookup)
    ensures r.found.Missing? <==> forall i :: 0 <= i < |q| ==> q[i].packet.netbuf != netbuf
    ensures r.found.Missing? ==> r.rest == q
    ensures r.found.Hit? ==> r.found.charged.packet.netbuf == netbuf
  {
    var k := FirstMatch(q, netbuf);
    if k < |q| then Lookup(Hit(q[k]), q[..k] + q[k + 1..]) else Lookup(Missing, q)
  }

  /** Searching a detached front part and putting it back before what was appended
    * meanwhile is the same as searching the whole queue at once, whenever the
    * part holds a match. */
  lemma {:induction false} RemoveFirstIgnoresAppended(q: seq<Charged>, more: seq<Charged>, netbuf: nat)
    requires RemoveFirst(q, netbuf).found.Hit?
    ensures RemoveFirst(q + more, netbuf) == Lookup(RemoveFirst(q, netbuf).found, RemoveFirst(q, netbuf).rest + more)
  {
    var k, j := FirstMatch(q, netbuf), FirstMatch(q + more, netbuf);
    assert (q + more)[k] == q[k];
    assert forall i :: 0 <= i < k ==> (q + more)[i] == q[i];
    assert j == k;
    assert (q + more)[..k] + (q + more)[k + 1..] == q[..k] + q[k + 1..] + more;
  }

  /** What is found and what is left, by example: the front holds no match. */
  lemma {:induction false} RemoveFirstTakesOne(front: seq<Charged>, c: Charged, back: seq<Charged>, netbuf: nat)
    requires c.packet.netbuf == netbuf && forall i :: 0 <= i < |front| ==> front[i].packet.netbuf != netbuf
    ensures RemoveFirst(front + [c] + back, netbuf) == Lookup(Hit(c), front + back)
  {
    hide FirstMatch;
    var q, k := front + [c] + back, FirstMatch(front + [c] + back, netbuf);
    assert q[|front|] == c && forall i :: 0 <= i < |front| ==> q[i] == front[i];
    assert k == |front|;
    assert q[..k] == front && q[k + 1..] == back;
  }

  // ---------- the pass with promotion ----------

  /** Promotion is a stable partition.  With power management packets queued, a
    * pass takes a prefix of exactly those and leaves the others of that class in
    * front of everything else; and in every case each class keeps its order and
    * nothing is lost. */
  lemma {:induction false} GetPacketsStablePartition(cfg: Config, credits: int, q: seq<Packet>, bus: Bus)
    requires cfg.Valid()
    ensures var r := GetPackets(cfg, credits, q, bus);
      && (forall pm: bool :: Select(cfg, Packets(r.taken) + r.rest, pm) == Select(cfg, q, pm))
      && (Select(cfg, q, true) != [] ==>
            exists k: nat :: k <= |Select(cfg, q, true)|
              && Packets(r.taken) == Select(cfg, q, true)[..k]
              && r.rest == Select(cfg, q, true)[k..] + Select(cfg, q, false))
      && multiset(Packets(r.taken) + r.rest) == multiset(q)
  {
    hide Required, CreditsFor, TakeFrom;
    var r, pm, others := GetPackets(cfg, credits, q, bus), Select(cfg, q, true), Select(cfg, q, false);
    if pm == [] {
      TakeFromOrder(cfg, credits, q, bus);
    } else {
      var t := TakeFrom(cfg, credits, pm, Awake);
      TakeFromOrder(cfg, credits, pm, Awake);
      assert Packets(r.taken) + r.rest == pm + others;
      SelectMembers(cfg, q, true);
      SelectMembers(cfg, q, false);
      SelectOfClass(cfg, pm, true);
      SelectOfClass(cfg, others, false);
      forall b: bool ensures Select(cfg, Packets(r.taken) + r.rest, b) == Select(cfg, q, b) {
        SelectConcat(cfg, pm, others, b);
      }
      SelectPartition(cfg, q);
      var k := |r.taken|;
      assert Packets(r.taken) == pm[..k] && t.rest == pm[k..];
    }
  }

  /** The accounting of a pass with promotion. */
  lemma {:induction false} GetPacketsPays(cfg: Config, credits: int, q: seq<Packet>, bus: Bus)
    requires cfg.Valid()
    ensures var r := GetPackets(cfg, credits, q, bus);
      && r.credits + SumCredits(r.taken) == credits
      && (credits >= 0 ==> r.credits >= 0)
      && (forall i :: 0 <= i < |r.taken| ==> ProperlyCharged(cfg, r.taken[i]))
      && (r.taken != [] ==>
            (r.taken[|r.taken| - 1].needUpdate <==> cfg.id != ENDPOINT_0 && r.credits <= cfg.creditsPerMaxMsg))
  {
    hide Required, CreditsFor, TakeFrom;
    var pm := Select(cfg, q, true);
    var queue, gate := if pm == [] then q else pm, if pm == [] then bus else Awake;
    var r := TakeFrom(cfg, credits, queue, gate);
    TakeFromPays(cfg, credits, queue, gate);
    if r.taken != [] {
      TakeFromMarks(cfg, credits, queue, gate, |r.taken| - 1);
      assert r.taken[..|r.taken|] == r.taken;
    }
  }

  /** Each packet of a pass asks for credits exactly when the credits left after its
    * own charge are at or below the threshold. */
  lemma {:induction false} GetPacketsMarks(cfg: Config, credits: int, q: seq<Packet>, bus: Bus, i: nat)
    requires cfg.Valid() && i < |GetPackets(cfg, credits, q, bus).taken|
    ensures var taken := GetPackets(cfg, credits, q, bus).taken;
      taken[i].needUpdate <==>
        cfg.id != ENDPOINT_0 && credits - SumCredits(taken[..i + 1]) <= cfg.creditsPerMaxMsg
  {
    hide Required, CreditsFor, TakeFrom;
    var pm := Select(cfg, q, true);
    TakeFromMarks(cfg, credits, if pm == [] then q else pm, if pm == [] then bus else Awake, i);
  }

  /** A pass over a non-empty queue comes back empty-handed exactly when its
    * effective head is not covered by the credits, or no power management packet
    * is queued and the bus refuses at once. */
  lemma {:induction false} GetPacketsEmptyHanded(cfg: Config, credits: int, q: seq<Packet>, bus: Bus)
    requires cfg.Valid() && q != []
    ensures var r := GetPackets(cfg, credits, q, bus);
      && (r.taken == [] <==>
            Blocked(cfg, credits, q) || (Select(cfg, q, true) == [] && bus == SuspendsAfter(0)))
      && (r.taken == [] ==> r.credits == credits && (r.stop.Suspended? || Blocked(cfg, r.credits, r.rest)))
  {
    var r, pm := GetPackets(cfg, credits, q, bus), Select(cfg, q, true);
    if pm != [] && r.taken == [] {
      GetPacketsStablePartition(cfg, credits, q, bus);
      assert Packets(r.taken) + r.rest == r.rest;
    }
  }

  /** When a pass ends, on its result alone.  With a power management packet queued, it
    * has taken all of those or the credits do not cover the next of them; without one,
    * it has emptied the queue or is blocked, or the bus has granted all it would. */
  lemma {:induction false} GetPacketsEnds(cfg: Config, credits: int, q: seq<Packet>, bus: Bus)
    requires cfg.Valid()
    ensures var r := GetPackets(cfg, credits, q, bus);
      if Select(cfg, q, true) != [] then
        && !r.stop.Suspended?
        && (r.stop.Drained? ==> Select(cfg, r.rest, true) == [])
        && (r.stop.OutOfCredits? ==> r.rest != [] && Select(cfg, r.rest, true) != [] && Blocked(cfg, r.credits, r.rest))
      else
        && (r.stop.Drained? ==> r.rest == [])
        && (r.stop.OutOfCredits? ==> Blocked(cfg, r.credits, r.rest))
        && (r.stop.Suspended? <==> bus == SuspendsAfter(|r.taken|))
        && (bus.SuspendsAfter? ==> |r.taken| <= bus.grants)
  {
    hide Required, CreditsFor, TakeFrom;
    var r, pm, others := GetPackets(cfg, credits, q, bus), Select(cfg, q, true), Select(cfg, q, false);
    if pm == [] {
      TakeFromStops(cfg, credits, q, bus);
      TakeFromAsks(cfg, credits, q, bus);
      TakeFromOrder(cfg, credits, q, bus);
      SelectConcat(cfg, Packets(r.taken), r.rest, true);
    } else {
      var t := TakeFrom(cfg, credits, pm, Awake);
      TakeFromStops(cfg, credits, pm, Awake);
      TakeFromOrder(cfg, credits, pm, Awake);
      SelectMembers(cfg, q, true);
      SelectMembers(cfg, q, false);
      assert forall p :: p in t.rest ==> p in pm;
      SelectOfClass(cfg, t.rest, true);
      SelectOfClass(cfg, others, false);
      SelectConcat(cfg, t.rest, others, true);
      assert Select(cfg, r.rest, true) == t.rest;
    }
  }

  /** A pass over `q` that took `n` packets, and left these credits and these packets, could
    * not go on. */
  ghost predicate PassEnded(cfg: Config, q: seq<Packet>, bus: Bus, n: int, credits: int, rest: seq<Packet>)
    requires cfg.Valid()
  {
    if Select(cfg, q, true) != [] then Select(cfg, rest, true) == [] || Blocked(cfg, credits, rest)
    else rest == [] || Blocked(cfg, credits, rest) || (bus.SuspendsAfter? && bus.grants == n)
  }

  lemma {:induction false} GetPacketsHasEnded(cfg: Config, credits: int, q: seq<Packet>, bus: Bus)
    requires cfg.Valid()
    ensures var r := GetPackets(cfg, credits, q, bus); PassEnded(cfg, q, bus, |r.taken|, r.credits, r.rest)
  {
    hide GetPackets, Select, Blocked;
    GetPacketsEnds(cfg, credits, q, bus);
  }

  /** Each packet of one queue costs one grant, and a refusal comes before anything else. */
  lemma {:induction false} TakeFromAsks(cfg: Config, credits: int, q: seq<Packet>, bus: Bus)
    requires cfg.Valid()
    ensures var r := TakeFrom(cfg, credits, q, bus);
      && (r.stop.Suspended? <==> bus == SuspendsAfter(|r.taken|))
      && (bus.SuspendsAfter? ==> |r.taken| <= bus.grants)
    decreases |q|
  {
    hide Required, CreditsFor;
    if !StopsAt(cfg, credits, q, bus) {
      var left := credits - Required(cfg, q[0]);
      TakeFromAsks(cfg, left, q[1..], bus.Next());
    }
  }

  /** Promotion is of the tag AUTO_PM, where it is on: a pass over a queue that holds such
    * packets takes only those.  Elsewhere a pass takes the front of the queue. */
  lemma {:induction false} GetPacketsPromotes(cfg: Config, credits: int, q: seq<Packet>, bus: Bus)
    requires cfg.Valid()
    ensures var r := GetPackets(cfg, credits, q, bus);
      if cfg.pmFirst && exists p :: p in q && p.tag == TAG_AUTO_PM
      then forall c :: c in r.taken ==> c.packet.tag == TAG_AUTO_PM
      else Packets(r.taken) + r.rest == q
  {
    hide Required, CreditsFor, TakeFrom;
    var r, pm := GetPackets(cfg, credits, q, bus), Select(cfg, q, true);
    SelectMembers(cfg, q, true);
    if pm == [] {
      assert forall p :: p in q ==> !IsPm(cfg, p);
      TakeFromOrder(cfg, credits, q, bus);
    } else {
      assert pm[0] in pm;
      TakeFromOrder(cfg, credits, pm, Awake);
      forall c | c in r.taken ensures c.packet.tag == TAG_AUTO_PM {
        var i :| 0 <= i < |r.taken| && r.taken[i] == c;
        assert Packets(r.taken)[i] == pm[i] && pm[i] in pm;
      }
    }
  }
}
