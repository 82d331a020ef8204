/** The trace ring buffer of core/cdf/src/cdf_trace.c: records are written round and
  * round a fixed table, and a dump replays the newest of them. */
module TraceRing {

  /** What is recorded about an event, apart from its time and thread. */
  datatype Record = Record(mod: nat, code: nat, session: nat, data: nat)

  const INVALID_ADDR: int := 0xFFFF_FFFF

  // ---------- positions ----------

  /** The table index that the k-th record (counting from 0) is written to. */
  function Slot(k: nat, size: nat): (i: nat)
    requires size > 0
    ensures i < size
  {
    if k == 0 then 0
    else
      var i := Slot(k - 1, size);
      if i + 1 == size then 0 else i + 1
  }

  lemma {:induction false} FirstLap(k: nat, size: nat)
    requires k < size
    ensures Slot(k, size) == k
  {
    if k > 0 {
      FirstLap(k - 1, size);
    }
  }

  /** `d` records back. */
  lemma {:induction false} SlotBack(k: nat, d: nat, size: nat)
    requires d <= k && d < size
    ensures Slot(k - d, size) == if d <= Slot(k, size) then Slot(k, size) - d else size - (d - Slot(k, size))
    decreases d
  {
    if d > 0 {
      SlotBack(k, d - 1, size);
      assert Slot(k - d + 1, size) == if Slot(k - d, size) + 1 == size then 0 else Slot(k - d, size) + 1;
    }
  }

  /** A whole lap on, the same slot. */
  lemma {:induction false} SlotLap(k: nat, size: nat)
    requires size > 0 && k >= size
    ensures Slot(k - size, size) == Slot(k, size)
  {
    SlotBack(k, size - 1, size);
    assert Slot(k - size + 1, size) == if Slot(k - size, size) + 1 == size then 0 else Slot(k - size, size) + 1;
  }

  // ---------- what a dump is to show ----------

  function Min(a: nat, b: nat): nat {
    if a < b then a else b
  }

  /** The last `n` records, oldest first. */
  function Newest(log: seq<Record>, n: nat): seq<Record> {
    log[|log| - Min(n, |log|)..]
  }

  /** How many records a dump covers: all that are stored when `count` is 0. */
  function Covered(count: nat, num: nat): nat {
    if count == 0 || count > num then num else count
  }

  /** What that comes to: a count of 0 means everything, and no other is exceeded. */
  lemma CoveredIs(count: nat, num: nat)
    ensures Covered(0, num) == num && (count > 0 ==> Covered(count, num) == Min(count, num))
  {
  }

  lemma CoveredAtMost(count: nat, num: nat)
    ensures Covered(count, num) <= num && (count > 0 ==> Covered(count, num) <= count)
  {
  }

  lemma NewestAre(log: seq<Record>, n: nat)
    requires n <= |log|
    ensures |Newest(log, n)| == n && log == log[..|log| - n] + Newest(log, n)
  {
  }

  /** The records a dump shows: those with the code asked for (0 is any) of modules
    * asked for (an empty set is any) that have a callback. */
  function Shown(records: seq<Record>, code: nat, modules: set<nat>, registered: set<nat>): (r: seq<Record>)
    ensures |r| <= |records|
  {
    if records == [] then []
    else
      var p, rest := records[0], Shown(records[1..], code, modules, registered);
      if (code == 0 || code == p.code) && p.mod in registered && (modules == {} || p.mod in modules)
      then [p] + rest else rest
  }

  lemma {:induction false} ShownConcat(a: seq<Record>, b: seq<Record>, code: nat, modules: set<nat>, registered: set<nat>)
    ensures Shown(a + b, code, modules, registered) ==
      Shown(a, code, modules, registered) + Shown(b, code, modules, registered)
  {
    if a == [] {
      assert a + b == b;
    } else {
      assert (a + b)[1..] == a[1..] + b;
      ShownConcat(a[1..], b, code, modules, registered);
    }
  }

  /** Asking for everything shows everything. */
  lemma {:induction false} ShownAll(records: seq<Record>, registered: set<nat>)
    requires forall p :: p in records ==> p.mod in registered
    ensures Shown(records, 0, {}, registered) == records
  {
    if records != [] {
      assert records[0] in records;
      ShownAll(records[1..], registered);
    }
  }

  // ---------- a dump while others record ----------

  /** The records that are kept: those of modules with a callback. */
  function Accepted(records: seq<Record>, registered: set<nat>): seq<Record> {
    if records == [] then []
    else (if records[0].mod in registered then [records[0]] else []) + Accepted(records[1..], registered)
  }

  lemma AcceptedUnfolds(p: Record, rest: seq<Record>, registered: set<nat>)
    ensures Accepted([p] + rest, registered) == (if p.mod in registered then [p] else []) + Accepted(rest, registered)
  {
    assert ([p] + rest)[1..] == rest;
  }

  lemma {:induction false} AcceptedConcat(a: seq<Record>, b: seq<Record>, registered: set<nat>)
    ensures Accepted(a + b, registered) == Accepted(a, registered) + Accepted(b, registered)
  {
    if a == [] {
      assert a + b == b;
    } else {
      hide Accepted;
      AcceptedConcat(a[1..], b, registered);
      AcceptedUnfolds(a[0], a[1..], registered);
      AcceptedUnfolds(a[0], a[1..] + b, registered);
      assert [a[0]] + a[1..] == a && [a[0]] + (a[1..] + b) == a + b;
    }
  }

  lemma AcceptedBetween(records: seq<Record>, i: nat, registered: set<nat>)
    requires i <= |records|
    ensures Accepted(records[..0], registered) == []
    ensures i < |records| ==>
      Accepted(records[..i + 1], registered) == Accepted(records[..i], registered) + (if records[i].mod in registered then [records[i]] else [])
  {
    if i < |records| {
      assert records[..i + 1] == records[..i] + [records[i]];
      AcceptedConcat(records[..i], [records[i]], registered);
    }
  }

  /** What others record after a dump has handed out its record `j`. */
  function Batch(others: seq<seq<Record>>, j: nat): seq<Record> {
    if j < |others| then others[j] else []
  }

  /** The log by the time a dump reads its record `j`. */
  function LogAt(log: seq<Record>, others: seq<seq<Record>>, registered: set<nat>, j: nat): (r: seq<Record>)
    ensures |r| >= |log| && r[..|log|] == log
  {
    if j == 0 then log
    else LogAt(log, others, registered, j - 1) + Accepted(Batch(others, j - 1), registered)
  }

  /** The last of `n` records in the slot of record `k`. */
  function Latest(k: nat, n: nat, size: nat): (r: nat)
    requires size > 0
    ensures r >= k && r + size >= n && (k < n ==> r < n)
    decreases if k < n then n - k else 0
  {
    if k + size < n then Latest(k + size, n, size) else k
  }

  /** What a dump that begins with record `first` reads as its record `j`. */
  function ReadAt(log: seq<Record>, others: seq<seq<Record>>, registered: set<nat>, size: nat, first: nat, j: nat): Record
    requires size > 0 && first + j < |log|
  {
    var now := LogAt(log, others, registered, j);
    now[Latest(first + j, |now|, size)]
  }

  /** The first `n` records it reads. */
  function Visited(log: seq<Record>, others: seq<seq<Record>>, registered: set<nat>, size: nat, first: nat, n: nat): (r: seq<Record>)
    requires size > 0 && first + n <= |log|
    ensures |r| == n
  {
    if n == 0 then []
    else Visited(log, others, registered, size, first, n - 1) + [ReadAt(log, others, registered, size, first, n - 1)]
  }

  lemma {:induction false} VisitedAt(log: seq<Record>, others: seq<seq<Record>>, registered: set<nat>, size: nat, first: nat, n: nat, j: nat)
    requires size > 0 && first + n <= |log| && j < n
    ensures Visited(log, others, registered, size, first, n)[j] == ReadAt(log, others, registered, size, first, j)
    decreases n
  {
    if j < n - 1 {
      VisitedAt(log, others, registered, size, first, n - 1, j);
    }
  }

  /** `m` laps after position `k`. */
  function Later(k: nat, m: nat, size: nat): nat {
    k + m * size
  }

  lemma {:induction false} LatestIsLater(k: nat, n: nat, size: nat) returns (m: nat)
    requires size > 0
    ensures Latest(k, n, size) == Later(k, m, size)
    decreases if k < n then n - k else 0
  {
    if k + size < n {
      var rest := LatestIsLater(k + size, n, size);
      m := rest + 1;
    } else {
      m := 0;
    }
  }

  /** In place of record `j` a dump shows the last one that was recorded a whole number
    * of laps after it: the record itself exactly as long as that is less than a lap. */
  lemma {:induction false} DumpShowsLaterLap(log: seq<Record>, others: seq<seq<Record>>, registered: set<nat>, size: nat, first: nat, n: nat, j: nat)
    returns (m: nat)
    requires size > 0 && first + n <= |log| && j < n
    ensures var now, shown := LogAt(log, others, registered, j), Visited(log, others, registered, size, first, n)[j];
      && Later(first + j, m, size) < |now| <= Later(first + j, m + 1, size)
      && shown == now[Later(first + j, m, size)]
      && (m == 0 <==> |now| <= first + j + size) && (m == 0 ==> shown == log[first + j])
  {
    hide LogAt, Visited;
    VisitedAt(log, others, registered, size, first, n, j);
    var now := LogAt(log, others, registered, j);
    m := LatestIsLater(first + j, |now|, size);
    LaterNext(first + j, m, size);
    assert now[..|log|][first + j] == log[first + j];
  }

  lemma LaterNext(k: nat, m: nat, size: nat)
    ensures Later(k, 0, size) == k && Later(k, m + 1, size) == Later(k, m, size) + size
    ensures m > 0 ==> Later(k, m, size) >= k + size
  {
    if m > 0 {
      assert m * size >= size;
    }
  }

  /** Less than a lap is recorded after each of the records before the dump reads it. */
  ghost predicate InTime(log: seq<Record>, others: seq<seq<Record>>, registered: set<nat>, size: nat, first: nat, n: nat) {
    forall j :: 0 <= j < n ==> |LogAt(log, others, registered, j)| <= first + j + size
  }

  /** A whole dump finds the very records it set out to show in their slots. */
  ghost predicate FindsThem(log: seq<Record>, others: seq<seq<Record>>, registered: set<nat>, size: nat, first: nat, n: nat)
    requires size > 0
  {
    forall j :: 0 <= j < n ==> Latest(first + j, |LogAt(log, others, registered, j)|, size) == first + j
  }

  /** It does if and only if less than a lap is recorded after each of them before it is
    * read. */
  lemma {:induction false} DumpIsExact(log: seq<Record>, others: seq<seq<Record>>, registered: set<nat>, size: nat, first: nat, n: nat)
    requires size > 0 && first + n <= |log|
    ensures FindsThem(log, others, registered, size, first, n) <==> InTime(log, others, registered, size, first, n)
    ensures InTime(log, others, registered, size, first, n) ==>
      Visited(log, others, registered, size, first, n) == log[first..first + n]
  {
    hide LogAt, Latest, Visited;
    var shown := Visited(log, others, registered, size, first, n);
    forall j | 0 <= j < n
      ensures |LogAt(log, others, registered, j)| <= first + j + size <==>
        Latest(first + j, |LogAt(log, others, registered, j)|, size) == first + j
      ensures |LogAt(log, others, registered, j)| <= first + j + size ==> shown[j] == log[first + j]
    {
      var now := LogAt(log, others, registered, j);
      LatestIsFirst(first + j, |now|, size);
      VisitedAt(log, others, registered, size, first, n, j);
      assert now[..|log|][first + j] == log[first + j];
    }
    if FindsThem(log, others, registered, size, first, n) {
      forall j | 0 <= j < n ensures |LogAt(log, others, registered, j)| <= first + j + size {
        assert Latest(first + j, |LogAt(log, others, registered, j)|, size) == first + j;
      }
    }
  }

  /** If no two records are the same, one can see it: what it shows is what was there only
    * if it was read in time. */
  lemma {:induction false} LateDumpDiffers(log: seq<Record>, others: seq<seq<Record>>, registered: set<nat>, size: nat, first: nat, n: nat)
    requires size > 0 && first + n <= |log|
    requires var all := LogAt(log, others, registered, n); forall i, k :: 0 <= i < k < |all| ==> all[i] != all[k]
    requires Visited(log, others, registered, size, first, n) == log[first..first + n]
    ensures InTime(log, others, registered, size, first, n)
  {
    hide LogAt, Latest, Visited;
    var all, shown := LogAt(log, others, registered, n), Visited(log, others, registered, size, first, n);
    forall j | 0 <= j < n ensures |LogAt(log, others, registered, j)| <= first + j + size {
      var now := LogAt(log, others, registered, j);
      LogGrows(log, others, registered, j, n);
      VisitedAt(log, others, registered, size, first, n, j);
      LatestIsFirst(first + j, |now|, size);
      var k := Latest(first + j, |now|, size);
      assert shown[j] == now[k] == all[k] && shown[j] == log[first + j] == all[..|log|][first + j];
    }
  }

  lemma {:induction false} LogGrows(log: seq<Record>, others: seq<seq<Record>>, registered: set<nat>, j: nat, n: nat)
    requires j <= n
    ensures var now, all := LogAt(log, others, registered, j), LogAt(log, others, registered, n);
      |now| <= |all| && forall k :: 0 <= k < |now| ==> all[k] == now[k]
  {
    hide Accepted;
    if j < n {
      LogGrows(log, others, registered, j, n - 1);
    }
  }

  lemma LatestIsFirst(k: nat, n: nat, size: nat)
    requires size > 0
    ensures Latest(k, n, size) == k <==> n <= k + size
  {
  }

  /** A late dump may show what was never in the log in a row: two records in a table of
    * two, and two more recorded before the second is read. */
  lemma {:induction false} DumpCanMixLaps(a: Record, b: Record, c: Record, d: Record, registered: set<nat>)
    requires c.mod in registered && d.mod in registered && a != c && b != d
    ensures var log, others := [a, b], [[c, d]];
      && LogAt(log, others, registered, 1) == [a, b, c, d]
      && Visited(log, others, registered, 2, 0, 2) == [a, d]
      && [a, d] != Newest([a, b], 2) && [a, d] != Newest([a, b, c, d], 2)
  {
    hide Visited, ReadAt, LogAt, Latest, Accepted;
    var log, others := [a, b], [[c, d]];
    TwoAccepted(c, d, registered);
    ReadingStarts(log, others, registered, 2, 0);
    ReadingGoesOn(log, others, registered, 2, 0, 0);
    ReadingGoesOn(log, others, registered, 2, 0, 1);
    assert Batch(others, 0) == [c, d] && log + [c, d] == [a, b, c, d];
    LatestIsFirst(0, 2, 2);
    SecondLap();
  }

  lemma SecondLap()
    ensures Latest(1, 4, 2) == 3
  {
    LatestIsFirst(3, 4, 2);
  }

  lemma TwoAccepted(c: Record, d: Record, registered: set<nat>)
    requires c.mod in registered && d.mod in registered
    ensures Accepted([c, d], registered) == [c, d]
  {
    assert Accepted([d], registered) == [d] by {
      assert [d][1..] == [];
    }
    assert [c, d][1..] == [d];
  }

  /** If others record nothing, nothing can be late. */
  lemma {:induction false} NothingRecorded(log: seq<Record>, others: seq<seq<Record>>, registered: set<nat>, j: nat)
    requires forall i :: 0 <= i < |others| ==> Accepted(others[i], registered) == []
    ensures LogAt(log, others, registered, j) == log
  {
    hide Accepted;
    if j > 0 {
      NothingRecorded(log, others, registered, j - 1);
      AcceptedBetween(Batch(others, j - 1), 0, registered);
      assert Batch(others, j - 1) == [] || Batch(others, j - 1) == others[j - 1];
      assert Accepted([], registered) == [] && log + [] == log;
    }
  }

  // ---------- the ring ----------

  class Ring {
    const tbl: array<Record>
    var head: int
    var tail: int
    var num: int
    var numSinceLastDump: nat
    var enable: bool
    var registered: set<nat>     // the modules with a callback
    ghost var log: seq<Record>   // everything ever recorded

    /** The indices as they are after `n` records. */
    ghost predicate Positions(n: nat)
      reads this
    {
      && 0 < tbl.Length < INVALID_ADDR
      && num == Min(n, tbl.Length)
      && (head == INVALID_ADDR <==> n == 0)
      && (n != 0 ==> tail == Slot(n - 1, tbl.Length) && head == Slot(n - num, tbl.Length))
    }

    /** The newest `num` records are in their slots. */
    ghost predicate Valid()
      reads this, tbl
    {
      Positions(|log|) && forall k :: |log| - num <= k < |log| ==> tbl[Slot(k, tbl.Length)] == log[k]
    }

    /** cdf_trace_init, with a table of any size. */
    constructor (size: nat)
      requires 0 < size < INVALID_ADDR
      ensures Valid() && log == [] && tbl.Length == size && enable && registered == {} && fresh(tbl)
    {
      tbl := new Record[size](_ => Record(0, 0, 0, 0));
      head, tail, num, numSinceLastDump := INVALID_ADDR, INVALID_ADDR, 0, 0;
      enable, registered, log := true, {}, [];
    }

    /** cdf_trace_register: Trace keeps the records of this module from now on. */
    method Register(mod: nat)
      requires Valid()
      modifies this`registered
      ensures Valid() && registered == old(registered) + {mod}
    {
      registered := registered + {mod};
    }

    /** cdf_trace: the record is added, unless tracing is off or the module has no
      * callback; once the table is full it takes the place of the oldest. */
    method Trace(rec: Record)
      requires Valid()
      modifies this`head, this`tail, this`num, this`numSinceLastDump, this`log, tbl
      ensures Valid()
      ensures log == if enable && rec.mod in registered then old(log) + [rec] else old(log)
      ensures numSinceLastDump - |log| == old(numSinceLastDump - |log|)
    {
      hide Slot;
      if !enable {
        return;
      }
      if rec.mod !in registered {
        return;
      }
      Advance(|log|);
      OthersKeepTheirSlots(|log|, tbl.Length);
      tbl[tail] := rec;
      numSinceLastDump := numSinceLastDump + 1;
      log := log + [rec];
    }

    /** The bookkeeping for one more record (514-536). */
    method Advance(ghost n: nat)
      requires Positions(n)
      modifies this`head, this`tail, this`num
      ensures Positions(n + 1)
    {
      hide Slot;
      ghost var size := tbl.Length;
      FirstLap(0, size);
      num := num + 1;
      if num > tbl.Length {
        num := tbl.Length;
      }
      if head == INVALID_ADDR {
        head := 0;
        tail := 0;
      } else {
        SlotNext(n - 1, size);
        HeadStart(n, size);
        if n >= size {
          SlotLap(n, size);
          SlotNext(n - size, size);
        }
        var next := tail + 1;
        if tbl.Length == next {
          next := 0;
        }
        if head == next {
          head := head + 1;
          if tbl.Length == head {
            head := 0;
          }
        }
        tail := next;
      }
    }

    /** Where a dump starts (626-637): at the first of the records it covers. */
    method StartIndex(count: nat) returns (i: nat)
      requires Valid() && log != []
      ensures i == Slot(|log| - Covered(count, num), tbl.Length)
    {
      var last: nat, n := tail, count;
      i := head;
      if n != 0 {
        if n > num {
          n := num;
        }
        SlotBack(|log| - 1, n - 1, tbl.Length);
        if last >= n - 1 {
          i := last - n + 1;
        } else if n != tbl.Length {
          i := tbl.Length - ((n - 1) - last);
        }
      }
    }

    /** Others record while a dump has dropped the lock. */
    method RecordAll(records: seq<Record>)
      requires Valid() && enable
      modifies this`head, this`tail, this`num, this`numSinceLastDump, this`log, tbl
      ensures Valid() && log == old(log) + Accepted(records, registered)
      ensures numSinceLastDump - |log| == old(numSinceLastDump - |log|)
    {
      hide Accepted, Slot;
      var i := 0;
      AcceptedBetween(records, 0, registered);
      while i < |records|
        invariant i <= |records| && Valid() && enable
        invariant log == old(log) + Accepted(records[..i], registered)
        invariant numSinceLastDump - |log| == old(numSinceLastDump - |log|)
      {
        AcceptedBetween(records, i, registered);
        Trace(records[i]);
        i := i + 1;
      }
      assert records[..i] == records;
    }

    /** The newest record in a slot is the one found there. */
    lemma InSlot(k: nat)
      requires Valid() && k < |log|
      ensures tbl[Slot(k, tbl.Length)] == log[Latest(k, |log|, tbl.Length)]
    {
      LatestSlot(k, |log|, tbl.Length);
    }

    /** The step to the next record (664-677), before which others record. */
    method ReadNext(at: nat, records: seq<Record>, ghost k: nat) returns (i: nat, pRecord: Record)
      requires Valid() && enable && k + 1 < |log| && at == Slot(k, tbl.Length)
      modifies this`head, this`tail, this`num, this`numSinceLastDump, this`log, tbl
      ensures Valid() && log == old(log) + Accepted(records, registered) && i == Slot(k + 1, tbl.Length)
      ensures pRecord == log[Latest(k + 1, |log|, tbl.Length)]
      ensures numSinceLastDump - |log| == old(numSinceLastDump - |log|)
    {
      hide Slot, Accepted, Latest;
      SlotNext(k, tbl.Length);
      i := at + 1;
      RecordAll(records);
      InSlot(k + 1);
      if tbl.Length == i {
        i := 0;
        pRecord := tbl[0];
      } else {
        pRecord := tbl[i];
      }
    }

    lemma InBounds()
      requires Valid() && log != []
      ensures tbl.Length > 0 && num <= tbl.Length && num <= |log| && tail == Slot(|log| - 1, tbl.Length)
    {
      hide Slot;
    }

    /** A record goes to the callback of its module, if it is one that was asked for
      * (648-665). */
    method HandOut(pRecord: Record, code: nat, modules: set<nat>) returns (out: seq<Record>)
      ensures out ==
        if (code == 0 || code == pRecord.code) && pRecord.mod in registered && (modules == {} || pRecord.mod in modules)
        then [pRecord] else []
    {
      out := [];
      if (code == 0 || code == pRecord.code) && pRecord.mod in registered {
        if modules == {} {
          out := [pRecord];
        } else {
          if pRecord.mod in modules {
            out := [pRecord];
          }
        }
      }
    }

    /** The replay loop (639-679), from index `start` to what was the tail.  Between one
      * record and the next the lock is free, and others may record. */
    method Replay(start: nat, code: nat, modules: set<nat>, others: seq<seq<Record>>, ghost first: nat) returns (shown: seq<Record>)
      requires Valid() && enable && |log| - num <= first < |log| && start == Slot(first, tbl.Length)
      modifies this`head, this`tail, this`num, this`numSinceLastDump, this`log, tbl
      ensures Valid() && var n := old(|log|) - first;
        && shown == Shown(Visited(old(log), others, registered, tbl.Length, first, n), code, modules, registered)
        && log == LogAt(old(log), others, registered, n - 1)
      ensures |shown| <= old(|log|) - first
      ensures numSinceLastDump - |log| == old(numSinceLastDump - |log|)
    {
      hide Slot, Shown, Accepted, Latest, LogAt, Visited, ReadAt, Batch, Valid, Positions;
      ghost var was, size := log, tbl.Length;
      InBounds();
      ReadingStarts(was, others, registered, size, first);
      var last := tail;
      shown := [];
      ShownNone(code, modules, registered);
      var j := 0;
      var i := start;
      InSlot(first);
      var pRecord := tbl[i];
      while true
        invariant Valid() && first + j < |was| && i == Slot(first + j, size) && log == LogAt(was, others, registered, j)
        invariant pRecord == ReadAt(was, others, registered, size, first, j)
        invariant numSinceLastDump - |log| == old(numSinceLastDump - |log|)
        invariant shown == Shown(Visited(was, others, registered, size, first, j), code, modules, registered)
        decreases |was| - j
      {
        ReadingGoesOn(was, others, registered, size, first, j);
        ShownOne(Visited(was, others, registered, size, first, j), pRecord, code, modules, registered);
        var out := HandOut(pRecord, code, modules);
        shown := shown + out;
        LastSlot(first + j, |was|, size);
        if i == last {
          return;
        }
        i, pRecord := ReadNext(i, Batch(others, j), first + j);
        j := j + 1;
      }
    }

    /** cdf_trace_dump_all: min(count, num) records are visited, or as many as are stored
      * if count is 0, from the oldest of them to the one that was the last when the dump
      * began, and those asked for are handed to their callbacks. */
    method DumpAll(code: nat, count: nat, modules: set<nat>, others: seq<seq<Record>>) returns (shown: seq<Record>)
      requires Valid()
      modifies this`head, this`tail, this`num, this`numSinceLastDump, this`log, tbl
      ensures Valid() && var n := Covered(count, old(num));
        && n <= |old(log)|
        && shown == (if enable then Shown(Visited(old(log), others, registered, tbl.Length, |old(log)| - n, n), code, modules, registered) else [])
        && log == (if enable && n > 0 then LogAt(old(log), others, registered, n - 1) else old(log))
      ensures |shown| <= old(num) && (count > 0 ==> |shown| <= count)
      ensures enable && old(log) != [] ==> numSinceLastDump == |log| - |old(log)|
    {
      hide Slot, Shown, Covered, LogAt, Visited, ReadAt, Latest, Accepted;
      CoveredFits(count, num);
      ShownNone(code, modules, registered);
      if !enable || head == INVALID_ADDR {
        return [];
      }
      var i := StartIndex(count);
      numSinceLastDump := 0;
      ghost var n := Covered(count, num);
      CoveredAtMost(count, num);
      shown := Replay(i, code, modules, others, |log| - n);
    }
  }

  /** If less than a lap is recorded after each of them before it is read, and so if
    * nothing is recorded at all, the records a dump visits are the newest. */
  lemma {:induction false} DumpShowsNewest(log: seq<Record>, others: seq<seq<Record>>, registered: set<nat>, size: nat, n: nat)
    requires size > 0 && n <= |log| && n <= size
    ensures InTime(log, others, registered, size, |log| - n, n) ==>
      Visited(log, others, registered, size, |log| - n, n) == Newest(log, n)
    ensures (forall i :: 0 <= i < |others| ==> Accepted(others[i], registered) == []) ==>
      InTime(log, others, registered, size, |log| - n, n)
  {
    DumpIsExact(log, others, registered, size, |log| - n, n);
    if forall i :: 0 <= i < |others| ==> Accepted(others[i], registered) == [] {
      forall j | 0 <= j < n ensures |LogAt(log, others, registered, j)| <= |log| - n + j + size {
        NothingRecorded(log, others, registered, j);
      }
    }
  }

  lemma ReadingStarts(log: seq<Record>, others: seq<seq<Record>>, registered: set<nat>, size: nat, first: nat)
    requires size > 0 && first < |log|
    ensures Visited(log, others, registered, size, first, 0) == [] && LogAt(log, others, registered, 0) == log
    ensures ReadAt(log, others, registered, size, first, 0) == log[Latest(first, |log|, size)]
  {
  }

  lemma ReadingGoesOn(log: seq<Record>, others: seq<seq<Record>>, registered: set<nat>, size: nat, first: nat, j: nat)
    requires size > 0 && first + j < |log|
    ensures Visited(log, others, registered, size, first, j + 1) ==
      Visited(log, others, registered, size, first, j) + [ReadAt(log, others, registered, size, first, j)]
    ensures var now := LogAt(log, others, registered, j + 1);
      && now == LogAt(log, others, registered, j) + Accepted(Batch(others, j), registered)
      && (first + j + 1 < |log| ==>
           ReadAt(log, others, registered, size, first, j + 1) == now[Latest(first + j + 1, |now|, size)])
  {
    hide Accepted, Batch, Latest, ReadAt;
    ReadingIs(log, others, registered, size, first, j + 1);
  }

  lemma ReadingIs(log: seq<Record>, others: seq<seq<Record>>, registered: set<nat>, size: nat, first: nat, j: nat)
    requires size > 0
    ensures first + j < |log| ==>
      var now := LogAt(log, others, registered, j); ReadAt(log, others, registered, size, first, j) == now[Latest(first + j, |now|, size)]
  {
    hide LogAt, Latest;
  }

  lemma {:induction false} LatestSlot(k: nat, n: nat, size: nat)
    requires size > 0
    ensures Slot(Latest(k, n, size), size) == Slot(k, size)
    decreases if k < n then n - k else 0
  {
    if k + size < n {
      LatestSlot(k + size, n, size);
      SlotLap(k + size, size);
    }
  }

  lemma CoveredFits(count: nat, num: nat)
    ensures Covered(count, num) <= num
    ensures num > 0 ==> Covered(count, num) > 0
  {
  }

  lemma SlotNext(k: nat, size: nat)
    requires size > 0
    ensures Slot(k + 1, size) == if Slot(k, size) + 1 == size then 0 else Slot(k, size) + 1
  {
  }

  lemma ShownNone(code: nat, modules: set<nat>, registered: set<nat>)
    ensures Shown([], code, modules, registered) == []
  {
  }

  lemma ShownOne(records: seq<Record>, p: Record, code: nat, modules: set<nat>, registered: set<nat>)
    ensures Shown(records + [p], code, modules, registered) == Shown(records, code, modules, registered) +
      if (code == 0 || code == p.code) && p.mod in registered && (modules == {} || p.mod in modules) then [p] else []
  {
    ShownConcat(records, [p], code, modules, registered);
  }

  /** The n-th record overwrites none of the newest size - 1 before it. */
  lemma OthersKeepTheirSlots(n: nat, size: nat)
    requires size > 0
    ensures forall k :: n - size < k < n && k >= 0 ==> Slot(k, size) != Slot(n, size)
  {
    forall k | n - size < k < n && k >= 0 ensures Slot(k, size) != Slot(n, size) {
      SlotBack(n, n - k, size);
    }
  }

  /** Among the newest `size` of `n` records only the last is in the last slot. */
  lemma LastSlot(k: nat, n: nat, size: nat)
    requires size > 0 && k < n <= k + size
    ensures Slot(k, size) == Slot(n - 1, size) <==> k == n - 1
  {
    hide Slot;
    OthersKeepTheirSlots(n - 1, size);
  }

  /** Until the table is full, the next slot is not the first. */
  lemma HeadStart(n: nat, size: nat)
    requires size > 0
    ensures n > 0 && n < size ==> Slot(n, size) != Slot(0, size)
  {
    if n < size {
      FirstLap(n, size);
    }
  }
}
