/** The receive side of credit flow: a frame from the target may end in a trailer
  * of records, some of which return credits (core/htc/htc_recv.c, and
  * htc_process_credit_rpt of core/htc/htc_send.c).
  *
  * A record is a four byte header (id, length of the body, two bytes that are not
  * read) and a body.  The body of a CREDITS record is an array of four byte
  * reports (endpoint, credits, two bytes that are not read). */
module Trailer {
  import opened Bytes

  const RECORD_HDR_SIZE: nat := 4
  const CREDIT_REPORT_SIZE: nat := 4
  const FRAME_HDR_SIZE: nat := 8
  const RECORD_CREDITS: nat := 1
  const ENDPOINT_MAX: nat := 9

  datatype Record = Record(id: byte, spare: (byte, byte), body: seq<byte>)
  {
    ghost predicate Valid() {
      |body| < 256
    }
  }

  datatype Report = Report(endpoint: nat, credits: nat)

  datatype Parsed = Parsed(records: seq<Record>, rest: seq<byte>)

  datatype Status = Ok | Proto | Invalid | Failure

  // ---------- the format ----------

  function EncodeRecord(r: Record): (b: seq<byte>)
    requires r.Valid()
    ensures |b| == RECORD_HDR_SIZE + |r.body|
  {
    [r.id, |r.body|, r.spare.0, r.spare.1] + r.body
  }

  function Encode(records: seq<Record>): seq<byte>
    requires forall r :: r in records ==> r.Valid()
  {
    if records == [] then [] else EncodeRecord(records[0]) + Encode(records[1..])
  }

  /** True when `b` begins with a whole record. */
  predicate StartsWithRecord(b: seq<byte>) {
    |b| >= RECORD_HDR_SIZE && b[1] <= |b| - RECORD_HDR_SIZE
  }

  function FirstRecord(b: seq<byte>): (r: Record)
    requires StartsWithRecord(b)
    ensures r.Valid() && r.id == b[0] && r.body == b[RECORD_HDR_SIZE..RECORD_HDR_SIZE + b[1]]
  {
    Record(b[0], (b[2], b[3]), b[RECORD_HDR_SIZE..RECORD_HDR_SIZE + b[1]])
  }

  lemma FirstRecordEncodes(b: seq<byte>)
    requires StartsWithRecord(b)
    ensures EncodeRecord(FirstRecord(b)) == b[..RECORD_HDR_SIZE + b[1]]
  {
  }

  /** The longest prefix of whole records, and what follows it. */
  function Parse(b: seq<byte>): (p: Parsed)
    ensures forall r :: r in p.records ==> r.Valid()
    decreases |b|
  {
    if !StartsWithRecord(b) then Parsed([], b)
    else
      var p := Parse(b[RECORD_HDR_SIZE + b[1]..]);
      Parsed([FirstRecord(b)] + p.records, p.rest)
  }

  /** Parsing is a decomposition of the buffer, and the only one: a trailer has at
    * most one reading. */
  lemma {:induction false} ParseSound(b: seq<byte>)
    ensures Encode(Parse(b).records) + Parse(b).rest == b
    ensures !StartsWithRecord(Parse(b).rest)
    decreases |b|
  {
    hide EncodeRecord, FirstRecord;
    if StartsWithRecord(b) {
      var n := RECORD_HDR_SIZE + b[1];
      var first, tail := FirstRecord(b), Parse(b[n..]);
      ParseSound(b[n..]);
      FirstRecordEncodes(b);
      EncodeMore(first, tail.records, tail.rest);
      assert b == b[..n] + b[n..];
    }
  }

  lemma EncodeMore(first: Record, records: seq<Record>, rest: seq<byte>)
    requires first.Valid() && forall r :: r in records ==> r.Valid()
    ensures Encode([first] + records) + rest == EncodeRecord(first) + (Encode(records) + rest)
  {
    hide EncodeRecord;
    assert ([first] + records)[1..] == records;
  }

  lemma FirstRecordIs(r: Record, tail: seq<byte>)
    requires r.Valid()
    ensures var b := EncodeRecord(r) + tail;
      StartsWithRecord(b) && FirstRecord(b) == r && b[RECORD_HDR_SIZE + b[1]..] == tail
  {
    var b := EncodeRecord(r) + tail;
    assert b[RECORD_HDR_SIZE + |r.body|..] == tail;
    assert b[RECORD_HDR_SIZE..RECORD_HDR_SIZE + |r.body|] == r.body;
  }

  lemma {:induction false} ParseUnique(records: seq<Record>, rest: seq<byte>)
    requires (forall r :: r in records ==> r.Valid()) && !StartsWithRecord(rest)
    ensures Parse(Encode(records) + rest) == Parsed(records, rest)
  {
    hide EncodeRecord, FirstRecord, StartsWithRecord;
    var b := Encode(records) + rest;
    if records == [] {
      assert b == rest;
    } else {
      var tail := Encode(records[1..]) + rest;
      assert b == EncodeRecord(records[0]) + tail;
      FirstRecordIs(records[0], tail);
      ParseUnique(records[1..], rest);
    }
  }

  // ---------- the credits ----------

  /** The reports in the body of a CREDITS record, up to the first one that names
    * no endpoint; a remainder shorter than a report is ignored. */
  function Reports(body: seq<byte>): (r: seq<Report>)
    ensures |r| <= |body| / CREDIT_REPORT_SIZE
    ensures forall i :: 0 <= i < |r| ==>
      r[i] == Report(body[CREDIT_REPORT_SIZE * i], body[CREDIT_REPORT_SIZE * i + 1]) && r[i].endpoint < ENDPOINT_MAX
    ensures |r| < |body| / CREDIT_REPORT_SIZE ==> body[CREDIT_REPORT_SIZE * |r|] >= ENDPOINT_MAX
    decreases |body|
  {
    if |body| < CREDIT_REPORT_SIZE || body[0] >= ENDPOINT_MAX then []
    else [Report(body[0], body[1])] + Reports(body[CREDIT_REPORT_SIZE..])
  }

  function ReportsIn(records: seq<Record>): seq<Report> {
    if records == [] then []
    else (if records[0].id == RECORD_CREDITS then Reports(records[0].body) else []) + ReportsIn(records[1..])
  }

  // ---------- reports as a target writes them ----------

  function EncodeReport(r: Report, spare: (byte, byte)): (b: seq<byte>)
    requires r.endpoint < 256 && r.credits < 256
    ensures |b| == CREDIT_REPORT_SIZE
  {
    [r.endpoint, r.credits, spare.0, spare.1]
  }

  ghost predicate Sendable(reports: seq<Report>) {
    forall i :: 0 <= i < |reports| ==> reports[i].endpoint < ENDPOINT_MAX && reports[i].credits < 256
  }

  function EncodeReports(reports: seq<Report>, spare: (byte, byte)): (b: seq<byte>)
    requires forall i :: 0 <= i < |reports| ==> reports[i].endpoint < 256 && reports[i].credits < 256
    ensures |b| == CREDIT_REPORT_SIZE * |reports|
  {
    if reports == [] then [] else EncodeReport(reports[0], spare) + EncodeReports(reports[1..], spare)
  }

  /** Reports are read back as they were written, up to bytes short of a report. */
  lemma {:induction false} ReportsRoundTrip(reports: seq<Report>, spare: (byte, byte), rest: seq<byte>)
    requires Sendable(reports) && |rest| < CREDIT_REPORT_SIZE
    ensures Reports(EncodeReports(reports, spare) + rest) == reports
  {
    var body := EncodeReports(reports, spare) + rest;
    if reports == [] {
      assert body == rest;
    } else {
      ReportsRoundTrip(reports[1..], spare, rest);
      assert body == EncodeReport(reports[0], spare) + (EncodeReports(reports[1..], spare) + rest);
      assert body[CREDIT_REPORT_SIZE..] == EncodeReports(reports[1..], spare) + rest;
      assert body[0] == reports[0].endpoint && body[1] == reports[0].credits;
    }
  }

  /** A record of reports says what they say; a record with another id says nothing. */
  lemma {:induction false} ReportsInRecord(reports: seq<Report>, spare: (byte, byte), other: Record)
    requires Sendable(reports) && other.id != 1
    ensures ReportsIn([Record(1, spare, EncodeReports(reports, spare))]) == reports
    ensures ReportsIn([other]) == []
  {
    hide Reports;
    ReportsRoundTrip(reports, spare, []);
    var body := EncodeReports(reports, spare);
    assert body + [] == body;
    assert [Record(1, spare, body)][1..] == [] && [other][1..] == [];
  }

  /** One report more grants its endpoint its credits, and others nothing. */
  lemma GrantedOne(r: Report, endpoint: nat)
    ensures Granted([r], endpoint) == if r.endpoint == endpoint then r.credits else 0
  {
    assert [r][1..] == [];
  }

  lemma {:induction false} ReportsInConcat(a: seq<Record>, b: seq<Record>)
    ensures ReportsIn(a + b) == ReportsIn(a) + ReportsIn(b)
  {
    if a == [] {
      assert a + b == b;
    } else {
      assert (a + b)[1..] == a[1..] + b;
      ReportsInConcat(a[1..], b);
    }
  }

  /** The credits a sequence of reports gives to one endpoint. */
  function Granted(reports: seq<Report>, endpoint: nat): nat {
    if reports == [] then 0
    else (if reports[0].endpoint == endpoint then reports[0].credits else 0) + Granted(reports[1..], endpoint)
  }

  lemma {:induction false} GrantedConcat(a: seq<Report>, b: seq<Report>, endpoint: nat)
    ensures Granted(a + b, endpoint) == Granted(a, endpoint) + Granted(b, endpoint)
  {
    if a == [] {
      assert a + b == b;
    } else {
      assert (a + b)[1..] == a[1..] + b;
      GrantedConcat(a[1..], b, endpoint);
    }
  }

  /** Only whole reports count. */
  lemma {:induction false} ReportsIgnoreRemainder(body: seq<byte>)
    ensures Reports(body[..CREDIT_REPORT_SIZE * (|body| / CREDIT_REPORT_SIZE)]) == Reports(body)
    decreases |body|
  {
    if |body| >= CREDIT_REPORT_SIZE {
      var whole, rest := body[..CREDIT_REPORT_SIZE * (|body| / CREDIT_REPORT_SIZE)], body[CREDIT_REPORT_SIZE..];
      assert whole[CREDIT_REPORT_SIZE..] == rest[..CREDIT_REPORT_SIZE * (|rest| / CREDIT_REPORT_SIZE)];
      ReportsIgnoreRemainder(rest);
    }
  }

  /** Midway through the record loop: `done` records lie before offset `at`, and what
    * the rest of the trailer holds completes the whole, `goal`. */
  ghost predicate Parsing(goal: Parsed, done: seq<Record>, data: seq<byte>, at: nat) {
    at <= |data| && goal == Parsed(done + Parse(data[at..]).records, Parse(data[at..]).rest)
  }

  lemma ParsingStart(data: seq<byte>)
    ensures Parsing(Parse(data), [], data, 0)
  {
    assert data[0..] == data;
  }

  lemma ParsingStops(goal: Parsed, done: seq<Record>, data: seq<byte>, at: nat)
    requires Parsing(goal, done, data, at)
    requires |data| - at < RECORD_HDR_SIZE || data[at + 1] > |data| - at - RECORD_HDR_SIZE
    ensures goal.records == done && (goal.rest == [] <==> at == |data|)
  {
    assert !StartsWithRecord(data[at..]);
  }

  lemma ParseUnfolds(b: seq<byte>)
    requires StartsWithRecord(b)
    ensures var tail := Parse(b[RECORD_HDR_SIZE + b[1]..]); Parse(b) == Parsed([FirstRecord(b)] + tail.records, tail.rest)
  {
  }

  lemma Joined(done: seq<Record>, r: Record, more: seq<Record>)
    ensures done + ([r] + more) == (done + [r]) + more
  {
  }

  lemma ReportsInOneMore(done: seq<Record>, r: Record)
    ensures ReportsIn(done + [r]) == ReportsIn(done) + (if r.id == RECORD_CREDITS then Reports(r.body) else [])
  {
    hide Reports;
    ReportsInConcat(done, [r]);
    assert [r][1..] == [];
  }

  /** One record more, and what it adds to the reports. */
  lemma ParsingTurn(goal: Parsed, done: seq<Record>, data: seq<byte>, at: nat)
    requires Parsing(goal, done, data, at)
    requires |data| - at >= RECORD_HDR_SIZE && data[at + 1] <= |data| - at - RECORD_HDR_SIZE
    ensures var end := at + RECORD_HDR_SIZE + data[at + 1]; var r := FirstRecord(data[at..]);
      && Parsing(goal, done + [r], data, end)
      && ReportsIn(done + [r]) == ReportsIn(done) +
           (if data[at] == RECORD_CREDITS then Reports(data[at + RECORD_HDR_SIZE..end]) else [])
  {
    hide Reports, Parse, ReportsIn;
    var b, end := data[at..], at + RECORD_HDR_SIZE + data[at + 1];
    var first := FirstRecord(b);
    ParseUnfolds(b);
    assert b[RECORD_HDR_SIZE + b[1]..] == data[end..];
    assert first.body == data[at + RECORD_HDR_SIZE..end];
    Joined(done, first, Parse(data[end..]).records);
    ReportsInOneMore(done, first);
  }

  // ---------- the frame ----------

  const FLAG_TRAILER: nat := 2

  function PayloadLen(b: seq<byte>): (n: nat)
    requires |b| >= FRAME_HDR_SIZE
  {
    b[2] as int + 256 * b[3] as int
  }

  /** Where a received frame carries its trailer. */
  datatype Location = BadFrame | NoTrailer | BadTrailer | Trailer(start: nat, length: nat)

  /** The checks of htc_rx_completion_handler.  They put the trailer inside the
    * network buffer, behind the header, at the very end of the payload. */
  function Locate(b: seq<byte>): (l: Location)
    requires |b| >= FRAME_HDR_SIZE
    ensures l.Trailer? ==>
      && RECORD_HDR_SIZE <= l.length && FRAME_HDR_SIZE <= l.start
      && l.start + l.length == FRAME_HDR_SIZE + PayloadLen(b) <= |b|
    ensures l.BadTrailer? <==>
      && b[0] < ENDPOINT_MAX && PayloadLen(b) + FRAME_HDR_SIZE <= |b| && (b[1] / FLAG_TRAILER) % 2 == 1
      && !(RECORD_HDR_SIZE <= b[4] <= PayloadLen(b))
    ensures l.BadFrame? <==> b[0] >= ENDPOINT_MAX || PayloadLen(b) + FRAME_HDR_SIZE > |b|
    ensures l.NoTrailer? <==>
      b[0] < ENDPOINT_MAX && PayloadLen(b) + FRAME_HDR_SIZE <= |b| && (b[1] / FLAG_TRAILER) % 2 == 0
    ensures l.Trailer? ==> l.length == b[4]
  {
    if b[0] >= ENDPOINT_MAX || |b| < PayloadLen(b) + FRAME_HDR_SIZE then BadFrame
    else if (b[1] / FLAG_TRAILER) % 2 == 0 then NoTrailer
    else if b[4] < RECORD_HDR_SIZE || b[4] > PayloadLen(b) then BadTrailer
    else Trailer(FRAME_HDR_SIZE + PayloadLen(b) - b[4], b[4])
  }

  /** A frame as a target would build it: header, payload, records. */
  function EncodeFrame(endpoint: byte, flags: byte, spare: (byte, byte, byte), data: seq<byte>, records: seq<Record>): (b: seq<byte>)
    requires forall r :: r in records ==> r.Valid()
    requires |Encode(records)| < 256 && |data| + |Encode(records)| < 65536
    ensures |b| == FRAME_HDR_SIZE + |data| + |Encode(records)|
  {
    var n := |data| + |Encode(records)|;
    [endpoint, flags, n % 256, n / 256, |Encode(records)|, spare.0, spare.1, spare.2] + data + Encode(records)
  }

  /** Round trip: whatever follows it in the network buffer, the trailer of such a
    * frame is found and read back record for record. */
  lemma {:induction false} FrameRoundTrip(endpoint: byte, flags: byte, spare: (byte, byte, byte), data: seq<byte>,
                                          records: seq<Record>, beyond: seq<byte>)
    requires forall r :: r in records ==> r.Valid()
    requires records != [] && |Encode(records)| < 256 && |data| + |Encode(records)| < 65536
    requires endpoint < ENDPOINT_MAX && (flags / FLAG_TRAILER) % 2 == 1
    ensures var b := EncodeFrame(endpoint, flags, spare, data, records) + beyond; var l := Locate(b);
      l.Trailer? && Parse(b[l.start..l.start + l.length]) == Parsed(records, [])
  {
    hide Encode, Parse;
    var frame := EncodeFrame(endpoint, flags, spare, data, records);
    var b, n := frame + beyond, |data| + |Encode(records)|;
    HasRecord(records);
    assert b[..FRAME_HDR_SIZE] == frame[..FRAME_HDR_SIZE];
    assert b[2] == n % 256 && b[3] == n / 256 && PayloadLen(b) == n;
    assert b[4] == |Encode(records)|;
    var l := Locate(b);
    assert b[l.start..l.start + l.length] == frame[FRAME_HDR_SIZE + |data|..] == Encode(records);
    ParseUnique(records, []);
    assert Encode(records) + [] == Encode(records);
  }

  /** And of a frame built without records and without the flag the receiver knows that it
    * has none; a frame that is cut short, or for no endpoint, is refused. */
  lemma {:induction false} PlainFrameRoundTrip(endpoint: byte, flags: byte, spare: (byte, byte, byte), data: seq<byte>, beyond: seq<byte>, cut: nat)
    requires |data| < 65536 && (flags / 2) % 2 == 0 && cut <= |data|
    ensures var frame := EncodeFrame(endpoint, flags, spare, data, []);
      && Locate(frame + beyond) == (if endpoint < 9 then NoTrailer else BadFrame)
      && (cut < |data| ==> Locate(frame[..8 + cut]) == BadFrame)
  {
    var frame := EncodeFrame(endpoint, flags, spare, data, []);
    var b := frame + beyond;
    assert b[..FRAME_HDR_SIZE] == frame[..FRAME_HDR_SIZE];
    assert frame[2] == |data| % 256 && frame[3] == |data| / 256;
    assert PayloadLen(b) == |data| && PayloadLen(frame[..8 + cut]) == |data|;
  }

  lemma HasRecord(records: seq<Record>)
    requires records != [] && forall r :: r in records ==> r.Valid()
    ensures |Encode(records)| >= RECORD_HDR_SIZE
  {
  }

  // ---------- the loops ----------

  /** The credit counters of the endpoints. */
  class Target {
    const TxCredits: array<int>

    constructor ()
      ensures TxCredits.Length == ENDPOINT_MAX && fresh(TxCredits)
    {
      TxCredits := new int[ENDPOINT_MAX](_ => 0);
    }

    ghost predicate Valid() {
      TxCredits.Length == ENDPOINT_MAX
    }

    /** The credits are those of `before` plus what `reports` grant. */
    ghost predicate Shows(before: seq<int>, reports: seq<Report>)
      requires Valid() && |before| == ENDPOINT_MAX
      reads TxCredits
    {
      forall i :: 0 <= i < ENDPOINT_MAX ==> TxCredits[i] == before[i] + Granted(reports, i)
    }

    lemma NothingReported(before: seq<int>)
      requires Valid() && before == TxCredits[..]
      ensures Shows(before, ReportsIn([]))
    {
    }

    /** htc_process_credit_rpt, without the sends that a report may set off: reports
      * are applied up to the first that names no endpoint. */
    method ProcessCreditRpt(buffer: array<byte>, pRpt: nat, NumEntries: nat, ghost before: seq<int>, ghost done: seq<Report>)
      requires Valid() && pRpt + CREDIT_REPORT_SIZE * NumEntries <= buffer.Length
      requires |before| == ENDPOINT_MAX && Shows(before, done)
      modifies TxCredits
      ensures Shows(before, done + Reports(buffer[pRpt..pRpt + CREDIT_REPORT_SIZE * NumEntries]))
    {
      ghost var all := Reports(buffer[pRpt..pRpt + CREDIT_REPORT_SIZE * NumEntries]);
      var i := 0;
      assert done + all[..0] == done;
      while i < NumEntries
        invariant 0 <= i <= NumEntries && i <= |all| <= NumEntries
        invariant Shows(before, done + all[..i])
      {
        var at := pRpt + CREDIT_REPORT_SIZE * i;
        assert i < |all| ==> all[i].endpoint == buffer[at];
        if buffer[at] >= ENDPOINT_MAX {
          break;
        }
        assert all[i] == Report(buffer[at], buffer[at + 1]);
        forall ep ensures Granted(done + all[..i + 1], ep) ==
          Granted(done + all[..i], ep) + (if ep == buffer[at] then buffer[at + 1] else 0)
        {
          assert done + all[..i + 1] == (done + all[..i]) + [all[i]];
          GrantedConcat(done + all[..i], [all[i]], ep);
        }
        TxCredits[buffer[at]] := TxCredits[buffer[at]] + buffer[at + 1];
        i := i + 1;
      }
      assert all[..i] == all;
    }

    /** One record of a trailer; only CREDITS records have an effect. */
    method ProcessRecord(buffer: array<byte>, pRecordBuf: nat, htc_rec_id: byte, htc_rec_len: byte,
                         ghost before: seq<int>, ghost done: seq<Report>)
      requires Valid() && pRecordBuf + htc_rec_len <= buffer.Length
      requires |before| == ENDPOINT_MAX && Shows(before, done)
      modifies TxCredits
      ensures Shows(before, done +
        (if htc_rec_id == RECORD_CREDITS then Reports(buffer[pRecordBuf..pRecordBuf + htc_rec_len]) else []))
    {
      hide Reports, Granted, Shows;
      assert done + [] == done;
      if htc_rec_id == RECORD_CREDITS {
        ghost var body := buffer[pRecordBuf..pRecordBuf + htc_rec_len];
        var NumEntries := htc_rec_len / CREDIT_REPORT_SIZE;
        ghost var whole := CREDIT_REPORT_SIZE * NumEntries;
        assert |body| == htc_rec_len && whole <= htc_rec_len;
        ReportsIgnoreRemainder(body);
        assert body[..whole] == buffer[pRecordBuf..pRecordBuf + whole];
        ProcessCreditRpt(buffer, pRecordBuf, NumEntries, before, done);
      }
    }

    /** htc_process_trailer: every record of the longest prefix of whole records is
      * processed, in order; bytes after it make the trailer an error, but what
      * came before them stands. */
    method ProcessTrailer(buffer: array<byte>, start: nat, length: nat) returns (status: Status)
      requires Valid() && start + length <= buffer.Length
      modifies TxCredits
      ensures var p := Parse(buffer[start..start + length]);
        && Shows(old(TxCredits[..]), ReportsIn(p.records))
        && status == (if p.rest == [] then Ok else Proto)
    {
      hide Parse, Parsing, FirstRecord, ReportsIn, Granted, Reports, Shows;
      ghost var data, before := buffer[start..start + length], TxCredits[..];
      ghost var goal, done: seq<Record> := Parse(data), [];
      var pBuffer, Length := start, length;
      status := Ok;
      NothingReported(before);
      ParsingStart(data);
      while Length > 0
        invariant 0 <= Length <= length && pBuffer == start + length - Length
        invariant Shows(before, ReportsIn(done)) && status == Ok
        invariant Parsing(goal, done, data, pBuffer - start)
        decreases Length
      {
        ghost var at := pBuffer - start;
        if Length < RECORD_HDR_SIZE {
          ParsingStops(goal, done, data, at);
          status := Proto;
          break;
        }
        var pRecord := pBuffer;
        Length := Length - RECORD_HDR_SIZE;
        pBuffer := pBuffer + RECORD_HDR_SIZE;
        var htc_rec_len := buffer[pRecord + 1];
        var htc_rec_id := buffer[pRecord];
        assert data[at] == htc_rec_id && data[at + 1] == htc_rec_len;
        if htc_rec_len > Length {
          ParsingStops(goal, done, data, at);
          status := Proto;
          break;
        }
        assert data[at + RECORD_HDR_SIZE..at + RECORD_HDR_SIZE + htc_rec_len] == buffer[pBuffer..pBuffer + htc_rec_len];
        ParsingTurn(goal, done, data, at);
        ProcessRecord(buffer, pBuffer, htc_rec_id, htc_rec_len, before, ReportsIn(done));
        done := done + [FirstRecord(data[at..])];
        pBuffer := pBuffer + htc_rec_len;
        Length := Length - htc_rec_len;
      }
      if status == Ok {
        ParsingStops(goal, done, data, length);
      }
    }

    /** htc_rx_completion_handler up to the delivery of the payload.  A frame has at
      * least a header. */
    method RxCompletionHandler(netbuf: array<byte>, netlen: nat) returns (status: Status)
      requires Valid() && FRAME_HDR_SIZE <= netlen <= netbuf.Length
      modifies TxCredits
      ensures var l := Locate(netbuf[..netlen]);
        && (l.BadFrame? ==> status == Failure)
        && (l.NoTrailer? ==> status == Ok)
        && (l.BadTrailer? ==> status == Invalid)
        && (!l.Trailer? ==> TxCredits[..] == old(TxCredits[..]))
        && (l.Trailer? ==>
             && var p := Parse(netbuf[l.start..l.start + l.length]);
             && Shows(old(TxCredits[..]), ReportsIn(p.records))
             && status == (if p.rest == [] then Ok else Failure))
    {
      hide Parse, ReportsIn;
      var htc_ep_id := netbuf[0];
      if htc_ep_id >= ENDPOINT_MAX {
        return Failure;
      }
      var payloadLen: nat := netbuf[2] as int + 256 * netbuf[3] as int;
      if netlen < payloadLen + FRAME_HDR_SIZE {
        return Failure;
      }
      var temp := netbuf[1];
      if (temp / FLAG_TRAILER) % 2 == 1 {
        temp := netbuf[4];
        if temp < RECORD_HDR_SIZE || temp > payloadLen {
          return Invalid;
        }
        var temp_status := ProcessTrailer(netbuf, FRAME_HDR_SIZE + payloadLen - temp, temp);
        if temp_status != Ok {
          return Failure;
        }
      }
      return Ok;
    }
  }
}
