/** The receipt ledger: a bounded map in memory, or an append-only log that survives a crash. */
module Receipts {
  import opened Basics
  import opened Fleet
  import opened LittleEndian

  const MAX_RECORD_BYTES: nat := 16 * 1024 * 1024

  /** The wire encoding of reports. */
  datatype Codec = Codec(encode: Report -> Bytes, decode: Bytes -> Option<Report>)

  /** Encodings are non-empty and decode to what was encoded. */
  ghost predicate Lawful(codec: Codec)
  {
    forall r: Report :: |codec.encode(r)| > 0 && codec.decode(codec.encode(r)) == Some(r)
  }

  // ---- the log -----------------------------------------------------------------------------

  predicate Storable(encoded: Bytes)
  {
    0 < |encoded| <= MAX_RECORD_BYTES
  }

  function Record(encoded: Bytes): Bytes
    requires Storable(encoded)
  {
    Encode(|encoded|, 4) + encoded
  }

  ghost predicate AllStorable(records: seq<Bytes>)
  {
    forall k :: 0 <= k < |records| ==> Storable(records[k])
  }

  /** The records one after another. */
  ghost function LogOf(records: seq<Bytes>): Bytes
    requires AllStorable(records)
  {
    if records == [] then [] else LogOf(records[..|records| - 1]) + Record(records[|records| - 1])
  }

  datatype LedgerError = InvalidLength | Undecodable | Conflicting

  datatype Recovered = Recovered(receipts: map<JobId, Bytes>, validBytes: nat)

  /** The next complete record at an offset, if there is one. */
  datatype Piece = End | Bad(error: LedgerError) | Whole(encoded: Bytes, job: JobId)

  function PieceAt(codec: Codec, log: Bytes, at: nat): Piece
    requires at <= |log|
  {
    if |log| - at < 4 then End
    else
      var length := Decode(log[at..at + 4]);
      if length == 0 || length > MAX_RECORD_BYTES then Bad(InvalidLength)
      else if |log| - at - 4 < length then End
      else
        var encoded := log[at + 4..at + 4 + length];
        match codec.decode(encoded)
        case None => Bad(Undecodable)
        case Some(report) => Whole(encoded, report.job)
  }

  /** Reading from an offset with some receipts collected. */
  ghost function ReadFrom(codec: Codec, log: Bytes, at: nat, receipts: map<JobId, Bytes>)
    : Result<Recovered, LedgerError>
    requires at <= |log|
    decreases |log| - at
  {
    match PieceAt(codec, log, at)
    case End => Ok(Recovered(receipts, at))
    case Bad(error) => Err(error)
    case Whole(encoded, job) =>
      if job in receipts && receipts[job] != encoded then Err(Conflicting)
      else ReadFrom(codec, log, at + 4 + |encoded|, receipts[job := encoded])
  }

  /** `read_receipts`. */
  method ReadReceipts(codec: Codec, log: Bytes) returns (r: Result<Recovered, LedgerError>)
    ensures r == ReadFrom(codec, log, 0, map[])
    ensures r.Ok? ==> r.value.validBytes <= |log|
  {
    var receipts: map<JobId, Bytes> := map[];
    var at := 0;
    while true
      invariant at <= |log| && ReadFrom(codec, log, 0, map[]) == ReadFrom(codec, log, at, receipts)
      decreases |log| - at
    {
      match PieceAt(codec, log, at) {
        case End => return Ok(Recovered(receipts, at));
        case Bad(error) => return Err(error);
        case Whole(encoded, job) =>
          if job in receipts && receipts[job] != encoded {
            return Err(Conflicting);
          }
          receipts := receipts[job := encoded];
          at := at + 4 + |encoded|;
      }
    }
  }

  // ---- what a log of committed reports contains --------------------------------------------

  /** Each record is the encoding of a report, and no two are about one job. */
  ghost predicate Committed(codec: Codec, records: seq<Bytes>, reports: seq<Report>)
  {
    && AllStorable(records) && |records| == |reports|
    && (forall k :: 0 <= k < |records| ==> records[k] == codec.encode(reports[k]))
    && (forall i, j :: 0 <= i < j < |reports| ==> reports[i].job != reports[j].job)
  }

  /** The receipts of the first reports. */
  ghost function ReceiptsOf(records: seq<Bytes>, reports: seq<Report>): map<JobId, Bytes>
    requires |records| == |reports|
  {
    if reports == [] then map[]
    else
      var n := |reports| - 1;
      ReceiptsOf(records[..n], reports[..n])[reports[n].job := records[n]]
  }

  lemma CommittedPrefix(codec: Codec, records: seq<Bytes>, reports: seq<Report>, k: nat)
    requires Committed(codec, records, reports) && k <= |records|
    ensures Committed(codec, records[..k], reports[..k])
  {
  }

  lemma {:induction false} ReceiptsOfJobs(records: seq<Bytes>, reports: seq<Report>)
    requires |records| == |reports|
    ensures forall j :: j in ReceiptsOf(records, reports) <==> exists k :: 0 <= k < |reports| && reports[k].job == j
  {
    if reports != [] {
      var n := |reports| - 1;
      ReceiptsOfJobs(records[..n], reports[..n]);
      forall j
        ensures j in ReceiptsOf(records, reports) <==> exists k :: 0 <= k < |reports| && reports[k].job == j
      {
        if j in ReceiptsOf(records[..n], reports[..n]) {
          var k :| 0 <= k < n && reports[..n][k].job == j;
          assert reports[k].job == j;
        }
        if k :| 0 <= k < |reports| && reports[k].job == j {
          if k < n { assert reports[..n][k].job == j; }
        }
      }
    }
  }

  lemma {:induction false} LogOfPrefix(records: seq<Bytes>, k: nat)
    requires AllStorable(records) && k <= |records|
    ensures LogOf(records[..k]) <= LogOf(records)
    decreases |records|
  {
    if k == |records| {
      assert records[..k] == records;
    } else {
      var init := records[..|records| - 1];
      LogOfPrefix(init, k);
      assert init[..k] == records[..k];
    }
  }

  lemma LogOfStep(records: seq<Bytes>, k: nat)
    requires AllStorable(records) && k < |records|
    ensures LogOf(records[..k + 1]) == LogOf(records[..k]) + Record(records[k])
  {
    assert records[..k + 1][..k] == records[..k];
  }

  /** How many records are complete in the first `n` bytes. */
  ghost predicate CompleteIn(records: seq<Bytes>, k: nat, n: nat)
    requires AllStorable(records)
  {
    && k <= |records| && |LogOf(records[..k])| <= n
    && (k < |records| ==> n < |LogOf(records[..k + 1])|)
  }

  /** A complete record at an offset is read as such. */
  lemma PieceFound(codec: Codec, log: Bytes, at: nat, report: Report)
    requires Lawful(codec) && Storable(codec.encode(report)) && at + 4 + |codec.encode(report)| <= |log|
    requires log[at..at + 4] == Encode(|codec.encode(report)|, 4)
    requires log[at + 4..at + 4 + |codec.encode(report)|] == codec.encode(report)
    ensures PieceAt(codec, log, at) == Whole(codec.encode(report), report.job)
  {
    hide Encode, Decode;
    Bounds();
    EncodeRoundTrip(|codec.encode(report)|, 4);
  }

  /** Where a complete record starts, reading finds it. */
  lemma PieceIsRecord(codec: Codec, records: seq<Bytes>, reports: seq<Report>, n: nat, i: nat)
    requires Lawful(codec) && Committed(codec, records, reports) && n <= |LogOf(records)|
    requires i < |records| && |LogOf(records[..i + 1])| <= n
    ensures |LogOf(records[..i])| <= n
    ensures PieceAt(codec, LogOf(records)[..n], |LogOf(records[..i])|) == Whole(records[i], reports[i].job)
  {
    hide LogOf, PieceAt, Encode;
    var log, at, record := LogOf(records), |LogOf(records[..i])|, Record(records[i]);
    LogOfStep(records, i);
    LogOfPrefix(records, i + 1);
    SliceOf(log, LogOf(records[..i]), record, n);
    assert log[..n][at + 0..at + 4] == record[0..4] == Encode(|records[i]|, 4);
    assert log[..n][at + 4..at + (4 + |records[i]|)] == record[4..4 + |records[i]|] == records[i];
    PieceFound(codec, log[..n], at, reports[i]);
  }

  lemma SliceOf(log: Bytes, before: Bytes, record: Bytes, n: nat)
    requires before + record <= log && |before + record| <= n <= |log|
    ensures log[..n][|before|..|before| + |record|] == record
    ensures forall i, j :: 0 <= i <= j <= |record| ==> log[..n][|before| + i..|before| + j] == record[i..j]
  {
    assert forall k :: 0 <= k < |record| ==> log[|before| + k] == (before + record)[|before| + k] == record[k];
  }

  /** Where the last record is cut, reading stops without complaint. */
  lemma PieceIsEnd(codec: Codec, records: seq<Bytes>, n: nat, k: nat)
    requires AllStorable(records) && n <= |LogOf(records)| && CompleteIn(records, k, n)
    ensures PieceAt(codec, LogOf(records)[..n], |LogOf(records[..k])|) == End
  {
    hide LogOf, Decode, Encode;
    var log, at := LogOf(records), |LogOf(records[..k])|;
    if k < |records| && n - at >= 4 {
      LogOfStep(records, k);
      LogOfPrefix(records, k + 1);
      Bounds();
      EncodeRoundTrip(|records[k]|, 4);
      var record := Record(records[k]);
      SliceOf(log, LogOf(records[..k]), record, |log|);
      assert log[..|log|] == log;
      assert log[at + 0..at + 4] == record[0..4];
      assert log[..n][at..at + 4] == log[at..at + 4];
      assert record[0..4] == Encode(|records[k]|, 4);
    } else if k == |records| {
      assert records[..k] == records;
    }
  }

  /** Reading from a record boundary collects the remaining complete records. */
  lemma {:induction false} ReadsComplete(codec: Codec, records: seq<Bytes>, reports: seq<Report>, n: nat, k: nat,
                                         i: nat)
    requires Lawful(codec) && Committed(codec, records, reports) && n <= |LogOf(records)|
    requires CompleteIn(records, k, n) && i <= k
    ensures |LogOf(records[..i])| <= n
    ensures ReadFrom(codec, LogOf(records)[..n], |LogOf(records[..i])|, ReceiptsOf(records[..i], reports[..i]))
            == Ok(Recovered(ReceiptsOf(records[..k], reports[..k]), |LogOf(records[..k])|))
    decreases k - i
  {
    hide PieceAt, LogOf, Lawful, ReceiptsOf;
    LogMonotone(records, i, k);
    if i == k {
      PieceIsEnd(codec, records, n, k);
    } else {
      LogMonotone(records, i + 1, k);
      PieceIsRecord(codec, records, reports, n, i);
      ReceiptsStep(codec, records, reports, i);
      LogOfStep(records, i);
      ReadsComplete(codec, records, reports, n, k, i + 1);
    }
  }

  lemma LogMonotone(records: seq<Bytes>, i: nat, k: nat)
    requires AllStorable(records) && i <= k <= |records|
    ensures |LogOf(records[..i])| <= |LogOf(records[..k])|
  {
    LogOfPrefix(records[..k], i);
    assert records[..k][..i] == records[..i];
  }

  lemma ReceiptsStep(codec: Codec, records: seq<Bytes>, reports: seq<Report>, i: nat)
    requires Committed(codec, records, reports) && i < |records|
    ensures reports[i].job !in ReceiptsOf(records[..i], reports[..i])
    ensures ReceiptsOf(records[..i + 1], reports[..i + 1])
            == ReceiptsOf(records[..i], reports[..i])[reports[i].job := records[i]]
  {
    ReceiptsOfJobs(records[..i], reports[..i]);
    assert records[..i + 1][..i] == records[..i] && reports[..i + 1][..i] == reports[..i];
  }

  /** Some number of records is complete in any truncation. */
  lemma {:induction false} CompleteCount(records: seq<Bytes>, n: nat) returns (k: nat)
    requires AllStorable(records)
    ensures CompleteIn(records, k, n)
  {
    k := 0;
    while k < |records| && |LogOf(records[..k + 1])| <= n
      invariant k <= |records| && |LogOf(records[..k])| <= n
    {
      k := k + 1;
    }
  }

  /**
   * Crash recovery: after any truncation of a log of committed reports, reading recovers exactly the fully
   * written records and finds the boundary of the last one.
   */
  lemma TruncatedLogRecovers(codec: Codec, records: seq<Bytes>, reports: seq<Report>, n: nat, k: nat)
    requires Lawful(codec) && Committed(codec, records, reports) && n <= |LogOf(records)| && CompleteIn(records, k, n)
    ensures ReadFrom(codec, LogOf(records)[..n], 0, map[])
            == Ok(Recovered(ReceiptsOf(records[..k], reports[..k]), |LogOf(records[..k])|))
    ensures LogOf(records)[..n][..|LogOf(records[..k])|] == LogOf(records[..k])
  {
    hide PieceAt, ReadFrom;
    ReadsComplete(codec, records, reports, n, k, 0);
    LogOfPrefix(records, k);
  }

  lemma {:induction false} ReceiptsOfPrefix(codec: Codec, records: seq<Bytes>, reports: seq<Report>, i: nat, k: nat)
    requires Committed(codec, records, reports) && i <= k <= |records|
    ensures forall job :: job in ReceiptsOf(records[..i], reports[..i]) ==>
              && job in ReceiptsOf(records[..k], reports[..k])
              && ReceiptsOf(records[..k], reports[..k])[job] == ReceiptsOf(records[..i], reports[..i])[job]
    decreases k
  {
    hide ReceiptsOf, Committed;
    if i < k {
      ReceiptsOfPrefix(codec, records, reports, i, k - 1);
      ReceiptsStep(codec, records, reports, k - 1);
    }
  }

  /** Records that were complete before a crash are complete after it. */
  lemma CompleteSurvive(codec: Codec, before: seq<Bytes>, reported: seq<Report>, records: seq<Bytes>,
                        reports: seq<Report>, n: nat, k: nat)
    requires Committed(codec, records, reports) && before <= records && reported <= reports && |before| == |reported|
    requires AllStorable(before) && |LogOf(before)| <= n && CompleteIn(records, k, n)
    ensures forall job :: job in ReceiptsOf(before, reported) ==>
              && job in ReceiptsOf(records[..k], reports[..k])
              && ReceiptsOf(records[..k], reports[..k])[job] == ReceiptsOf(before, reported)[job]
  {
    hide ReceiptsOf, LogOf;
    var i := |before|;
    assert before == records[..i] && reported == reports[..i];
    if k < i {
      LogMonotone(records, k + 1, i);
      assert false;
    }
    ReceiptsOfPrefix(codec, records, reports, i, k);
  }

  // ---- the ledger --------------------------------------------------------------------------

  datatype ReceiptState = Missing | Identical | Conflict

  class ReceiptLedger {
    const config: LedgerConfig
    const codec: Codec
    /** The bytes of the log file; unused in memory. */
    var log: Bytes
    var receipts: map<JobId, Bytes>
    /** The committed reports, in order, with their encodings. */
    ghost var records: seq<Bytes>
    ghost var reports: seq<Report>

    ghost predicate Valid()
      reads this
    {
      && Lawful(codec)
      && (config.Memory? ==> |receipts| <= config.capacity)
      && (config.Directory? ==>
            && Committed(codec, records, reports)
            && log == LogOf(records) && receipts == ReceiptsOf(records, reports))
    }

    constructor InMemory(codec: Codec, capacity: nat)
      requires Lawful(codec)
      ensures Valid() && config == Memory(capacity) && this.codec == codec && receipts == map[]
    {
      config, this.codec, log, receipts := LedgerConfig.Memory(capacity), codec, [], map[];
      records, reports := [], [];
    }

    /** A file ledger over what reading its log gave. */
    constructor OnLog(codec: Codec, log: Bytes, receipts: map<JobId, Bytes>, ghost records: seq<Bytes>,
                      ghost reports: seq<Report>)
      requires Lawful(codec) && Committed(codec, records, reports)
      requires log == LogOf(records) && receipts == ReceiptsOf(records, reports)
      ensures Valid() && config == Directory && this.codec == codec
      ensures this.log == log && this.receipts == receipts && this.records == records && this.reports == reports
    {
      config, this.codec, this.log, this.receipts := Directory, codec, log, receipts;
      this.records, this.reports := records, reports;
    }

    /** `can_admit`. */
    predicate CanAdmit(activeJobs: nat)
      reads this
    {
      config.Memory? ==> activeJobs + |receipts| < config.capacity
    }

    /** `state`. */
    function StateOf(job: JobId, report: Report): ReceiptState
      reads this
    {
      if job !in receipts then Missing
      else if receipts[job] == codec.encode(report) then Identical
      else Conflict
    }

    /** `commit`: the first report of a job is recorded, in the log before the map; later ones change nothing. */
    method Commit(report: Report) returns (r: Result<ReceiptState, ServiceError>)
      requires Valid()
      modifies this
      ensures Valid()
      ensures r == Ok(Identical) <==> report.job in old(receipts) && old(receipts)[report.job] == codec.encode(report)
      ensures r == Ok(Conflict) <==> report.job in old(receipts) && old(receipts)[report.job] != codec.encode(report)
      ensures r == Ok(Missing) <==> r.Ok? && report.job !in old(receipts)
      ensures r == Ok(Missing) ==>
                && receipts == old(receipts)[report.job := codec.encode(report)]
                && (config.Directory? ==>
                      && records == old(records) + [codec.encode(report)] && reports == old(reports) + [report]
                      && old(log) <= log)
      ensures r != Ok(Missing) ==> receipts == old(receipts) && log == old(log)
      ensures r.Err? <==>
                && report.job !in old(receipts)
                && (config.Memory? ==> |old(receipts)| >= config.capacity)
                && (config.Directory? ==> |codec.encode(report)| > MAX_RECORD_BYTES)
    {
      if report.job in receipts {
        return Ok(StateOf(report.job, report));
      }
      var encoded := codec.encode(report);
      if config.Memory? {
        if |receipts| >= config.capacity {
          return Err(Capacity("coordinator receipt ledger is full"));
        }
        receipts := receipts[report.job := encoded];
      } else {
        if |encoded| > MAX_RECORD_BYTES {
          return Err(Capacity("receipt record is too large"));
        }
        LogGrows(codec, records, reports, report);
        log := log + Encode(|encoded|, 4) + encoded;
        receipts := receipts[report.job := encoded];
        records, reports := records + [encoded], reports + [report];
      }
      r := Ok(Missing);
    }
  }

  /** Appending one more committed report. */
  lemma LogGrows(codec: Codec, records: seq<Bytes>, reports: seq<Report>, report: Report)
    requires Lawful(codec) && Committed(codec, records, reports) && report.job !in ReceiptsOf(records, reports)
    requires |codec.encode(report)| <= MAX_RECORD_BYTES
    ensures var encoded := codec.encode(report);
            && Storable(encoded)
            && Committed(codec, records + [encoded], reports + [report])
            && LogOf(records + [encoded]) == LogOf(records) + Encode(|encoded|, 4) + encoded
            && ReceiptsOf(records + [encoded], reports + [report])
              == ReceiptsOf(records, reports)[report.job := encoded]
  {
    hide Encode, LogOf, ReceiptsOf;
    var encoded := codec.encode(report);
    ReceiptsOfJobs(records, reports);
    var records', reports' := records + [encoded], reports + [report];
    assert records'[..|records|] == records && reports'[..|reports|] == reports;
    assert records'[..|records| + 1] == records' && reports'[..|reports| + 1] == reports';
    NewJobCommitted(codec, records, reports, report);
    LogOfStep(records', |records|);
    ReceiptsStep(codec, records', reports', |records|);
  }

  lemma NewJobCommitted(codec: Codec, records: seq<Bytes>, reports: seq<Report>, report: Report)
    requires Committed(codec, records, reports) && Storable(codec.encode(report))
    requires forall k :: 0 <= k < |reports| ==> reports[k].job != report.job
    ensures Committed(codec, records + [codec.encode(report)], reports + [report])
  {
  }

  /**
   * `open_file_ledger` after a crash left only the first `n` bytes of a log of committed reports: the ledger
   * holds exactly the complete records, its file is cut at the last boundary, and it is ready for appends.
   */
  method Reopen(codec: Codec, log: Bytes, ghost records: seq<Bytes>, ghost reports: seq<Report>, ghost n: nat)
    returns (ledger: ReceiptLedger, ghost k: nat)
    requires Lawful(codec) && Committed(codec, records, reports) && n <= |LogOf(records)| && log == LogOf(records)[..n]
    ensures fresh(ledger) && ledger.Valid() && ledger.config == Directory && ledger.codec == codec
    ensures CompleteIn(records, k, n)
    ensures ledger.records == records[..k] && ledger.reports == reports[..k]
    ensures ledger.log == LogOf(records[..k]) && ledger.receipts == ReceiptsOf(records[..k], reports[..k])
  {
    hide ReadFrom, LogOf, Lawful;
    k := CompleteCount(records, n);
    TruncatedLogRecovers(codec, records, reports, n, k);
    CommittedPrefix(codec, records, reports, k);
    var read := ReadReceipts(codec, log);
    var recovered := read.value;
    var kept := log;
    if recovered.validBytes != |log| {
      kept := log[..recovered.validBytes];
    }
    ledger := new ReceiptLedger.OnLog(codec, kept, recovered.receipts, records[..k], reports[..k]);
  }
}
