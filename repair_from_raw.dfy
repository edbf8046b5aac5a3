/**
 * repair_normalised_from_raw.py: load every raw row of the source in
 * batches of `BATCH_SIZE`, wipe the source's normalised rows, and replay the
 * raw rows through the parser, counting each row as a success, a failure or
 * a page the parser rejected.
 *
 * The raw table is the sequence of the source's rows in `external_id` order
 * (the order the batched query asks for); `fails(start)` says whether the
 * request for the batch starting at `start` raises.
 */
module RepairFromRaw {
  import opened Wrappers
  import opened PageParser
  import opened Store

  const SourceName := "mubawab"
  const ListingType := "rent"
  const BatchSize: nat := 200

  /** One row of the select: `external_id` and `payload_json`. */
  datatype RawRecord = RawRecord(externalId: Option<string>, payload: Option<RawPayload>)

  /** `.range(start, start + BATCH_SIZE - 1)`: the rows from `start` on, at most a batch of them. */
  function Batch(table: seq<RawRecord>, start: nat): (b: seq<RawRecord>)
    requires start <= |table|
    ensures |b| <= BatchSize
    ensures start + |b| <= |table|
    ensures b == table[start..start + |b|]
    ensures |b| < BatchSize ==> start + |b| == |table|
  {
    if start + BatchSize <= |table| then table[start..start + BatchSize] else table[start..]
  }

  /** The inclusive range of the batch starting at `start`. */
  function RangeAt(start: nat): (nat, nat) {
    (start, start + BatchSize - 1)
  }

  /**
   * The `while True` loop from `start` on: the rows gathered and the ranges
   * requested. A failing request ends the loop (the caller re-raises it when
   * it is the first), and so does a batch shorter than `BATCH_SIZE`.
   */
  function Gather(table: seq<RawRecord>, start: nat, fails: nat -> bool): (r: (seq<RawRecord>, seq<(nat, nat)>))
    requires start <= |table|
    ensures |r.1| > 0
    ensures start + |r.0| <= |table|
    decreases |table| - start
  {
    if fails(start) then ([], [RangeAt(start)])
    else
      var batch := Batch(table, start);
      if |batch| < BatchSize then (batch, [RangeAt(start)])
      else
        var rest := Gather(table, start + BatchSize, fails);
        (batch + rest.0, [RangeAt(start)] + rest.1)
  }

  /** The ranges requested are consecutive batches: the i-th starts at `start + i * BATCH_SIZE`. */
  lemma GatherRequestsConsecutiveRanges(table: seq<RawRecord>, start: nat, fails: nat -> bool, i: nat)
    requires start <= |table|
    requires i < |Gather(table, start, fails).1|
    ensures Gather(table, start, fails).1[i] == (start + i * BatchSize, start + i * BatchSize + BatchSize - 1)
  {
    GatherRangeAt(table, start, fails, i);
    BatchStartIs(start, i);
    var first := BatchStart(start, i);
    assert Gather(table, start, fails).1[i] == (first, first + BatchSize - 1);
  }

  /** The start of the i-th batch from `start`, one batch at a time. */
  function BatchStart(start: nat, i: nat): nat
    decreases i
  {
    if i == 0 then start else BatchStart(start + BatchSize, i - 1)
  }

  /** The i-th range requested is that of the i-th batch from `start`. */
  lemma {:induction false} GatherRangeAt(table: seq<RawRecord>, start: nat, fails: nat -> bool, i: nat)
    requires start <= |table|
    requires i < |Gather(table, start, fails).1|
    ensures Gather(table, start, fails).1[i] == RangeAt(BatchStart(start, i))
    decreases |table| - start
  {
    if i > 0 {
      assert !fails(start) && |Batch(table, start)| == BatchSize;
      var rest := Gather(table, start + BatchSize, fails);
      assert Gather(table, start, fails).1 == [RangeAt(start)] + rest.1;
      GatherRangeAt(table, start + BatchSize, fails, i - 1);
    }
  }

  lemma {:induction false} BatchStartIs(start: nat, i: nat)
    ensures BatchStart(start, i) == start + i * BatchSize
    decreases i
  {
    if i > 0 {
      BatchStartIs(start + BatchSize, i - 1);
      NextBatchOffset(start, i);
    }
  }

  lemma NextBatchOffset(start: nat, i: nat)
    requires i > 0
    ensures start + BatchSize + (i - 1) * BatchSize == start + i * BatchSize
  {
  }

  /** The rows gathered are the table's rows from `start` on, in order, with none skipped. */
  lemma {:induction false} GatherIsContiguous(table: seq<RawRecord>, start: nat, fails: nat -> bool)
    requires start <= |table|
    ensures var rows := Gather(table, start, fails).0; rows == table[start..start + |rows|]
    decreases |table| - start
  {
    if !fails(start) && |Batch(table, start)| == BatchSize {
      GatherIsContiguous(table, start + BatchSize, fails);
      var rest := Gather(table, start + BatchSize, fails).0;
      assert table[start..start + BatchSize + |rest|] == table[start..start + BatchSize] + table[start + BatchSize..start + BatchSize + |rest|];
    }
  }

  /** Without a failing request every row is loaded, ending with the first short batch. */
  lemma {:induction false} GatherLoadsEverything(table: seq<RawRecord>, start: nat, fails: nat -> bool)
    requires start <= |table|
    requires forall s :: !fails(s)
    ensures Gather(table, start, fails).0 == table[start..]
    decreases |table| - start
  {
    if |Batch(table, start)| == BatchSize {
      GatherLoadsEverything(table, start + BatchSize, fails);
      assert table[start..] == table[start..start + BatchSize] + table[start + BatchSize..];
    }
  }

  /**
   * `fetch_all_raw_listings()`: the error of a failing first batch, else the
   * rows gathered, with the ranges requested.
   */
  function FetchAll(table: seq<RawRecord>, fails: nat -> bool): (r: (Result<seq<RawRecord>>, seq<(nat, nat)>))
    ensures r.0.Failure? <==> fails(0)
    ensures r.0.Success? ==> r.0.value == Gather(table, 0, fails).0
    ensures r.1 == Gather(table, 0, fails).1
  {
    var g := Gather(table, 0, fails);
    (if fails(0) then Failure("first batch request failed") else Success(g.0), g.1)
  }

  /** A later failing batch keeps the rows before it: the result is a prefix of the table. */
  lemma LaterFailureKeepsPrefix(table: seq<RawRecord>, fails: nat -> bool)
    requires !fails(0)
    ensures FetchAll(table, fails).0.Success?
    ensures var rows := FetchAll(table, fails).0.value; rows == table[..|rows|]
  {
    GatherIsContiguous(table, 0, fails);
  }

  /**
   * When the batch at `s` is the first request that fails, the load returns
   * exactly the rows before `s`: every earlier batch was full and kept.
   */
  lemma LaterFailureReturnsRowsBefore(table: seq<RawRecord>, fails: nat -> bool, s: nat)
    requires 0 < s <= |table| && s % BatchSize == 0 && fails(s)
    requires forall k: nat :: k < s && k % BatchSize == 0 ==> !fails(k)
    ensures FetchAll(table, fails).0 == Success(table[..s])
  {
    GatherStopsAtFailure(table, fails, 0, s);
  }

  /** From `start`, with no failure before the batch at `s`, the rows gathered are `table[start..s]`. */
  lemma {:induction false} GatherStopsAtFailure(table: seq<RawRecord>, fails: nat -> bool, start: nat, s: nat)
    requires start <= s <= |table| && (s - start) % BatchSize == 0 && fails(s)
    requires forall k: nat :: start <= k < s && (k - start) % BatchSize == 0 ==> !fails(k)
    ensures Gather(table, start, fails).0 == table[start..s]
    decreases s - start
  {
    if start < s {
      assert !fails(start);
      assert start + BatchSize <= s;
      forall k: nat | start + BatchSize <= k < s && (k - (start + BatchSize)) % BatchSize == 0
        ensures !fails(k)
      {
        assert (k - start) % BatchSize == 0;
      }
      GatherStopsAtFailure(table, fails, start + BatchSize, s);
      assert table[start..s] == table[start..start + BatchSize] + table[start + BatchSize..s];
    }
  }

  /**
   * One turn of the batch loop: with `allRows` and `ranges` gathered so far
   * and the loop from `start` still to come, request the batch, then stop or
   * go on with the next.
   */
  lemma GatherAdvance(table: seq<RawRecord>, start: nat, fails: nat -> bool, allRows: seq<RawRecord>,
                      ranges: seq<(nat, nat)>, total: (seq<RawRecord>, seq<(nat, nat)>))
    requires start <= |table|
    requires allRows + Gather(table, start, fails).0 == total.0
    requires ranges + Gather(table, start, fails).1 == total.1
    ensures var ranges' := ranges + [RangeAt(start)];
      if fails(start) then allRows == total.0 && ranges' == total.1
      else
        var batch := Batch(table, start);
        if |batch| < BatchSize then allRows + batch == total.0 && ranges' == total.1
        else
          var rest := Gather(table, start + BatchSize, fails);
          (allRows + batch) + rest.0 == total.0 && ranges' + rest.1 == total.1
  {
    if !fails(start) && |Batch(table, start)| == BatchSize {
      var batch := Batch(table, start);
      var rest := Gather(table, start + BatchSize, fails);
      assert (allRows + batch) + rest.0 == allRows + (batch + rest.0);
      assert (ranges + [RangeAt(start)]) + rest.1 == ranges + ([RangeAt(start)] + rest.1);
    } else {
      assert allRows + [] == allRows;
    }
  }

  method FetchAllRawListings(table: seq<RawRecord>, fails: nat -> bool) returns (result: Result<seq<RawRecord>>, ranges: seq<(nat, nat)>)
    ensures (result, ranges) == FetchAll(table, fails)
  {
    ghost var total := Gather(table, 0, fails);
    var allRows: seq<RawRecord> := [];
    ranges := [];
    var start: nat := 0;
    assert allRows + total.0 == total.0 && ranges + total.1 == total.1;
    while true
      invariant start <= |table|
      invariant start == 0 ==> allRows == [] && ranges == []
      invariant start > 0 ==> !fails(0)
      invariant allRows + Gather(table, start, fails).0 == total.0
      invariant ranges + Gather(table, start, fails).1 == total.1
      decreases |table| - start
    {
      GatherAdvance(table, start, fails, allRows, ranges, total);
      ranges := ranges + [RangeAt(start)];
      if fails(start) {
        if start == 0 {
          return Failure("first batch request failed"), ranges;
        }
        break;
      }
      var batch := Batch(table, start);
      allRows := allRows + batch;
      if |batch| < BatchSize {
        break;
      }
      start := start + BatchSize;
    }
    result := Success(allRows);
  }

  // ---------------------------------------------------------------- replay

  /** What the loop body does with one raw row. */
  datatype RowOutcome =
    | Invalid                                       // no external_id, or no html or url
    | ParseFailed                                   // parse_property_page raised
    | ParsedNone                                    // parse_property_page returned None
    | UpsertFailed                                  // the upsert call raised
    | Upserted(id: string, details: PropertyDetails, stored: bool)

  datatype Counters = Counters(success: nat, fail: nat, parseNone: nat)

  /**
   * The row's outcome under the page parser `parse`. `upsertCallFits` says
   * whether the upsert call is accepted at all (its keyword arguments match
   * the callee); once it is, the callee swallows a store error, so the row
   * counts as a success whether or not the store took the write (`accepted`).
   */
  function RowOutcomeOf(row: RawRecord, parse: (string, string) -> ParseOutcome, upsertCallFits: bool, accepted: bool): (o: RowOutcome)
    ensures o.Invalid? <==> !Truthy(row.externalId) || row.payload.None? || !Truthy(row.payload.value.html)
                            || !Truthy(row.payload.value.url)
    ensures !o.Invalid? ==>
      var parsed := parse(row.payload.value.url.value, row.payload.value.html.value);
      && (o.ParseFailed? <==> parsed.Raised?)
      && (o.ParsedNone? <==> parsed.NotListing?)
      && (o.UpsertFailed? <==> parsed.Listing? && !upsertCallFits)
      && (o.Upserted? <==> parsed.Listing? && upsertCallFits)
      && (o.Upserted? ==> o.id == row.externalId.value && o.details == parsed.details && o.stored == accepted)
  {
    var payload := row.payload.GetOr(RawPayload(None, None, None));
    if !Truthy(row.externalId) then Invalid
    else if !Truthy(payload.html) || !Truthy(payload.url) then Invalid
    else
      match parse(payload.url.value, payload.html.value)
      case Raised => ParseFailed
      case NotListing => ParsedNone
      case Listing(d) => if upsertCallFits then Upserted(row.externalId.value, d, accepted) else UpsertFailed
  }

  function Count(c: Counters, o: RowOutcome): Counters {
    match o
    case Upserted(_, _, _) => c.(success := c.success + 1)
    case ParsedNone => c.(parseNone := c.parseNone + 1)
    case _ => c.(fail := c.fail + 1)
  }

  function Write(norm: NormalisedTable, o: RowOutcome): NormalisedTable {
    if o.Upserted? && o.stored then norm[o.id := NormalisedRow(SourceName, ListingType, o.details, None)] else norm
  }

  /** The outcome of the i-th row. */
  function OutcomeAt(rows: seq<RawRecord>, i: nat, parse: (string, string) -> ParseOutcome, upsertCallFits: bool,
                     accepts: nat -> bool): RowOutcome
    requires i < |rows|
  {
    RowOutcomeOf(rows[i], parse, upsertCallFits, accepts(i))
  }

  /** The counters and the normalised table after the first `n` rows. */
  function Replay(norm: NormalisedTable, rows: seq<RawRecord>, n: nat, parse: (string, string) -> ParseOutcome,
                  upsertCallFits: bool, accepts: nat -> bool): (r: (Counters, NormalisedTable))
    requires n <= |rows|
  {
    if n == 0 then (Counters(0, 0, 0), norm)
    else
      var prev := Replay(norm, rows, n - 1, parse, upsertCallFits, accepts);
      var o := OutcomeAt(rows, n - 1, parse, upsertCallFits, accepts);
      (Count(prev.0, o), Write(prev.1, o))
  }

  /** The outcomes `success_count` counts. */
  predicate Succeeded(o: RowOutcome) { o.Upserted? }

  /** The outcomes `fail_count` counts: invalid rows, parser exceptions and refused upsert calls. */
  predicate Failed(o: RowOutcome) { o.Invalid? || o.ParseFailed? || o.UpsertFailed? }

  /** The outcomes `parse_none_count` counts. */
  predicate Rejected(o: RowOutcome) { o.ParsedNone? }

  /** How many of the first `n` rows have an outcome satisfying `p`. */
  function Tally(rows: seq<RawRecord>, n: nat, parse: (string, string) -> ParseOutcome, upsertCallFits: bool,
                 accepts: nat -> bool, p: RowOutcome -> bool): (k: nat)
    requires n <= |rows|
    ensures k <= n
  {
    if n == 0 then 0
    else Tally(rows, n - 1, parse, upsertCallFits, accepts, p) + if p(OutcomeAt(rows, n - 1, parse, upsertCallFits, accepts)) then 1 else 0
  }

  /**
   * Each counter counts its own outcomes: `success_count` the upserted rows,
   * `fail_count` the invalid rows, the parser exceptions and the refused
   * upsert calls, `parse_none_count` the pages the parser rejected.
   */
  lemma {:induction false} ReplayCounters(norm: NormalisedTable, rows: seq<RawRecord>, n: nat, parse: (string, string) -> ParseOutcome,
                                          upsertCallFits: bool, accepts: nat -> bool)
    requires n <= |rows|
    ensures var c := Replay(norm, rows, n, parse, upsertCallFits, accepts).0;
      && c.success == Tally(rows, n, parse, upsertCallFits, accepts, Succeeded)
      && c.fail == Tally(rows, n, parse, upsertCallFits, accepts, Failed)
      && c.parseNone == Tally(rows, n, parse, upsertCallFits, accepts, Rejected)
  {
    if n > 0 {
      ReplayCounters(norm, rows, n - 1, parse, upsertCallFits, accepts);
    }
  }

  /** Every row is counted exactly once: the three counters add up to the rows seen. */
  lemma {:induction false} CountersPartitionRows(norm: NormalisedTable, rows: seq<RawRecord>, n: nat, parse: (string, string) -> ParseOutcome,
                                                 upsertCallFits: bool, accepts: nat -> bool)
    requires n <= |rows|
    ensures var c := Replay(norm, rows, n, parse, upsertCallFits, accepts).0;
      c.success + c.fail + c.parseNone == n
  {
    if n > 0 {
      CountersPartitionRows(norm, rows, n - 1, parse, upsertCallFits, accepts);
    }
  }

  /**
   * The successes are exactly the upserted rows, and a key gains a row only
   * from an upserted row bearing that id: invalid rows, parser failures and
   * rejected pages write nothing.
   */
  lemma {:induction false} OnlyUpsertedRowsWrite(norm: NormalisedTable, rows: seq<RawRecord>, n: nat, parse: (string, string) -> ParseOutcome,
                                                 upsertCallFits: bool, accepts: nat -> bool,
                                                 key: string)
    requires n <= |rows|
    requires forall i :: 0 <= i < n ==> var o := OutcomeAt(rows, i, parse, upsertCallFits, accepts); !(o.Upserted? && o.id == key)
    ensures var t := Replay(norm, rows, n, parse, upsertCallFits, accepts).1;
      (key in t <==> key in norm) && (key in t ==> t[key] == norm[key])
  {
    if n > 0 {
      OnlyUpsertedRowsWrite(norm, rows, n - 1, parse, upsertCallFits, accepts, key);
    }
  }

  /**
   * After the wipe, every normalised row of the source was written by the
   * replay: a row of the source under `key` means some raw row with that
   * id was upserted.
   */
  lemma {:induction false} SourceRowsComeFromReplay(norm: NormalisedTable, rows: seq<RawRecord>, n: nat, parse: (string, string) -> ParseOutcome,
                                                    upsertCallFits: bool, accepts: nat -> bool,
                                                    key: string)
    requires n <= |rows|
    requires var t := Replay(WithoutSource(norm, SourceName), rows, n, parse, upsertCallFits, accepts).1;
      key in t && t[key].source == SourceName
    ensures exists i :: 0 <= i < n && OutcomeAt(rows, i, parse, upsertCallFits, accepts).Upserted?
                                   && rows[i].externalId == Some(key)
  {
    var o := OutcomeAt(rows, n - 1, parse, upsertCallFits, accepts);
    if n == 0 {
      assert false;
    } else if o.Upserted? && o.id == key {
      assert rows[n - 1].externalId == Some(key);
    } else {
      SourceRowsComeFromReplay(norm, rows, n - 1, parse, upsertCallFits, accepts, key);
    }
  }

  /**
   * As written nothing is ever normalised: the upsert call passes keyword
   * arguments `upsert_normalised_listing` does not take, so every row that
   * gets that far fails, `success_count` stays 0 and the wiped table stays
   * wiped, whatever the parser yields.
   */
  lemma {:induction false} AsWrittenNoSuccess(norm: NormalisedTable, rows: seq<RawRecord>, n: nat,
                                              parse: (string, string) -> ParseOutcome, accepts: nat -> bool)
    requires n <= |rows|
    ensures var r := Replay(norm, rows, n, parse, false, accepts);
      r.0.success == 0 && r.1 == norm
  {
    if n > 0 {
      AsWrittenNoSuccess(norm, rows, n - 1, parse, accepts);
    }
  }

  /**
   * With the call repaired (and the parser's coordinates repaired), a valid
   * row whose page passes the anchor gate is a success, and the record it
   * writes is the page's own.
   */
  lemma CorrectedReplayUpserts(row: RawRecord, soup: string -> Doc, accepted: bool)
    requires Truthy(row.externalId) && row.payload.Some?
    requires Truthy(row.payload.value.html) && Truthy(row.payload.value.url)
    requires AnchorsPresent(soup(row.payload.value.html.value))
    ensures var o := RowOutcomeOf(row, PageParse(soup, ExtractCoordinatesIntended), true, accepted);
      o.Upserted? && o.id == row.externalId.value && o.details.url == row.payload.value.url.value && o.stored == accepted
  {
    var url, html := row.payload.value.url.value, row.payload.value.html.value;
    var doc := soup(html);
    assert PageParse(soup, ExtractCoordinatesIntended)(url, html) == Parse(url, doc, Success(doc.coordinates));
    ParseKeepsLink(url, doc, Success(doc.coordinates));
  }

  /**
   * `rebuild_normalised_from_raw()`: load (a failing first batch raises
   * before anything is written), wipe the source's rows, then replay.
   */
  method RebuildNormalisedFromRaw(db: Database, table: seq<RawRecord>, fails: nat -> bool,
                                  parse: (string, string) -> ParseOutcome, upsertCallFits: bool, accepts: nat -> bool)
    returns (counts: Result<Counters>)
    modifies db
    ensures FetchAll(table, fails).0.Failure? ==> counts.Failure? && db.normalisedListings == old(db.normalisedListings)
    ensures FetchAll(table, fails).0.Success? ==>
      var rows := FetchAll(table, fails).0.value;
      var r := Replay(WithoutSource(old(db.normalisedListings), SourceName), rows, |rows|, parse, upsertCallFits, accepts);
      counts == Success(r.0) && db.normalisedListings == r.1
    ensures db.rawListings == old(db.rawListings) && db.listingImages == old(db.listingImages)
  {
    var loaded, _ := FetchAllRawListings(table, fails);
    if loaded.Failure? {
      return Failure(loaded.error);
    }
    var rows := loaded.value;
    db.WipeSource(SourceName);
    var tally := ReplayRows(db, rows, parse, upsertCallFits, accepts);
    counts := Success(tally);
  }

  /** The `for row in raw_rows` loop: the three counters, with the upserts it performs. */
  method ReplayRows(db: Database, rows: seq<RawRecord>, parse: (string, string) -> ParseOutcome,
                    upsertCallFits: bool, accepts: nat -> bool) returns (counts: Counters)
    modifies db
    ensures var r := Replay(old(db.normalisedListings), rows, |rows|, parse, upsertCallFits, accepts);
      counts == r.0 && db.normalisedListings == r.1
    ensures db.rawListings == old(db.rawListings) && db.listingImages == old(db.listingImages)
  {
    var success, fail, parseNone := 0, 0, 0;
    for i := 0 to |rows|
      invariant Replay(old(db.normalisedListings), rows, i, parse, upsertCallFits, accepts)
                == (Counters(success, fail, parseNone), db.normalisedListings)
      invariant db.rawListings == old(db.rawListings) && db.listingImages == old(db.listingImages)
    {
      var outcome := ReplayRow(db, rows[i], parse, upsertCallFits, accepts(i));
      match outcome {
        case Upserted(_, _, _) => success := success + 1;
        case ParsedNone => parseNone := parseNone + 1;
        case _ => fail := fail + 1;
      }
    }
    counts := Counters(success, fail, parseNone);
  }

  /** The loop body of the replay for one row: classify it, and upsert its record when it parses. */
  method ReplayRow(db: Database, row: RawRecord, parse: (string, string) -> ParseOutcome,
                   upsertCallFits: bool, accepted: bool) returns (outcome: RowOutcome)
    modifies db
    ensures outcome == RowOutcomeOf(row, parse, upsertCallFits, accepted)
    ensures db.normalisedListings == Write(old(db.normalisedListings), outcome)
    ensures db.rawListings == old(db.rawListings) && db.listingImages == old(db.listingImages)
  {
    var payload := row.payload.GetOr(RawPayload(None, None, None));
    var url, html := payload.url, payload.html;
    if !Truthy(row.externalId) {
      return Invalid;
    }
    if !Truthy(html) || !Truthy(url) {
      return Invalid;
    }
    var parsed := parse(url.value, html.value);
    if parsed.Raised? {
      return ParseFailed;
    }
    if parsed.NotListing? {
      return ParsedNone;
    }
    if !upsertCallFits {
      return UpsertFailed;
    }
    if accepted {
      db.UpsertFullRow(row.externalId.value, parsed.details, SourceName, ListingType, None);
    }
    outcome := Upserted(row.externalId.value, parsed.details, accepted);
  }
}
