/**
 * repair_missing_normalised.py: find the external ids that have a raw row but
 * no normalised row, and rebuild each one from the page stored in its raw
 * row, together with placeholder rows for its images.
 *
 * `parse` stands for `parse_property_page(url, html)` (`PageParse` of the
 * parser module with the BeautifulSoup step and the coordinate extraction);
 * an exception it raises, or any other raised in a repair, ends the whole
 * script, which is a `Failure` here.
 */
module RepairMissing {
  import opened Wrappers
  import opened Text
  import opened PageParser
  import opened Store

  const SourceName := "mubawab"
  const ListingType := "rent"

  // ---------------------------------------------------------------- get_missing_normalised_ids

  /** Strictly ascending in Python's string order, hence without duplicates. */
  ghost predicate Ascending(s: seq<string>) {
    forall i, j :: 0 <= i < j < |s| ==> Below(s[i], s[j])
  }

  /** `x` put into its place in an ascending list, unless it is there already. */
  function InsertSorted(x: string, s: seq<string>): (r: seq<string>)
    ensures forall y :: y in r <==> y == x || y in s
  {
    if s == [] then [x]
    else if x == s[0] then s
    else if Below(x, s[0]) then [x] + s
    else [s[0]] + InsertSorted(x, s[1..])
  }

  lemma {:induction false} InsertSortedAscending(x: string, s: seq<string>)
    requires Ascending(s)
    ensures Ascending(InsertSorted(x, s))
  {
    if s == [] || x == s[0] {
    } else if Below(x, s[0]) {
      var r := [x] + s;
      forall i, j | 0 <= i < j < |r| ensures Below(r[i], r[j]) {
        if i == 0 && j > 1 {
          BelowTransitive(x, s[0], s[j - 1]);
        }
      }
    } else {
      BelowTotal(x, s[0]);
      InsertSortedAscending(x, s[1..]);
      var rest := InsertSorted(x, s[1..]);
      forall j | 0 <= j < |rest| ensures Below(s[0], rest[j]) {
        if rest[j] != x {
          assert rest[j] in s[1..];
          var k :| 0 <= k < |s[1..]| && s[1..][k] == rest[j];
          assert s[k + 1] == rest[j];
        }
      }
      var r := [s[0]] + rest;
      forall i, j | 0 <= i < j < |r| ensures Below(r[i], r[j]) {
        if i > 0 {
          assert r[i] == rest[i - 1] && r[j] == rest[j - 1];
        }
      }
    }
  }

  /**
   * `sorted(list(raw_ids - norm_ids))`, where `rawIds` and `normIds` are the
   * external_id columns of the two selects, in whatever order they come.
   */
  function MissingIds(rawIds: seq<string>, normIds: seq<string>): (missing: seq<string>)
    ensures forall x :: x in missing <==> x in rawIds && x !in normIds
    decreases |rawIds|
  {
    if rawIds == [] then []
    else
      var x := rawIds[|rawIds| - 1];
      var rest := MissingIds(rawIds[..|rawIds| - 1], normIds);
      assert forall y :: y in rawIds <==> y in rawIds[..|rawIds| - 1] || y == x;
      if x in normIds then rest else InsertSorted(x, rest)
  }

  /** The missing ids come out in ascending order, each once. */
  lemma {:induction false} MissingIdsAscending(rawIds: seq<string>, normIds: seq<string>)
    ensures Ascending(MissingIds(rawIds, normIds))
    ensures var m := MissingIds(rawIds, normIds); forall i, j :: 0 <= i < j < |m| ==> m[i] != m[j]
    decreases |rawIds|
  {
    if rawIds != [] {
      var x := rawIds[|rawIds| - 1];
      MissingIdsAscending(rawIds[..|rawIds| - 1], normIds);
      if x !in normIds {
        InsertSortedAscending(x, MissingIds(rawIds[..|rawIds| - 1], normIds));
      }
    }
    var m := MissingIds(rawIds, normIds);
    forall i, j | 0 <= i < j < |m| ensures m[i] != m[j] {
      BelowIrreflexive(m[i]);
    }
  }

  /** A `select("external_id")` over a table: every key once, in an order the store chooses. */
  method SelectIds<V>(table: map<string, V>) returns (ids: seq<string>)
    ensures forall x :: x in ids <==> x in table
  {
    var left := table.Keys;
    ids := [];
    while left != {}
      invariant left <= table.Keys
      invariant forall x :: x in ids <==> x in table && x !in left
      decreases |left|
    {
      var x :| x in left;
      ids := ids + [x];
      left := left - {x};
    }
  }

  /** `get_missing_normalised_ids()`: every raw id, of any source, that has no normalised row. */
  method GetMissingNormalisedIds(db: Database) returns (missing: seq<string>)
    ensures Ascending(missing)
    ensures forall x :: x in missing <==> x in db.rawListings && x !in db.normalisedListings
  {
    var rawIds := SelectIds(db.rawListings);
    var normIds := SelectIds(db.normalisedListings);
    missing := MissingIds(rawIds, normIds);
    MissingIdsAscending(rawIds, normIds);
  }

  // ---------------------------------------------------------------- repair_listing_images

  /**
   * The image table after the loop over the first `n` urls: an index whose
   * row exists is skipped, a missing one gets a placeholder row holding the
   * original url and no storage path.
   */
  function FillImages(images: ImageTable, id: string, urls: seq<string>, n: nat): ImageTable
    requires n <= |urls|
  {
    if n == 0 then images
    else
      var t := FillImages(images, id, urls, n - 1);
      if (id, n - 1) in t then t else t[(id, n - 1) := ImageRow(urls[n - 1], None)]
  }

  /**
   * Existing rows are kept as they are, every index below `n` has a row
   * afterwards, a missing one holds its url and no storage path, and no
   * other row appears.
   */
  lemma {:induction false} FillImagesSpec(images: ImageTable, id: string, urls: seq<string>, n: nat)
    requires n <= |urls|
    ensures var r := FillImages(images, id, urls, n);
      && (forall key :: key in r <==> key in images || (key.0 == id && key.1 < n))
      && (forall key :: key in images ==> key in r && r[key] == images[key])
      && (forall idx: nat :: idx < n && (id, idx) !in images ==> (id, idx) in r && r[(id, idx)] == ImageRow(urls[idx], None))
  {
    if n > 0 {
      FillImagesSpec(images, id, urls, n - 1);
    }
  }

  /** The storage path of the index-0 row that existed before the loop, if any: the only source of a main image. */
  function MainImagePath(images: ImageTable, id: string, urls: seq<string>): Option<string> {
    if |urls| > 0 && (id, 0) in images then images[(id, 0)].storagePath else None
  }

  /** `update({"main_image_path": path}).eq("external_id", id)`. */
  function WithMainImage(norm: NormalisedTable, id: string, path: string): (r: NormalisedTable)
    ensures SameExcept(r, norm, id)
    ensures id in r <==> id in norm
    ensures id in r ==> r[id] == norm[id].(mainImagePath := Some(path))
  {
    if id in norm then norm[id := norm[id].(mainImagePath := Some(path))] else norm
  }

  /** `repair_listing_images(external_id, image_urls)`; a missing list (`None`) is as falsy as an empty one. */
  method RepairListingImages(db: Database, id: string, imageUrls: Option<seq<string>>)
    modifies db
    ensures var urls := imageUrls.GetOr([]);
      && db.listingImages == FillImages(old(db.listingImages), id, urls, |urls|)
      && db.normalisedListings ==
           (var p := MainImagePath(old(db.listingImages), id, urls);
            if Truthy(p) then WithMainImage(old(db.normalisedListings), id, p.value) else old(db.normalisedListings))
    ensures db.rawListings == old(db.rawListings)
  {
    if imageUrls.None? || imageUrls.value == [] {
      return;
    }
    var urls := imageUrls.value;
    var mainImagePath: Option<string> := None;
    for idx := 0 to |urls|
      invariant db.listingImages == FillImages(old(db.listingImages), id, urls, idx)
      invariant mainImagePath == if idx == 0 then None else MainImagePath(old(db.listingImages), id, urls)
      invariant db.rawListings == old(db.rawListings) && db.normalisedListings == old(db.normalisedListings)
    {
      if (id, idx) in db.listingImages {
        if idx == 0 {
          mainImagePath := db.listingImages[(id, idx)].storagePath;
        }
        continue;
      }
      db.InsertImage(id, idx, urls[idx]);
    }
    if Truthy(mainImagePath) {
      db.SetMainImagePath(id, mainImagePath);
    }
  }

  // ---------------------------------------------------------------- repair_single_listing

  /** How `repair_single_listing(id)` ends, read off the raw table alone. */
  datatype SingleRepair =
    | NoRawRow                                           // no raw row: False
    | NoPayload                                          // payload_json is null: `.get` raises
    | NoHtml                                             // no stored html: False
    | ParserRaised                                       // parse_property_page raised
    | NotParsed                                          // parse_property_page returned None: False
    | Repaired(details: PropertyDetails, imageUrls: seq<string>)

  function Classify(raw: RawTable, id: string, parse: (string, string) -> ParseOutcome): (c: SingleRepair)
    ensures c.NoRawRow? <==> id !in raw
    ensures c.NoPayload? <==> id in raw && raw[id].payload.None?
    ensures c.NoHtml? <==> id in raw && raw[id].payload.Some? && !Truthy(raw[id].payload.value.html)
    ensures id in raw && raw[id].payload.Some? && Truthy(raw[id].payload.value.html) ==>
      var p := raw[id].payload.value;
      var parsed := parse(p.url.GetOr(""), p.html.value);
      && (c.ParserRaised? <==> parsed.Raised?)
      && (c.NotParsed? <==> parsed.NotListing?)
      && (c.Repaired? <==> parsed.Listing?)
      && (c.Repaired? ==> c.details == parsed.details && c.imageUrls == p.imageUrls.GetOr([]))
  {
    if id !in raw then NoRawRow
    else match raw[id].payload
      case None => NoPayload
      case Some(p) =>
        if !Truthy(p.html) then NoHtml
        else match parse(p.url.GetOr(""), p.html.value)
          case Raised => ParserRaised
          case NotListing => NotParsed
          case Listing(d) => Repaired(d, p.imageUrls.GetOr([]))
  }

  /** What `repair_single_listing` returns, or the exception it lets through. */
  function Returned(c: SingleRepair): (r: Result<bool>)
    ensures r == Success(true) <==> c.Repaired?
    ensures r.Failure? <==> c.NoPayload? || c.ParserRaised?
  {
    match c
    case NoPayload => Failure("payload_json is null")
    case ParserRaised => Failure("parse_property_page raised")
    case Repaired(_, _) => Success(true)
    case _ => Success(false)
  }

  /**
   * It returns False exactly when there is no raw row, no stored html, or a
   * page the parser rejects.
   */
  lemma ReturnsFalseExactly(raw: RawTable, id: string, parse: (string, string) -> ParseOutcome)
    ensures Returned(Classify(raw, id, parse)) == Success(false) <==>
      || id !in raw
      || (raw[id].payload.Some? && !Truthy(raw[id].payload.value.html))
      || (raw[id].payload.Some? && Truthy(raw[id].payload.value.html)
          && parse(raw[id].payload.value.url.GetOr(""), raw[id].payload.value.html.value).NotListing?)
  {
  }

  /** The two tables `repair_missing_normalised.py` writes. */
  datatype Tables = Tables(norm: NormalisedTable, images: ImageTable)

  /**
   * The tables after `repair_single_listing(id)`: nothing is written unless
   * the page parses; then the full row is upserted with no main image, the
   * image rows are filled in, and a main image path found on a pre-existing
   * index-0 row is set on the new row.
   */
  function RepairOne(raw: RawTable, t: Tables, id: string, parse: (string, string) -> ParseOutcome): (r: Tables)
    ensures !Classify(raw, id, parse).Repaired? ==> r == t
    ensures t.norm.Keys <= r.norm.Keys
    ensures Classify(raw, id, parse).Repaired? ==>
      var c := Classify(raw, id, parse);
      var p := MainImagePath(t.images, id, c.imageUrls);
      && SameExcept(r.norm, t.norm, id)
      && id in r.norm
      && r.norm[id] == NormalisedRow(SourceName, ListingType, c.details, if Truthy(p) then p else None)
      && r.images == FillImages(t.images, id, c.imageUrls, |c.imageUrls|)
  {
    match Classify(raw, id, parse)
    case Repaired(d, urls) =>
      var norm := t.norm[id := NormalisedRow(SourceName, ListingType, d, None)];
      var p := MainImagePath(t.images, id, urls);
      Tables(if Truthy(p) then WithMainImage(norm, id, p.value) else norm, FillImages(t.images, id, urls, |urls|))
    case _ => t
  }

  /** `repair_single_listing(external_id)` against the store. */
  method RepairSingleListing(db: Database, id: string, parse: (string, string) -> ParseOutcome) returns (result: Result<bool>)
    modifies db
    ensures result == Returned(Classify(old(db.rawListings), id, parse))
    ensures Tables(db.normalisedListings, db.listingImages)
            == RepairOne(old(db.rawListings), Tables(old(db.normalisedListings), old(db.listingImages)), id, parse)
    ensures db.rawListings == old(db.rawListings)
  {
    if id !in db.rawListings {
      return Success(false);
    }
    var payload := db.rawListings[id].payload;
    if payload.None? {
      return Failure("payload_json is null");
    }
    var html, url := payload.value.html, payload.value.url;
    if !Truthy(html) {
      return Success(false);
    }
    var parsed := parse(url.GetOr(""), html.value);
    if parsed.Raised? {
      return Failure("parse_property_page raised");
    }
    if parsed.NotListing? {
      return Success(false);
    }
    db.UpsertFullRow(id, parsed.details, SourceName, ListingType, None);
    RepairListingImages(db, id, payload.value.imageUrls);
    result := Success(true);
  }

  // ---------------------------------------------------------------- main

  /**
   * `main()` over the first `n` missing ids: the `repaired` count and the
   * tables; an exception stops the loop with the writes made so far.
   */
  function RepairUpTo(raw: RawTable, t: Tables, ids: seq<string>, n: nat, parse: (string, string) -> ParseOutcome): (Result<nat>, Tables)
    requires n <= |ids|
  {
    if n == 0 then (Success(0), t)
    else
      var prev := RepairUpTo(raw, t, ids, n - 1, parse);
      if prev.0.Failure? then prev
      else
        match Returned(Classify(raw, ids[n - 1], parse))
        case Failure(e) => (Failure(e), prev.1)
        case Success(b) => (Success(prev.0.value + if b then 1 else 0), RepairOne(raw, prev.1, ids[n - 1], parse))
  }

  /** How many of the first `n` ids repair. */
  function CountRepaired(raw: RawTable, ids: seq<string>, n: nat, parse: (string, string) -> ParseOutcome): (k: nat)
    requires n <= |ids|
    ensures k <= n
  {
    if n == 0 then 0
    else CountRepaired(raw, ids, n - 1, parse) + if Classify(raw, ids[n - 1], parse).Repaired? then 1 else 0
  }

  /**
   * `repaired` counts the calls that returned True, so it never exceeds the
   * number of missing ids; the script fails exactly when some repair raises.
   */
  lemma {:induction false} RepairedCountsTrueReturns(raw: RawTable, t: Tables, ids: seq<string>, n: nat,
                                                     parse: (string, string) -> ParseOutcome)
    requires n <= |ids|
    ensures var r := RepairUpTo(raw, t, ids, n, parse);
      && (r.0.Failure? <==> exists i :: 0 <= i < n && Returned(Classify(raw, ids[i], parse)).Failure?)
      && (r.0.Success? ==> r.0.value == CountRepaired(raw, ids, n, parse) <= n)
  {
    if n > 0 {
      RepairedCountsTrueReturns(raw, t, ids, n - 1, parse);
    }
  }

  /** Once the script has finished, every id that repaired has a normalised row. */
  lemma {:induction false} RepairedIdsAreNormalised(raw: RawTable, t: Tables, ids: seq<string>, n: nat,
                                                    parse: (string, string) -> ParseOutcome)
    requires n <= |ids|
    ensures var r := RepairUpTo(raw, t, ids, n, parse);
      r.0.Success? ==> forall i :: 0 <= i < n && Classify(raw, ids[i], parse).Repaired? ==> ids[i] in r.1.norm
  {
    if n > 0 {
      RepairedIdsAreNormalised(raw, t, ids, n - 1, parse);
    }
  }

  /** After an exception nothing more happens: later ids are never looked at. */
  lemma {:induction false} FailureIsFinal(raw: RawTable, t: Tables, ids: seq<string>, i: nat, n: nat,
                                          parse: (string, string) -> ParseOutcome)
    requires i <= n <= |ids|
    requires RepairUpTo(raw, t, ids, i, parse).0.Failure?
    ensures RepairUpTo(raw, t, ids, n, parse) == RepairUpTo(raw, t, ids, i, parse)
    decreases n - i
  {
    if i < n {
      FailureIsFinal(raw, t, ids, i + 1, n, parse);
    }
  }

  /** `main()`: the missing ids, and the `repaired` count or the exception that ended the run. */
  method RepairAllMissing(db: Database, parse: (string, string) -> ParseOutcome) returns (missing: seq<string>, repaired: Result<nat>)
    modifies db
    ensures Ascending(missing)
    ensures forall x :: x in missing <==> x in old(db.rawListings) && x !in old(db.normalisedListings)
    ensures var r := RepairUpTo(old(db.rawListings), Tables(old(db.normalisedListings), old(db.listingImages)), missing, |missing|, parse);
      repaired == r.0 && Tables(db.normalisedListings, db.listingImages) == r.1
    ensures db.rawListings == old(db.rawListings)
  {
    missing := GetMissingNormalisedIds(db);
    if missing == [] {
      return missing, Success(0);
    }
    ghost var t0 := Tables(db.normalisedListings, db.listingImages);
    var count := 0;
    for i := 0 to |missing|
      invariant RepairUpTo(db.rawListings, t0, missing, i, parse) == (Success(count), Tables(db.normalisedListings, db.listingImages))
      invariant db.rawListings == old(db.rawListings)
    {
      var ok := RepairSingleListing(db, missing[i], parse);
      if ok.Failure? {
        FailureIsFinal(db.rawListings, t0, missing, i + 1, |missing|, parse);
        return missing, Failure(ok.error);
      }
      if ok.value {
        count := count + 1;
      }
    }
    repaired := Success(count);
  }
}
