/**
 * `get_details` of scraper.py: for each link, fetch the page, save it raw,
 * parse it, and upsert the record the parser yields into the normalised
 * table.
 *
 * What the outside world answers for the i-th link is the parameter
 * `visitAt(i)`: the page body (None when the request failed) and whether the
 * store accepted the raw and the normalised write for it. `soup` stands for
 * BeautifulSoup turning the body into a document, and `extract` for the
 * coordinate extraction the parser performs (`ExtractCoordinates` as written).
 */
module Orchestrator {
  import opened Wrappers
  import opened Identity
  import opened PageParser
  import opened Store

  datatype Visit = Visit(response: Option<string>, rawAccepted: bool, normalisedAccepted: bool)

  /** The two tables `get_details` writes, and the records it collects. */
  datatype RunState = RunState(raw: RawTable, norm: NormalisedTable, properties: seq<PropertyDetails>)

  const Source := "mubawab"
  /** `upsert_normalised_listing`'s default listing type, which `get_details` does not override. */
  const ListingType := "sale"

  /** The loop body for one link: save raw first, then parse, then upsert and collect. */
  function Step(st: RunState, link: string, v: Visit, soup: string -> Doc, extract: Doc -> Result<Coordinates>): RunState {
    if v.response.None? then st
    else
      var html := v.response.value;
      var raw := SaveRaw(st.raw, Source, link, html, v.rawAccepted);
      var doc := soup(html);
      match Parse(link, doc, extract(doc))
      case NotListing => st.(raw := raw)
      case Raised => st.(raw := raw)
      case Listing(d) =>
        RunState(raw, UpsertNormalised(st.norm, d, Source, ListingType, v.normalisedAccepted), st.properties + [d])
  }

  /** The state after the first `n` links. */
  function RunUpTo(st: RunState, links: seq<string>, n: nat, visitAt: nat -> Visit, soup: string -> Doc,
                   extract: Doc -> Result<Coordinates>): RunState
    requires n <= |links|
  {
    if n == 0 then st
    else Step(RunUpTo(st, links, n - 1, visitAt, soup, extract), links[n - 1], visitAt(n - 1), soup, extract)
  }

  /**
   * Saving raw before parsing: when every raw write is accepted, a
   * normalised row is only ever written under a key that has a raw row, so
   * the inclusion of normalised keys in raw keys is kept.
   */
  lemma {:induction false} NormalisedKeysHaveRawKeys(st: RunState, links: seq<string>, n: nat, visitAt: nat -> Visit,
                                                     soup: string -> Doc, extract: Doc -> Result<Coordinates>)
    requires n <= |links|
    requires st.norm.Keys <= st.raw.Keys
    requires forall i :: 0 <= i < n ==> visitAt(i).rawAccepted
    ensures var r := RunUpTo(st, links, n, visitAt, soup, extract); r.norm.Keys <= r.raw.Keys
  {
    if n > 0 {
      NormalisedKeysHaveRawKeys(st, links, n - 1, visitAt, soup, extract);
      StepKeepsKeyInclusion(RunUpTo(st, links, n - 1, visitAt, soup, extract), links[n - 1], visitAt(n - 1), soup, extract);
    }
  }

  lemma StepKeepsKeyInclusion(st: RunState, link: string, v: Visit, soup: string -> Doc, extract: Doc -> Result<Coordinates>)
    requires st.norm.Keys <= st.raw.Keys
    requires v.rawAccepted
    ensures var r := Step(st, link, v, soup, extract); r.norm.Keys <= r.raw.Keys
  {
    if v.response.Some? {
      var doc := soup(v.response.value);
      ParseKeepsLink(link, doc, extract(doc));
    }
  }

  /** Only the rows keyed by the links' own ids change; every other row stays as it was. */
  lemma {:induction false} OnlyLinkKeysChange(st: RunState, links: seq<string>, n: nat, visitAt: nat -> Visit,
                                              soup: string -> Doc, extract: Doc -> Result<Coordinates>, key: string)
    requires n <= |links|
    requires forall i :: 0 <= i < n ==> GetMubawabExternalId(links[i]) != Some(key)
    ensures var r := RunUpTo(st, links, n, visitAt, soup, extract);
      && (key in r.raw <==> key in st.raw) && (key in r.raw ==> r.raw[key] == st.raw[key])
      && (key in r.norm <==> key in st.norm) && (key in r.norm ==> r.norm[key] == st.norm[key])
  {
    if n > 0 {
      OnlyLinkKeysChange(st, links, n - 1, visitAt, soup, extract, key);
      StepTouchesOwnKey(RunUpTo(st, links, n - 1, visitAt, soup, extract), links[n - 1], visitAt(n - 1), soup, extract, key);
    }
  }

  lemma StepTouchesOwnKey(st: RunState, link: string, v: Visit, soup: string -> Doc, extract: Doc -> Result<Coordinates>,
                          key: string)
    requires GetMubawabExternalId(link) != Some(key)
    ensures var r := Step(st, link, v, soup, extract);
      && (key in r.raw <==> key in st.raw) && (key in r.raw ==> r.raw[key] == st.raw[key])
      && (key in r.norm <==> key in st.norm) && (key in r.norm ==> r.norm[key] == st.norm[key])
  {
    if v.response.Some? {
      var doc := soup(v.response.value);
      ParseKeepsLink(link, doc, extract(doc));
    }
  }

  /** What the parser makes of one link's response; a failed request parses nothing. */
  function Outcome(link: string, v: Visit, soup: string -> Doc, extract: Doc -> Result<Coordinates>): ParseOutcome {
    if v.response.None? then NotListing
    else var doc := soup(v.response.value); Parse(link, doc, extract(doc))
  }

  /** A record the parser yields for a link carries that link as its url. */
  lemma OutcomeKeepsLink(link: string, v: Visit, soup: string -> Doc, extract: Doc -> Result<Coordinates>)
    ensures var o := Outcome(link, v, soup, extract); o.Listing? ==> o.details.url == link
  {
    if v.response.Some? {
      var doc := soup(v.response.value);
      ParseKeepsLink(link, doc, extract(doc));
    }
  }

  /** What the parser makes of each of the first `n` links, in link order. */
  function Outcomes(links: seq<string>, n: nat, visitAt: nat -> Visit, soup: string -> Doc,
                    extract: Doc -> Result<Coordinates>): (os: seq<ParseOutcome>)
    requires n <= |links|
    ensures |os| == n
    ensures forall i :: 0 <= i < n ==> os[i] == Outcome(links[i], visitAt(i), soup, extract)
    ensures forall i :: 0 <= i < n && os[i].Listing? ==> os[i].details.url == links[i]
  {
    if n == 0 then []
    else
      OutcomeKeepsLink(links[n - 1], visitAt(n - 1), soup, extract);
      Outcomes(links, n - 1, visitAt, soup, extract) + [Outcome(links[n - 1], visitAt(n - 1), soup, extract)]
  }

  /** The positions of the outcomes that are records, in ascending order. */
  function ListingIndices(os: seq<ParseOutcome>): (f: seq<nat>)
    ensures forall j :: 0 <= j < |f| ==> f[j] < |os| && os[f[j]].Listing?
    ensures forall j, k :: 0 <= j < k < |f| ==> f[j] < f[k]
    ensures |f| <= |os|
  {
    if os == [] then []
    else
      var prev := ListingIndices(os[..|os| - 1]);
      if os[|os| - 1].Listing? then prev + [|os| - 1] else prev
  }

  /** The records among the outcomes, in order. */
  function Records(os: seq<ParseOutcome>): seq<PropertyDetails> {
    if os == [] then []
    else Records(os[..|os| - 1]) + if os[|os| - 1].Listing? then [os[|os| - 1].details] else []
  }

  /** The j-th record is that of the j-th outcome that is a record. */
  lemma {:induction false} RecordsFollowListings(os: seq<ParseOutcome>)
    ensures var c, f := Records(os), ListingIndices(os);
      |c| == |f| && forall j :: 0 <= j < |f| ==> c[j] == os[f[j]].details
  {
    if os != [] {
      var init := os[..|os| - 1];
      RecordsFollowListings(init);
      var c, f := Records(os), ListingIndices(os);
      var cp, fp := Records(init), ListingIndices(init);
      if os[|os| - 1].Listing? {
        assert c == cp + [os[|os| - 1].details] && f == fp + [|os| - 1];
        forall j | 0 <= j < |f| ensures c[j] == os[f[j]].details {
          if j < |fp| {
            assert c[j] == cp[j] && f[j] == fp[j] && init[fp[j]] == os[fp[j]];
          }
        }
      } else {
        forall j | 0 <= j < |f| ensures c[j] == os[f[j]].details {
          assert init[fp[j]] == os[fp[j]];
        }
      }
    }
  }

  /** One link appends its record when its page yields one. */
  lemma StepAppendsRecord(st: RunState, link: string, v: Visit, soup: string -> Doc, extract: Doc -> Result<Coordinates>)
    ensures var o := Outcome(link, v, soup, extract);
      Step(st, link, v, soup, extract).properties == st.properties + (if o.Listing? then [o.details] else [])
  {
  }

  /** The run appends exactly the records its links yield to those already held. */
  lemma {:induction false} RunCollects(st: RunState, links: seq<string>, n: nat, visitAt: nat -> Visit,
                                       soup: string -> Doc, extract: Doc -> Result<Coordinates>)
    requires n <= |links|
    ensures RunUpTo(st, links, n, visitAt, soup, extract).properties
            == st.properties + Records(Outcomes(links, n, visitAt, soup, extract))
  {
    if n > 0 {
      RunCollects(st, links, n - 1, visitAt, soup, extract);
      StepAppendsRecord(RunUpTo(st, links, n - 1, visitAt, soup, extract), links[n - 1], visitAt(n - 1), soup, extract);
      var os := Outcomes(links, n, visitAt, soup, extract);
      assert os[..n - 1] == Outcomes(links, n - 1, visitAt, soup, extract);
    }
  }

  /**
   * The records collected are exactly those of the links whose page yields
   * one, each once and in link order (`f` lists those links' indices in
   * ascending order), appended after the records already held; each
   * carries its own link as its url.
   */
  lemma PropertiesComeFromLinks(st: RunState, links: seq<string>, n: nat, visitAt: nat -> Visit,
                                soup: string -> Doc, extract: Doc -> Result<Coordinates>)
    requires n <= |links|
    ensures var r := RunUpTo(st, links, n, visitAt, soup, extract);
      var os := Outcomes(links, n, visitAt, soup, extract);
      var f := ListingIndices(os);
      && |r.properties| == |st.properties| + |f| <= |st.properties| + n
      && r.properties[..|st.properties|] == st.properties
      && forall j :: 0 <= j < |f| ==>
           r.properties[|st.properties| + j] == os[f[j]].details && r.properties[|st.properties| + j].url == links[f[j]]
  {
    RunCollects(st, links, n, visitAt, soup, extract);
    RecordsFollowListings(Outcomes(links, n, visitAt, soup, extract));
  }

  /**
   * As written, every page that passes the anchor gate raises inside the
   * parser, so `get_details` never writes a normalised row and returns no
   * record; only raw rows are saved.
   */
  lemma {:induction false} AsWrittenNothingNormalised(st: RunState, links: seq<string>, n: nat, visitAt: nat -> Visit,
                                                      soup: string -> Doc)
    requires n <= |links|
    ensures var r := RunUpTo(st, links, n, visitAt, soup, ExtractCoordinates);
      r.norm == st.norm && r.properties == st.properties
  {
    if n > 0 {
      AsWrittenNothingNormalised(st, links, n - 1, visitAt, soup);
    }
  }

  /** `get_details(links)` against the store `db`: the records in the order parsed. */
  method GetDetails(db: Database, links: seq<string>, visitAt: nat -> Visit, soup: string -> Doc,
                    extract: Doc -> Result<Coordinates>) returns (properties: seq<PropertyDetails>)
    modifies db
    ensures var r := RunUpTo(RunState(old(db.rawListings), old(db.normalisedListings), []), links, |links|, visitAt, soup, extract);
      db.rawListings == r.raw && db.normalisedListings == r.norm && properties == r.properties
    ensures db.listingImages == old(db.listingImages)
  {
    ghost var st0 := RunState(db.rawListings, db.normalisedListings, []);
    properties := [];
    for i := 0 to |links|
      invariant RunUpTo(st0, links, i, visitAt, soup, extract) == RunState(db.rawListings, db.normalisedListings, properties)
      invariant db.listingImages == old(db.listingImages)
    {
      var link := links[i];
      var v := visitAt(i);
      ghost var before := RunState(db.rawListings, db.normalisedListings, properties);
      assert RunUpTo(st0, links, i + 1, visitAt, soup, extract) == Step(before, link, v, soup, extract);
      if v.response.None? {
        continue;
      }
      var html := v.response.value;
      db.SaveRawListing(Source, link, html, v.rawAccepted);
      var doc := soup(html);
      var outcome := ParseWith(link, doc, extract(doc));
      if outcome.Listing? {
        db.UpsertNormalisedListing(outcome.details, Source, ListingType, v.normalisedAccepted);
        properties := properties + [outcome.details];
      }
    }
  }
}
