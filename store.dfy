/**
 * The three tables the scraper and the repair scripts write, as maps keyed by
 * their conflict keys: `raw_listings` and `normalised_listings` by
 * external_id, `listing_images` by (external_id, image_index).
 *
 * The writers of scraper.py catch every error the store reports and only log
 * it; whether the store accepted a write is therefore an input of the model
 * (`accepted`), and a refused write changes nothing.
 */
module Store {
  import opened Wrappers
  import opened Identity
  import opened PageParser

  /** The `payload_json` column of a raw row. */
  datatype RawPayload = RawPayload(url: Option<string>, html: Option<string>, imageUrls: Option<seq<string>>)

  datatype RawRow = RawRow(source: string, payload: Option<RawPayload>)

  datatype NormalisedRow = NormalisedRow(
    source: string,
    listingType: string,
    details: PropertyDetails,
    mainImagePath: Option<string>)

  datatype ImageRow = ImageRow(originalUrl: string, storagePath: Option<string>)

  type RawTable = map<string, RawRow>
  type NormalisedTable = map<string, NormalisedRow>
  type ImageTable = map<(string, nat), ImageRow>

  /** The maps agree on every key other than `key`. */
  ghost predicate SameExcept<V>(a: map<string, V>, b: map<string, V>, key: string) {
    forall k :: k != key ==> (k in a <==> k in b) && (k in a ==> a[k] == b[k])
  }

  // ---------------------------------------------------------------- save_raw_listing

  /**
   * `save_raw_listing(source, link, response_text)`: upsert on external_id of
   * the row holding the link and the page, or nothing when the link has no
   * external id or the store refuses the write.
   */
  function SaveRaw(raw: RawTable, source: string, link: string, html: string, accepted: bool): (r: RawTable)
    ensures GetMubawabExternalId(link).None? || !accepted ==> r == raw
    ensures GetMubawabExternalId(link).Some? ==> SameExcept(r, raw, GetMubawabExternalId(link).value)
    ensures GetMubawabExternalId(link).Some? && accepted ==>
      var id := GetMubawabExternalId(link).value;
      id in r && r[id].source == source && r[id].payload == Some(RawPayload(Some(link), Some(html), None))
  {
    match GetMubawabExternalId(link)
    case None => raw
    case Some(id) =>
      if accepted then raw[id := RawRow(source, Some(RawPayload(Some(link), Some(html), None)))] else raw
  }

  // ---------------------------------------------------------------- upsert_normalised_listing

  /**
   * `upsert_normalised_listing(details, source, listing_type)`: upsert on the
   * external id of `details.url`. The payload has no `main_image_path`
   * column, so a row that already exists keeps its main image path and a new
   * row starts without one.
   */
  function UpsertNormalised(norm: NormalisedTable, details: PropertyDetails, source: string, listingType: string, accepted: bool): (r: NormalisedTable)
    ensures GetMubawabExternalId(details.url).None? || !accepted ==> r == norm
    ensures GetMubawabExternalId(details.url).Some? ==> SameExcept(r, norm, GetMubawabExternalId(details.url).value)
    ensures GetMubawabExternalId(details.url).Some? && accepted ==>
      var id := GetMubawabExternalId(details.url).value;
      && id in r && r[id].details == details && r[id].source == source && r[id].listingType == listingType
      && r[id].mainImagePath == (if id in norm then norm[id].mainImagePath else None)
  {
    match GetMubawabExternalId(details.url)
    case None => norm
    case Some(id) =>
      if !accepted then norm
      else
        var kept := if id in norm then norm[id].mainImagePath else None;
        norm[id := NormalisedRow(source, listingType, details, kept)]
  }

  /** Writing the same record twice leaves the table as writing it once. */
  lemma UpsertNormalisedIdempotent(norm: NormalisedTable, details: PropertyDetails, source: string, listingType: string)
    ensures var once := UpsertNormalised(norm, details, source, listingType, true);
      UpsertNormalised(once, details, source, listingType, true) == once
  {
  }

  /** The rows of `norm` whose source is not `source`: what `delete().eq("source", source)` leaves. */
  function WithoutSource(norm: NormalisedTable, source: string): (r: NormalisedTable)
    ensures forall id :: id in r <==> id in norm && norm[id].source != source
    ensures forall id :: id in r ==> r[id] == norm[id]
  {
    map id | id in norm && norm[id].source != source :: norm[id]
  }

  /**
   * The keyed store. Each writer changes one table, and in it at most the row
   * under its own key.
   */
  class Database {
    var rawListings: RawTable
    var normalisedListings: NormalisedTable
    var listingImages: ImageTable

    constructor (raw: RawTable, norm: NormalisedTable, images: ImageTable)
      ensures rawListings == raw && normalisedListings == norm && listingImages == images
    {
      rawListings := raw;
      normalisedListings := norm;
      listingImages := images;
    }

    method SaveRawListing(source: string, link: string, html: string, accepted: bool)
      modifies this
      ensures rawListings == SaveRaw(old(rawListings), source, link, html, accepted)
      ensures normalisedListings == old(normalisedListings) && listingImages == old(listingImages)
    {
      rawListings := SaveRaw(rawListings, source, link, html, accepted);
    }

    method UpsertNormalisedListing(details: PropertyDetails, source: string, listingType: string, accepted: bool)
      modifies this
      ensures normalisedListings == UpsertNormalised(old(normalisedListings), details, source, listingType, accepted)
      ensures rawListings == old(rawListings) && listingImages == old(listingImages)
    {
      normalisedListings := UpsertNormalised(normalisedListings, details, source, listingType, accepted);
    }

    /**
     * The upsert repair_missing_normalised.py issues itself: every column is
     * in the payload, `main_image_path` included, so the row under `id` is
     * replaced as a whole.
     */
    method UpsertFullRow(id: string, details: PropertyDetails, source: string, listingType: string, mainImagePath: Option<string>)
      modifies this
      ensures normalisedListings == old(normalisedListings)[id := NormalisedRow(source, listingType, details, mainImagePath)]
      ensures rawListings == old(rawListings) && listingImages == old(listingImages)
    {
      normalisedListings := normalisedListings[id := NormalisedRow(source, listingType, details, mainImagePath)];
    }

    /** `delete().eq("source", source)` on normalised_listings. */
    method WipeSource(source: string)
      modifies this
      ensures normalisedListings == WithoutSource(old(normalisedListings), source)
      ensures rawListings == old(rawListings) && listingImages == old(listingImages)
    {
      normalisedListings := WithoutSource(normalisedListings, source);
    }

    method InsertImage(id: string, index: nat, originalUrl: string)
      modifies this
      ensures listingImages == old(listingImages)[(id, index) := ImageRow(originalUrl, None)]
      ensures rawListings == old(rawListings) && normalisedListings == old(normalisedListings)
    {
      listingImages := listingImages[(id, index) := ImageRow(originalUrl, None)];
    }

    /** `update({"main_image_path": path}).eq("external_id", id)`: no row, no change. */
    method SetMainImagePath(id: string, path: Option<string>)
      modifies this
      ensures id !in old(normalisedListings) ==> normalisedListings == old(normalisedListings)
      ensures id in old(normalisedListings) ==>
        normalisedListings == old(normalisedListings)[id := old(normalisedListings)[id].(mainImagePath := path)]
      ensures rawListings == old(rawListings) && listingImages == old(listingImages)
    {
      if id in normalisedListings {
        normalisedListings := normalisedListings[id := normalisedListings[id].(mainImagePath := path)];
      }
    }
  }
}
