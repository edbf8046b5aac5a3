/**
 * `parse_property_page` of scraper.py over an abstract listing page.
 *
 * The HTML document is replaced by the record `Doc`, which holds what the
 * page's tag lookups and `get_text` calls yield. The page is parsed in the
 * order of the source: the three-anchor gate, price/title/area, the
 * description, the label/value features, the detail blocks, the rooms
 * fallback, the caption list, the coordinates and finally the record.
 */
module PageParser {
  import opened Wrappers
  import opened Text
  import opened Cleaners

  /** One `div.adMainFeatureContent`: the texts of its label and value paragraphs, None when a tag is missing. */
  datatype FeatureEntry = FeatureEntry(labelText: Option<string>, valueText: Option<string>)

  /** One `div.adDetailFeature`: its stripped text and the stripped text of its `span`, None without a span. */
  datatype DetailBlock = DetailBlock(text: string, span: Option<string>)

  /** One `p` element: its `.text` and its `get_text(separator=" ")`. */
  datatype Paragraph = Paragraph(text: string, spaced: string)

  type Coordinates = (Option<real>, Option<real>)

  /**
   * What the parser reads from a listing page.
   * `price`, `area` and `title` are the stripped texts of `h3.orangeTit`,
   * `h3.greyTit` and `h1.searchTitle`, None when the tag is absent;
   * `description` is `get_text(separator=" ")` of `div.wordBreak`, None when
   * absent; `features` are the entries inside `div.adFeatures` (empty when
   * there is no such block); `captions` are the raw texts of the
   * `p.fSize11.centered` tags; `coordinates` is the pair the waze link on the
   * page encodes.
   */
  datatype Doc = Doc(
    price: Option<string>,
    area: Option<string>,
    title: Option<string>,
    description: Option<string>,
    paragraphs: seq<Paragraph>,
    features: seq<FeatureEntry>,
    details: seq<DetailBlock>,
    captions: seq<string>,
    coordinates: Coordinates)

  /** The `PropertyDetails` dataclass. */
  datatype PropertyDetails = PropertyDetails(
    title: Option<string>,
    description: Option<string>,
    propertyType: Option<string>,
    city: Option<string>,
    area: Option<string>,
    size: Option<nat>,
    rooms: Option<nat>,
    bedrooms: Option<nat>,
    bathrooms: Option<nat>,
    price: Option<nat>,
    features: Option<string>,
    condition: Option<string>,
    age: Option<string>,
    orientation: Option<string>,
    flooring: Option<string>,
    floorNumber: Option<nat>,
    numberOfFloors: Option<nat>,
    lat: Option<real>,
    lon: Option<real>,
    url: string)

  /** The parser either rejects the page (None), builds a record, or raises. */
  datatype ParseOutcome = NotListing | Listing(details: PropertyDetails) | Raised

  // ---------------------------------------------------------------- gate

  predicate AnchorsPresent(doc: Doc) {
    doc.price.Some? && doc.area.Some? && doc.title.Some?
  }

  // ---------------------------------------------------------------- description

  predicate IsLong(p: Paragraph) {
    |Strip(p.text)| > 50
  }

  /** The fallback description: the first paragraph whose stripped text is longer than 50 characters. */
  function FirstLongParagraph(ps: seq<Paragraph>): Option<string> {
    if ps == [] then None
    else if IsLong(ps[0]) then Some(Strip(ps[0].spaced))
    else FirstLongParagraph(ps[1..])
  }

  /** There is a fallback description exactly when some paragraph is long. */
  lemma {:induction false} FirstLongParagraphExists(ps: seq<Paragraph>)
    ensures FirstLongParagraph(ps).Some? <==> exists k :: 0 <= k < |ps| && IsLong(ps[k])
  {
    if ps != [] && !IsLong(ps[0]) {
      FirstLongParagraphExists(ps[1..]);
      if exists k :: 0 <= k < |ps| && IsLong(ps[k]) {
        var k :| 0 <= k < |ps| && IsLong(ps[k]);
        assert ps[1..][k - 1] == ps[k];
      }
    }
  }

  /** The `text_content` of the page. */
  function TextContent(doc: Doc): Option<string> {
    if doc.description.Some? then Some(Strip(doc.description.value))
    else FirstLongParagraph(doc.paragraphs)
  }

  lemma {:induction false} FirstLongParagraphIsFirst(ps: seq<Paragraph>, k: nat)
    requires k < |ps| && IsLong(ps[k])
    requires forall j :: 0 <= j < k ==> !IsLong(ps[j])
    ensures FirstLongParagraph(ps) == Some(Strip(ps[k].spaced))
  {
    if k > 0 {
      var rest := ps[1..];
      assert rest[k - 1] == ps[k];
      forall j | 0 <= j < k - 1
        ensures !IsLong(rest[j])
      {
        assert rest[j] == ps[j + 1];
      }
      FirstLongParagraphIsFirst(rest, k - 1);
      assert !IsLong(ps[0]);
    }
  }

  // ---------------------------------------------------------------- label/value features

  predicate Usable(e: FeatureEntry) {
    e.labelText.Some? && e.valueText.Some?
  }

  /** The `label_value` dict after the entries, read in order, have been stored. */
  function LabelMap(entries: seq<FeatureEntry>): map<string, string> {
    StoredPairs(entries, CleanAtt)
  }

  /** The dict built from the usable entries, each label and value passed through `clean`. */
  function StoredPairs(entries: seq<FeatureEntry>, clean: string -> string): map<string, string> {
    if entries == [] then map[]
    else
      var m := StoredPairs(entries[..|entries| - 1], clean);
      var e := entries[|entries| - 1];
      if Usable(e) then m[clean(e.labelText.value) := clean(e.valueText.value)] else m
  }

  /** `d.get(key)` */
  function Get(m: map<string, string>, key: string): (r: Option<string>)
    ensures r.Some? <==> key in m
    ensures r.Some? ==> r.value == m[key]
  {
    if key in m then Some(m[key]) else None
  }

  /** A key is present exactly when some usable entry's cleaned label is that key. */
  lemma LabelMapKeys(entries: seq<FeatureEntry>, key: string)
    ensures key in LabelMap(entries) <==>
      exists j :: 0 <= j < |entries| && Usable(entries[j]) && CleanAtt(entries[j].labelText.value) == key
  {
    StoredPairsKeys(entries, CleanAtt, key);
  }

  lemma {:induction false} StoredPairsKeys(entries: seq<FeatureEntry>, clean: string -> string, key: string)
    ensures key in StoredPairs(entries, clean) <==>
      exists j :: 0 <= j < |entries| && Usable(entries[j]) && clean(entries[j].labelText.value) == key
  {
    if entries != [] {
      var init := entries[..|entries| - 1];
      StoredPairsKeys(init, clean, key);
      assert forall j :: 0 <= j < |init| ==> init[j] == entries[j];
    }
  }

  /** A later entry with the same cleaned label overwrites an earlier one: the last one wins. */
  lemma LabelMapLastWins(entries: seq<FeatureEntry>, k: nat)
    requires k < |entries| && Usable(entries[k])
    requires forall j :: k < j < |entries| && Usable(entries[j]) ==>
      CleanAtt(entries[j].labelText.value) != CleanAtt(entries[k].labelText.value)
    ensures var key := CleanAtt(entries[k].labelText.value);
      key in LabelMap(entries) && LabelMap(entries)[key] == CleanAtt(entries[k].valueText.value)
  {
    StoredPairsLastWins(entries, CleanAtt, k);
  }

  lemma {:induction false} StoredPairsLastWins(entries: seq<FeatureEntry>, clean: string -> string, k: nat)
    requires k < |entries| && Usable(entries[k])
    requires forall j :: k < j < |entries| && Usable(entries[j]) ==>
      clean(entries[j].labelText.value) != clean(entries[k].labelText.value)
    ensures var key := clean(entries[k].labelText.value);
      key in StoredPairs(entries, clean) && StoredPairs(entries, clean)[key] == clean(entries[k].valueText.value)
  {
    if k < |entries| - 1 {
      var init := entries[..|entries| - 1];
      assert init[k] == entries[k];
      assert forall j :: k < j < |init| ==> init[j] == entries[j];
      StoredPairsLastWins(init, clean, k);
    }
  }

  // ---------------------------------------------------------------- detail blocks

  /** The four fields the detail blocks can set. */
  datatype Field = Size | Rooms | Bedrooms | Bathrooms

  /** The token tests of the detail loop, each on the block's text and case-sensitive. */
  predicate Hits(f: Field, text: string) {
    match f
    case Size => Contains(text, "m\U{C2}\U{B2}")
    case Rooms => Contains(text, "Pieces") || Contains(text, "Piece")
    case Bedrooms => Contains(text, "Rooms") || Contains(text, "Room")
    case Bathrooms => Contains(text, "Bathrooms") || Contains(text, "Bathroom")
  }

  predicate SetsField(b: DetailBlock, f: Field) {
    b.span.Some? && Hits(f, b.text)
  }

  /** The value of field `f` after the blocks have been read in order. */
  function ScanField(blocks: seq<DetailBlock>, f: Field): Option<nat> {
    if blocks == [] then None
    else
      var b := blocks[|blocks| - 1];
      if SetsField(b, f) then CleanInteger(b.span) else ScanField(blocks[..|blocks| - 1], f)
  }

  /** The last block that sets a field decides its value: later blocks overwrite earlier ones. */
  lemma {:induction false} ScanFieldLastWins(blocks: seq<DetailBlock>, f: Field, k: nat)
    requires k < |blocks| && SetsField(blocks[k], f)
    requires forall j :: k < j < |blocks| ==> !SetsField(blocks[j], f)
    ensures ScanField(blocks, f) == CleanInteger(blocks[k].span)
  {
    if k < |blocks| - 1 {
      var init := blocks[..|blocks| - 1];
      assert init[k] == blocks[k];
      assert forall j :: k < j < |init| ==> init[j] == blocks[j];
      ScanFieldLastWins(init, f, k);
    }
  }

  /** A field no block sets stays None. */
  lemma {:induction false} ScanFieldUnset(blocks: seq<DetailBlock>, f: Field)
    requires forall j :: 0 <= j < |blocks| ==> !SetsField(blocks[j], f)
    ensures ScanField(blocks, f).None?
  {
    if blocks != [] {
      var init := blocks[..|blocks| - 1];
      assert forall j :: 0 <= j < |init| ==> init[j] == blocks[j];
      ScanFieldUnset(init, f);
    }
  }

  /** "Pieces" contains "Piece", so the rooms test is a test for "Piece"; likewise for "Room" and "Bathroom". */
  lemma HitsShortToken(text: string)
    ensures Hits(Rooms, text) <==> Contains(text, "Piece")
    ensures Hits(Bedrooms, text) <==> Contains(text, "Room")
    ensures Hits(Bathrooms, text) <==> Contains(text, "Bathroom")
  {
    ContainsLonger(text, "Piece", "s");
    ContainsLonger(text, "Room", "s");
    ContainsLonger(text, "Bathroom", "s");
  }

  // ---------------------------------------------------------------- captions

  /** `[clean_text(t) for t in captions]` with the falsy entries (None and "") dropped. */
  function KeptCaptions(captions: seq<string>): (r: seq<string>)
    ensures forall k :: 0 <= k < |r| ==> r[k] != [] && !IsSpace(r[k][0])
  {
    if captions == [] then []
    else
      var c := CleanText(Some(captions[0]));
      if c.Some? && c.value != [] then [c.value] + KeptCaptions(captions[1..])
      else KeptCaptions(captions[1..])
  }

  /** The kept captions of two caption lists are those of each, in order. */
  lemma {:induction false} KeptCaptionsAppend(a: seq<string>, b: seq<string>)
    ensures KeptCaptions(a + b) == KeptCaptions(a) + KeptCaptions(b)
  {
    if a == [] {
      assert a + b == b;
    } else {
      assert (a + b)[0] == a[0];
      assert (a + b)[1..] == a[1..] + b;
      KeptCaptionsAppend(a[1..], b);
    }
  }

  /** One caption is kept, stripped, exactly when it is not blank. */
  lemma KeptCaptionsSingle(c: string)
    ensures KeptCaptions([c]) == if Strip(c) == [] then [] else [Strip(c)]
  {
    assert [c][1..] == [];
  }

  /** `', '.join(filter(None, features_list)) if features_list else None`. */
  function FeatureString(captions: seq<string>): Option<string> {
    if captions == [] then None else Some(Join(KeptCaptions(captions), ", "))
  }

  /** The features are None only when the page has no caption at all. */
  lemma FeatureStringNone(captions: seq<string>)
    ensures FeatureString(captions).None? <==> captions == []
  {
  }

  /** Captions that are all blank give "" rather than None. */
  lemma {:induction false} BlankCaptionsGiveEmptyFeatures(captions: seq<string>)
    requires captions != []
    requires forall k :: 0 <= k < |captions| ==> forall i :: 0 <= i < |captions[k]| ==> IsSpace(captions[k][i])
    ensures FeatureString(captions) == Some("")
  {
    BlankCaptionsKeptNone(captions);
  }

  lemma {:induction false} BlankCaptionsKeptNone(captions: seq<string>)
    requires forall k :: 0 <= k < |captions| ==> forall i :: 0 <= i < |captions[k]| ==> IsSpace(captions[k][i])
    ensures KeptCaptions(captions) == []
  {
    if captions != [] {
      StripAllSpace(captions[0]);
      assert forall k :: 0 <= k < |captions| - 1 ==> captions[1..][k] == captions[k + 1];
      BlankCaptionsKeptNone(captions[1..]);
    }
  }

  // ---------------------------------------------------------------- record

  /** `rooms`: the detail blocks' value, else the number found in a non-empty description. */
  function RoomsValue(doc: Doc): Option<nat> {
    var scanned := ScanField(doc.details, Rooms);
    var text := TextContent(doc);
    if scanned.None? && text.Some? && text.value != "" then CleanRooms(text) else scanned
  }

  /** The record the page yields once the coordinates are known. */
  function Assemble(link: string, doc: Doc, coords: Coordinates): PropertyDetails
    requires AnchorsPresent(doc)
  {
    var labels := LabelMap(doc.features);
    var ageRaw := Get(labels, "Age");
    var (area, city) := ParseAreaAndCity(doc.area);
    PropertyDetails(
      title := CleanText(doc.title),
      description := TextContent(doc),
      propertyType := Get(labels, "Type of property"),
      city := city,
      area := area,
      size := ScanField(doc.details, Size),
      rooms := RoomsValue(doc),
      bedrooms := ScanField(doc.details, Bedrooms),
      bathrooms := ScanField(doc.details, Bathrooms),
      price := CleanInteger(doc.price),
      features := FeatureString(doc.captions),
      condition := Get(labels, "Condition"),
      age := if ageRaw.Some? && ageRaw.value != "" then CleanAge(ageRaw) else None,
      orientation := Get(labels, "Orientation"),
      flooring := Get(labels, "Flooring"),
      floorNumber := CleanInteger(Get(labels, "Floor number")),
      numberOfFloors := CleanIntegerOfInt(CleanInteger(Get(labels, "Number of floors"))),
      lat := coords.0,
      lon := coords.1,
      url := link)
  }

  /** The outcome of parsing a page whose coordinate extraction gave `coords`. */
  function Parse(link: string, doc: Doc, coords: Result<Coordinates>): ParseOutcome {
    if !AnchorsPresent(doc) then NotListing
    else if coords.Failure? then Raised
    else Listing(Assemble(link, doc, coords.value))
  }

  /**
   * `parse_property_page(url, html)` as a callable, for the scripts that hand
   * it stored pages: BeautifulSoup (`soup`) and then the parser.
   */
  function PageParse(soup: string -> Doc, extract: Doc -> Result<Coordinates>): (string, string) -> ParseOutcome {
    (url, html) => Parse(url, soup(html), extract(soup(html)))
  }

  /**
   * `extract_coordinates(soup)` as written: its first statement is the chained
   * assignment at scraper.py:338, which binds `lat` and then assigns into the
   * subscription `Optional[float]`; typing objects do not support item
   * assignment, so the call raises TypeError before any script is looked at.
   */
  function ExtractCoordinates(doc: Doc): (r: Result<Coordinates>)
    ensures r.Failure?
  {
    Failure("TypeError: item assignment into Optional[float]")
  }

  /** `extract_coordinates` with the annotations line 338 evidently intends: the pair the page encodes. */
  function ExtractCoordinatesIntended(doc: Doc): Result<Coordinates> {
    Success(doc.coordinates)
  }

  // ---------------------------------------------------------------- the parser

  /** The description: the stripped `div.wordBreak` text, else the first long paragraph. */
  method FindDescription(doc: Doc) returns (textContent: Option<string>)
    ensures textContent == TextContent(doc)
  {
    textContent := None;
    if doc.description.Some? {
      textContent := Some(Strip(doc.description.value));
    } else {
      var i := 0;
      while i < |doc.paragraphs|
        invariant 0 <= i <= |doc.paragraphs|
        invariant FirstLongParagraph(doc.paragraphs) == FirstLongParagraph(doc.paragraphs[i..])
      {
        var p := doc.paragraphs[i];
        if |Strip(p.text)| > 50 {
          textContent := Some(Strip(p.spaced));
          break;
        }
        assert doc.paragraphs[i..][1..] == doc.paragraphs[i + 1..];
        i := i + 1;
      }
    }
  }

  /**
   * The loop over the feature entries that fills `label_value`; the parser
   * passes `clean_att` as `clean`.
   */
  method CollectLabels(entries: seq<FeatureEntry>, clean: string -> string) returns (labels: map<string, string>)
    ensures labels == StoredPairs(entries, clean)
  {
    labels := map[];
    var j := 0;
    while j < |entries|
      invariant 0 <= j <= |entries|
      invariant labels == StoredPairs(entries[..j], clean)
    {
      var e := entries[j];
      assert entries[..j + 1][..j] == entries[..j];
      if e.labelText.Some? && e.valueText.Some? {
        labels := labels[clean(e.labelText.value) := clean(e.valueText.value)];
      }
      j := j + 1;
    }
    assert entries[..j] == entries;
  }

  /** The loop over the detail blocks; one block can set several of the four fields. */
  method ScanDetails(blocks: seq<DetailBlock>) returns (size: Option<nat>, rooms: Option<nat>, bedrooms: Option<nat>, bathrooms: Option<nat>)
    ensures size == ScanField(blocks, Size) && rooms == ScanField(blocks, Rooms)
    ensures bedrooms == ScanField(blocks, Bedrooms) && bathrooms == ScanField(blocks, Bathrooms)
  {
    size, rooms, bedrooms, bathrooms := None, None, None, None;
    var d := 0;
    while d < |blocks|
      invariant 0 <= d <= |blocks|
      invariant size == ScanField(blocks[..d], Size)
      invariant rooms == ScanField(blocks[..d], Rooms)
      invariant bedrooms == ScanField(blocks[..d], Bedrooms)
      invariant bathrooms == ScanField(blocks[..d], Bathrooms)
    {
      var b := blocks[d];
      assert blocks[..d + 1][..d] == blocks[..d];
      if b.span.None? {
        d := d + 1;
        continue;
      }
      var value := b.span.value;
      if Contains(b.text, "m\U{C2}\U{B2}") {
        size := CleanInteger(Some(value));
      }
      if Contains(b.text, "Pieces") || Contains(b.text, "Piece") {
        rooms := CleanInteger(Some(value));
      }
      if Contains(b.text, "Rooms") || Contains(b.text, "Room") {
        bedrooms := CleanInteger(Some(value));
      }
      if Contains(b.text, "Bathrooms") || Contains(b.text, "Bathroom") {
        bathrooms := CleanInteger(Some(value));
      }
      d := d + 1;
    }
    assert blocks[..d] == blocks;
  }

  /**
   * The body of `parse_property_page`, given the result `coords` of the
   * coordinate extraction it performs after reading every other field.
   */
  method ParseWith(link: string, doc: Doc, coords: Result<Coordinates>) returns (out: ParseOutcome)
    ensures out == Parse(link, doc, coords)
  {
    if !(doc.price.Some? && doc.area.Some? && doc.title.Some?) {
      return NotListing;
    }
    var price := CleanInteger(doc.price);
    var title := CleanText(doc.title);
    var (area, city) := ParseAreaAndCity(doc.area);

    var textContent := FindDescription(doc);
    var labels := CollectLabels(doc.features, CleanAtt);
    var propType := Get(labels, "Type of property");
    var condition := Get(labels, "Condition");
    var ageRaw := Get(labels, "Age");
    var orientation := Get(labels, "Orientation");
    var flooring := Get(labels, "Flooring");
    var floorNumber := CleanInteger(Get(labels, "Floor number"));
    var numberOfFloors := CleanInteger(Get(labels, "Number of floors"));

    var size, rooms, bedrooms, bathrooms := ScanDetails(doc.details);

    if rooms.None? && textContent.Some? && textContent.value != "" {
      rooms := CleanRooms(textContent);
    }

    var featureStr := FeatureString(doc.captions);

    if coords.Failure? {
      return Raised;
    }
    var (lat, lon) := coords.value;
    out := Listing(PropertyDetails(
      title := title,
      description := textContent,
      propertyType := propType,
      city := city,
      area := area,
      size := size,
      rooms := rooms,
      bedrooms := bedrooms,
      bathrooms := bathrooms,
      price := price,
      features := featureStr,
      condition := condition,
      age := if ageRaw.Some? && ageRaw.value != "" then CleanAge(ageRaw) else None,
      orientation := orientation,
      flooring := flooring,
      floorNumber := floorNumber,
      numberOfFloors := CleanIntegerOfInt(numberOfFloors),
      lat := lat,
      lon := lon,
      url := link));
  }

  /** `parse_property_page(link, html)` as written: a page past the gate always raises. */
  method ParsePropertyPage(link: string, doc: Doc) returns (out: ParseOutcome)
    ensures out == NotListing <==> !AnchorsPresent(doc)
    ensures out == Raised <==> AnchorsPresent(doc)
  {
    out := ParseWith(link, doc, ExtractCoordinates(doc));
  }

  /** `parse_property_page` with the coordinate extraction repaired. */
  method ParsePropertyPageCorrected(link: string, doc: Doc) returns (out: ParseOutcome)
    ensures out == NotListing <==> !AnchorsPresent(doc)
    ensures out.Listing? <==> AnchorsPresent(doc)
    ensures out.Listing? ==> out.details == Assemble(link, doc, doc.coordinates)
  {
    out := ParseWith(link, doc, ExtractCoordinatesIntended(doc));
  }

  // ---------------------------------------------------------------- properties of the record

  /** A record always carries the link it was parsed from, whatever the coordinates. */
  lemma ParseKeepsLink(link: string, doc: Doc, coords: Result<Coordinates>)
    ensures Parse(link, doc, coords).Listing? ==> Parse(link, doc, coords).details.url == link
    ensures Parse(link, doc, coords).NotListing? <==> !AnchorsPresent(doc)
  {
  }

  /** `number_of_floors` is None in every record. */
  lemma NumberOfFloorsAlwaysNone(link: string, doc: Doc, coords: Coordinates)
    requires AnchorsPresent(doc)
    ensures Assemble(link, doc, coords).numberOfFloors.None?
  {
  }

  /** The rooms count comes from the detail blocks when one sets it, and only otherwise from the description. */
  lemma RoomsFallback(link: string, doc: Doc, coords: Coordinates)
    requires AnchorsPresent(doc)
    ensures var r := Assemble(link, doc, coords).rooms;
      && (ScanField(doc.details, Rooms).Some? ==> r == ScanField(doc.details, Rooms))
      && (ScanField(doc.details, Rooms).None? && TextContent(doc).Some? && TextContent(doc).value != "" ==>
            r == CleanRooms(TextContent(doc)))
      && (ScanField(doc.details, Rooms).None? && (TextContent(doc).None? || TextContent(doc).value == "") ==>
            r.None?)
  {
  }

  /** The condition is the raw label value: "Good condition" is stored as is, never as "Good". */
  lemma ConditionIsRawLabel(link: string, doc: Doc, coords: Coordinates)
    requires AnchorsPresent(doc)
    requires Get(LabelMap(doc.features), "Condition") == Some("Good condition")
    ensures Assemble(link, doc, coords).condition == Some("Good condition")
    ensures CleanCondition(Assemble(link, doc, coords).condition) == Some("Good")
  {
  }
}
