/**
 * The generation service's answer as the page reads it: the first part whose
 * inline data has an `image/` MIME type, the data URI built from it, and the
 * page's own way of taking the payload out of a data URL (`split(',')[1]`).
 */
module Response {
  import opened Wrappers

  datatype InlineData = InlineData(mimeType: string, data: string)

  /** A response part; text parts carry no inline data. */
  datatype Part = Part(inlineData: Option<InlineData>)

  /**
   * How one request ends: `fetch` or `response.json()` rejects, or an HTTP
   * status arrives together with `candidates[0].content.parts` (None when
   * that path is missing from the body).
   */
  datatype Outcome =
    | Rejected
    | Answered(status: int, parts: Option<seq<Part>>)

  /** `response.ok`: a 2xx status. */
  predicate IsOk(status: int) {
    200 <= status <= 299
  }

  predicate IsImageMime(mimeType: string) {
    "image/" <= mimeType
  }

  /** `part.inlineData && part.inlineData.mimeType.startsWith('image/')` */
  predicate IsImagePart(p: Part) {
    p.inlineData.Some? && IsImageMime(p.inlineData.value.mimeType)
  }

  /** `parts.find(IsImagePart)`, as the index of the part found. */
  function FindImagePart(parts: seq<Part>): (r: Option<nat>)
    ensures r.Some? ==> r.value < |parts| && IsImagePart(parts[r.value])
    ensures r.Some? ==> forall j :: 0 <= j < r.value ==> !IsImagePart(parts[j])
    ensures r.None? <==> forall j :: 0 <= j < |parts| ==> !IsImagePart(parts[j])
    decreases |parts|
  {
    if parts == [] then None
    else if IsImagePart(parts[0]) then Some(0)
    else match FindImagePart(parts[1..])
      case None => None
      case Some(j) => Some(j + 1)
  }

  /** The image the page takes from one request, if any. */
  function ImageOf(o: Outcome): (r: Option<InlineData>)
    ensures r.Some? <==> o.Answered? && IsOk(o.status) && o.parts.Some? && FindImagePart(o.parts.value).Some?
    ensures r.Some? ==> IsImageMime(r.value.mimeType) && Some(r.value) in PartData(o.parts.value)
    ensures r.Some? ==> r == o.parts.value[FindImagePart(o.parts.value).value].inlineData
  {
    match o
    case Rejected => None
    case Answered(status, parts) =>
      if !IsOk(status) || parts.None? then None
      else match FindImagePart(parts.value)
        case None => None
        case Some(j) => parts.value[j].inlineData
  }

  /** The inline data of every part, in order. */
  function PartData(parts: seq<Part>): (r: seq<Option<InlineData>>)
    ensures |r| == |parts| && forall j :: 0 <= j < |parts| ==> r[j] == parts[j].inlineData
  {
    seq(|parts|, j requires 0 <= j < |parts| => parts[j].inlineData)
  }

  /** The result image's `src`: `data:<mimeType>;base64,<data>`. */
  function DataUri(mimeType: string, data: string): string {
    "data:" + mimeType + ";base64," + data
  }

  /** The first position of `c` in `s`. */
  function IndexOf(s: string, c: char): (r: Option<nat>)
    ensures r.Some? ==> r.value < |s| && s[r.value] == c && c !in s[..r.value]
    ensures r.None? <==> c !in s
    decreases |s|
  {
    if s == [] then None
    else if s[0] == c then Some(0)
    else match IndexOf(s[1..], c)
      case None => None
      case Some(j) =>
        assert s[..j+1] == [s[0]] + s[1..][..j];
        Some(j + 1)
  }

  /**
   * `dataUrl.split(',')[1]`: the text between the first and the second comma
   * (or the end); `undefined` (None) when there is no comma at all.
   */
  function Base64Field(dataUrl: string): (r: Option<string>)
    ensures r.None? <==> ',' !in dataUrl
    ensures r.Some? ==> ',' !in r.value
    ensures r.Some? ==>
      var rest := dataUrl[IndexOf(dataUrl, ',').value + 1..];
      r.value <= rest && (|r.value| == |rest| || rest[|r.value|] == ',')
  {
    match IndexOf(dataUrl, ',')
    case None => None
    case Some(i) =>
      var rest := dataUrl[i+1..];
      match IndexOf(rest, ',')
      case None => Some(rest)
      case Some(j) => Some(rest[..j])
  }

  /**
   * Round trip: the payload comes back out of a data URI unchanged, provided
   * neither the MIME type nor the base64 text holds a comma (base64 never does).
   */
  lemma DataUriRoundTrip(mimeType: string, data: string)
    requires ',' !in mimeType && ',' !in data
    ensures Base64Field(DataUri(mimeType, data)) == Some(data)
  {
  }
}
