/**
 * The persisted entities of the URL shortener: one record per shortened URL and
 * one click event per successful redirect.
 */
module Records {
  import opened Wrappers

  /** One shortened URL as the creation flow stores it (timestamps in milliseconds). */
  datatype UrlRecord = UrlRecord(
    id: int,
    originalUrl: string,
    shortCode: string,
    createdAt: int,
    expiresAt: int,
    validity: int,
    isCustom: bool
  )

  /** The coarse position the browser may report; degrees are kept in hundredths. */
  datatype Location = Location(latitudeCentis: int, longitudeCentis: int, accuracy: int)

  /** The referrer information captured at click time ("Direct" when there is no referrer). */
  datatype ReferrerInfo = ReferrerInfo(referrer: string, userAgent: string, timestamp: int)

  /**
   * What the browser tells the redirect page about the visitor: `document.referrer`
   * ("" when there is none), the geolocation answer (None when refused, failed or
   * unsupported) and `navigator.userAgent`. Read from the DOM, so an input here.
   */
  datatype ClientContext = ClientContext(documentReferrer: string, location: Option<Location>, userAgent: string)

  /** One recorded visit to a short code. */
  datatype ClickEvent = ClickEvent(timestamp: int, referrer: ReferrerInfo, location: Option<Location>, userAgent: string)

  /** A partial record: the fields present overwrite the record's, as object spread does. */
  datatype RecordPatch = RecordPatch(
    id: Option<int>,
    originalUrl: Option<string>,
    shortCode: Option<string>,
    createdAt: Option<int>,
    expiresAt: Option<int>,
    validity: Option<int>,
    isCustom: Option<bool>
  )

  function Pick<T>(patched: Option<T>, current: T): T {
    match patched
    case Some(v) => v
    case None => current
  }

  /** `{ ...record, ...patch }`: every field the patch carries wins, every other field is kept. */
  function ApplyPatch(r: UrlRecord, p: RecordPatch): (u: UrlRecord)
    ensures u.id == (if p.id.Some? then p.id.value else r.id)
    ensures u.originalUrl == (if p.originalUrl.Some? then p.originalUrl.value else r.originalUrl)
    ensures u.shortCode == (if p.shortCode.Some? then p.shortCode.value else r.shortCode)
    ensures u.createdAt == (if p.createdAt.Some? then p.createdAt.value else r.createdAt)
    ensures u.expiresAt == (if p.expiresAt.Some? then p.expiresAt.value else r.expiresAt)
    ensures u.validity == (if p.validity.Some? then p.validity.value else r.validity)
    ensures u.isCustom == (if p.isCustom.Some? then p.isCustom.value else r.isCustom)
  {
    UrlRecord(Pick(p.id, r.id), Pick(p.originalUrl, r.originalUrl), Pick(p.shortCode, r.shortCode),
              Pick(p.createdAt, r.createdAt), Pick(p.expiresAt, r.expiresAt),
              Pick(p.validity, r.validity), Pick(p.isCustom, r.isCustom))
  }

  /**
   * The position of the first record whose short code is exactly `code`
   * (`findIndex`/`find`/`some` over the record list all rest on it).
   */
  function FirstIndexOfCode(xs: seq<UrlRecord>, code: string): (r: Option<nat>)
    ensures r.None? <==> forall i | 0 <= i < |xs| :: xs[i].shortCode != code
    ensures r.Some? ==> r.value < |xs| && xs[r.value].shortCode == code
    ensures r.Some? ==> forall j | 0 <= j < r.value :: xs[j].shortCode != code
  {
    if xs == [] then None
    else if xs[0].shortCode == code then Some(0)
    else match FirstIndexOfCode(xs[1..], code)
      case None => None
      case Some(k) => Some(k + 1)
  }
}
