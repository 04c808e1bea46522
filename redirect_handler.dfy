/**
 * The redirect page: it looks the short code up among the stored records,
 * refuses unknown and expired codes with a message, and otherwise records one
 * click and sends the browser to the original URL.
 *
 * The clock (`now`), the visitor's referrer, position and user agent, and
 * whether the write of the click log fails are parameters. The two-second
 * delay before navigating is not modelled: the destination is set at once.
 */
module Redirect {
  import opened Wrappers
  import opened Records
  import opened UrlUtils
  import opened Storage

  datatype Status = Loading | Redirecting | Error

  const NotFoundMessage: string := "Short URL not found"
  const ExpiredMessage: string := "This short URL has expired"
  const FailureMessage: string := "An error occurred while processing the redirect"

  /** What the lookup of a short code finds: nothing, an expired record (lapsed), or a live one. */
  datatype Resolution = NotFound | Lapsed(record: UrlRecord) | Live(record: UrlRecord)

  /**
   * `urls.find(url => url.shortCode === shortCode)` followed by the expiry check:
   * the first record carrying the code decides, and it is expired only strictly
   * after its expiry instant.
   */
  function Resolve(urls: seq<UrlRecord>, code: string, now: int): (r: Resolution)
    ensures r.NotFound? <==> forall i | 0 <= i < |urls| :: urls[i].shortCode != code
    ensures !r.NotFound? ==>
      exists i | 0 <= i < |urls| ::
        && urls[i] == r.record
        && urls[i].shortCode == code
        && forall j | 0 <= j < i :: urls[j].shortCode != code
    ensures r.Lapsed? ==> now > r.record.expiresAt
    ensures r.Live? ==> now <= r.record.expiresAt
  {
    match FirstIndexOfCode(urls, code)
    case None => NotFound
    case Some(i) =>
      var record := urls[i];
      if IsExpired(now, record.expiresAt) then Lapsed(record) else Live(record)
  }

  /** The click the redirect records: the current time, the referrer information, the position and the user agent. */
  function ClickOf(ctx: ClientContext, now: int): (c: ClickEvent)
    ensures c.timestamp == now && c.referrer.timestamp == now
    ensures c.referrer.referrer != ""
    ensures c.referrer.referrer == if ctx.documentReferrer == "" then "Direct" else ctx.documentReferrer
    ensures c.location == ctx.location
    ensures c.userAgent == ctx.userAgent && c.referrer.userAgent == ctx.userAgent
  {
    ClickEvent(now, GetReferrerInfo(ctx.documentReferrer, ctx.userAgent, now), ctx.location, ctx.userAgent)
  }

  class RedirectHandler {
    var status: Status
    var errorMessage: string
    /** Where the page sends the browser (`window.location.href`), once it does. */
    var destination: Option<string>

    constructor ()
      ensures status == Loading && errorMessage == "" && destination == None
    {
      status := Loading;
      errorMessage := "";
      destination := None;
    }

    /**
     * handleRedirect: an unknown or expired code ends in the error state with its
     * message and touches no stored data. A live code appends exactly one click
     * to its list in the click log (unless that write fails, which is ignored)
     * and redirects to the record's URL; the records are never changed.
     */
    method HandleRedirect(store: StorageManager, shortCode: string, now: int, ctx: ClientContext, writeFails: bool)
      modifies this, store
      ensures store.urlsSlot == old(store.urlsSlot) && store.settingsSlot == old(store.settingsSlot)
      ensures match Resolve(old(store.GetShortenedUrls()), shortCode, now)
        case NotFound =>
          && status == Error && errorMessage == NotFoundMessage && destination == old(destination)
          && store.analyticsSlot == old(store.analyticsSlot)
        case Lapsed(_) =>
          && status == Error && errorMessage == ExpiredMessage && destination == old(destination)
          && store.analyticsSlot == old(store.analyticsSlot)
        case Live(record) =>
          && status == Redirecting && errorMessage == old(errorMessage)
          && destination == Some(record.originalUrl)
          && store.GetAnalytics() ==
               (if writeFails then old(store.GetAnalytics())
                else AppendClick(old(store.GetAnalytics()), shortCode, ClickOf(ctx, now)))
          && (writeFails ==> store.analyticsSlot == old(store.analyticsSlot))
    {
      var urls := store.GetShortenedUrls();
      var resolution := Resolve(urls, shortCode, now);
      match resolution {
        case NotFound =>
          status := Error;
          errorMessage := NotFoundMessage;
        case Lapsed(_) =>
          status := Error;
          errorMessage := ExpiredMessage;
        case Live(record) =>
          var _ := store.SaveAnalytics(shortCode, ClickOf(ctx, now), writeFails);
          status := Redirecting;
          destination := Some(record.originalUrl);
      }
    }

    /** The effect hook: nothing happens for an empty short code. */
    method Run(store: StorageManager, shortCode: string, now: int, ctx: ClientContext, writeFails: bool)
      modifies this, store
      ensures shortCode == "" ==>
        && status == old(status) && errorMessage == old(errorMessage) && destination == old(destination)
        && store.urlsSlot == old(store.urlsSlot) && store.analyticsSlot == old(store.analyticsSlot)
        && store.settingsSlot == old(store.settingsSlot)
      ensures shortCode != "" ==> match Resolve(old(store.GetShortenedUrls()), shortCode, now)
        case NotFound =>
          && status == Error && errorMessage == NotFoundMessage && destination == old(destination)
          && store.analyticsSlot == old(store.analyticsSlot)
        case Lapsed(_) =>
          && status == Error && errorMessage == ExpiredMessage && destination == old(destination)
          && store.analyticsSlot == old(store.analyticsSlot)
        case Live(record) =>
          && status == Redirecting && errorMessage == old(errorMessage)
          && destination == Some(record.originalUrl)
          && store.GetAnalytics() ==
               (if writeFails then old(store.GetAnalytics())
                else AppendClick(old(store.GetAnalytics()), shortCode, ClickOf(ctx, now)))
          && (writeFails ==> store.analyticsSlot == old(store.analyticsSlot))
      ensures store.urlsSlot == old(store.urlsSlot) && store.settingsSlot == old(store.settingsSlot)
    {
      if shortCode != "" {
        HandleRedirect(store, shortCode, now, ctx, writeFails);
      }
    }
  }

  /**
   * The redirect's outcome as written: the status and message it ends with and
   * the click log it leaves (store writes are taken to succeed). A live code whose
   * name is an inherited member of a plain object makes saveAnalytics throw,
   * which the handler catches as the generic failure, without redirecting.
   */
  function RedirectAsWritten(urls: seq<UrlRecord>, log: ClickLog, code: string, now: int, click: ClickEvent)
    : (r: (Status, string, ClickLog))
    ensures Resolve(urls, code, now).NotFound? ==> r == (Error, NotFoundMessage, log)
    ensures Resolve(urls, code, now).Lapsed? ==> r == (Error, ExpiredMessage, log)
    ensures Resolve(urls, code, now).Live? ==>
      r == if SaveAnalyticsAsWritten(log, code, click).None? then (Error, FailureMessage, log)
           else (Redirecting, "", AppendClick(log, code, click))
  {
    match Resolve(urls, code, now)
    case NotFound => (Error, NotFoundMessage, log)
    case Lapsed(_) => (Error, ExpiredMessage, log)
    case Live(_) =>
      match SaveAnalyticsAsWritten(log, code, click)
      case None => (Error, FailureMessage, log)
      case Some(updated) => (Redirecting, "", updated)
  }

  /**
   * A live record with the custom code "toString" and no click recorded yet
   * cannot be followed as written: the page shows the generic failure. The
   * own-key lookup redirects and records the click.
   */
  lemma ToStringCodeCannotRedirect(record: UrlRecord, log: ClickLog, now: int, click: ClickEvent)
    requires record.shortCode == "toString" && now <= record.expiresAt && "toString" !in log
    ensures IsValidShortCode("toString")
    ensures RedirectAsWritten([record], log, "toString", now, click) == (Error, FailureMessage, log)
    ensures Resolve([record], "toString", now) == Live(record)
    ensures AppendClick(log, "toString", click)["toString"] == [click]
  {
    ToStringIsValidCode();
    PrototypeNamedCodeCannotRecordClicks(log, click);
    assert Resolve([record], "toString", now) == Live(record);
  }

  /** "toString" passes the custom short-code check. */
  lemma ToStringIsValidCode()
    ensures IsValidShortCode("toString")
  {
  }

  /**
   * At the instant a record expires the redirect still follows it (expiry is
   * strict), while the sweep, which keeps only records expiring after `now`,
   * already drops it.
   */
  lemma ExpiryInstantIsLiveButSwept(record: UrlRecord, now: int)
    requires record.expiresAt == now
    ensures Resolve([record], record.shortCode, now) == Live(record)
    ensures Unexpired([record], now) == []
  {
  }

  /** A record the redirect refuses as expired is one the sweep drops. */
  lemma LapsedRecordsAreSwept(urls: seq<UrlRecord>, code: string, now: int)
    requires Resolve(urls, code, now).Lapsed?
    ensures Resolve(urls, code, now).record !in Unexpired(urls, now)
  {
  }
}
