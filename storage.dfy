/**
 * The persistence layer: three keys of the browser's key-value store, one
 * holding the list of URL records, one the map from short code to its click
 * events, one the (unused) settings. Every operation reads the whole value,
 * changes it and writes the whole value back.
 *
 * Serialisation is not modelled: each key holds a typed value, or nothing, or
 * something that does not parse. Whether a write succeeds is decided by the
 * environment (a full quota, storage disabled) and enters as `writeFails`.
 */
module Storage {
  import opened Wrappers
  import opened Records

  datatype StorageKey = ShortenedUrls | Analytics | Settings

  function KeyName(key: StorageKey): string {
    match key
    case ShortenedUrls => "affordmed_shortened_urls"
    case Analytics => "affordmed_analytics"
    case Settings => "affordmed_settings"
  }

  /** The keys in the order `Object.values(STORAGE_KEYS)` lists them. */
  const AllKeys: seq<StorageKey> := [ShortenedUrls, Analytics, Settings]

  /** What the store holds under one key: nothing, a value, or text that does not parse. */
  datatype Slot<T> = Absent | Stored(value: T) | Unreadable

  /** getItem: the stored value, or the default when the key is absent or unreadable. */
  function ReadOr<T>(slot: Slot<T>, default: T): (v: T)
    ensures slot.Stored? ==> v == slot.value
    ensures !slot.Stored? ==> v == default
  {
    match slot
    case Stored(value) => value
    case _ => default
  }

  /** Click events per short code. */
  type ClickLog = map<string, seq<ClickEvent>>

  /** `urls.filter(url => url.expiresAt > now)`: the records the sweep keeps. */
  function Unexpired(urls: seq<UrlRecord>, now: int): (r: seq<UrlRecord>)
    ensures |r| <= |urls|
    ensures forall x :: x in r <==> x in urls && x.expiresAt > now
    ensures |r| == |urls| <==> forall i | 0 <= i < |urls| :: urls[i].expiresAt > now
    ensures |r| == |urls| ==> r == urls
    decreases |urls|
  {
    if urls == [] then []
    else
      var rest := Unexpired(urls[1..], now);
      assert forall x :: x in urls <==> x == urls[0] || x in urls[1..];
      assert forall i | 1 <= i < |urls| :: urls[i] == urls[1..][i - 1];
      if urls[0].expiresAt > now then [urls[0]] + rest else rest
  }

  /** The sweep distributes over concatenation, so it keeps the survivors in their original order. */
  lemma {:induction false} UnexpiredAppend(a: seq<UrlRecord>, b: seq<UrlRecord>, now: int)
    ensures Unexpired(a + b, now) == Unexpired(a, now) + Unexpired(b, now)
    decreases |a|
  {
    if a == [] {
      assert a + b == b;
    } else {
      assert (a + b)[0] == a[0] && (a + b)[1..] == a[1..] + b;
      UnexpiredAppend(a[1..], b, now);
      if a[0].expiresAt > now {
        assert Unexpired(a + b, now) == [a[0]] + (Unexpired(a[1..], now) + Unexpired(b, now));
      }
    }
  }

  /** A second sweep at the same instant removes nothing. */
  lemma UnexpiredIdempotent(urls: seq<UrlRecord>, now: int)
    ensures Unexpired(Unexpired(urls, now), now) == Unexpired(urls, now)
  {
    var r := Unexpired(urls, now);
    assert forall i | 0 <= i < |r| :: r[i] in r;
  }

  /** A later sweep keeps no more than an earlier one. */
  lemma {:induction false} UnexpiredLater(urls: seq<UrlRecord>, earlier: int, later: int)
    requires earlier <= later
    ensures Unexpired(urls, later) == Unexpired(Unexpired(urls, earlier), later)
    decreases |urls|
  {
    if urls != [] {
      UnexpiredLater(urls[1..], earlier, later);
      if urls[0].expiresAt > earlier {
        assert ([urls[0]] + Unexpired(urls[1..], earlier))[1..] == Unexpired(urls[1..], earlier);
      }
    }
  }

  /** The click log after appending `click` under `code`, creating the list when the key is missing. */
  function AppendClick(log: ClickLog, code: string, click: ClickEvent): (m: ClickLog)
    ensures m.Keys == log.Keys + {code}
    ensures m[code] == (if code in log then log[code] else []) + [click]
    ensures forall k | k in log && k != code :: m[k] == log[k]
  {
    var events := if code in log then log[code] else [];
    log[code := events + [click]]
  }

  /**
   * The names a plain JavaScript object inherits from Object.prototype; reading
   * one of them off the parsed click log yields a truthy value (a function, or
   * the prototype itself for `__proto__`) although the log has no such key.
   */
  const ObjectPrototypeMembers: set<string> := {
    "constructor", "hasOwnProperty", "isPrototypeOf", "propertyIsEnumerable",
    "toLocaleString", "toString", "valueOf",
    "__proto__", "__defineGetter__", "__defineSetter__", "__lookupGetter__", "__lookupSetter__"
  }

  /**
   * saveAnalytics as written: `analytics[shortCode]` is tested for truthiness, so a
   * code that names an inherited member skips the list creation and `push` is
   * then called on a function: a TypeError (None). Otherwise the click is appended.
   */
  function SaveAnalyticsAsWritten(log: ClickLog, code: string, click: ClickEvent): (r: Option<ClickLog>)
    ensures r.None? <==> code !in log && code in ObjectPrototypeMembers
    ensures r.Some? ==> r.value == AppendClick(log, code, click)
  {
    if code !in log && code in ObjectPrototypeMembers then None
    else Some(AppendClick(log, code, click))
  }

  /**
   * "toString" passes the custom-code syntax check (8 ASCII letters), yet
   * recording a click for it throws on an empty or any log without that key,
   * whereas the own-key version appends the click.
   */
  lemma PrototypeNamedCodeCannotRecordClicks(log: ClickLog, click: ClickEvent)
    requires "toString" !in log
    ensures SaveAnalyticsAsWritten(log, "toString", click).None?
    ensures AppendClick(log, "toString", click)["toString"] == [click]
  {
  }

  class StorageManager {
    var urlsSlot: Slot<seq<UrlRecord>>
    var analyticsSlot: Slot<ClickLog>
    var settingsSlot: Slot<string>

    /** The store as the page finds it when it loads. */
    constructor (urls: Slot<seq<UrlRecord>>, analytics: Slot<ClickLog>, settings: Slot<string>)
      ensures urlsSlot == urls && analyticsSlot == analytics && settingsSlot == settings
    {
      urlsSlot, analyticsSlot, settingsSlot := urls, analytics, settings;
    }

    /** getShortenedUrls: the stored list, [] when the key is absent or unreadable. */
    function GetShortenedUrls(): (urls: seq<UrlRecord>)
      reads this
      ensures urlsSlot.Stored? ==> urls == urlsSlot.value
      ensures !urlsSlot.Stored? ==> urls == []
    {
      ReadOr(urlsSlot, [])
    }

    /** getAnalytics: the stored click log, {} when the key is absent or unreadable. */
    function GetAnalytics(): (log: ClickLog)
      reads this
      ensures analyticsSlot.Stored? ==> log == analyticsSlot.value
      ensures !analyticsSlot.Stored? ==> log == map[]
    {
      ReadOr(analyticsSlot, map[])
    }

    predicate IsAbsent(key: StorageKey)
      reads this
    {
      match key
      case ShortenedUrls => urlsSlot.Absent?
      case Analytics => analyticsSlot.Absent?
      case Settings => settingsSlot.Absent?
    }

    /** setItem on the URL key: true and the new value on success, false and nothing written on failure. */
    method SetShortenedUrls(urls: seq<UrlRecord>, writeFails: bool) returns (ok: bool)
      modifies this
      ensures ok == !writeFails
      ensures urlsSlot == (if ok then Stored(urls) else old(urlsSlot))
      ensures analyticsSlot == old(analyticsSlot) && settingsSlot == old(settingsSlot)
    {
      if writeFails {
        ok := false;
      } else {
        urlsSlot := Stored(urls);
        ok := true;
      }
    }

    /** setItem on the analytics key, with the same success contract. */
    method SetAnalytics(log: ClickLog, writeFails: bool) returns (ok: bool)
      modifies this
      ensures ok == !writeFails
      ensures analyticsSlot == (if ok then Stored(log) else old(analyticsSlot))
      ensures urlsSlot == old(urlsSlot) && settingsSlot == old(settingsSlot)
    {
      if writeFails {
        ok := false;
      } else {
        analyticsSlot := Stored(log);
        ok := true;
      }
    }

    /** removeItem: the key is gone, the other keys are untouched. */
    method RemoveItem(key: StorageKey) returns (ok: bool)
      modifies this
      ensures ok && IsAbsent(key)
      ensures key != ShortenedUrls ==> urlsSlot == old(urlsSlot)
      ensures key != Analytics ==> analyticsSlot == old(analyticsSlot)
      ensures key != Settings ==> settingsSlot == old(settingsSlot)
    {
      ok := true;
      match key {
        case ShortenedUrls => urlsSlot := Absent;
        case Analytics => analyticsSlot := Absent;
        case Settings => settingsSlot := Absent;
      }
    }

    /** saveShortenedUrl: the record becomes the last one, the earlier ones stay as they were. */
    method SaveShortenedUrl(record: UrlRecord, writeFails: bool) returns (ok: bool)
      modifies this
      ensures ok == !writeFails
      ensures ok ==> urlsSlot == Stored(old(GetShortenedUrls()) + [record])
      ensures !ok ==> urlsSlot == old(urlsSlot)
      ensures GetShortenedUrls() == if ok then old(GetShortenedUrls()) + [record] else old(GetShortenedUrls())
      ensures analyticsSlot == old(analyticsSlot) && settingsSlot == old(settingsSlot)
    {
      var urls := GetShortenedUrls();
      urls := urls + [record];
      ok := SetShortenedUrls(urls, writeFails);
    }

    /**
     * updateShortenedUrl: the first record carrying `code` gets the patch, every
     * other record is kept; with no such record nothing is written and the answer is false.
     */
    method UpdateShortenedUrl(code: string, patch: RecordPatch, writeFails: bool) returns (ok: bool)
      modifies this
      ensures FirstIndexOfCode(old(GetShortenedUrls()), code).None? ==> !ok && urlsSlot == old(urlsSlot)
      ensures FirstIndexOfCode(old(GetShortenedUrls()), code).Some? ==>
        var i := FirstIndexOfCode(old(GetShortenedUrls()), code).value;
        && ok == !writeFails
        && urlsSlot == (if ok then Stored(old(GetShortenedUrls())[i := ApplyPatch(old(GetShortenedUrls())[i], patch)])
                        else old(urlsSlot))
      ensures analyticsSlot == old(analyticsSlot) && settingsSlot == old(settingsSlot)
    {
      var urls := GetShortenedUrls();
      var index := FirstIndexOfCode(urls, code);
      if index.Some? {
        urls := urls[index.value := ApplyPatch(urls[index.value], patch)];
        ok := SetShortenedUrls(urls, writeFails);
      } else {
        ok := false;
      }
    }

    /**
     * saveAnalytics: appends the click to the list under `code` (created when
     * missing); the lists of other codes and the records are untouched.
     */
    method SaveAnalytics(code: string, click: ClickEvent, writeFails: bool) returns (ok: bool)
      modifies this
      ensures ok == !writeFails
      ensures GetAnalytics() == if ok then AppendClick(old(GetAnalytics()), code, click) else old(GetAnalytics())
      ensures !ok ==> analyticsSlot == old(analyticsSlot)
      ensures urlsSlot == old(urlsSlot) && settingsSlot == old(settingsSlot)
    {
      var log := GetAnalytics();
      log := AppendClick(log, code, click);
      ok := SetAnalytics(log, writeFails);
    }

    /**
     * cleanupExpiredUrls: returns the records with `expiresAt > now`, in order, and
     * writes them back only when the sweep removed at least one; the click log is never touched.
     */
    method CleanupExpiredUrls(now: int, writeFails: bool) returns (valid: seq<UrlRecord>)
      modifies this
      ensures valid == Unexpired(old(GetShortenedUrls()), now)
      ensures |valid| == |old(GetShortenedUrls())| ==> urlsSlot == old(urlsSlot)
      ensures |valid| < |old(GetShortenedUrls())| ==>
        urlsSlot == (if writeFails then old(urlsSlot) else Stored(valid))
      ensures analyticsSlot == old(analyticsSlot) && settingsSlot == old(settingsSlot)
    {
      var urls := GetShortenedUrls();
      valid := Unexpired(urls, now);
      if |valid| != |urls| {
        var _ := SetShortenedUrls(valid, writeFails);
      }
    }

    /** clearAllData: removes every key, one after the other. */
    method ClearAllData()
      modifies this
      ensures urlsSlot.Absent? && analyticsSlot.Absent? && settingsSlot.Absent?
      ensures GetShortenedUrls() == [] && GetAnalytics() == map[]
    {
      for i := 0 to |AllKeys|
        invariant forall j | 0 <= j < i :: IsAbsent(AllKeys[j])
      {
        var _ := RemoveItem(AllKeys[i]);
      }
      assert IsAbsent(AllKeys[0]) && IsAbsent(AllKeys[1]) && IsAbsent(AllKeys[2]);
    }
  }
}
