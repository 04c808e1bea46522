/**
 * The batch creation form: up to five entries, each validated on its own
 * (only its first failing check is reported), then, when every entry passes,
 * one record saved per entry in order, with a generated code drawn again until
 * it differs from every stored code.
 *
 * React state is a set of plain fields assigned in place. The clock (`now`),
 * Math.random (`random`, the k-th draw), the URL parser (`parse`), the page's
 * origin and the outcome of every store write (`writeFails`, per entry) are
 * parameters.
 */
module Shortener {
  import opened Wrappers
  import opened Records
  import opened UrlUtils
  import opened Storage

  /** The characters String.prototype.trim strips: white space and line terminators. */
  predicate IsJsWhitespace(c: char) {
    || c == '\t' || c == '\n' || c == '\U{000B}' || c == '\U{000C}' || c == '\r' || c == ' '
    || c == '\U{00A0}' || c == '\U{1680}' || ('\U{2000}' <= c <= '\U{200A}')
    || c == '\U{2028}' || c == '\U{2029}' || c == '\U{202F}' || c == '\U{205F}'
    || c == '\U{3000}' || c == '\U{FEFF}'
  }

  /** The string without its leading white space. */
  function TrimStart(s: string): string
    decreases |s|
  {
    if s != [] && IsJsWhitespace(s[0]) then TrimStart(s[1..]) else s
  }

  /** The string without its trailing white space. */
  function TrimEnd(s: string): string
    decreases |s|
  {
    if s != [] && IsJsWhitespace(s[|s| - 1]) then TrimEnd(s[..|s| - 1]) else s
  }

  /** String.prototype.trim. */
  function Trim(s: string): string {
    TrimEnd(TrimStart(s))
  }

  /** TrimStart cuts off a prefix made of white space only, and keeps the first non-white-space character. */
  lemma {:induction false} TrimStartSpec(s: string)
    ensures var r := TrimStart(s);
      && |r| <= |s| && r == s[|s| - |r|..]
      && (r == [] || !IsJsWhitespace(r[0]))
      && forall i | 0 <= i < |s| - |r| :: IsJsWhitespace(s[i])
    decreases |s|
  {
    if s != [] && IsJsWhitespace(s[0]) {
      TrimStartSpec(s[1..]);
      assert forall i | 1 <= i < |s| :: s[i] == s[1..][i - 1];
    }
  }

  /** TrimEnd cuts off a suffix made of white space only, and keeps the last non-white-space character. */
  lemma {:induction false} TrimEndSpec(s: string)
    ensures var r := TrimEnd(s);
      && |r| <= |s| && r == s[..|r|]
      && (r == [] || !IsJsWhitespace(r[|r| - 1]))
      && forall i | |r| <= i < |s| :: IsJsWhitespace(s[i])
    decreases |s|
  {
    if s != [] && IsJsWhitespace(s[|s| - 1]) {
      TrimEndSpec(s[..|s| - 1]);
      assert s[..|s| - 1][..|TrimEnd(s)|] == s[..|TrimEnd(s)|];
    }
  }

  /**
   * trim cuts a slice out of the string: everything cut off is white space,
   * and what is kept neither starts nor ends with white space.
   */
  lemma TrimSpec(s: string)
    ensures exists a, b | 0 <= a <= b <= |s| ::
      && Trim(s) == s[a..b]
      && (forall i | 0 <= i < a :: IsJsWhitespace(s[i]))
      && (forall i | b <= i < |s| :: IsJsWhitespace(s[i]))
    ensures Trim(s) == [] || (!IsJsWhitespace(Trim(s)[0]) && !IsJsWhitespace(Trim(s)[|Trim(s)| - 1]))
  {
    var t := TrimStart(s);
    TrimStartSpec(s);
    TrimEndSpec(t);
    var r := Trim(s);
    var a := |s| - |t|;
    var b := a + |r|;
    assert r == s[a..b];
    forall i | b <= i < |s| ensures IsJsWhitespace(s[i]) {
      assert s[i] == t[i - a];
    }
    if r != [] {
      assert r[0] == t[0];
    }
  }

  /** `!s.trim()` holds exactly for strings made of white space only (the empty string included). */
  lemma TrimEmptyIff(s: string)
    ensures Trim(s) == [] <==> forall i | 0 <= i < |s| :: IsJsWhitespace(s[i])
  {
    TrimSpec(s);
    if forall i | 0 <= i < |s| :: IsJsWhitespace(s[i]) {
      var a, b :| 0 <= a <= b <= |s| && Trim(s) == s[a..b];
    }
  }

  /** One row of the form. */
  datatype UrlEntry = UrlEntry(originalUrl: string, validity: int, customShortCode: string, useCustom: bool)

  /** A fresh row: no URL, 30 minutes, no custom code. */
  const DefaultEntry := UrlEntry("", 30, "", false)

  const MaxEntries: nat := 5

  /** The custom code is used exactly when the switch is on and the code is non-empty. */
  predicate CustomRequested(entry: UrlEntry) {
    entry.useCustom && entry.customShortCode != ""
  }

  datatype ValidationError = UrlRequired | InvalidUrl | InvalidShortCode | ShortCodeTaken | InvalidValidity

  function ErrorMessage(e: ValidationError): string {
    match e
    case UrlRequired => "URL is required"
    case InvalidUrl => "Please enter a valid URL"
    case InvalidShortCode => "Shortcode must be 3-20 alphanumeric characters"
    case ShortCodeTaken => "This shortcode is already in use"
    case InvalidValidity => "Validity must be between 1 minute and 24 hours"
  }

  /**
   * The error recorded for one entry: the first failing check in the order
   * required URL, URL syntax, custom-code syntax, custom-code uniqueness against
   * the stored records, validity bounds; None when all pass.
   */
  function EntryError(entry: UrlEntry, existing: seq<UrlRecord>, parse: UrlParser): Option<ValidationError>
  {
    var url := Trim(entry.originalUrl);
    if url == "" then Some(UrlRequired)
    else if !IsValidUrl(NormalizeUrl(url), parse) then Some(InvalidUrl)
    else if CustomRequested(entry) && !IsValidShortCode(entry.customShortCode) then Some(InvalidShortCode)
    else if CustomRequested(entry) && !IsShortCodeUnique(entry.customShortCode, existing) then Some(ShortCodeTaken)
    else if !IsValidValidityDuration(entry.validity) then Some(InvalidValidity)
    else None
  }

  /**
   * validateInputs' verdict on one entry as written: the same checks in the
   * same order, but the validity goes through `parseInt` first, so every
   * validity of 10^21 minutes or more passes.
   */
  function EntryErrorAsWritten(entry: UrlEntry, existing: seq<UrlRecord>, parse: UrlParser): Option<ValidationError>
  {
    var url := Trim(entry.originalUrl);
    if url == "" then Some(UrlRequired)
    else if !IsValidUrl(NormalizeUrl(url), parse) then Some(InvalidUrl)
    else if CustomRequested(entry) && !IsValidShortCode(entry.customShortCode) then Some(InvalidShortCode)
    else if CustomRequested(entry) && !IsShortCodeUnique(entry.customShortCode, existing) then Some(ShortCodeTaken)
    else if !IsValidValidityDurationAsWritten(entry.validity) then Some(InvalidValidity)
    else None
  }

  /**
   * The verdicts as written and as intended differ exactly on entries that
   * pass every other check and carry a validity of 10^21 or more: those are
   * refused as intended and let through as written.
   */
  lemma EntryErrorAsWrittenDiffers(entry: UrlEntry, existing: seq<UrlRecord>, parse: UrlParser)
    ensures EntryErrorAsWritten(entry, existing, parse) != EntryError(entry, existing, parse) <==>
      EntryError(entry, existing, parse) == Some(InvalidValidity) && entry.validity >= ExponentThreshold
    ensures EntryErrorAsWritten(entry, existing, parse) != EntryError(entry, existing, parse) ==>
      EntryErrorAsWritten(entry, existing, parse).None?
  {
  }

  /** "a.io" with a validity of 10^21 minutes passes as written and is refused as intended. */
  lemma HugeValidityEntryPassesAsWritten(parse: UrlParser)
    requires parse("https://a.io") == Some("https:")
    ensures EntryErrorAsWritten(UrlEntry("a.io", ExponentThreshold, "", false), [], parse).None?
    ensures EntryError(UrlEntry("a.io", ExponentThreshold, "", false), [], parse) == Some(InvalidValidity)
  {
    ExampleUrlNormalised();
  }

  /** "a.io" has no white space to trim and gets the "https://" prefix. */
  lemma ExampleUrlNormalised()
    ensures Trim("a.io") == "a.io"
    ensures NormalizeUrl(Trim("a.io")) == "https://a.io"
  {
    var url := "a.io";
    assert TrimStart(url) == url;
    assert TrimEnd(url) == url;
    assert !StartsWith(url, "http://") && !StartsWith(url, "https://");
  }

  /** Each error is reported exactly when every earlier check passed and its own check failed. */
  lemma EntryErrorIsFirstFailingCheck(entry: UrlEntry, existing: seq<UrlRecord>, parse: UrlParser)
    ensures EntryError(entry, existing, parse) == Some(UrlRequired) <==> Trim(entry.originalUrl) == ""
    ensures EntryError(entry, existing, parse) == Some(InvalidUrl) <==>
      Trim(entry.originalUrl) != "" && !IsValidUrl(NormalizeUrl(Trim(entry.originalUrl)), parse)
    ensures EntryError(entry, existing, parse) == Some(InvalidShortCode) <==>
      && Trim(entry.originalUrl) != "" && IsValidUrl(NormalizeUrl(Trim(entry.originalUrl)), parse)
      && CustomRequested(entry) && !IsValidShortCode(entry.customShortCode)
    ensures EntryError(entry, existing, parse) == Some(ShortCodeTaken) <==>
      && Trim(entry.originalUrl) != "" && IsValidUrl(NormalizeUrl(Trim(entry.originalUrl)), parse)
      && CustomRequested(entry) && IsValidShortCode(entry.customShortCode)
      && exists i | 0 <= i < |existing| :: existing[i].shortCode == entry.customShortCode
    ensures EntryError(entry, existing, parse) == Some(InvalidValidity) <==>
      && Trim(entry.originalUrl) != "" && IsValidUrl(NormalizeUrl(Trim(entry.originalUrl)), parse)
      && (CustomRequested(entry) ==>
            IsValidShortCode(entry.customShortCode) && IsShortCodeUnique(entry.customShortCode, existing))
      && !(1 <= entry.validity <= 1440)
  {
  }

  /** An entry passes exactly when every check it is subject to passes. */
  lemma EntryPasses(entry: UrlEntry, existing: seq<UrlRecord>, parse: UrlParser)
    ensures EntryError(entry, existing, parse).None? <==>
      && Trim(entry.originalUrl) != ""
      && IsValidUrl(NormalizeUrl(Trim(entry.originalUrl)), parse)
      && (CustomRequested(entry) ==>
            IsValidShortCode(entry.customShortCode)
            && forall i | 0 <= i < |existing| :: existing[i].shortCode != entry.customShortCode)
      && 1 <= entry.validity <= 1440
  {
  }

  /**
   * The errors of a batch, keyed by entry position, as the forEach fills the
   * dictionary: each entry is judged on its own and adds at most its own error.
   */
  function BatchErrors(entries: seq<UrlEntry>, existing: seq<UrlRecord>, parse: UrlParser): (m: map<nat, ValidationError>)
    ensures forall k: nat :: k in m <==> k < |entries| && EntryError(entries[k], existing, parse).Some?
    ensures forall k: nat | k in m :: Some(m[k]) == EntryError(entries[k], existing, parse)
    decreases |entries|
  {
    if entries == [] then map[]
    else
      var last := |entries| - 1;
      var earlier := BatchErrors(entries[..last], existing, parse);
      assert forall k | 0 <= k < last :: entries[..last][k] == entries[k];
      match EntryError(entries[last], existing, parse)
      case Some(e) => earlier[last := e]
      case None => earlier
  }

  /** A stored record's code requested again as a custom code is refused as taken (or earlier). */
  lemma TakenCodeIsRefused(entry: UrlEntry, existing: seq<UrlRecord>, parse: UrlParser, k: nat)
    requires k < |existing| && CustomRequested(entry) && entry.customShortCode == existing[k].shortCode
    ensures EntryError(entry, existing, parse).Some?
    ensures EntryError(entry, existing, parse) != Some(InvalidValidity)
  {
  }

  /**
   * Custom codes are compared with the stored records only: two entries of one
   * batch asking for the same unused code both pass validation.
   */
  lemma SiblingCodesAreNotCompared(entry: UrlEntry, existing: seq<UrlRecord>, parse: UrlParser)
    requires EntryError(entry, existing, parse).None? && CustomRequested(entry)
    ensures BatchErrors([entry, entry], existing, parse) == map[]
  {
    var m := BatchErrors([entry, entry], existing, parse);
    forall i: nat | i < 2 ensures i !in m {
      assert [entry, entry][i] == entry;
    }
    assert m.Keys == {};
  }

  /** The batch passes exactly when every entry passes. */
  lemma BatchErrorsEmptyIff(entries: seq<UrlEntry>, existing: seq<UrlRecord>, parse: UrlParser)
    ensures BatchErrors(entries, existing, parse) == map[] <==>
      forall i | 0 <= i < |entries| :: EntryError(entries[i], existing, parse).None?
  {
    if BatchErrors(entries, existing, parse) == map[] {
      forall i | 0 <= i < |entries| ensures EntryError(entries[i], existing, parse).None? {
        assert i !in BatchErrors(entries, existing, parse);
      }
    }
  }

  /** A failing entry does not affect the verdict on its neighbours. */
  lemma BatchErrorsIndependent(entries: seq<UrlEntry>, existing: seq<UrlRecord>, parse: UrlParser, k: nat, other: UrlEntry)
    requires k < |entries|
    ensures forall i: nat | i < |entries| && i != k ::
      (i in BatchErrors(entries, existing, parse) <==> i in BatchErrors(entries[k := other], existing, parse))
  {
  }

  /** The record saved for the i-th entry: one `now` stands for every Date.now call. */
  function BuildRecord(entry: UrlEntry, code: string, now: int, i: nat): UrlRecord {
    UrlRecord(
      now + i,
      NormalizeUrl(Trim(entry.originalUrl)),
      code,
      now,
      CalculateExpiryTime(now, Some(entry.validity)),
      entry.validity,
      entry.useCustom && entry.customShortCode != "")
  }

  /** A record of a validated entry is live, points at an http(s) URL and lives 1 minute to 24 hours. */
  lemma BuiltRecordIsWellFormed(entry: UrlEntry, existing: seq<UrlRecord>, parse: UrlParser, code: string, now: int, i: nat)
    requires EntryError(entry, existing, parse).None?
    ensures var r := BuildRecord(entry, code, now, i);
      && (StartsWith(r.originalUrl, "http://") || StartsWith(r.originalUrl, "https://"))
      && IsValidUrl(r.originalUrl, parse)
      && r.expiresAt - r.createdAt == entry.validity * MsPerMinute
      && r.createdAt + MsPerMinute <= r.expiresAt <= r.createdAt + 24 * MsPerHour
      && !IsExpired(now, r.expiresAt)
      && r.isCustom == CustomRequested(entry)
  {
    ExpiryWithinWindow(now, entry.validity);
  }

  /** The records of a batch that actually reached the store (writes may fail one by one). */
  function Saved(records: seq<UrlRecord>, writeFails: nat -> bool): (r: seq<UrlRecord>)
    ensures |r| <= |records|
    ensures forall x | x in r :: x in records
  {
    if records == [] then []
    else
      var last := |records| - 1;
      Saved(records[..last], writeFails) + (if writeFails(last) then [] else [records[last]])
  }

  /** A created entry as the form shows it. */
  datatype ShortenResult = ShortenResult(record: UrlRecord, shortUrl: string, timeRemaining: string)

  /** What a press of the "shorten" button led to. */
  datatype ShortenOutcome =
    | ValidationFailed
    | Shortened
      /** The generator found no unused code within the draws the model allows; the page would still be drawing. */
    | StillDrawing

  class ShortenerForm {
    var urls: seq<UrlEntry>
    var errors: map<nat, ValidationError>
    var results: seq<ShortenResult>
    var isLoading: bool
    var showSuccess: bool

    ghost predicate Valid()
      reads this
    {
      1 <= |urls| <= MaxEntries
    }

    constructor ()
      ensures Valid() && urls == [DefaultEntry] && errors == map[] && results == []
      ensures !isLoading && !showSuccess
    {
      urls := [DefaultEntry];
      errors := map[];
      results := [];
      isLoading := false;
      showSuccess := false;
    }

    /** The mount effect: the store's expired records are swept once; the form itself is untouched. */
    method Mount(store: StorageManager, now: int, writeFails: bool)
      modifies store
      ensures store.GetShortenedUrls() ==
        if writeFails then old(store.GetShortenedUrls()) else Unexpired(old(store.GetShortenedUrls()), now)
      ensures store.analyticsSlot == old(store.analyticsSlot) && store.settingsSlot == old(store.settingsSlot)
    {
      var _ := store.CleanupExpiredUrls(now, writeFails);
    }

    /** addUrlField: a default row is appended while there are fewer than five. */
    method AddUrlField()
      requires Valid()
      modifies this`urls
      ensures Valid()
      ensures urls == if |old(urls)| < MaxEntries then old(urls) + [DefaultEntry] else old(urls)
    {
      if |urls| < MaxEntries {
        urls := urls + [DefaultEntry];
      }
    }

    /** removeUrlField: the row at `index` goes, the others keep their order; the last row stays. */
    method RemoveUrlField(index: int)
      requires Valid()
      modifies this`urls
      ensures Valid()
      ensures urls == if |old(urls)| > 1 then WithoutIndex(old(urls), index) else old(urls)
    {
      if |urls| > 1 {
        urls := WithoutIndex(urls, index);
      }
    }

    /** updateUrl: one field of one row changes and that row's error is cleared. */
    method UpdateUrl(index: nat, update: FieldUpdate)
      requires Valid() && index < |urls|
      modifies this`urls, this`errors
      ensures Valid()
      ensures urls == old(urls)[index := UpdateField(old(urls)[index], update)]
      ensures errors == old(errors) - {index}
    {
      urls := urls[index := UpdateField(urls[index], update)];
      if index in errors {
        errors := errors - {index};
      }
    }

    /**
     * validateInputs: every row is checked against the records stored now; the
     * form's errors become exactly the failing rows' first errors.
     */
    method ValidateInputs(store: StorageManager, parse: UrlParser) returns (ok: bool)
      modifies this`errors
      ensures errors == BatchErrors(urls, store.GetShortenedUrls(), parse)
      ensures ok <==> errors == map[]
    {
      var newErrors: map<nat, ValidationError> := map[];
      var existing := store.GetShortenedUrls();
      for i := 0 to |urls|
        invariant newErrors == BatchErrors(urls[..i], existing, parse)
      {
        var e := EntryError(urls[i], existing, parse);
        assert urls[..i + 1][..i] == urls[..i];
        if e.Some? {
          newErrors := newErrors[i := e.value];
        }
      }
      assert urls[..|urls|] == urls;
      errors := newErrors;
      ok := |newErrors| == 0;
    }

    /**
     * shortenUrls: nothing is saved unless every row passes. Otherwise each row
     * yields one record, in row order, saved at the end of the stored list; a
     * generated code differs from every code stored when it was drawn,
     * including the batch's earlier records. The form is then reset to one
     * empty row and the results are shown.
     */
    method ShortenUrls(
      store: StorageManager, parse: UrlParser, now: int, random: nat -> AlphabetIndex,
      maxRedraws: nat, writeFails: nat -> bool, origin: string)
      returns (outcome: ShortenOutcome)
      requires Valid()
      modifies this, store
      ensures Valid()
      ensures store.analyticsSlot == old(store.analyticsSlot) && store.settingsSlot == old(store.settingsSlot)
      ensures outcome == ValidationFailed <==>
        exists i | 0 <= i < |old(urls)| :: EntryError(old(urls)[i], old(store.GetShortenedUrls()), parse).Some?
      ensures outcome == ValidationFailed ==>
        && store.urlsSlot == old(store.urlsSlot)
        && urls == old(urls) && results == old(results)
        && isLoading == old(isLoading) && showSuccess == old(showSuccess)
        && errors == BatchErrors(old(urls), old(store.GetShortenedUrls()), parse)
      ensures outcome == Shortened ==>
        && errors == map[]
        && |results| == |old(urls)|
        && urls == [DefaultEntry] && showSuccess && !isLoading
        && store.GetShortenedUrls() == old(store.GetShortenedUrls()) + Saved(RecordsOf(results), writeFails)
        && forall i | 0 <= i < |results| ::
             CreatedFrom(results, old(urls), old(store.GetShortenedUrls()), now, writeFails, origin, i)
      ensures outcome == StillDrawing ==>
        && isLoading && results == old(results)
        && urls == old(urls) && errors == map[] && showSuccess == old(showSuccess)
    {
      var ok := ValidateInputs(store, parse);
      BatchErrorsEmptyIff(urls, old(store.GetShortenedUrls()), parse);
      if !ok {
        return ValidationFailed;
      }
      isLoading := true;
      var complete, created := SaveBatch(store, urls, now, random, maxRedraws, writeFails, origin);
      if !complete {
        return StillDrawing;
      }
      results := created;
      showSuccess := true;
      urls := [DefaultEntry];
      isLoading := false;
      outcome := Shortened;
    }
  }

  /**
   * The loop of shortenUrls over validated rows: row i becomes a record with id
   * `now + i`, saved at the end of the stored list (the write for row i fails
   * when `writeFails(i)`), and a result carrying its short URL and remaining time.
   * `complete` is false only when the generator gave up on a row; the rows
   * before it are then saved already.
   */
  method SaveBatch(
    store: StorageManager, entries: seq<UrlEntry>, now: int, random: nat -> AlphabetIndex,
    maxRedraws: nat, writeFails: nat -> bool, origin: string)
    returns (complete: bool, created: seq<ShortenResult>)
    modifies store
    ensures store.analyticsSlot == old(store.analyticsSlot) && store.settingsSlot == old(store.settingsSlot)
    ensures |created| <= |entries| && (complete ==> |created| == |entries|)
    ensures store.GetShortenedUrls() == old(store.GetShortenedUrls()) + Saved(RecordsOf(created), writeFails)
    ensures forall i | 0 <= i < |created| ::
      CreatedFrom(created, entries, old(store.GetShortenedUrls()), now, writeFails, origin, i)
  {
    ghost var stored0 := store.GetShortenedUrls();
    created := [];
    var draw: nat := 0;
    for i := 0 to |entries|
      invariant |created| == i
      invariant store.analyticsSlot == old(store.analyticsSlot) && store.settingsSlot == old(store.settingsSlot)
      invariant store.GetShortenedUrls() == stored0 + Saved(RecordsOf(created), writeFails)
      invariant forall j | 0 <= j < i :: CreatedFrom(created, entries, stored0, now, writeFails, origin, j)
    {
      var entry := entries[i];
      var shortCode: string;
      if CustomRequested(entry) {
        shortCode := entry.customShortCode;
      } else {
        var existing := store.GetShortenedUrls();
        var drawn: Option<string>;
        drawn, draw := DrawUniqueCode(random, draw, existing, maxRedraws);
        if drawn.None? {
          return false, created;
        }
        shortCode := drawn.value;
      }
      var record := BuildRecord(entry, shortCode, now, i);
      var _ := store.SaveShortenedUrl(record, writeFails(i));
      var result := ShortenResult(record, origin + "/" + shortCode, GetTimeRemaining(now, record.expiresAt));
      SavedExtend(created, result, writeFails);
      CreatedFromExtend(created, result, entries, stored0, now, writeFails, origin);
      created := created + [result];
    }
    complete := true;
  }

  /** One more result adds its record to the saved list unless its write fails. */
  lemma SavedExtend(results: seq<ShortenResult>, result: ShortenResult, writeFails: nat -> bool)
    ensures Saved(RecordsOf(results + [result]), writeFails) ==
      Saved(RecordsOf(results), writeFails) + (if writeFails(|results|) then [] else [result.record])
  {
    var rs := RecordsOf(results + [result]);
    assert rs[..|results|] == RecordsOf(results);
  }

  /** A result built the way the loop builds it keeps every earlier result's description true. */
  lemma CreatedFromExtend(
    results: seq<ShortenResult>, result: ShortenResult, entries: seq<UrlEntry>, stored0: seq<UrlRecord>,
    now: int, writeFails: nat -> bool, origin: string)
    requires |results| < |entries|
    requires forall j | 0 <= j < |results| :: CreatedFrom(results, entries, stored0, now, writeFails, origin, j)
    requires var code := result.record.shortCode;
      && result.record == BuildRecord(entries[|results|], code, now, |results|)
      && result.shortUrl == origin + "/" + code
      && result.timeRemaining == GetTimeRemaining(now, result.record.expiresAt)
      && (CustomRequested(entries[|results|]) ==> code == entries[|results|].customShortCode)
      && (!CustomRequested(entries[|results|]) ==>
            && IsValidShortCode(code) && |code| == ShortCodeLength
            && IsShortCodeUnique(code, stored0 + Saved(RecordsOf(results), writeFails)))
    ensures forall j | 0 <= j < |results| + 1 ::
      CreatedFrom(results + [result], entries, stored0, now, writeFails, origin, j)
  {
    var ext := results + [result];
    assert ext[..|results|] == results;
    forall j | 0 <= j < |results| + 1
      ensures CreatedFrom(ext, entries, stored0, now, writeFails, origin, j)
    {
      if j < |results| {
        assert CreatedFrom(results, entries, stored0, now, writeFails, origin, j);
        assert ext[..j] == results[..j];
        assert ext[j] == results[j];
      } else {
        assert ext[j] == result;
      }
    }
  }

  /**
   * The offset of the first of `attempts` consecutive six-draw codes, starting
   * at draw `offset`, that no record of `existing` carries.
   */
  function FirstFreeDraw(random: nat -> AlphabetIndex, offset: nat, existing: seq<UrlRecord>, attempts: nat): (r: Option<nat>)
    ensures r.Some? ==> offset <= r.value && IsShortCodeUnique(CodeFromDraws(random, r.value), existing)
    decreases attempts
  {
    if attempts == 0 then None
    else if IsShortCodeUnique(CodeFromDraws(random, offset), existing) then Some(offset)
    else FirstFreeDraw(random, offset + ShortCodeLength, existing, attempts - 1)
  }

  /** The search gives up only when every one of the codes it may draw is taken. */
  lemma {:induction false} FirstFreeDrawExhausted(random: nat -> AlphabetIndex, offset: nat, existing: seq<UrlRecord>, attempts: nat)
    requires FirstFreeDraw(random, offset, existing, attempts).None?
    ensures forall n | 0 <= n < attempts ::
      !IsShortCodeUnique(CodeFromDraws(random, offset + n * ShortCodeLength), existing)
    decreases attempts
  {
    if attempts > 0 {
      FirstFreeDrawExhausted(random, offset + ShortCodeLength, existing, attempts - 1);
      forall n | 0 <= n < attempts
        ensures !IsShortCodeUnique(CodeFromDraws(random, offset + n * ShortCodeLength), existing)
      {
        if n == 0 {
          assert offset + n * ShortCodeLength == offset;
        } else {
          var m := n - 1;
          assert offset + n * ShortCodeLength == (offset + ShortCodeLength) + m * ShortCodeLength;
        }
      }
    }
  }

  /** One step of the search: a taken code passes the search on to the next six draws. */
  lemma FirstFreeDrawStep(random: nat -> AlphabetIndex, offset: nat, existing: seq<UrlRecord>, attempts: nat)
    requires attempts > 1
    requires !IsShortCodeUnique(CodeFromDraws(random, offset), existing)
    ensures FirstFreeDraw(random, offset, existing, attempts) ==
      FirstFreeDraw(random, offset + ShortCodeLength, existing, attempts - 1)
  {
  }

  /** Where the search stops: at a free code, or at the last allowed draw when that one is taken too. */
  lemma FirstFreeDrawLast(random: nat -> AlphabetIndex, offset: nat, existing: seq<UrlRecord>, attempts: nat)
    requires attempts > 0
    requires IsShortCodeUnique(CodeFromDraws(random, offset), existing) || attempts == 1
    ensures FirstFreeDraw(random, offset, existing, attempts) ==
      if IsShortCodeUnique(CodeFromDraws(random, offset), existing) then Some(offset) else None
  {
  }

  /**
   * The do-while loop of shortenUrls: draw a code, and draw again while it is
   * taken. The page would keep drawing until it finds a free code; the model
   * gives up after `maxRedraws` further draws and then answers None.
   */
  method DrawUniqueCode(random: nat -> AlphabetIndex, draw: nat, existing: seq<UrlRecord>, maxRedraws: nat)
    returns (code: Option<string>, next: nat)
    ensures code.Some? <==> FirstFreeDraw(random, draw, existing, maxRedraws + 1).Some?
    ensures code.Some? ==>
      var offset := FirstFreeDraw(random, draw, existing, maxRedraws + 1).value;
      && code.value == CodeFromDraws(random, offset)
      && next == offset + ShortCodeLength
    ensures code.Some? ==>
      IsValidShortCode(code.value) && |code.value| == ShortCodeLength && IsShortCodeUnique(code.value, existing)
  {
    var offset: nat := draw;
    var left := maxRedraws;
    var candidate := GenerateShortCode(random, offset);
    while !IsShortCodeUnique(candidate, existing) && left > 0
      invariant candidate == CodeFromDraws(random, offset)
      invariant FirstFreeDraw(random, draw, existing, maxRedraws + 1) == FirstFreeDraw(random, offset, existing, left + 1)
      decreases left
    {
      FirstFreeDrawStep(random, offset, existing, left + 1);
      offset := offset + ShortCodeLength;
      left := left - 1;
      candidate := GenerateShortCode(random, offset);
    }
    FirstFreeDrawLast(random, offset, existing, left + 1);
    if IsShortCodeUnique(candidate, existing) {
      code := Some(candidate);
    } else {
      code := None;
    }
    next := offset + ShortCodeLength;
  }

  /** A change to one field of a row, as the form's inputs make them. */
  datatype FieldUpdate =
    | SetOriginalUrl(url: string)
    | SetValidity(minutes: int)
    | SetCustomShortCode(code: string)
    | SetUseCustom(on: bool)

  /** `{ ...entry, [field]: value }`. */
  function UpdateField(entry: UrlEntry, update: FieldUpdate): (r: UrlEntry)
    ensures update.SetOriginalUrl? ==> r == entry.(originalUrl := update.url)
    ensures update.SetValidity? ==> r == entry.(validity := update.minutes)
    ensures update.SetCustomShortCode? ==> r == entry.(customShortCode := update.code)
    ensures update.SetUseCustom? ==> r == entry.(useCustom := update.on)
  {
    match update
    case SetOriginalUrl(url) => entry.(originalUrl := url)
    case SetValidity(minutes) => entry.(validity := minutes)
    case SetCustomShortCode(code) => entry.(customShortCode := code)
    case SetUseCustom(on) => entry.(useCustom := on)
  }

  /** `entries.filter((_, i) => i !== index)`: the row at `index` removed, the rest in order. */
  function WithoutIndex(entries: seq<UrlEntry>, index: int): (r: seq<UrlEntry>)
    ensures 0 <= index < |entries| ==> |r| == |entries| - 1
    ensures 0 <= index < |entries| ==> forall j | 0 <= j < |r| :: r[j] == if j < index then entries[j] else entries[j + 1]
    ensures !(0 <= index < |entries|) ==> r == entries
  {
    if 0 <= index < |entries| then entries[..index] + entries[index + 1..] else entries
  }

  /** The rows of the form stay between one and five whatever is added or removed. */
  lemma EntryCountBounds(entries: seq<UrlEntry>, index: int)
    requires 1 <= |entries| <= MaxEntries
    ensures var added := if |entries| < MaxEntries then entries + [DefaultEntry] else entries;
      1 <= |added| <= MaxEntries && |added| == if |entries| < MaxEntries then |entries| + 1 else MaxEntries
    ensures var removed := if |entries| > 1 then WithoutIndex(entries, index) else entries;
      1 <= |removed| <= MaxEntries && (|entries| > 1 && 0 <= index < |entries| ==> |removed| == |entries| - 1)
  {
  }

  function RecordsOf(results: seq<ShortenResult>): (r: seq<UrlRecord>)
    ensures |r| == |results| && forall i | 0 <= i < |results| :: r[i] == results[i].record
  {
    seq(|results|, i requires 0 <= i < |results| => results[i].record)
  }

  /**
   * The i-th result is the record built from the i-th row with its code: the
   * custom code when requested, otherwise a valid six-character code unused
   * by the records stored when it was drawn (the initial ones and the batch's
   * earlier saved ones).
   */
  ghost predicate CreatedFrom(
    results: seq<ShortenResult>, entries: seq<UrlEntry>, stored0: seq<UrlRecord>,
    now: int, writeFails: nat -> bool, origin: string, i: nat)
  {
    && i < |results| && i < |entries|
    && var code := results[i].record.shortCode;
    && results[i].record == BuildRecord(entries[i], code, now, i)
    && results[i].shortUrl == origin + "/" + code
    && results[i].timeRemaining == GetTimeRemaining(now, results[i].record.expiresAt)
    && (CustomRequested(entries[i]) ==> code == entries[i].customShortCode)
    && (!CustomRequested(entries[i]) ==>
          && IsValidShortCode(code) && |code| == ShortCodeLength
          && IsShortCodeUnique(code, stored0 + Saved(RecordsOf(results[..i]), writeFails)))
  }
}
