/**
 * The statistics dashboard: it loads the stored records and click log, sorts
 * the records newest first, and shows four tiles (total, active, total clicks,
 * custom codes) and each record's own click count.
 *
 * The clock is the parameter `now`. The dashboard does not sweep expired
 * records: it counts them among the total and leaves them out of "active".
 */
module Statistics {
  import opened Wrappers
  import opened Records
  import opened UrlUtils
  import opened Storage

  /** Every record is at least as recent as every record after it. */
  predicate NewestFirst(s: seq<UrlRecord>) {
    forall i, j | 0 <= i < j < |s| :: s[i].createdAt >= s[j].createdAt
  }

  /**
   * `urlData.sort((a, b) => b.createdAt - a.createdAt)`: the array is put in
   * place into newest-first order and keeps exactly its elements. Adjacent
   * swaps move each record forward past strictly older ones only.
   */
  method SortNewestFirst(a: array<UrlRecord>)
    modifies a
    ensures NewestFirst(a[..])
    ensures multiset(a[..]) == multiset(old(a[..]))
  {
    for i := 0 to a.Length
      invariant forall p, q | 0 <= p < q < i :: a[p].createdAt >= a[q].createdAt
      invariant multiset(a[..]) == multiset(old(a[..]))
    {
      InsertNewest(a, i);
    }
  }

  /** One pass of the sort: `a[i]` moves forward past the strictly older records before it. */
  method InsertNewest(a: array<UrlRecord>, i: nat)
    requires i < a.Length
    requires forall p, q | 0 <= p < q < i :: a[p].createdAt >= a[q].createdAt
    modifies a
    ensures forall p, q | 0 <= p < q <= i :: a[p].createdAt >= a[q].createdAt
    ensures multiset(a[..]) == multiset(old(a[..]))
  {
    var j := i;
    while j > 0 && a[j - 1].createdAt < a[j].createdAt
      invariant 0 <= j <= i
      invariant forall p, q | 0 <= p < q <= i && p != j && q != j :: a[p].createdAt >= a[q].createdAt
      invariant forall q | j < q <= i :: a[j].createdAt >= a[q].createdAt
      invariant multiset(a[..]) == multiset(old(a[..]))
    {
      SwapWithPrevious(a, j);
      j := j - 1;
    }
  }

  /** Exchanges `a[j - 1]` and `a[j]`; the array keeps its elements. */
  method SwapWithPrevious(a: array<UrlRecord>, j: nat)
    requires 0 < j < a.Length
    modifies a
    ensures a[..] == old(a[..])[j - 1 := old(a[j])][j := old(a[j - 1])]
    ensures multiset(a[..]) == multiset(old(a[..]))
  {
    a[j - 1], a[j] := a[j], a[j - 1];
  }

  /** How many elements of `s` satisfy `p`. */
  function Count<T>(s: seq<T>, p: T -> bool): (n: nat)
    ensures n <= |s|
    decreases |s|
  {
    if s == [] then 0
    else
      (if p(s[0]) then 1 else 0) + Count(s[1..], p)
  }

  /** The count is zero exactly when no element satisfies `p`, and full exactly when all do. */
  lemma {:induction false} CountExtremes<T>(s: seq<T>, p: T -> bool)
    ensures Count(s, p) == 0 <==> forall i | 0 <= i < |s| :: !p(s[i])
    ensures Count(s, p) == |s| <==> forall i | 0 <= i < |s| :: p(s[i])
    decreases |s|
  {
    if s != [] {
      CountExtremes(s[1..], p);
      assert forall i | 1 <= i < |s| :: s[i] == s[1..][i - 1];
    }
  }

  /** Counting distributes over concatenation. */
  lemma {:induction false} CountAppend<T>(s: seq<T>, t: seq<T>, p: T -> bool)
    ensures Count(s + t, p) == Count(s, p) + Count(t, p)
    decreases |s|
  {
    if s == [] {
      assert s + t == t;
    } else {
      assert (s + t)[1..] == s[1..] + t;
      CountAppend(s[1..], t, p);
    }
  }

  /** Taking the k-th element out of a sequence removes it from the count. */
  lemma CountRemove<T>(t: seq<T>, k: nat, p: T -> bool)
    requires k < |t|
    ensures Count(t, p) == Count(t[..k] + t[k + 1..], p) + (if p(t[k]) then 1 else 0)
  {
    var before, rest, after := t[..k], t[k..], t[k + 1..];
    assert t == before + rest;
    assert rest[0] == t[k] && rest[1..] == after;
    CountAppend(before, rest, p);
    CountAppend(before, after, p);
  }

  /** Taking the k-th element out of a sequence removes one occurrence of it from its multiset. */
  lemma MultisetRemove<T>(t: seq<T>, k: nat)
    requires k < |t|
    ensures multiset(t[..k] + t[k + 1..]) == multiset(t) - multiset{t[k]}
  {
    assert t == t[..k] + [t[k]] + t[k + 1..];
  }

  /** Some position of a sequence holds each element of its multiset. */
  lemma PositionOf<T>(t: seq<T>, x: T) returns (k: nat)
    requires x in multiset(t)
    ensures k < |t| && t[k] == x
  {
    assert x in t;
    k :| 0 <= k < |t| && t[k] == x;
  }

  /** A count does not depend on the order of the elements: sorting changes no tile. */
  lemma {:induction false} CountPermutation<T>(s: seq<T>, t: seq<T>, p: T -> bool)
    requires multiset(s) == multiset(t)
    ensures Count(s, p) == Count(t, p)
    decreases |s|
  {
    if s != [] {
      var k := PositionOf(t, s[0]);
      var s1, t1 := s[1..], t[..k] + t[k + 1..];
      MultisetRemove(t, k);
      assert s == [s[0]] + s1;
      assert multiset(s1) == multiset(t1);
      CountPermutation(s1, t1, p);
      CountRemove(t, k, p);
    }
  }

  /** The "active" tile: records not expired at `now` (expiry is strict). */
  function ActiveCount(urls: seq<UrlRecord>, now: int): nat {
    Count(urls, (r: UrlRecord) => !IsExpired(now, r.expiresAt))
  }

  /** The "custom codes" tile. */
  function CustomCount(urls: seq<UrlRecord>): nat {
    Count(urls, (r: UrlRecord) => r.isCustom)
  }

  /** Records whose expiry instant is exactly `now`. */
  function ExpiringNow(urls: seq<UrlRecord>, now: int): nat {
    Count(urls, (r: UrlRecord) => r.expiresAt == now)
  }

  /**
   * The "active" tile counts what the sweep would keep plus the records that
   * expire at this very instant, which the redirect still follows but the sweep drops.
   */
  lemma {:induction false} ActiveCountVersusSweep(urls: seq<UrlRecord>, now: int)
    ensures ActiveCount(urls, now) == |Unexpired(urls, now)| + ExpiringNow(urls, now)
    ensures ActiveCount(urls, now) >= |Unexpired(urls, now)|
    decreases |urls|
  {
    if urls != [] {
      ActiveCountVersusSweep(urls[1..], now);
    }
  }

  /** The "total clicks" tile: the lengths of all click lists added up. */
  ghost function TotalClicks(log: ClickLog): nat
    decreases |log.Keys|
  {
    if log == map[] then 0
    else
      var k :| k in log;
      |log[k]| + TotalClicks(log - {k})
  }

  /** The total does not depend on which code the sum takes first. */
  lemma {:induction false} TotalClicksWithout(log: ClickLog, code: string)
    requires code in log
    ensures TotalClicks(log) == |log[code]| + TotalClicks(log - {code})
    decreases |log.Keys|
  {
    var k :| k in log && TotalClicks(log) == |log[k]| + TotalClicks(log - {k});
    if k != code {
      var smaller := log - {k};
      assert code in smaller;
      TotalClicksWithout(smaller, code);
      assert smaller - {code} == (log - {code}) - {k};
      TotalClicksWithout(log - {code}, k);
    }
  }

  /** One recorded click adds exactly one to the total, whichever code it is for. */
  lemma TotalClicksAfterClick(log: ClickLog, code: string, click: ClickEvent)
    ensures TotalClicks(AppendClick(log, code, click)) == TotalClicks(log) + 1
  {
    var m := AppendClick(log, code, click);
    TotalClicksWithout(m, code);
    assert m - {code} == log - {code};
    if code in log {
      TotalClicksWithout(log, code);
    } else {
      assert log - {code} == log;
    }
  }

  /** A record's own click count: the length of its list, 0 when it has none. */
  function ClickCount(log: ClickLog, code: string): (n: nat)
    ensures code in log ==> n == |log[code]|
    ensures code !in log ==> n == 0
  {
    if code in log then |log[code]| else 0
  }

  /** A click for one code raises that code's count by one and no other. */
  lemma ClickCountAfterClick(log: ClickLog, code: string, click: ClickEvent, other: string)
    ensures ClickCount(AppendClick(log, code, click), code) == ClickCount(log, code) + 1
    ensures other != code ==> ClickCount(AppendClick(log, code, click), other) == ClickCount(log, other)
  {
  }

  /**
   * The `length` a plain object's inherited member reports: the arity of the
   * inherited function, or None for `__proto__`, whose value (Object.prototype)
   * has no length and renders as nothing.
   */
  function InheritedLength(name: string): Option<nat>
    requires name in ObjectPrototypeMembers
  {
    if name in {"toString", "toLocaleString", "valueOf"} then Some(0)
    else if name in {"__defineGetter__", "__defineSetter__"} then Some(2)
    else if name == "__proto__" then None
    else Some(1)
  }

  /**
   * The per-record click count as written: `analytics[code]` reads inherited
   * members too, so a code named like one shows that member's length (None:
   * nothing is shown).
   */
  function ClickCountAsWritten(log: ClickLog, code: string): (r: Option<nat>)
    ensures code in log ==> r == Some(|log[code]|)
    ensures code !in log && code in ObjectPrototypeMembers ==> r == InheritedLength(code)
    ensures code !in log && code !in ObjectPrototypeMembers ==> r == Some(0)
  {
    if code in log then Some(|log[code]|)
    else if code in ObjectPrototypeMembers then InheritedLength(code)
    else Some(0)
  }

  /** The two counts agree on every code that is not an inherited member's name. */
  lemma ClickCountAsWrittenAgrees(log: ClickLog, code: string)
    requires code in log || code !in ObjectPrototypeMembers
    ensures ClickCountAsWritten(log, code) == Some(ClickCount(log, code))
  {
  }

  /**
   * The custom code "constructor" passes the short-code check, and before any
   * click the dashboard as written shows 1 click for it (the arity of Object)
   * where the own-key count is 0.
   */
  lemma ConstructorCodeShowsOneClick(log: ClickLog)
    requires "constructor" !in log
    ensures IsValidShortCode("constructor")
    ensures ClickCountAsWritten(log, "constructor") == Some(1)
    ensures ClickCount(log, "constructor") == 0
  {
    ConstructorIsInherited();
  }

  /** "constructor" names an inherited member, Object, whose length is 1; it is also a valid code. */
  lemma ConstructorIsInherited()
    ensures "constructor" in ObjectPrototypeMembers && InheritedLength("constructor") == Some(1)
    ensures IsValidShortCode("constructor")
  {
    assert "constructor" !in {"toString", "toLocaleString", "valueOf"};
    assert "constructor" !in {"__defineGetter__", "__defineSetter__"};
  }

  class Dashboard {
    var urls: seq<UrlRecord>
    var analytics: ClickLog
    var isLoading: bool

    constructor ()
      ensures urls == [] && analytics == map[] && !isLoading
    {
      urls := [];
      analytics := map[];
      isLoading := false;
    }

    /**
     * loadData: the stored records, newest first and nothing added or lost, and
     * the stored click log. The store itself is only read.
     */
    method LoadData(store: StorageManager)
      modifies this
      ensures NewestFirst(urls)
      ensures multiset(urls) == multiset(store.GetShortenedUrls())
      ensures |urls| == |store.GetShortenedUrls()|
      ensures analytics == store.GetAnalytics()
      ensures !isLoading
    {
      isLoading := true;
      var data := store.GetShortenedUrls();
      var sorted := new UrlRecord[|data|](i requires 0 <= i < |data| => data[i]);
      assert sorted[..] == data;
      SortNewestFirst(sorted);
      urls := sorted[..];
      analytics := store.GetAnalytics();
      isLoading := false;
    }

    /** The empty state is shown exactly when there is no record to list. */
    predicate ShowsEmptyState()
      reads this
    {
      |urls| == 0
    }
  }

  /**
   * After loading, the tiles are those of the stored list itself: the sort
   * changes neither the total, nor the active count, nor the custom count, and
   * the empty state appears exactly when nothing is stored.
   */
  lemma TilesIgnoreOrder(shown: seq<UrlRecord>, stored: seq<UrlRecord>, now: int)
    requires multiset(shown) == multiset(stored)
    ensures |shown| == |stored|
    ensures ActiveCount(shown, now) == ActiveCount(stored, now)
    ensures CustomCount(shown) == CustomCount(stored)
    ensures shown == [] <==> stored == []
  {
    assert |multiset(shown)| == |multiset(stored)|;
    CountPermutation(shown, stored, (r: UrlRecord) => !IsExpired(now, r.expiresAt));
    CountPermutation(shown, stored, (r: UrlRecord) => r.isCustom);
  }
}
