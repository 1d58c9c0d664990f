/** A snapshot of the settings a profile reset touches (startup URLs and
    type, homepage, homepage-is-new-tab-page, default search engine URL),
    the difference of two snapshots as a five-bit mask, and the report that
    lists exactly the masked fields.

    URLs are compared by their spec strings (GURL's operator<), which is the
    byte-wise lexicographic order on strings. */
module ResettableSettingsSnapshot {

  type Url = string

  // ---------------------------------------------------------------------
  // The order on URLs

  /** Lexicographic order: `a` is a proper prefix of `b`, or the first
      character where they differ is smaller in `a`. */
  predicate Less(a: string, b: string)
    decreases |a|
  {
    if a == [] then b != []
    else if b == [] then false
    else if a[0] != b[0] then a[0] < b[0]
    else Less(a[1..], b[1..])
  }

  predicate LessEq(a: string, b: string)
  {
    a == b || Less(a, b)
  }

  lemma {:induction false} LessIrreflexive(a: string)
    ensures !Less(a, a)
    decreases |a|
  {
    if a != [] {
      LessIrreflexive(a[1..]);
    }
  }

  lemma {:induction false} LessTotal(a: string, b: string)
    ensures a == b || Less(a, b) || Less(b, a)
    decreases |a|
  {
    if a != [] && b != [] && a[0] == b[0] {
      LessTotal(a[1..], b[1..]);
      if a[1..] == b[1..] {
        assert a == [a[0]] + a[1..] && b == [b[0]] + b[1..];
      }
    }
  }

  lemma {:induction false} LessAsymmetric(a: string, b: string)
    ensures !(Less(a, b) && Less(b, a))
    decreases |a|
  {
    if a != [] && b != [] && a[0] == b[0] {
      LessAsymmetric(a[1..], b[1..]);
    }
  }

  lemma {:induction false} LessTransitive(a: string, b: string, c: string)
    requires Less(a, b) && Less(b, c)
    ensures Less(a, c)
    decreases |a|
  {
    if a != [] && a[0] == b[0] && b[0] == c[0] {
      LessTransitive(a[1..], b[1..], c[1..]);
    }
  }

  lemma LessEqTransitive(a: string, b: string, c: string)
    requires LessEq(a, b) && LessEq(b, c)
    ensures LessEq(a, c)
  {
    if a != b && b != c {
      LessTransitive(a, b, c);
    }
  }

  /** Every element is at most every later one. */
  predicate Sorted(s: seq<Url>)
  {
    forall i, j :: 0 <= i < j < |s| ==> LessEq(s[i], s[j])
  }

  // ---------------------------------------------------------------------
  // std::sort

  /** Inserts `x` into the sorted `s` in order. */
  function Insert(x: Url, s: seq<Url>): (r: seq<Url>)
    requires Sorted(s)
    ensures Sorted(r) && multiset(r) == multiset(s) + multiset{x}
  {
    if s == [] then [x]
    else if LessEq(x, s[0]) then
      SortedInFront(x, s);
      [x] + s
    else
      SortedTail(s);
      var t := Insert(x, s[1..]);
      LessTotal(x, s[0]);
      InsertBehindHead(x, s, t);
      [s[0]] + t
  }

  lemma SortedTail(s: seq<Url>)
    requires Sorted(s) && s != []
    ensures Sorted(s[1..])
  {
  }

  /** An element at most the head of a sorted list can go in front. */
  lemma SortedInFront(x: Url, s: seq<Url>)
    requires Sorted(s) && s != [] && LessEq(x, s[0])
    ensures Sorted([x] + s)
  {
    forall j | 0 <= j < |s| ensures LessEq(x, s[j]) {
      LessEqTransitive(x, s[0], s[j]);
    }
    assert AtMostAll(x, s);
  }

  /** The head of a sorted list can go in front of its tail with an
      element above the head inserted. */
  lemma InsertBehindHead(x: Url, s: seq<Url>, t: seq<Url>)
    requires Sorted(s) && s != [] && Less(s[0], x)
    requires Sorted(t) && multiset(t) == multiset(s[1..]) + multiset{x}
    ensures Sorted([s[0]] + t) && multiset([s[0]] + t) == multiset(s) + multiset{x}
  {
    forall j | 0 <= j < |t| ensures LessEq(s[0], t[j]) {
      assert t[j] in multiset(t);
      if t[j] != x {
        assert t[j] in multiset(s[1..]);
      }
    }
    assert AtMostAll(s[0], t);
    DropHead(s);
  }

  /** std::sort on the startup URLs: the sorted permutation of `s`. */
  function Sort(s: seq<Url>): (r: seq<Url>)
    ensures Sorted(r) && multiset(r) == multiset(s)
  {
    if s == [] then []
    else
      assert s == s[..|s| - 1] + [s[|s| - 1]];
      Insert(s[|s| - 1], Sort(s[..|s| - 1]))
  }

  /** Two sorted permutations of each other start with the same element. */
  lemma SortedHeads(a: seq<Url>, b: seq<Url>)
    requires Sorted(a) && Sorted(b) && multiset(a) == multiset(b) && a != []
    ensures b != [] && a[0] == b[0]
  {
    assert a[0] in multiset(b);
    assert b[0] in multiset(a);
    LessAsymmetric(a[0], b[0]);
  }

  /** A sorted permutation is unique: sorting gives the same list whatever
      the algorithm, and sorting a sorted list changes nothing. */
  lemma {:induction false} SortedPermutationUnique(a: seq<Url>, b: seq<Url>)
    requires Sorted(a) && Sorted(b) && multiset(a) == multiset(b)
    ensures a == b
    decreases |a|
  {
    if a != [] {
      SortedHeads(a, b);
      DropHead(a);
      DropHead(b);
      assert a == [a[0]] + a[1..] && b == [b[0]] + b[1..];
      assert multiset(a[1..]) == multiset(a) - multiset{a[0]};
      assert multiset(b[1..]) == multiset(b) - multiset{b[0]};
      assert Sorted(a[1..]) && Sorted(b[1..]);
      SortedPermutationUnique(a[1..], b[1..]);
    }
  }

  lemma SortIdempotent(s: seq<Url>)
    requires Sorted(s)
    ensures Sort(s) == s
  {
    SortedPermutationUnique(Sort(s), s);
  }

  // ---------------------------------------------------------------------
  // std::set_difference

  /** `x` is at most every element of `s`. */
  predicate AtMostAll(x: Url, s: seq<Url>)
  {
    forall j :: 0 <= j < |s| ==> LessEq(x, s[j])
  }

  /** Putting the head of a sorted list in front of a sub-multiset of its
      tail keeps it sorted. */
  lemma ConsSorted(a: seq<Url>, t: seq<Url>)
    requires Sorted(a) && a != [] && Sorted(t) && multiset(t) <= multiset(a[1..])
    ensures Sorted([a[0]] + t)
  {
    forall j | 0 <= j < |t| ensures LessEq(a[0], t[j]) {
      assert t[j] in multiset(a[1..]);
    }
    assert AtMostAll(a[0], t);
  }

  /** An element below the head of a sorted list is not in it. */
  lemma BelowHead(x: Url, b: seq<Url>)
    requires Sorted(b) && b != [] && Less(x, b[0])
    ensures x !in multiset(b)
  {
    forall j | 0 <= j < |b| ensures Less(x, b[j]) {
      if b[j] != b[0] {
        LessTransitive(x, b[0], b[j]);
      }
    }
    LessIrreflexive(x);
  }

  /** std::set_difference of two sorted ranges: walks both in step, keeps
      the elements of `a` smaller than the head of `b`, drops one element
      of each on a match. */
  function SetDifference(a: seq<Url>, b: seq<Url>): (r: seq<Url>)
    requires Sorted(a) && Sorted(b)
    ensures Sorted(r)
    ensures multiset(r) == multiset(a) - multiset(b)
    decreases |a| + |b|
  {
    if a == [] then []
    else if b == [] then a
    else if Less(a[0], b[0]) then
      SortedTail(a);
      var t := SetDifference(a[1..], b);
      BelowHead(a[0], b);
      DropHead(a);
      ConsSorted(a, t);
      [a[0]] + t
    else if Less(b[0], a[0]) then
      SortedTail(b);
      BelowHead(b[0], a);
      DropHead(b);
      SetDifference(a, b[1..])
    else
      SortedTail(a);
      SortedTail(b);
      LessTotal(a[0], b[0]);
      DropHead(a);
      DropHead(b);
      SetDifference(a[1..], b[1..])
  }

  lemma DropHead(a: seq<Url>)
    requires a != []
    ensures multiset(a) == multiset{a[0]} + multiset(a[1..])
  {
    assert a == [a[0]] + a[1..];
  }

  /** Without duplicates in `a`, the difference keeps exactly the URLs of `a`
      that `b` lacks. */
  lemma SetDifferenceMembers(a: seq<Url>, b: seq<Url>, u: Url)
    requires Sorted(a) && Sorted(b)
    requires multiset(a)[u] <= 1
    ensures u in SetDifference(a, b) <==> u in a && u !in b
  {
    var r := SetDifference(a, b);
    assert u in r <==> u in multiset(r);
    assert u in a <==> u in multiset(a);
    assert u in b <==> u in multiset(b);
  }

  // ---------------------------------------------------------------------
  // The snapshot

  /** ResettableSettingsSnapshot::Field. */
  const STARTUP_URLS: bv32 := 1
  const STARTUP_TYPE: bv32 := 2
  const HOMEPAGE: bv32 := 4
  const HOMEPAGE_IS_NTP: bv32 := 8
  const DSE_URL: bv32 := 16
  const ALL_FIELDS: bv32 := 31

  /** Dictionary keys of the feedback report. */
  const kDefaultSearchEnginePath := "default_search_engine"
  const kHomepageIsNewTabPage := "homepage_is_ntp"
  const kHomepagePath := "homepage"
  const kStartupTypePath := "startup_type"
  const kStartupURLPath := "startup_urls"

  /** The values of the report's dictionary. */
  datatype Value = ListValue(items: seq<string>) | IntValue(i: int) | StringValue(s: string) | BoolValue(b: bool)

  class Snapshot {
    var startupUrls: seq<Url>
    var startupType: int
    var homepage: string
    var homepageIsNtp: bool
    var dseUrl: string

    /** The constructor stores the URLs sorted. */
    ghost predicate Valid()
      reads this
    {
      Sorted(startupUrls)
    }

    /** ResettableSettingsSnapshot::ResettableSettingsSnapshot: reads the
        startup preference, the homepage preferences and the default search
        provider's URL (empty when there is none), sorting the URLs. */
    constructor (urls: seq<Url>, startupType: int, homepage: string, homepageIsNtp: bool,
                 defaultSearchUrl: string, hasDefaultSearch: bool)
      ensures Valid() && multiset(startupUrls) == multiset(urls)
      ensures this.startupType == startupType && this.homepage == homepage
      ensures this.homepageIsNtp == homepageIsNtp
      ensures dseUrl == if hasDefaultSearch then defaultSearchUrl else ""
    {
      startupUrls := Sort(urls);
      this.startupType := startupType;
      this.homepage := homepage;
      this.homepageIsNtp := homepageIsNtp;
      dseUrl := if hasDefaultSearch then defaultSearchUrl else "";
    }

    /** ResettableSettingsSnapshot::SubtractStartupURLs: keeps the URLs of
        this snapshot that `other` lacks, in order; nothing else changes. */
    method SubtractStartupURLs(other: Snapshot)
      requires Valid() && other.Valid()
      modifies this`startupUrls
      ensures Valid()
      ensures startupUrls == SetDifference(old(startupUrls), old(other.startupUrls))
      ensures multiset(startupUrls) == multiset(old(startupUrls)) - multiset(old(other.startupUrls))
    {
      startupUrls := SetDifference(startupUrls, other.startupUrls);
    }

    /** ResettableSettingsSnapshot::FindDifferentFields. */
    function FindDifferentFields(other: Snapshot): (mask: bv32)
      reads this, other
      ensures mask & STARTUP_URLS != 0 <==> startupUrls != other.startupUrls
      ensures mask & STARTUP_TYPE != 0 <==> startupType != other.startupType
      ensures mask & HOMEPAGE != 0 <==> homepage != other.homepage
      ensures mask & HOMEPAGE_IS_NTP != 0 <==> homepageIsNtp != other.homepageIsNtp
      ensures mask & DSE_URL != 0 <==> dseUrl != other.dseUrl
      ensures mask & !ALL_FIELDS == 0
    {
      (if startupUrls != other.startupUrls then STARTUP_URLS else 0) |
      (if startupType != other.startupType then STARTUP_TYPE else 0) |
      (if homepage != other.homepage then HOMEPAGE else 0) |
      (if homepageIsNtp != other.homepageIsNtp then HOMEPAGE_IS_NTP else 0) |
      (if dseUrl != other.dseUrl then DSE_URL else 0)
    }
  }

  /** A snapshot compared with itself differs nowhere. */
  lemma FindDifferentFieldsSelf(s: Snapshot)
    ensures s.FindDifferentFields(s) == 0
  {
    var m := s.FindDifferentFields(s);
    assert m & !ALL_FIELDS == 0;
    assert m & STARTUP_URLS == 0 && m & STARTUP_TYPE == 0 && m & HOMEPAGE == 0;
    assert m & HOMEPAGE_IS_NTP == 0 && m & DSE_URL == 0;
  }

  /** The mask does not depend on the order of the two snapshots. */
  lemma FindDifferentFieldsSymmetric(s: Snapshot, t: Snapshot)
    ensures s.FindDifferentFields(t) == t.FindDifferentFields(s)
  {
    var m, n := s.FindDifferentFields(t), t.FindDifferentFields(s);
    assert m & !ALL_FIELDS == 0 && n & !ALL_FIELDS == 0;
    assert m & STARTUP_URLS == n & STARTUP_URLS && m & STARTUP_TYPE == n & STARTUP_TYPE;
    assert m & HOMEPAGE == n & HOMEPAGE && m & HOMEPAGE_IS_NTP == n & HOMEPAGE_IS_NTP;
    assert m & DSE_URL == n & DSE_URL;
  }

  /** The mask is at most ALL_FIELDS. */
  lemma FindDifferentFieldsBound(s: Snapshot, t: Snapshot)
    ensures s.FindDifferentFields(t) <= ALL_FIELDS
  {
    var m := s.FindDifferentFields(t);
    assert m & !ALL_FIELDS == 0;
  }

  /** SerializeSettingsReport, up to JSON writing: the dictionary holds a key
      exactly for each field whose bit is in `fieldMask`, with that field's
      value; the URL list keeps the snapshot's order. */
  method SerializeSettingsReport(snapshot: Snapshot, fieldMask: bv32) returns (dict: map<string, Value>)
    ensures kStartupURLPath in dict <==> fieldMask & STARTUP_URLS != 0
    ensures kStartupTypePath in dict <==> fieldMask & STARTUP_TYPE != 0
    ensures kHomepagePath in dict <==> fieldMask & HOMEPAGE != 0
    ensures kHomepageIsNewTabPage in dict <==> fieldMask & HOMEPAGE_IS_NTP != 0
    ensures kDefaultSearchEnginePath in dict <==> fieldMask & DSE_URL != 0
    ensures dict.Keys <= {kStartupURLPath, kStartupTypePath, kHomepagePath, kHomepageIsNewTabPage, kDefaultSearchEnginePath}
    ensures kStartupURLPath in dict ==> dict[kStartupURLPath] == ListValue(snapshot.startupUrls)
    ensures kStartupTypePath in dict ==> dict[kStartupTypePath] == IntValue(snapshot.startupType)
    ensures kHomepagePath in dict ==> dict[kHomepagePath] == StringValue(snapshot.homepage)
    ensures kHomepageIsNewTabPage in dict ==> dict[kHomepageIsNewTabPage] == BoolValue(snapshot.homepageIsNtp)
    ensures kDefaultSearchEnginePath in dict ==> dict[kDefaultSearchEnginePath] == StringValue(snapshot.dseUrl)
  {
    dict := map[];
    if fieldMask & STARTUP_URLS != 0 {
      var list: seq<string> := [];
      var urls := snapshot.startupUrls;
      var i := 0;
      while i < |urls|
        invariant 0 <= i <= |urls|
        invariant list == urls[..i]
      {
        list := list + [urls[i]];
        i := i + 1;
      }
      dict := dict[kStartupURLPath := ListValue(list)];
    }
    if fieldMask & STARTUP_TYPE != 0 {
      dict := dict[kStartupTypePath := IntValue(snapshot.startupType)];
    }
    if fieldMask & HOMEPAGE != 0 {
      dict := dict[kHomepagePath := StringValue(snapshot.homepage)];
    }
    if fieldMask & HOMEPAGE_IS_NTP != 0 {
      dict := dict[kHomepageIsNewTabPage := BoolValue(snapshot.homepageIsNtp)];
    }
    if fieldMask & DSE_URL != 0 {
      dict := dict[kDefaultSearchEnginePath := StringValue(snapshot.dseUrl)];
    }
  }
}
