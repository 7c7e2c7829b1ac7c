/** Choosing the weeks to scrape from the week drop-down and collecting
    each week's page snapshots into the week-to-snapshots map. */
module Weeks {
  import opened Wrappers
  import opened Text
  import opened Html
  import opened Pagination

  /** An `<option>` of the week drop-down: its label and its form value. */
  datatype WeekOption = WeekOption(text: string, value: string)

  /** The week number of an option label: the integer after the last
      `"week "` of the lower-cased label, or `None` when that text is not
      an integer (the `ValueError` the scraper logs and skips). */
  function WeekOfLabel(text: string): (r: Option<int>)
    ensures r.Some? ==> exists k :: AfterMarker(Lower(text), k) && r == ParseInt(Lower(text)[k..])
    ensures forall k :: AfterMarker(Lower(text), k) && !Contains(Lower(text)[k..], "week ") ==>
              r == ParseInt(Lower(text)[k..])
  {
    NumberAfterMarker(Lower(text))
  }

  /** `k` is the start of `s` or the position right after a `"week "`. */
  predicate AfterMarker(s: string, k: int) {
    0 <= k <= |s| && (k == 0 || (k >= 5 && s[k - 5..k] == "week "))
  }

  /** The integer after the last `"week "` of `s`. */
  function NumberAfterMarker(s: string): (r: Option<int>)
    ensures r.Some? ==> exists k :: AfterMarker(s, k) && r == ParseInt(s[k..])
    ensures forall k :: AfterMarker(s, k) && !Contains(s[k..], "week ") ==> r == ParseInt(s[k..])
  {
    var parts := Split(s, "week ");
    var k := LastPieceStart(s, parts);
    assert !Contains(s[k..], "week ");
    forall j | AfterMarker(s, j) && !Contains(s[j..], "week ") ensures j == k {
      if j < k {
        LaterMarker(s, j, k);
      } else if k < j {
        LaterMarker(s, k, j);
      }
    }
    ParseInt(s[k..])
  }

  /** After a marker position, any later marker position is preceded by a
      `"week "` that lies wholly after the first: two occurrences of
      `"week "` cannot overlap. */
  lemma LaterMarker(s: string, k: int, j: int)
    requires AfterMarker(s, k) && AfterMarker(s, j) && k < j
    ensures Contains(s[k..], "week ")
  {
    if j - 5 >= k {
      ContainsAt(s[k..], "week ", j - 5 - k);
      assert s[k..][j - 5 - k..j - k] == s[j - 5..j];
    } else {
      NoOverlap(s, k - 5, j - 5);
      assert false;
    }
  }

  /** No `"week "` starts inside another one. */
  lemma NoOverlap(s: string, p: int, q: int)
    requires 0 <= p < q < p + 5 && q + 5 <= |s| && s[p..p + 5] == "week "
    ensures s[q..q + 5] != "week "
  {
    assert s[q..q + 5][0] == s[p..p + 5][q - p];
  }

  /** Where the last piece of `s.split("week ")` starts. */
  function LastPieceStart(s: string, parts: seq<string>): (k: int)
    requires parts == Split(s, "week ")
    ensures AfterMarker(s, k) && s[k..] == parts[|parts| - 1]
  {
    SplitLastSuffix(s, "week ");
    |s| - |parts[|parts| - 1]|
  }

  lemma LowerDigits(d: string)
    requires AllDigits(d)
    ensures Lower(d) == d
  {
  }

  /** A label written as `"Week N"` reads back as week `N`. */
  lemma WeekLabelRoundTrip(n: nat)
    ensures WeekOfLabel("Week " + ShowNat(n)) == Some(n)
  {
    ShowNatDigits(n);
    WeekLabelDigits(ShowNat(n), n);
  }

  /** A label `"Week "` followed by digits reads back as their value. */
  lemma WeekLabelDigits(d: string, n: int)
    requires |d| > 0 && AllDigits(d) && DigitsValue(d) == n
    ensures WeekOfLabel("Week " + d) == Some(n)
  {
    WeekLabelSplit(d);
    ParseDigits(d);
    WeekOfPieces("Week " + d, [""] + [d], n);
  }

  lemma WeekLabelSplit(d: string)
    requires AllDigits(d)
    ensures Split(Lower("Week " + d), "week ") == [""] + [d]
  {
    var sep := "week ";
    assert Lower("Week " + d) == sep + d by {
      LowerDigits(d);
      assert Lower("Week " + d) == Lower("Week ") + Lower(d);
    }
    SplitLeading(sep, d);
    assert forall i :: 0 <= i < |d| ==> d[i] != sep[0] by {
      assert forall i :: 0 <= i < |d| ==> IsDigit(d[i]);
    }
    SplitAbsent(d, sep);
  }

  lemma WeekOfPieces(text: string, parts: seq<string>, n: int)
    requires Split(Lower(text), "week ") == parts && |parts| > 0
    requires ParseInt(parts[|parts| - 1]) == Some(n)
    ensures WeekOfLabel(text) == Some(n)
  {
  }

  /** Whether option `o` selects week `n` under the request `week`: its
      label parses to `n`, and `n` is the requested week if there is one. */
  predicate Selects(o: WeekOption, week: Option<int>, n: int) {
    WeekOfLabel(o.text) == Some(n) && (week.None? || week.value == n)
  }

  /** What one option contributes: `(week number, option value)` when its
      label parses and the week is the requested one, if any. */
  function Choice(o: WeekOption, week: Option<int>): (r: Option<(int, string)>)
    ensures forall n, v :: r == Some((n, v)) <==> o.value == v && Selects(o, week, n)
  {
    var n := WeekOfLabel(o.text);
    if n.Some? && (week.None? || week.value == n.value) then Some((n.value, o.value)) else None
  }

  /** A filter-map over a sequence: the values `f` gives, in order. */
  function Keep<T, U>(xs: seq<T>, f: T -> Option<U>): (r: seq<U>)
    ensures |r| <= |xs|
    ensures forall k :: 0 <= k < |r| ==> exists i :: 0 <= i < |xs| && f(xs[i]) == Some(r[k])
    decreases |xs|
  {
    if xs == [] then []
    else
      var init := xs[..|xs| - 1];
      var earlier := Keep(init, f);
      assert forall i :: 0 <= i < |init| ==> init[i] == xs[i];
      match f(xs[|xs| - 1])
      case None => earlier
      case Some(u) => earlier + [u]
  }

  /** A value is kept exactly when some element gives it. */
  lemma {:induction false} KeepMembership<T, U>(xs: seq<T>, f: T -> Option<U>, u: U)
    ensures u in Keep(xs, f) <==> exists i :: 0 <= i < |xs| && f(xs[i]) == Some(u)
    decreases |xs|
  {
    if xs != [] {
      var init := xs[..|xs| - 1];
      KeepMembership(init, f, u);
      if exists i :: 0 <= i < |init| && f(init[i]) == Some(u) {
        var i :| 0 <= i < |init| && f(init[i]) == Some(u);
        assert xs[i] == init[i];
      }
      if exists i :: 0 <= i < |xs| && f(xs[i]) == Some(u) {
        var i :| 0 <= i < |xs| && f(xs[i]) == Some(u);
        if i < |init| {
          assert init[i] == xs[i];
        }
      }
    }
  }

  /** The filter works element by element: the elements before and after a
      given point contribute independently. */
  lemma {:induction false} KeepConcat<T, U>(a: seq<T>, b: seq<T>, f: T -> Option<U>)
    ensures Keep(a + b, f) == Keep(a, f) + Keep(b, f)
    decreases |b|
  {
    if b == [] {
      assert a + b == a;
    } else {
      KeepConcat(a, b[..|b| - 1], f);
      assert (a + b)[..|a + b| - 1] == a + b[..|b| - 1];
    }
  }

  /** The options kept, in option order, as `(week number, option value)`. */
  function AvailableWeeks(options: seq<WeekOption>, week: Option<int>): (r: seq<(int, string)>)
    ensures |r| <= |options|
    ensures forall k :: 0 <= k < |r| ==> exists i :: 0 <= i < |options| && options[i].value == r[k].1 && Selects(options[i], week, r[k].0)
  {
    Keep(options, o => Choice(o, week))
  }

  /** A label that does not parse costs only its own entry: the options
      around it are kept as they would be without it. */
  lemma AvailableWeeksSkipsBadLabel(a: seq<WeekOption>, o: WeekOption, b: seq<WeekOption>, week: Option<int>)
    requires WeekOfLabel(o.text).None?
    ensures AvailableWeeks(a + [o] + b, week) == AvailableWeeks(a, week) + AvailableWeeks(b, week)
  {
    var f := (o: WeekOption) => Choice(o, week);
    KeepConcat(a + [o], b, f);
    KeepConcat(a, [o], f);
    assert Keep([o], f) == [] by {
      assert [o][..0] == [];
    }
  }

  /** An option is kept exactly when its label parses to a week and that
      week is the requested one, if any. */
  lemma AvailableWeeksMembership(options: seq<WeekOption>, week: Option<int>, n: int, v: string)
    ensures (n, v) in AvailableWeeks(options, week) <==>
              exists i :: 0 <= i < |options| && options[i].value == v && Selects(options[i], week, n)
  {
    KeepMembership(options, o => Choice(o, week), (n, v));
  }

  /** The option loop of `_scrape_all_weeks`. */
  method FilterWeekOptions(options: seq<WeekOption>, week: Option<int>) returns (available: seq<(int, string)>)
    ensures available == AvailableWeeks(options, week)
    ensures week.Some? ==> forall k :: 0 <= k < |available| ==> available[k].0 == week.value
  {
    available := [];
    for i := 0 to |options|
      invariant available == Keep(options[..i], o => Choice(o, week))
      invariant week.Some? ==> forall k :: 0 <= k < |available| ==> available[k].0 == week.value
    {
      assert options[..i + 1][..i] == options[..i];
      var weekNum := WeekOfLabel(options[i].text);
      if weekNum.Some? && (week.None? || weekNum.value == week.value) {
        available := available + [(weekNum.value, options[i].value)];
      }
    }
    assert options[..|options|] == options;
  }

  /** The week-to-snapshots dict, as its items in insertion order. */
  type WeekMap = seq<(int, seq<Snapshot>)>

  predicate HasKey(m: WeekMap, k: int) {
    exists i :: 0 <= i < |m| && m[i].0 == k
  }

  /** No key appears twice, as in a dict. */
  predicate UniqueKeys(m: WeekMap) {
    forall i, j :: 0 <= i < j < |m| ==> m[i].0 != m[j].0
  }

  /** `d[k] = v`: overwrite the value in place when `k` is a key, append
      the item otherwise. Afterwards `k` holds `v`, and in a dict it holds
      nothing else. */
  function Put(m: WeekMap, k: int, v: seq<Snapshot>): (r: WeekMap)
    ensures exists i :: 0 <= i < |r| && r[i] == (k, v)
    ensures HasKey(m, k) ==> |r| == |m|
    ensures !HasKey(m, k) ==> r == m + [(k, v)]
    ensures forall i :: 0 <= i < |m| ==> r[i].0 == m[i].0
    ensures forall i :: 0 <= i < |m| && m[i].0 != k ==> r[i] == m[i]
    ensures UniqueKeys(m) ==> UniqueKeys(r)
    decreases |m|
  {
    if m == [] then
      var r := [(k, v)];
      assert r[0] == (k, v);
      r
    else if m[0].0 == k then
      var r := [(k, v)] + m[1..];
      PutHere(m, k, v);
      r
    else
      var rest := Put(m[1..], k, v);
      PutFurther(m, k, v, rest);
      [m[0]] + rest
  }

  /** The promises of `Put`, gathered for its two non-empty cases. */
  predicate PutDone(m: WeekMap, k: int, v: seq<Snapshot>, r: WeekMap) {
    && (exists i :: 0 <= i < |r| && r[i] == (k, v))
    && (HasKey(m, k) ==> |r| == |m|)
    && (!HasKey(m, k) ==> r == m + [(k, v)])
    && (forall i :: 0 <= i < |m| ==> r[i].0 == m[i].0)
    && (forall i :: 0 <= i < |m| && m[i].0 != k ==> r[i] == m[i])
    && (UniqueKeys(m) ==> UniqueKeys(r))
  }

  lemma PutHere(m: WeekMap, k: int, v: seq<Snapshot>)
    requires m != [] && m[0].0 == k
    ensures PutDone(m, k, v, [(k, v)] + m[1..])
  {
    var r := [(k, v)] + m[1..];
    assert r[0] == (k, v);
    assert HasKey(m, k) by { assert m[0].0 == k; }
    assert forall i :: 0 < i < |m| ==> r[i] == m[i];
  }

  lemma PutFurther(m: WeekMap, k: int, v: seq<Snapshot>, rest: WeekMap)
    requires m != [] && m[0].0 != k
    requires PutDone(m[1..], k, v, rest)
    ensures PutDone(m, k, v, [m[0]] + rest)
  {
    PutFurtherFound(m, k, v, rest);
    PutFurtherShape(m, k, v, rest);
    assert |rest| >= |m| - 1;
    PutFurtherFrame(m, k, v, rest);
    PutFurtherUnique(m, k, v, rest);
  }

  lemma PutFurtherFound(m: WeekMap, k: int, v: seq<Snapshot>, rest: WeekMap)
    requires m != [] && exists i :: 0 <= i < |rest| && rest[i] == (k, v)
    ensures exists i :: 0 <= i < |[m[0]] + rest| && ([m[0]] + rest)[i] == (k, v)
  {
    var r := [m[0]] + rest;
    var j :| 0 <= j < |rest| && rest[j] == (k, v);
    assert r[j + 1] == (k, v);
  }

  lemma HasKeyTail(m: WeekMap, k: int)
    requires m != [] && m[0].0 != k
    ensures HasKey(m, k) <==> HasKey(m[1..], k)
  {
    var t := m[1..];
    if HasKey(m, k) {
      var j :| 0 <= j < |m| && m[j].0 == k;
      assert t[j - 1].0 == k;
    }
    if HasKey(t, k) {
      var j :| 0 <= j < |t| && t[j].0 == k;
      assert m[j + 1].0 == k;
    }
  }

  lemma PutFurtherShape(m: WeekMap, k: int, v: seq<Snapshot>, rest: WeekMap)
    requires m != [] && m[0].0 != k
    requires HasKey(m[1..], k) ==> |rest| == |m| - 1
    requires !HasKey(m[1..], k) ==> rest == m[1..] + [(k, v)]
    ensures HasKey(m, k) ==> |[m[0]] + rest| == |m|
    ensures !HasKey(m, k) ==> [m[0]] + rest == m + [(k, v)]
  {
    HasKeyTail(m, k);
    assert m == [m[0]] + m[1..];
  }

  lemma PutFurtherFrame(m: WeekMap, k: int, v: seq<Snapshot>, rest: WeekMap)
    requires m != [] && |rest| >= |m| - 1
    requires forall i :: 0 <= i < |m| - 1 ==> rest[i].0 == m[1..][i].0
    requires forall i :: 0 <= i < |m| - 1 && m[1..][i].0 != k ==> rest[i] == m[1..][i]
    ensures forall i :: 0 <= i < |m| ==> ([m[0]] + rest)[i].0 == m[i].0
    ensures forall i :: 0 <= i < |m| && m[i].0 != k ==> ([m[0]] + rest)[i] == m[i]
  {
    var t, r := m[1..], [m[0]] + rest;
    forall i | 0 < i < |m| ensures r[i] == rest[i - 1] && m[i] == t[i - 1] {
    }
  }

  lemma PutFurtherUnique(m: WeekMap, k: int, v: seq<Snapshot>, rest: WeekMap)
    requires m != [] && m[0].0 != k
    requires PutDone(m[1..], k, v, rest)
    ensures UniqueKeys(m) ==> UniqueKeys([m[0]] + rest)
  {
    var t, r := m[1..], [m[0]] + rest;
    if UniqueKeys(m) {
      assert UniqueKeys(t);
      assert UniqueKeys(rest);
      forall j | 0 < j < |r| ensures r[0].0 != r[j].0 {
        assert r[j] == rest[j - 1];
        if j - 1 < |t| {
          assert rest[j - 1].0 == t[j - 1].0 == m[j].0;
        } else {
          assert |rest| > |t|;
          assert rest == t + [(k, v)];
        }
      }
      forall i, j | 0 < i < j < |r| ensures r[i].0 != r[j].0 {
        assert r[i] == rest[i - 1] && r[j] == rest[j - 1];
      }
    }
  }

  /** `{w: [] for w in range(19)}`. */
  function InitialWeeks(): (r: WeekMap)
    ensures |r| == 19 && forall i :: 0 <= i < 19 ==> r[i] == (i, [])
    ensures UniqueKeys(r)
  {
    seq(19, i => (i, []))
  }

  /** Everything one week's scrape needs from the outside world: the week
      drop-down's options, whether the grid is on the landing page, the
      landing page, the browser, the page reached in a fresh browser after
      selecting an option value (`None` when that navigation fails), and
      the HTML parser. */
  datatype Site<!S> = Site(
    options: seq<WeekOption>,
    gridPresent: bool,
    landing: S,
    browser: Browser<S>,
    weekPage: string -> Option<S>,
    parse: string -> Snapshot)

  function ParseAll(parse: string -> Snapshot, grids: seq<string>): (r: seq<Snapshot>)
    ensures |r| == |grids| && forall i :: 0 <= i < |grids| ==> r[i] == parse(grids[i])
  {
    seq(|grids|, i requires 0 <= i < |grids| => parse(grids[i]))
  }

  /** The snapshots of one week taken in its own browser: none when the
      week's page cannot be reached, else the parsed grids of its pages. */
  function WeekSnapshots<S>(site: Site<S>, value: string): (r: seq<Snapshot>)
    ensures |r| <= PageLimit
    ensures site.weekPage(value).None? ==> r == []
  {
    match site.weekPage(value)
    case None => []
    case Some(p) => ParseAll(site.parse, WeekGrids(site.browser, p))
  }

  /** Storing each selected week's snapshots, in option order. */
  function StoreWeeks<S>(site: Site<S>, m: WeekMap, weeks: seq<(int, string)>): (r: WeekMap)
    ensures |r| >= |m| && forall i :: 0 <= i < |m| ==> r[i].0 == m[i].0
    ensures UniqueKeys(m) ==> UniqueKeys(r)
    decreases |weeks|
  {
    if weeks == [] then m
    else Put(StoreWeeks(site, m, weeks[..|weeks| - 1]), weeks[|weeks| - 1].0,
             WeekSnapshots(site, weeks[|weeks| - 1].1))
  }

  /** `_scrape_all_weeks` as a function of the site and the requested week. */
  function WeeksToSnapshots<S>(site: Site<S>, week: Option<int>): (r: WeekMap)
    ensures |r| >= 19 && forall i :: 0 <= i < 19 ==> r[i].0 == i
    ensures UniqueKeys(r)
  {
    if site.options == [] then
      if !site.gridPresent || (week.Some? && week.value != 1) then InitialWeeks()
      else
        Put(InitialWeeks(), 1, ParseAll(site.parse, WeekGrids(site.browser, site.landing)))
    else StoreWeeks(site, InitialWeeks(), AvailableWeeks(site.options, week))
  }

  /** `_scrape_all_weeks` as written: with a drop-down but no option
      selected, the thread pool is created with `max_workers = min(4, 0)`,
      which raises `ValueError`; nothing catches it. `None` for that error. */
  function WeeksToSnapshotsAsWritten<S>(site: Site<S>, week: Option<int>): (r: Option<WeekMap>)
    ensures r.None? <==>
              site.options != [] && forall i :: 0 <= i < |site.options| ==> Choice(site.options[i], week).None?
    ensures r.Some? ==> r.value == WeeksToSnapshots(site, week)
  {
    KeepEmpty(site.options, o => Choice(o, week));
    if site.options != [] && AvailableWeeks(site.options, week) == [] then None
    else Some(WeeksToSnapshots(site, week))
  }

  /** Nothing is kept exactly when no element gives a value. */
  lemma {:induction false} KeepEmpty<T, U>(xs: seq<T>, f: T -> Option<U>)
    ensures Keep(xs, f) == [] <==> forall i :: 0 <= i < |xs| ==> f(xs[i]).None?
    decreases |xs|
  {
    if xs != [] {
      var init := xs[..|xs| - 1];
      KeepEmpty(init, f);
      assert forall i :: 0 <= i < |init| ==> init[i] == xs[i];
    }
  }

  /** The corrected scrape: with a drop-down and no option selected, every
      week of the map stays empty. */
  lemma NoSelectionScrapesNothing<S>(site: Site<S>, week: Option<int>)
    requires site.options != []
    requires forall i :: 0 <= i < |site.options| ==> Choice(site.options[i], week).None?
    ensures WeeksToSnapshots(site, week) == InitialWeeks()
  {
    KeepEmpty(site.options, o => Choice(o, week));
  }

  /** A request for week 5 on a drop-down that lists only week 3 raises as
      written, and scrapes nothing once corrected. */
  lemma UnlistedWeekRequested<S>(site: Site<S>)
    requires site.options == [WeekOption("Week 3", "3")]
    ensures WeeksToSnapshotsAsWritten(site, Some(5)).None?
    ensures WeeksToSnapshots(site, Some(5)) == InitialWeeks()
  {
    var o := site.options[0];
    assert WeekOfLabel(o.text) == Some(3) by {
      WeekLabelRoundTrip(3);
      assert ShowNat(3) == "3";
      assert "Week " + ShowNat(3) == "Week 3";
    }
    OtherWeekNotChosen(o, 3, 5);
    NoSelectionScrapesNothing(site, Some(5));
  }

  /** An option whose label reads as another week than the requested one
      is not chosen. */
  lemma OtherWeekNotChosen(o: WeekOption, n: int, w: int)
    requires WeekOfLabel(o.text) == Some(n) && n != w
    ensures Choice(o, Some(w)).None?
  {
  }

  /** `[BeautifulSoup(h, "html.parser") for h in grids]`. */
  method ParseGrids(parse: string -> Snapshot, grids: seq<string>) returns (snapshots: seq<Snapshot>)
    ensures snapshots == ParseAll(parse, grids)
  {
    snapshots := [];
    for i := 0 to |grids|
      invariant snapshots == ParseAll(parse, grids[..i])
    {
      snapshots := snapshots + [parse(grids[i])];
    }
    assert grids[..|grids|] == grids;
  }

  /** `_scrape_single_week_parallel`: reach the week's page in a fresh
      browser, walk its pages, and parse every grid captured. */
  method ScrapeSingleWeek<S>(site: Site<S>, value: string) returns (snapshots: seq<Snapshot>)
    ensures snapshots == WeekSnapshots(site, value)
  {
    var page := site.weekPage(value);
    if page.None? {
      return [];
    }
    var grids, _, _ := ScrapePagesForWeek(site.browser, page.value);
    snapshots := ParseGrids(site.parse, grids);
  }

  /** The week loop of `_scrape_all_weeks`: scrape each selected week and
      store its snapshots under its number, starting from the initial map. */
  method ScrapeWeeks<S>(site: Site<S>, available: seq<(int, string)>) returns (weeksToSnapshots: WeekMap)
    ensures weeksToSnapshots == StoreWeeks(site, InitialWeeks(), available)
  {
    weeksToSnapshots := InitialWeeks();
    for i := 0 to |available|
      invariant weeksToSnapshots == StoreWeeks(site, InitialWeeks(), available[..i])
    {
      assert available[..i + 1][..i] == available[..i];
      var snapshots := ScrapeSingleWeek(site, available[i].1);
      weeksToSnapshots := Put(weeksToSnapshots, available[i].0, snapshots);
    }
    assert available[..|available|] == available;
  }

  /** `_scrape_all_weeks`: with no drop-down, only week 1 can be scraped,
      from the landing page; otherwise every selected week is scraped and
      stored under its number, one week after another. */
  method ScrapeAllWeeks<S>(site: Site<S>, week: Option<int>) returns (weeksToSnapshots: WeekMap)
    ensures weeksToSnapshots == WeeksToSnapshots(site, week)
  {
    weeksToSnapshots := InitialWeeks();
    if site.options == [] {
      if !site.gridPresent {
        return;
      }
      if week.Some? && week.value != 1 {
        return;
      }
      var grids, _, _ := ScrapePagesForWeek(site.browser, site.landing);
      var snapshots := ParseGrids(site.parse, grids);
      weeksToSnapshots := Put(weeksToSnapshots, 1, snapshots);
      return;
    }
    var available := FilterWeekOptions(site.options, week);
    weeksToSnapshots := ScrapeWeeks(site, available);
  }

  /** The map starts with weeks 0 to 18, in order, every one empty. */
  lemma InitialWeeksEmpty()
    ensures forall k :: 0 <= k <= 18 ==> HasKey(InitialWeeks(), k)
    ensures forall i :: 0 <= i < |InitialWeeks()| ==> InitialWeeks()[i].1 == []
  {
    var m := InitialWeeks();
    forall k | 0 <= k <= 18 ensures HasKey(m, k) {
      assert m[k].0 == k;
    }
  }

  /** Without a drop-down, a request for a week other than 1 scrapes
      nothing: every week stays empty. */
  lemma NoDropdownOtherWeek<S>(site: Site<S>, w: int)
    requires site.options == [] && w != 1
    ensures WeeksToSnapshots(site, Some(w)) == InitialWeeks()
  {
  }

  /** Storing keeps the existing keys in place, and only the stored weeks
      change. */
  lemma {:induction false} StoreWeeksOnly<S>(site: Site<S>, m: WeekMap, weeks: seq<(int, string)>)
    ensures |StoreWeeks(site, m, weeks)| >= |m|
    ensures forall i :: 0 <= i < |m| ==> StoreWeeks(site, m, weeks)[i].0 == m[i].0
    ensures forall i :: 0 <= i < |m| && (forall j :: 0 <= j < |weeks| ==> weeks[j].0 != m[i].0) ==>
              StoreWeeks(site, m, weeks)[i] == m[i]
    decreases |weeks|
  {
    if weeks != [] {
      var init := weeks[..|weeks| - 1];
      StoreWeeksOnly(site, m, init);
      forall i | 0 <= i < |m| && (forall j :: 0 <= j < |weeks| ==> weeks[j].0 != m[i].0)
        ensures StoreWeeks(site, m, weeks)[i] == m[i]
      {
        assert forall j :: 0 <= j < |init| ==> init[j] == weeks[j];
      }
    }
  }

  /** With a drop-down and a requested week, every other week of the
      initial map stays empty. */
  lemma RequestedWeekOnly<S>(site: Site<S>, w: int, k: int)
    requires site.options != [] && 0 <= k <= 18 && k != w
    ensures WeeksToSnapshots(site, Some(w))[k] == (k, [])
  {
    var available := AvailableWeeks(site.options, Some(w));
    forall j | 0 <= j < |available| ensures available[j].0 != k {
      var (n, v) := available[j];
      assert (n, v) in available;
      AvailableWeeksMembership(site.options, Some(w), n, v);
    }
    StoreWeeksOnly(site, InitialWeeks(), available);
  }

  /** A week stored by the loop holds the snapshots of the last option
      that selected it: `weeks_to_soups[week_num] = week_soups`. */
  lemma {:induction false} StoreWeeksGets<S>(site: Site<S>, m: WeekMap, weeks: seq<(int, string)>, j: int)
    requires 0 <= j < |weeks|
    requires forall l :: j < l < |weeks| ==> weeks[l].0 != weeks[j].0
    ensures exists i :: 0 <= i < |StoreWeeks(site, m, weeks)| &&
              StoreWeeks(site, m, weeks)[i] == (weeks[j].0, WeekSnapshots(site, weeks[j].1))
    decreases |weeks|
  {
    var init := weeks[..|weeks| - 1];
    var before := StoreWeeks(site, m, init);
    var last := weeks[|weeks| - 1];
    var r := Put(before, last.0, WeekSnapshots(site, last.1));
    assert StoreWeeks(site, m, weeks) == r;
    if j < |weeks| - 1 {
      var target := (weeks[j].0, WeekSnapshots(site, weeks[j].1));
      assert exists i :: 0 <= i < |before| && before[i] == target by {
        assert init[j] == weeks[j];
        assert forall l :: j < l < |init| ==> init[l] == weeks[l];
        StoreWeeksGets(site, m, init, j);
      }
      var i :| 0 <= i < |before| && before[i] == target;
      assert last.0 != weeks[j].0;
      assert r[i] == target;
    } else {
      assert exists i :: 0 <= i < |r| && r[i] == (last.0, WeekSnapshots(site, last.1));
    }
  }

  /** In a map without repeated keys, the value an item holds is the one
      every item with that key holds. */
  lemma UniqueItem(m: WeekMap, i: int, n: int, v: seq<Snapshot>)
    requires UniqueKeys(m) && 0 <= i < |m| && m[i].0 == n
    requires exists l :: 0 <= l < |m| && m[l] == (n, v)
    ensures m[i] == (n, v)
  {
  }

  /** With a drop-down, a week selected by option `j` of the available
      list, and by no later one, ends up holding that option's snapshots;
      a week among 0..18 holds them at its own index. */
  lemma SelectedWeekStored<S>(site: Site<S>, week: Option<int>, j: int)
    requires site.options != []
    requires 0 <= j < |AvailableWeeks(site.options, week)|
    requires var available := AvailableWeeks(site.options, week);
               forall l :: j < l < |available| ==> available[l].0 != available[j].0
    ensures var (n, value) := AvailableWeeks(site.options, week)[j];
              var r := WeeksToSnapshots(site, week);
              && (exists i :: 0 <= i < |r| && r[i] == (n, WeekSnapshots(site, value)))
              && (0 <= n <= 18 ==> r[n] == (n, WeekSnapshots(site, value)))
  {
    var available := AvailableWeeks(site.options, week);
    var (n, value) := available[j];
    StoreWeeksGets(site, InitialWeeks(), available, j);
    var r := WeeksToSnapshots(site, week);
    if 0 <= n <= 18 {
      UniqueItem(r, n, n, WeekSnapshots(site, value));
    }
  }

  /** Without a drop-down, when the grid is on the landing page and week 1
      (or no week) is requested, week 1 holds the landing page's parsed
      grids and every other week stays empty. */
  lemma LandingPageWeek<S>(site: Site<S>, week: Option<int>)
    requires site.options == [] && site.gridPresent && (week.None? || week.value == 1)
    ensures WeeksToSnapshots(site, week) ==
              InitialWeeks()[1 := (1, ParseAll(site.parse, WeekGrids(site.browser, site.landing)))]
  {
    var m := InitialWeeks();
    var v := ParseAll(site.parse, WeekGrids(site.browser, site.landing));
    assert m[0].0 != 1 && m[1].0 == 1;
    assert Put(m[1..], 1, v) == [(1, v)] + m[2..];
    assert Put(m, 1, v) == [m[0]] + ([(1, v)] + m[2..]);
  }
}
