/** Page navigation inside one week of the group picks grid: clicking a
    "prev" or "next" button through a fixed list of fallback patterns,
    rewinding to the first page, and walking forward while capturing each
    page's grid. The browser is an oracle over an abstract page state. */
module Pagination {
  import opened Wrappers

  datatype Direction = Prev | Next

  function Word(d: Direction): string {
    match d
    case Prev => "prev"
    case Next => "next"
  }

  /** The XPath patterns tried for a direction, in the order they are
      tried: the original pagination class, then any class containing the
      direction, a "pagination" class with the direction, the button text,
      and the `aria-label`; each requires the button not to be disabled. */
  function XPaths(d: Direction): (r: seq<string>)
    ensures |r| == 5
  {
    var w := Word(d);
    [ "//button[contains(@class, 'Pagination__Button--" + w + "') and not(@disabled)]",
      "//button[contains(@class, '" + w + "') and not(@disabled)]",
      "//button[contains(@class, 'pagination') and contains(@class, '" + w + "') and not(@disabled)]",
      "//button[contains(text(), '" + w + "') and not(@disabled)]",
      "//button[contains(@aria-label, '" + w + "') and not(@disabled)]" ]
  }

  /** The browser as the pagination code uses it. `press(s, xpath)` is `None`
      when the pattern finds no button on page `s` (or looking it up or
      clicking it raises), and otherwise the page reached by clicking the
      first button found; however the refresh is then confirmed, the click
      counts. `capture(s)` is the grid's `outerHTML`, or `None` when the grid
      does not appear in time. */
  datatype Browser<!S> = Browser(press: (S, string) -> Option<S>, capture: S -> Option<string>)

  /** The page reached through the first pattern that finds a button. */
  function FirstMatch<S>(b: Browser<S>, s: S, patterns: seq<string>): (r: Option<S>)
    ensures r.None? <==> forall i :: 0 <= i < |patterns| ==> b.press(s, patterns[i]).None?
    decreases |patterns|
  {
    if patterns == [] then None
    else if b.press(s, patterns[0]).Some? then b.press(s, patterns[0])
    else FirstMatch(b, s, patterns[1..])
  }

  /** Patterns are tried in order: a click happens exactly when some pattern
      finds a button, and it goes through the first such pattern. */
  lemma {:induction false} FirstMatchWins<S>(b: Browser<S>, s: S, patterns: seq<string>)
    ensures FirstMatch(b, s, patterns).Some? <==> exists i :: 0 <= i < |patterns| && b.press(s, patterns[i]).Some?
    ensures FirstMatch(b, s, patterns).Some? ==>
              exists i :: 0 <= i < |patterns| && b.press(s, patterns[i]) == FirstMatch(b, s, patterns)
                          && forall j :: 0 <= j < i ==> b.press(s, patterns[j]).None?
    decreases |patterns|
  {
    if patterns != [] && b.press(s, patterns[0]).None? {
      var tail := patterns[1..];
      FirstMatchWins(b, s, tail);
      assert forall i :: 1 <= i < |patterns| ==> patterns[i] == tail[i - 1];
      if FirstMatch(b, s, tail).Some? {
        var i :| 0 <= i < |tail| && b.press(s, tail[i]) == FirstMatch(b, s, tail)
                 && forall j :: 0 <= j < i ==> b.press(s, tail[j]).None?;
        assert b.press(s, patterns[i + 1]) == FirstMatch(b, s, patterns);
      }
    }
  }

  /** What one call of the button-clicking routine does to the page. */
  function Click<S>(b: Browser<S>, s: S, d: Direction): Option<S> {
    FirstMatch(b, s, XPaths(d))
  }

  /** `_click_pagination_button`: try the patterns in order and click with
      the first that finds a button. `clicked` is false, and the page
      unchanged, only when no pattern finds one. */
  method ClickPaginationButton<S>(b: Browser<S>, s: S, d: Direction) returns (clicked: bool, t: S)
    ensures clicked == Click(b, s, d).Some?
    ensures clicked ==> t == Click(b, s, d).value
    ensures !clicked ==> t == s
  {
    var patterns := XPaths(d);
    for i := 0 to |patterns|
      invariant forall j :: 0 <= j < i ==> b.press(s, patterns[j]).None?
      invariant FirstMatch(b, s, patterns) == FirstMatch(b, s, patterns[i..])
    {
      assert patterns[i..][1..] == patterns[i + 1..];
      var r := b.press(s, patterns[i]);
      if r.Some? {
        return true, r.value;
      }
    }
    return false, s;
  }

  /** The page reached from `s` by `k` successive clicks in direction `d`;
      `None` when one of them finds no button. */
  function Reach<S>(b: Browser<S>, s: S, d: Direction, k: nat): Option<S>
    decreases k
  {
    if k == 0 then Some(s)
    else match Click(b, s, d)
      case None => None
      case Some(t) => Reach(b, t, d, k - 1)
  }

  /** The kept captures of the first `n` pages on the way from `s` in
      direction `d`, in the order the pages are reached. */
  function KeptAlong<S>(b: Browser<S>, s: S, d: Direction, n: nat): seq<string>
    decreases n
  {
    if n == 0 then []
    else
      var here := match Reach(b, s, d, n - 1) case None => [] case Some(p) => Kept(b.capture(p));
      KeptAlong(b, s, d, n - 1) + here
  }

  /** After a first successful click to `t`, the captures along the way
      are those of `s` followed by those along the way from `t`. */
  lemma {:induction false} KeptAlongCons<S>(b: Browser<S>, s: S, t: S, d: Direction, n: nat)
    requires Click(b, s, d) == Some(t) && n >= 1
    ensures KeptAlong(b, s, d, n) == Kept(b.capture(s)) + KeptAlong(b, t, d, n - 1)
    decreases n
  {
    if n > 1 {
      KeptAlongCons(b, s, t, d, n - 1);
      assert Reach(b, s, d, n - 1) == Reach(b, t, d, n - 2);
    }
  }

  /** The cap on "prev" clicks: the rewind stops once the count exceeds it. */
  const PrevClickLimit: nat := 20

  /** `_go_to_first_page` as a function, from page `s` after `clicks` "prev"
      clicks: click "prev" again; stop when the click fails or the count
      passes the limit. The page reached and the final count. */
  function Rewind<S>(b: Browser<S>, s: S, clicks: nat): (r: (S, nat))
    requires clicks <= PrevClickLimit
    ensures clicks <= r.1 <= PrevClickLimit + 1
    ensures r.1 <= PrevClickLimit ==> Click(b, r.0, Prev).None?
    decreases PrevClickLimit - clicks
  {
    match Click(b, s, Prev)
    case None => (s, clicks)
    case Some(s') =>
      if clicks + 1 > PrevClickLimit then (s', clicks + 1)
      else Rewind(b, s', clicks + 1)
  }

  /** The rewind follows the "prev" trajectory from `s`: each of its clicks
      succeeds, it ends on the page they reach, and when it stops before
      the cap the next click fails. So its count is the first click that
      fails, or one past the cap. */
  lemma {:induction false} RewindTrajectory<S>(b: Browser<S>, s: S, clicks: nat)
    requires clicks <= PrevClickLimit
    ensures var r := Rewind(b, s, clicks); r.1 >= clicks
    ensures var r := Rewind(b, s, clicks); Reach(b, s, Prev, r.1 - clicks) == Some(r.0)
    ensures var r := Rewind(b, s, clicks);
            forall k :: 0 <= k <= r.1 - clicks ==> Reach(b, s, Prev, k).Some?
    ensures var r := Rewind(b, s, clicks);
            r.1 <= PrevClickLimit ==> Reach(b, s, Prev, r.1 - clicks + 1).None?
    decreases PrevClickLimit - clicks
  {
    var r := Rewind(b, s, clicks);
    match Click(b, s, Prev)
    case None =>
      assert r == (s, clicks);
    case Some(s') =>
      if clicks + 1 > PrevClickLimit {
        assert r == (s', clicks + 1);
        assert Reach(b, s, Prev, 1) == Reach(b, s', Prev, 0);
        forall k | 0 <= k <= 1 ensures Reach(b, s, Prev, k).Some? {
          assert Reach(b, s, Prev, 0) == Some(s);
        }
      } else {
        assert r == Rewind(b, s', clicks + 1);
        RewindTrajectory(b, s', clicks + 1);
        assert Reach(b, s, Prev, r.1 - clicks) == Reach(b, s', Prev, r.1 - clicks - 1);
        assert Reach(b, s, Prev, r.1 - clicks + 1) == Reach(b, s', Prev, r.1 - clicks);
        forall k | 0 <= k <= r.1 - clicks ensures Reach(b, s, Prev, k).Some? {
          if k > 0 {
            assert Reach(b, s, Prev, k) == Reach(b, s', Prev, k - 1);
          }
        }
      }
  }

  /** `_go_to_first_page`: click "prev" until a click fails or more than 20
      clicks have succeeded. */
  method GoToFirstPage<S>(b: Browser<S>, s: S) returns (t: S, prevClicks: nat)
    ensures (t, prevClicks) == Rewind(b, s, 0)
    ensures prevClicks <= 21
    ensures prevClicks <= 20 ==> Click(b, t, Prev).None?
  {
    t, prevClicks := s, 0;
    while true
      invariant prevClicks <= PrevClickLimit
      invariant Rewind(b, s, 0) == Rewind(b, t, prevClicks)
      decreases PrevClickLimit - prevClicks
    {
      var ok, next := ClickPaginationButton(b, t, Prev);
      if !ok {
        break;
      }
      t, prevClicks := next, prevClicks + 1;
      if prevClicks > PrevClickLimit {
        break;
      }
    }
  }

  /** A captured grid is kept only when it is a non-empty string. */
  function Kept(html: Option<string>): (r: seq<string>)
    ensures |r| <= 1
  {
    if html.Some? && html.value != "" then [html.value] else []
  }

  /** The page limit of the forward walk. */
  const PageLimit: nat := 50

  /** `_scrape_pages_for_week` after the rewind, as a function, from page
      `s` numbered `pageNum`: capture the grid, click "next", and go on with
      the next page number unless the click fails or the number passes the
      limit. The grids kept, the number of the last page processed, and
      the page the browser is left on. */
  function Walk<S>(b: Browser<S>, s: S, pageNum: nat): (r: (seq<string>, nat, S))
    requires 1 <= pageNum <= PageLimit
    ensures pageNum <= r.1 <= PageLimit
    ensures |r.0| <= r.1 - pageNum + 1
    ensures forall i :: 0 <= i < |r.0| ==> r.0[i] != ""
    decreases PageLimit - pageNum
  {
    var g := Kept(b.capture(s));
    match Click(b, s, Next)
    case None => (g, pageNum, s)
    case Some(s') =>
      if pageNum + 1 > PageLimit then (g, pageNum, s')
      else
        var r := Walk(b, s', pageNum + 1);
        (g + r.0, r.1, r.2)
  }

  /** The walk follows the "next" trajectory from `s`: every page it
      processes is reached by clicking "next", its grids are the kept
      captures of those pages in order, and it stops on the last of them
      when its "next" button fails, or on the page that button leads to
      once the last page number allowed is processed. */
  lemma {:induction false} WalkTrajectory<S>(b: Browser<S>, s: S, pageNum: nat)
    requires 1 <= pageNum <= PageLimit
    ensures var r := Walk(b, s, pageNum); Reach(b, s, Next, r.1 - pageNum).Some?
    ensures var r := Walk(b, s, pageNum); r.0 == KeptAlong(b, s, Next, r.1 - pageNum + 1)
    ensures var r := Walk(b, s, pageNum); var last := Reach(b, s, Next, r.1 - pageNum).value;
            Click(b, last, Next).None? ==> r.2 == last
    ensures var r := Walk(b, s, pageNum); var last := Reach(b, s, Next, r.1 - pageNum).value;
            Click(b, last, Next).Some? ==> r.1 == PageLimit && Click(b, last, Next) == Some(r.2)
    decreases PageLimit - pageNum
  {
    match Click(b, s, Next)
    case None =>
      assert Walk(b, s, pageNum) == (Kept(b.capture(s)), pageNum, s);
      assert Reach(b, s, Next, 0) == Some(s);
    case Some(s') =>
      if pageNum + 1 > PageLimit {
        assert Walk(b, s, pageNum) == (Kept(b.capture(s)), pageNum, s');
        assert Reach(b, s, Next, 0) == Some(s);
        KeptAlongCons(b, s, s', Next, 1);
      } else {
        var r := Walk(b, s', pageNum + 1);
        assert Walk(b, s, pageNum) == (Kept(b.capture(s)) + r.0, r.1, r.2);
        WalkTrajectory(b, s', pageNum + 1);
        KeptAlongCons(b, s, s', Next, r.1 - pageNum + 1);
        assert Reach(b, s, Next, r.1 - pageNum) == Reach(b, s', Next, r.1 - pageNum - 1);
      }
  }

  /** A walk result with grids `g` captured before it. */
  function Prefixed<S>(g: seq<string>, w: (seq<string>, nat, S)): (seq<string>, nat, S) {
    (g + w.0, w.1, w.2)
  }

  lemma PrefixedAppend<S>(g1: seq<string>, g2: seq<string>, w: (seq<string>, nat, S))
    ensures Prefixed(g1, Prefixed(g2, w)) == Prefixed(g1 + g2, w)
    ensures Prefixed([], w) == w
  {
    assert g1 + (g2 + w.0) == (g1 + g2) + w.0;
    assert [] + w.0 == w.0;
  }

  /** The walk ends on a page whose "next" button cannot be clicked. */
  lemma WalkStops<S>(b: Browser<S>, s: S, pageNum: nat)
    requires 1 <= pageNum <= PageLimit && Click(b, s, Next).None?
    ensures Walk(b, s, pageNum) == (Kept(b.capture(s)), pageNum, s)
  {
  }

  /** The walk ends after the last page allowed, on the page the click led to. */
  lemma WalkCapped<S>(b: Browser<S>, s: S, pageNum: nat, s': S)
    requires pageNum == PageLimit && Click(b, s, Next) == Some(s')
    ensures Walk(b, s, pageNum) == (Kept(b.capture(s)), pageNum, s')
  {
  }

  /** Otherwise the walk goes on from the next page. */
  lemma WalkContinues<S>(b: Browser<S>, s: S, pageNum: nat, s': S)
    requires 1 <= pageNum < PageLimit && Click(b, s, Next) == Some(s')
    ensures Walk(b, s, pageNum) == Prefixed(Kept(b.capture(s)), Walk(b, s', pageNum + 1))
  {
  }

  /** The forward part of `_scrape_pages_for_week`, from the first page. */
  method WalkPages<S>(b: Browser<S>, first: S) returns (grids: seq<string>, pages: nat, t: S)
    ensures (grids, pages, t) == Walk(b, first, 1)
  {
    t := first;
    grids := [];
    var pageNum := 1;
    PrefixedAppend([], [], Walk(b, first, 1));
    while true
      invariant 1 <= pageNum <= PageLimit
      invariant Walk(b, first, 1) == Prefixed(grids, Walk(b, t, pageNum))
      decreases PageLimit - pageNum
    {
      var html := b.capture(t);
      var before := grids;
      if html.Some? && html.value != "" {
        grids := grids + [html.value];
      }
      assert grids == before + Kept(html);
      var ok, next := ClickPaginationButton(b, t, Next);
      if !ok {
        WalkStops(b, t, pageNum);
        PrefixedAppend(before, Kept(html), ([], pageNum, t));
        pages := pageNum;
        break;
      }
      if pageNum + 1 > PageLimit {
        WalkCapped(b, t, pageNum, next);
        PrefixedAppend(before, Kept(html), ([], pageNum, next));
        t, pages := next, pageNum;
        break;
      }
      WalkContinues(b, t, pageNum, next);
      PrefixedAppend(before, Kept(html), Walk(b, next, pageNum + 1));
      t, pageNum := next, pageNum + 1;
    }
  }

  /** The grids `_scrape_pages_for_week` keeps for a week whose page
      the browser shows as `s`. */
  function WeekGrids<S>(b: Browser<S>, s: S): seq<string> {
    Walk(b, Rewind(b, s, 0).0, 1).0
  }

  /** `_scrape_pages_for_week`: rewind to the first page, then capture each
      page and click "next" until a click fails or page 51 would be next.
      `pages` is the number of pages processed. */
  method ScrapePagesForWeek<S>(b: Browser<S>, s: S) returns (grids: seq<string>, pages: nat, t: S)
    ensures (grids, pages, t) == Walk(b, Rewind(b, s, 0).0, 1)
    ensures grids == WeekGrids(b, s)
    ensures |grids| <= pages <= 50 && 1 <= pages
    ensures forall g :: g in grids ==> g != ""
  {
    var first, _ := GoToFirstPage(b, s);
    grids, pages, t := WalkPages(b, first);
  }

  /** A week spread over three pages, viewed from its first page, whose
      second page captures as empty: the other two grids are kept in page
      order, three pages are processed, and the browser is left on the
      third. */
  lemma ThreePages()
    ensures var b := Browser((s: int, xpath: string) => if s < 3 then Some(s + 1) else None,
                             (s: int) => if s == 2 then Some("") else Some(if s == 1 then "<p1/>" else "<p3/>"));
            Walk(b, 1, 1) == (["<p1/>", "<p3/>"], 3, 3)
  {
    var b := Browser((s: int, xpath: string) => if s < 3 then Some(s + 1) else None,
                     (s: int) => if s == 2 then Some("") else Some(if s == 1 then "<p1/>" else "<p3/>"));
    assert Click(b, 3, Next) == None;
    assert Click(b, 2, Next) == Some(3);
    assert Click(b, 1, Next) == Some(2);
    assert Kept(b.capture(3)) == ["<p3/>"];
    assert Kept(b.capture(2)) == [];
    assert Kept(b.capture(1)) == ["<p1/>"];
    assert Walk(b, 3, 3) == (["<p3/>"], 3, 3);
    assert Walk(b, 2, 2) == ([] + ["<p3/>"], 3, 3);
    assert [] + ["<p3/>"] == ["<p3/>"];
    assert Walk(b, 1, 1) == (["<p1/>"] + ["<p3/>"], 3, 3);
    assert ["<p1/>"] + ["<p3/>"] == ["<p1/>", "<p3/>"];
  }

  /** On a site whose buttons can always be clicked, the walk from page
      `pageNum` goes on to page 50, one grid per page, and the rewind stops
      at the cap, after 21 clicks in all. */
  lemma {:induction false} EndlessWalk(s: int, pageNum: nat)
    requires 1 <= pageNum <= PageLimit
    ensures var b := Browser((p: int, xpath: string) => Some(p + 1), (p: int) => Some("<table/>"));
            var w := Walk(b, s, pageNum);
            |w.0| == PageLimit - pageNum + 1 && w.1 == PageLimit && w.2 == s + PageLimit - pageNum + 1
    decreases PageLimit - pageNum
  {
    var b := Browser((p: int, xpath: string) => Some(p + 1), (p: int) => Some("<table/>"));
    assert Click(b, s, Next) == Some(s + 1);
    if pageNum < PageLimit {
      EndlessWalk(s + 1, pageNum + 1);
    }
  }

  lemma {:induction false} EndlessRewind(s: int, clicks: nat)
    requires clicks <= PrevClickLimit
    ensures var b := Browser((p: int, xpath: string) => Some(p - 1), (p: int) => Some("<table/>"));
            Rewind(b, s, clicks) == (s - (PrevClickLimit + 1 - clicks), PrevClickLimit + 1)
    decreases PrevClickLimit - clicks
  {
    var b := Browser((p: int, xpath: string) => Some(p - 1), (p: int) => Some("<table/>"));
    assert Click(b, s, Prev) == Some(s - 1);
    if clicks < PrevClickLimit {
      EndlessRewind(s - 1, clicks + 1);
    }
  }
}
