/** The pick ledger: one `Pick` per predicted matchup, and a `Team` holding
    an append-only list of picks for each week 1..18, from which the weekly
    counts, score and record are derived. */
module Models {
  import opened Wrappers
  import opened Text
  import opened Html

  /** The two lookups the ledger makes into a helper module that is not part
      of this model: a team's abbreviation from its display name, and the
      abbreviations whose game ended in a tie in a given week. */
  datatype Helpers = Helpers(teamNameToAbbr: string -> string, weeksToTies: int -> set<string>)

  /** A pick cell reduced to what the ledger reads from it: the cell's own
      classes, the classes of the elements inside it (the result markers),
      and the `alt` text of its first image (the picked team). */
  datatype Pick = Pick(classes: seq<string>, markers: set<string>, teamPicked: string)

  /** Why `Pick(cell)` raises: no `<img>` (a `TypeError` on `None["alt"]`) or
      an `<img>` without `alt` (a `KeyError`). */
  datatype PickError = NoImage | NoAlt

  /** `Pick.__init__`: the picked team is the `alt` of the first image. */
  function NewPick(cell: Cell): (r: Result<Pick, PickError>)
    ensures r.Success? <==> cell.images != [] && cell.images[0].alt.Some?
    ensures r.Success? ==> r.value.teamPicked == cell.images[0].alt.value
    ensures r.Success? ==> r.value.classes == cell.classes && r.value.markers == cell.innerClasses
    ensures cell.images == [] ==> r == Failure(NoImage)
  {
    if cell.images == [] then Failure(NoImage)
    else match cell.images[0].alt
      case None => Failure(NoAlt)
      case Some(alt) => Success(Pick(cell.classes, cell.innerClasses, alt))
  }

  /** `Pick.is_correct`: either check-mark class appears inside the cell. */
  predicate IsCorrect(p: Pick) {
    "css-1skkwww" in p.markers || "PickCorrect-checkMark" in p.markers
  }

  /** `Pick.is_incorrect`: either cross-mark class appears inside the cell. */
  predicate IsIncorrect(p: Pick) {
    "css-8wf538" in p.markers || "PickIncorrect-crossMark" in p.markers
  }

  /** `Pick.is_tie`: the picked team's abbreviation is on the week's tie list. */
  predicate IsTie(h: Helpers, week: int, p: Pick) {
    h.teamNameToAbbr(p.teamPicked) in h.weeksToTies(week)
  }

  /** `Pick.is_push`: some class of the cell contains `noPick`. */
  predicate IsPush(p: Pick) {
    ClassContains(p.classes, "noPick")
  }

  /** `len([p for p in picks if keep(p)])`. */
  function Count(picks: seq<Pick>, keep: Pick -> bool): (n: nat)
    ensures n <= |picks|
    decreases |picks|
  {
    if picks == [] then 0
    else Count(picks[..|picks| - 1], keep) + (if keep(picks[|picks| - 1]) then 1 else 0)
  }

  /** The incorrect picks that count against the score: cross-marked and not a tie. */
  predicate CountsIncorrect(h: Helpers, week: int, p: Pick) {
    IsIncorrect(p) && !IsTie(h, week, p)
  }

  /** `Team.get_weekly_num_correct` on the week's pick list. */
  function NumCorrect(picks: seq<Pick>): nat {
    Count(picks, IsCorrect)
  }

  /** `Team.get_weekly_num_incorrect` on the week's pick list. */
  function NumIncorrect(h: Helpers, week: int, picks: seq<Pick>): nat {
    Count(picks, p => CountsIncorrect(h, week, p))
  }

  /** `Team.get_weekly_num_ties` on the week's pick list. */
  function NumTies(h: Helpers, week: int, picks: seq<Pick>): nat {
    Count(picks, p => IsTie(h, week, p))
  }

  /** `Team.get_weekly_score` on the week's pick list: the sum of each
      pick's points, so between -2 and 1 per pick. */
  function Score(h: Helpers, week: int, picks: seq<Pick>): (r: int)
    ensures r == SumPoints(h, week, picks)
    ensures -2 * |picks| <= r <= |picks|
  {
    PointsSum(h, week, picks);
    NumCorrect(picks) - 2 * NumIncorrect(h, week, picks)
  }

  /** The record text `(correct-incorrect-ties)` of three counts: three
      dash-separated numbers in parentheses. */
  function RecordText(c: nat, i: nat, t: nat): (r: string)
    ensures |r| >= 7 && r[0] == '(' && r[|r| - 1] == ')'
  {
    ShowNatDigits(c); ShowNatDigits(i); ShowNatDigits(t);
    var body := ShowNat(c) + "-" + ShowNat(i) + "-" + ShowNat(t);
    var s := "(" + body + ")";
    assert s[1..|s| - 1] == body;
    s
  }

  /** `Team.get_weekly_record` on the week's pick list. */
  function Record(h: Helpers, week: int, picks: seq<Pick>): string {
    RecordText(NumCorrect(picks), NumIncorrect(h, week, picks), NumTies(h, week, picks))
  }

  /** What one pick adds to the weekly score. */
  function PickPoints(h: Helpers, week: int, p: Pick): int {
    (if IsCorrect(p) then 1 else 0) - (if CountsIncorrect(h, week, p) then 2 else 0)
  }

  lemma CountSnoc(picks: seq<Pick>, p: Pick, keep: Pick -> bool)
    ensures Count(picks + [p], keep) == Count(picks, keep) + (if keep(p) then 1 else 0)
  {
    assert (picks + [p])[..|picks|] == picks;
  }

  /** A filter implied by another never counts more picks. */
  lemma {:induction false} CountMonotone(picks: seq<Pick>, keep: Pick -> bool, wider: Pick -> bool)
    requires forall p :: keep(p) ==> wider(p)
    ensures Count(picks, keep) <= Count(picks, wider)
    decreases |picks|
  {
    if picks != [] {
      CountMonotone(picks[..|picks| - 1], keep, wider);
    }
  }

  /** Ties are only excluded from the incorrect count: the cross-marked picks
      are exactly the counted incorrect ones plus the cross-marked ties, so the
      incorrect count never exceeds the number of cross-marked picks. */
  lemma {:induction false} IncorrectExcludesTies(h: Helpers, week: int, picks: seq<Pick>)
    ensures Count(picks, IsIncorrect)
         == NumIncorrect(h, week, picks) + Count(picks, p => IsIncorrect(p) && IsTie(h, week, p))
    ensures NumIncorrect(h, week, picks) <= Count(picks, IsIncorrect)
    decreases |picks|
  {
    if picks != [] {
      IncorrectExcludesTies(h, week, picks[..|picks| - 1]);
    }
  }

  /** Appending a pick changes the week's score by exactly that pick's points:
      +1 when check-marked (tie or not), -2 when cross-marked and not a tie. */
  lemma ScoreSnoc(h: Helpers, week: int, picks: seq<Pick>, p: Pick)
    ensures Score(h, week, picks + [p]) == Score(h, week, picks) + PickPoints(h, week, p)
    ensures NumCorrect(picks + [p]) == NumCorrect(picks) + (if IsCorrect(p) then 1 else 0)
    ensures NumIncorrect(h, week, picks + [p])
         == NumIncorrect(h, week, picks) + (if CountsIncorrect(h, week, p) then 1 else 0)
    ensures NumTies(h, week, picks + [p]) == NumTies(h, week, picks) + (if IsTie(h, week, p) then 1 else 0)
  {
    CountSnoc(picks, p, IsCorrect);
    CountSnoc(picks, p, q => CountsIncorrect(h, week, q));
    CountSnoc(picks, p, q => IsTie(h, week, q));
  }

  /** A week with no picks scores 0 and has the record `(0-0-0)`. */
  lemma EmptyWeek(h: Helpers, week: int)
    ensures Score(h, week, []) == 0
    ensures Record(h, week, []) == "(0-0-0)"
  {
    assert NumCorrect([]) == 0 && NumIncorrect(h, week, []) == 0 && NumTies(h, week, []) == 0;
    assert ShowNat(0) == "0";
    assert RecordText(0, 0, 0) == "(" + "0" + "-" + "0" + "-" + "0" + ")";
  }

  /** The score is `correct - 2 * incorrect` with ties counted in neither when
      they carry a cross mark: a tie check-marked still counts as correct. */
  lemma {:induction false} PointsSum(h: Helpers, week: int, picks: seq<Pick>)
    ensures NumCorrect(picks) - 2 * NumIncorrect(h, week, picks) == SumPoints(h, week, picks)
    decreases |picks|
  {
    if picks != [] {
      var init := picks[..|picks| - 1];
      var p := picks[|picks| - 1];
      PointsSum(h, week, init);
      assert init + [p] == picks;
      CountSnoc(init, p, IsCorrect);
      CountSnoc(init, p, q => CountsIncorrect(h, week, q));
    }
  }

  /** The weekly score as the sum of each pick's points, first pick first. */
  function SumPoints(h: Helpers, week: int, picks: seq<Pick>): int
    decreases |picks|
  {
    if picks == [] then 0 else SumPoints(h, week, picks[..|picks| - 1]) + PickPoints(h, week, picks[|picks| - 1])
  }

  /** Reads a record text `(c-i-t)` back into its three numbers; only a
      parenthesised text of three dash-separated integers reads. */
  function ParseRecord(s: string): (r: Option<(int, int, int)>)
    ensures r.Some? ==> |s| >= 2 && s[0] == '(' && s[|s| - 1] == ')'
    ensures r.Some? ==> |Split(s[1..|s| - 1], "-")| == 3
  {
    if |s| >= 2 && s[0] == '(' && s[|s| - 1] == ')' then
      var parts := Split(s[1..|s| - 1], "-");
      if |parts| == 3 && ParseInt(parts[0]).Some? && ParseInt(parts[1]).Some? && ParseInt(parts[2]).Some?
      then Some((ParseInt(parts[0]).value, ParseInt(parts[1]).value, ParseInt(parts[2]).value))
      else None
    else None
  }

  lemma NoDash(n: nat)
    ensures forall i :: 0 <= i < |ShowNat(n)| ==> ShowNat(n)[i] != '-'
  {
    ShowNatDigits(n);
  }

  /** The record text holds the three counts and nothing else: it reads back
      as exactly (correct, incorrect, ties). */
  lemma RecordRoundTrip(c: nat, i: nat, t: nat)
    ensures ParseRecord(RecordText(c, i, t)) == Some((c, i, t))
  {
    var s := RecordText(c, i, t);
    assert s[1..|s| - 1] == ShowNat(c) + "-" + ShowNat(i) + "-" + ShowNat(t);
    SplitDashed(c, i, t);
    ParseShowNat(c); ParseShowNat(i); ParseShowNat(t);
  }

  lemma SplitDashed(c: nat, i: nat, t: nat)
    ensures Split(ShowNat(c) + "-" + ShowNat(i) + "-" + ShowNat(t), "-") == [ShowNat(c), ShowNat(i), ShowNat(t)]
  {
    NoDash(c); NoDash(i); NoDash(t);
    SplitThree(ShowNat(c), ShowNat(i), ShowNat(t));
  }

  lemma SplitThree(a: string, b: string, c: string)
    requires forall k :: 0 <= k < |a| ==> a[k] != '-'
    requires forall k :: 0 <= k < |b| ==> b[k] != '-'
    requires forall k :: 0 <= k < |c| ==> c[k] != '-'
    ensures Split(a + "-" + b + "-" + c, "-") == [a, b, c]
  {
    var dash := "-";
    var tail := b + dash + c;
    assert a + "-" + b + "-" + c == a + dash + tail;
    SplitCharHead(a, dash, tail);
    SplitCharHead(b, dash, c);
    SplitAbsent(c, dash);
    assert Split(a + dash + tail, dash) == [a] + ([b] + [c]);
  }

  predicate IsWeek(week: int) {
    1 <= week <= 18
  }

  /** The weeks a team's ledger holds. */
  const Weeks: set<int> := set w | 1 <= w <= 18

  /** Weeks 1..18, each with no picks. */
  function EmptyWeeks(): (m: map<int, seq<Pick>>)
    ensures forall w :: w in m <==> IsWeek(w)
    ensures forall w :: w in m ==> m[w] == []
  {
    map w | w in Weeks :: []
  }

  /** `Team`: a named participant with a pick list per week 1..18; the lists
      only ever grow, one pick at a time. */
  class Team {
    const name: string
    const owner: string
    var weeksToPicks: map<int, seq<Pick>>

    ghost predicate Valid()
      reads this
    {
      forall w :: w in weeksToPicks <==> IsWeek(w)
    }

    /** `Team.__init__`: weeks 1..18, each with an empty list. */
    constructor (name: string, owner: string)
      ensures this.name == name && this.owner == owner
      ensures weeksToPicks == EmptyWeeks()
      ensures Valid()
    {
      this.name := name;
      this.owner := owner;
      var m: map<int, seq<Pick>> := map[];
      var week := 1;
      while week < 19
        invariant 1 <= week <= 19
        invariant forall w :: w in m <==> 1 <= w < week
        invariant forall w :: w in m ==> m[w] == []
      {
        m := m[week := []];
        week := week + 1;
      }
      weeksToPicks := m;
    }

    /** `Team.add_weekly_pick`: append to that week's list and no other; a week
        outside the ledger is a `KeyError` (`ok` false, nothing changes). */
    method AddWeeklyPick(week: int, pick: Pick) returns (ok: bool)
      modifies this
      ensures ok == (week in old(weeksToPicks))
      ensures ok ==> weeksToPicks == old(weeksToPicks)[week := old(weeksToPicks)[week] + [pick]]
      ensures !ok ==> weeksToPicks == old(weeksToPicks)
      ensures Valid() <==> old(Valid())
    {
      ok := week in weeksToPicks;
      if ok {
        weeksToPicks := weeksToPicks[week := weeksToPicks[week] + [pick]];
      }
    }

    /** `Team.get_weekly_picks`: the week's list, `None` for a `KeyError`. */
    function WeeklyPicks(week: int): (r: Option<seq<Pick>>)
      reads this
      requires Valid()
      ensures r.Some? <==> IsWeek(week)
    {
      if week in weeksToPicks then Some(weeksToPicks[week]) else None
    }

    /** `Team.get_weekly_score`: defined exactly for weeks 1..18, the sum of
        the week's pick points (correct less twice incorrect), and bounded by
        the number of picks that week. */
    function WeeklyScore(h: Helpers, week: int): (r: Option<int>)
      reads this
      requires Valid()
      ensures r.Some? <==> IsWeek(week)
      ensures r.Some? ==> -2 * |weeksToPicks[week]| <= r.value <= |weeksToPicks[week]|
      ensures r.Some? ==> r.value == SumPoints(h, week, weeksToPicks[week])
    {
      if week in weeksToPicks then
        Some(Score(h, week, weeksToPicks[week]))
      else None
    }

    /** `Team.get_weekly_record`: defined exactly for weeks 1..18, and reads
        back as the week's correct, incorrect and tie counts. */
    function WeeklyRecord(h: Helpers, week: int): (r: Option<string>)
      reads this
      requires Valid()
      ensures r.Some? <==> IsWeek(week)
      ensures r.Some? ==> ParseRecord(r.value) == Some((NumCorrect(weeksToPicks[week]),
                                                        NumIncorrect(h, week, weeksToPicks[week]),
                                                        NumTies(h, week, weeksToPicks[week])))
    {
      if week in weeksToPicks then
        var picks := weeksToPicks[week];
        RecordRoundTrip(NumCorrect(picks), NumIncorrect(h, week, picks), NumTies(h, week, picks));
        Some(Record(h, week, picks))
      else None
    }
  }

  /** The tie override: with week 5's tie list holding DAL, a cross-marked DAL
      pick counts as a tie, neither correct nor incorrect. */
  lemma TieOverrideExample(abbr: string -> string)
    requires abbr("DAL") == "DAL"
    ensures var h := Helpers(abbr, w => if w == 5 then {"DAL"} else {});
            var p := Pick(["GroupPickGrid-column--pick"], {"PickIncorrect-crossMark"}, "DAL");
            NumIncorrect(h, 5, [p]) == 0 && NumTies(h, 5, [p]) == 1 && NumCorrect([p]) == 0
            && Score(h, 5, [p]) == 0
  {
    var h := Helpers(abbr, w => if w == 5 then {"DAL"} else {});
    var p := Pick(["GroupPickGrid-column--pick"], {"PickIncorrect-crossMark"}, "DAL");
    ScoreSnoc(h, 5, [], p);
    assert [] + [p] == [p];
  }
}
