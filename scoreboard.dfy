/** The scoreboard: per-team slots for the 18 weekly scores and records,
    filled one week at a time, and the season standings computed from them
    (season totals, highest first, with competition ranks "1, 1, 3"). */
module Scoreboard {
  import opened Wrappers
  import opened Models

  /** A record slot: the integer `0` the slot starts as, or a record text. */
  datatype RecordSlot = Unset | Submitted(record: string)

  /** One line of the standings: `(rank, team, total)`. */
  datatype Standing = Standing(rank: nat, team: string, total: int)

  /** A team name with its season total. */
  type Entry = (string, int)

  predicate NoDup<T(==)>(s: seq<T>) {
    forall i, j :: 0 <= i < j < |s| ==> s[i] != s[j]
  }

  /** The names in order of first appearance (a dict's key order). */
  function Dedup(names: seq<string>): (r: seq<string>)
    ensures NoDup(r)
    ensures forall n :: n in r <==> n in names
    decreases |names|
  {
    if names == [] then []
    else
      var d := Dedup(names[..|names| - 1]);
      if names[|names| - 1] in d then d else d + [names[|names| - 1]]
  }

  function Names(teams: seq<Team>): (r: seq<string>)
    ensures |r| == |teams| && forall i :: 0 <= i < |teams| ==> r[i] == teams[i].name
  {
    seq(|teams|, i requires 0 <= i < |teams| => teams[i].name)
  }

  /** Python's `sum`. */
  function Sum(s: seq<int>): int
    decreases |s|
  {
    if s == [] then 0 else Sum(s[..|s| - 1]) + s[|s| - 1]
  }

  function Zeros(n: nat): (r: seq<int>)
    ensures |r| == n
  {
    seq(n, _ => 0)
  }

  /** `[0] * 18`, with `n` for 18: a row of record slots, none submitted
      yet. `Unset` stands for that initial 0, which is not a record text. */
  function NoRecords(n: nat): (r: seq<RecordSlot>)
    ensures |r| == n && forall i :: 0 <= i < n ==> r[i] == Unset
  {
    seq(n, _ => Unset)
  }

  /** A fresh team sums to 0. */
  lemma {:induction false} SumZeros(n: nat)
    ensures Sum(Zeros(n)) == 0
  {
    if n > 0 {
      SumZeros(n - 1);
      assert Zeros(n)[..n - 1] == Zeros(n - 1);
    }
  }

  /** Overwriting one slot moves the total by the difference. */
  lemma {:induction false} SumUpdate(s: seq<int>, i: nat, v: int)
    requires i < |s|
    ensures Sum(s[i := v]) == Sum(s) - s[i] + v
    decreases |s|
  {
    var t := s[i := v];
    if i < |s| - 1 {
      SumUpdate(s[..|s| - 1], i, v);
      assert t[..|t| - 1] == s[..|s| - 1][i := v];
    } else {
      assert t[..|t| - 1] == s[..|s| - 1];
    }
  }

  class Scoreboard {
    /** Key order shared by the two dicts below. */
    var order: seq<string>
    /** `teams_to_weekly_scores`: 18 slots per team name. */
    var weeklyScores: map<string, seq<int>>
    /** `teams_to_weekly_records`: 18 slots per team name. */
    var weeklyRecords: map<string, seq<RecordSlot>>

    ghost predicate Valid()
      reads this
    {
      && NoDup(order)
      && (forall n :: n in weeklyScores <==> n in order)
      && (forall n :: n in weeklyRecords <==> n in order)
      && (forall n :: n in weeklyScores ==> |weeklyScores[n]| == 18)
      && (forall n :: n in weeklyRecords ==> |weeklyRecords[n]| == 18)
    }

    /** `Scoreboard.__init__`: one entry per distinct team name, in order of
        first appearance, with 18 score slots and 18 record slots, all zero. */
    constructor (teams: seq<Team>)
      ensures Valid()
      ensures order == Dedup(Names(teams))
      ensures forall n :: n in weeklyScores ==> weeklyScores[n] == Zeros(18)
      ensures forall n :: n in weeklyRecords ==> weeklyRecords[n] == NoRecords(18)
    {
      var names := Names(teams);
      var o: seq<string> := [];
      var sc: map<string, seq<int>> := map[];
      var rc: map<string, seq<RecordSlot>> := map[];
      for i := 0 to |teams|
        invariant o == Dedup(names[..i])
        invariant forall n :: n in sc <==> n in o
        invariant forall n :: n in rc <==> n in o
        invariant forall n :: n in sc ==> sc[n] == Zeros(18)
        invariant forall n :: n in rc ==> rc[n] == NoRecords(18)
      {
        var name := teams[i].name;
        assert Dedup(names[..i + 1]) == if name in o then o else o + [name] by {
          assert names[..i + 1][..i] == names[..i];
          assert names[..i + 1][i] == name;
        }
        if name !in sc {
          o := o + [name];
        }
        sc := sc[name := Zeros(18)];
        rc := rc[name := NoRecords(18)];
      }
      assert names[..|teams|] == names;
      order, weeklyScores, weeklyRecords := o, sc, rc;
    }

    /** `Scoreboard.submit_team_week`: write the team's score and record for
        `week` into slot `week - 1` and nowhere else. A week outside 1..18 (the
        team's own `KeyError`, raised first) or an unknown team (a `KeyError`)
        changes nothing. */
    method SubmitTeamWeek(h: Helpers, team: Team, week: int) returns (ok: bool)
      requires Valid() && team.Valid()
      modifies this
      ensures Valid() && order == old(order)
      ensures ok == (IsWeek(week) && team.name in old(weeklyScores))
      ensures ok ==> weeklyScores == old(weeklyScores)[team.name :=
                old(weeklyScores)[team.name][week - 1 := Score(h, week, team.weeksToPicks[week])]]
      ensures ok ==> weeklyRecords == old(weeklyRecords)[team.name :=
                old(weeklyRecords)[team.name][week - 1 := Submitted(Record(h, week, team.weeksToPicks[week]))]]
      ensures !ok ==> weeklyScores == old(weeklyScores) && weeklyRecords == old(weeklyRecords)
    {
      var score := team.WeeklyScore(h, week);
      if score.None? || team.name !in weeklyScores {
        return false;
      }
      weeklyScores := weeklyScores[team.name := weeklyScores[team.name][week - 1 := score.value]];
      var record := team.WeeklyRecord(h, week);
      weeklyRecords := weeklyRecords[team.name := weeklyRecords[team.name][week - 1 := Submitted(record.value)]];
      ok := true;
    }

    /** Each team with the sum of its 18 weekly scores, in key order. */
    function Totals(): (r: seq<Entry>)
      reads this
      requires Valid()
      ensures |r| == |order|
      ensures forall i :: 0 <= i < |r| ==> r[i].0 == order[i] && r[i].1 == Sum(weeklyScores[order[i]])
    {
      var o, ws := order, weeklyScores;
      seq(|o|, i requires 0 <= i < |o| && o[i] in ws => (o[i], Sum(ws[o[i]])))
    }

    /** The ranking part of `Scoreboard.render`: every team once, highest
        season total first, ties kept in key order, with competition ranks. */
    method Standings() returns (ranked: seq<Standing>)
      requires Valid()
      ensures |ranked| == |order|
      ensures forall i :: 0 <= i < |ranked| ==> (ranked[i].team, ranked[i].total) == SortDesc(Totals())[i]
      ensures forall i :: 0 <= i < |ranked| ==>
                ranked[i].team in weeklyScores && ranked[i].total == Sum(weeklyScores[ranked[i].team])
      ensures forall i, j :: 0 <= i < j < |ranked| ==> ranked[i].total >= ranked[j].total
      ensures forall i :: 0 <= i < |ranked| ==> ranked[i].rank == 1 + CountAbove(Totals(), ranked[i].total)
    {
      var totals := Totals();
      ranked := RankSorted(SortDesc(totals));
      RankedTotals(totals, ranked);
      forall i | 0 <= i < |ranked|
        ensures ranked[i].team in weeklyScores && ranked[i].total == Sum(weeklyScores[ranked[i].team])
      {
        var j :| 0 <= j < |totals| && totals[j] == (ranked[i].team, ranked[i].total);
      }
    }
  }

  /** The standings built from the sorted totals: each one is an entry of
      the totals, in descending order, ranked by how many totals beat it. */
  lemma RankedTotals(totals: seq<Entry>, ranked: seq<Standing>)
    requires |ranked| == |totals|
    requires forall i :: 0 <= i < |totals| ==>
               ranked[i] == Standing(RankAt(SortDesc(totals), i), SortDesc(totals)[i].0, SortDesc(totals)[i].1)
    ensures forall i :: 0 <= i < |ranked| ==> (ranked[i].team, ranked[i].total) == SortDesc(totals)[i]
    ensures forall i :: 0 <= i < |ranked| ==> (ranked[i].team, ranked[i].total) in totals
    ensures forall i, j :: 0 <= i < j < |ranked| ==> ranked[i].total >= ranked[j].total
    ensures forall i :: 0 <= i < |ranked| ==> ranked[i].rank == 1 + CountAbove(totals, ranked[i].total)
  {
    SortedMembers(totals);
    SortedRanks(totals);
  }

  /** Every sorted entry is an entry of the input. */
  lemma SortedMembers(s: seq<Entry>)
    ensures forall i :: 0 <= i < |SortDesc(s)| ==> SortDesc(s)[i] in s
  {
    forall i | 0 <= i < |SortDesc(s)|
      ensures SortDesc(s)[i] in s
    {
      assert SortDesc(s)[i] in multiset(SortDesc(s));
    }
  }

  /** The loop's rank of a sorted entry counts the input's totals above it. */
  lemma SortedRanks(s: seq<Entry>)
    ensures forall i :: 0 <= i < |SortDesc(s)| ==> RankAt(SortDesc(s), i) == 1 + CountAbove(s, SortDesc(s)[i].1)
  {
    var sorted := SortDesc(s);
    forall i | 0 <= i < |sorted|
      ensures RankAt(sorted, i) == 1 + CountAbove(s, sorted[i].1)
    {
      RankAtIsCompetitionRank(sorted, i);
      CountAbovePermutation(sorted, s, sorted[i].1);
    }
  }

  predicate SortedDesc(s: seq<Entry>) {
    forall i, j :: 0 <= i < j < |s| ==> s[i].1 >= s[j].1
  }

  /** Place `x` before the first entry whose total is not above its own. */
  function Insert(x: Entry, s: seq<Entry>): (r: seq<Entry>)
    ensures |r| == |s| + 1
    decreases |s|
  {
    if s == [] || x.1 >= s[0].1 then [x] + s else [s[0]] + Insert(x, s[1..])
  }

  /** `sorted(items, key=total, reverse=True)`: a stable sort, highest
      first. It returns a permutation of its input, ordered by total. */
  function SortDesc(s: seq<Entry>): (r: seq<Entry>)
    ensures |r| == |s|
    ensures multiset(r) == multiset(s)
    ensures SortedDesc(r)
    decreases |s|
  {
    if s == [] then []
    else
      var rest := SortDesc(s[1..]);
      InsertPermutes(s[0], rest);
      InsertSorted(s[0], rest);
      assert s == [s[0]] + s[1..];
      Insert(s[0], rest)
  }

  lemma {:induction false} InsertPermutes(x: Entry, s: seq<Entry>)
    ensures multiset(Insert(x, s)) == multiset([x] + s)
    ensures |Insert(x, s)| == |s| + 1
    decreases |s|
  {
    if s != [] && x.1 < s[0].1 {
      InsertPermutes(x, s[1..]);
      assert [x] + s == [x] + [s[0]] + s[1..];
      assert s == [s[0]] + s[1..];
    }
  }

  lemma {:induction false} InsertSorted(x: Entry, s: seq<Entry>)
    requires SortedDesc(s)
    ensures SortedDesc(Insert(x, s))
    decreases |s|
  {
    if s != [] && x.1 < s[0].1 {
      InsertSorted(x, s[1..]);
      InsertPermutes(x, s[1..]);
      var r := Insert(x, s[1..]);
      forall k | 0 <= k < |r| ensures r[k].1 <= s[0].1 {
        assert r[k] in multiset([x] + s[1..]);
        assert r[k] in [x] + s[1..];
      }
    }
  }

  /** The entries with total `v`, in order. */
  function WithTotal(s: seq<Entry>, v: int): seq<Entry>
    decreases |s|
  {
    if s == [] then [] else (if s[0].1 == v then [s[0]] else []) + WithTotal(s[1..], v)
  }

  lemma {:induction false} InsertStable(x: Entry, s: seq<Entry>, v: int)
    requires SortedDesc(s)
    ensures WithTotal(Insert(x, s), v) == WithTotal([x] + s, v)
    decreases |s|
  {
    if s != [] && x.1 < s[0].1 {
      InsertStable(x, s[1..], v);
      assert ([s[0]] + Insert(x, s[1..]))[1..] == Insert(x, s[1..]);
      assert ([x] + s[1..])[1..] == s[1..];
      assert ([x] + s)[1..] == s;
    }
  }

  /** The sort is stable: the entries sharing any one total keep their
      original relative order. */
  lemma {:induction false} SortDescStable(s: seq<Entry>, v: int)
    ensures WithTotal(SortDesc(s), v) == WithTotal(s, v)
    decreases |s|
  {
    if s != [] {
      SortDescStable(s[1..], v);
      InsertStable(s[0], SortDesc(s[1..]), v);
      assert ([s[0]] + SortDesc(s[1..]))[1..] == SortDesc(s[1..]);
    }
  }

  /** How many entries have a total strictly above `v`. */
  function CountAbove(s: seq<Entry>, v: int): nat
    decreases |s|
  {
    if s == [] then 0 else CountAbove(s[..|s| - 1], v) + (if s[|s| - 1].1 > v then 1 else 0)
  }

  lemma {:induction false} CountAboveAt(s: seq<Entry>, v: int, k: nat)
    requires k <= |s|
    requires forall j :: 0 <= j < k ==> s[j].1 > v
    requires forall j :: k <= j < |s| ==> s[j].1 <= v
    ensures CountAbove(s, v) == k
    decreases |s|
  {
    if s != [] {
      if k == |s| {
        CountAboveAt(s[..|s| - 1], v, k - 1);
      } else {
        CountAboveAt(s[..|s| - 1], v, k);
      }
    }
  }

  lemma {:induction false} CountAboveConcat(a: seq<Entry>, b: seq<Entry>, v: int)
    ensures CountAbove(a + b, v) == CountAbove(a, v) + CountAbove(b, v)
    decreases |b|
  {
    if b == [] {
      assert a + b == a;
    } else {
      CountAboveConcat(a, b[..|b| - 1], v);
      assert (a + b)[..|a + b| - 1] == a + b[..|b| - 1];
    }
  }

  /** The number of entries above a total does not depend on their order. */
  lemma {:induction false} CountAbovePermutation(a: seq<Entry>, b: seq<Entry>, v: int)
    requires multiset(a) == multiset(b)
    ensures CountAbove(a, v) == CountAbove(b, v)
    decreases |a|
  {
    if a == [] {
      assert |multiset(b)| == 0;
    } else {
      var x := a[|a| - 1];
      assert x in multiset(b) by { assert x in multiset(a); }
      var k :| 0 <= k < |b| && b[k] == x;
      var rest := b[..k] + b[k + 1..];
      assert b == b[..k] + [x] + b[k + 1..];
      assert a == a[..|a| - 1] + [x];
      assert multiset(b) == multiset(b[..k]) + multiset([x]) + multiset(b[k + 1..]);
      assert multiset(a) == multiset(a[..|a| - 1]) + multiset([x]);
      assert multiset(rest) == multiset(b[..k]) + multiset(b[k + 1..]);
      assert multiset(rest) == multiset(b) - multiset{x};
      assert multiset(a[..|a| - 1]) == multiset(a) - multiset{x};
      CountAbovePermutation(a[..|a| - 1], rest, v);
      CountAboveConcat(b[..k] + [x], b[k + 1..], v);
      CountAboveConcat(b[..k], [x], v);
      CountAboveConcat(b[..k], b[k + 1..], v);
    }
  }

  /** The loop's rank at position `i`: 1 for the first entry; an entry whose
      total equals its predecessor's shares its rank; any other takes `i + 1`. */
  function RankAt(s: seq<Entry>, i: nat): (r: nat)
    requires i < |s|
    ensures 1 <= r <= i + 1
  {
    if i == 0 then 1 else if s[i].1 == s[i - 1].1 then RankAt(s, i - 1) else i + 1
  }

  /** An entry shares its predecessor's rank exactly when their totals are
      equal; otherwise its rank is its 1-based position. */
  lemma RankAtShared(s: seq<Entry>, i: nat)
    requires 0 < i < |s|
    ensures RankAt(s, i) == RankAt(s, i - 1) <==> s[i].1 == s[i - 1].1
    ensures s[i].1 != s[i - 1].1 ==> RankAt(s, i) == i + 1
  {
  }

  /** On a list sorted highest first the loop's rank is the competition rank:
      one more than the number of entries with a strictly higher total. */
  lemma {:induction false} RankAtIsCompetitionRank(s: seq<Entry>, i: nat)
    requires SortedDesc(s) && i < |s|
    ensures RankAt(s, i) == 1 + CountAbove(s, s[i].1)
  {
    if i == 0 {
      CountAboveAt(s, s[0].1, 0);
    } else if s[i].1 == s[i - 1].1 {
      RankAtIsCompetitionRank(s, i - 1);
    } else {
      CountAboveAt(s, s[i].1, i);
    }
  }

  /** The ranking loop of `Scoreboard.render` over entries already sorted:
      each entry keeps its team and total and gets the loop's rank, which on
      a list sorted highest first is the competition rank. */
  method RankSorted(sorted: seq<Entry>) returns (ranked: seq<Standing>)
    ensures |ranked| == |sorted|
    ensures forall i :: 0 <= i < |sorted| ==> ranked[i] == Standing(RankAt(sorted, i), sorted[i].0, sorted[i].1)
    ensures SortedDesc(sorted) ==>
              forall i :: 0 <= i < |sorted| ==> ranked[i].rank == 1 + CountAbove(sorted, sorted[i].1)
  {
    ranked := [];
    var rank := 1;
    var lastScore: Option<int> := None;
    for i := 0 to |sorted|
      invariant |ranked| == i
      invariant forall k :: 0 <= k < i ==> ranked[k] == Standing(RankAt(sorted, k), sorted[k].0, sorted[k].1)
      invariant i > 0 ==> lastScore == Some(sorted[i - 1].1) && rank == RankAt(sorted, i - 1)
      invariant i == 0 ==> lastScore == None
    {
      var score := sorted[i].1;
      if lastScore != Some(score) {
        rank := i + 1;
      }
      assert rank == RankAt(sorted, i);
      ranked := ranked + [Standing(rank, sorted[i].0, score)];
      lastScore := Some(score);
    }
    if SortedDesc(sorted) {
      forall i | 0 <= i < |sorted| ensures ranked[i].rank == 1 + CountAbove(sorted, sorted[i].1) {
        RankAtIsCompetitionRank(sorted, i);
      }
    }
  }

  /** Totals 10, 10, 7, 7, 3 rank 1, 1, 3, 3, 5. */
  lemma RankExample()
    ensures var s := [("A", 10), ("B", 10), ("C", 7), ("D", 7), ("E", 3)];
            SortDesc(s) == s
            && RankAt(s, 0) == 1 && RankAt(s, 1) == 1 && RankAt(s, 2) == 3
            && RankAt(s, 3) == 3 && RankAt(s, 4) == 5
  {
    var s := [("A", 10), ("B", 10), ("C", 7), ("D", 7), ("E", 3)];
    assert RankAt(s, 1) == 1 && RankAt(s, 3) == 3;
    assert SortedDesc(s);
    SortDescKeepsSorted(s);
  }

  /** Entries already highest first come back unchanged. */
  lemma {:induction false} SortDescKeepsSorted(s: seq<Entry>)
    requires SortedDesc(s)
    ensures SortDesc(s) == s
    decreases |s|
  {
    if s != [] {
      assert SortedDesc(s[1..]);
      SortDescKeepsSorted(s[1..]);
      assert s == [s[0]] + s[1..];
    }
  }
}
