/** The parsing side of `PickEmClient`: a table of `Team` objects keyed by
    name, filled from the week-to-snapshots map. Each method is proved to
    leave the teams as the matching function of the `Extraction` module
    says, with the corrected cell-admission test. */
module Client {
  import opened Wrappers
  import opened Text
  import opened Html
  import opened Models
  import opened Weeks
  import opened Extraction

  class PickEmClient {
    const groupId: string
    /** `self.teams`: name to team. */
    var teams: map<string, Team>
    /** The insertion order of `self.teams`. */
    var order: seq<string>

    /** Names are listed once each in insertion order, every team is filed
        under its own name, and no two names share a team. */
    ghost predicate Valid()
      reads this, teams.Values
    {
      && (forall n :: n in teams <==> n in order)
      && (forall i, j :: 0 <= i < j < |order| ==> order[i] != order[j])
      && (forall n :: n in teams ==> teams[n].name == n)
      && (forall m, n :: m in teams && n in teams && m != n ==> teams[m] != teams[n])
    }

    /** The teams as a value: names in order, and each team's ledger. */
    function State(): Book
      reads this, teams.Values
    {
      Book(order, map n | n in teams :: teams[n].weeksToPicks)
    }

    /** `PickEmClient.__init__`: no teams yet. */
    constructor (groupId: string)
      ensures this.groupId == groupId
      ensures Valid() && State() == Book([], map[])
    {
      this.groupId := groupId;
      teams := map[];
      order := [];
    }

    /** `get_teams`: the teams in insertion order, each once. */
    method GetTeams() returns (r: seq<Team>)
      requires Valid()
      ensures |r| == |order|
      ensures forall i :: 0 <= i < |r| ==> r[i] == teams[order[i]] && r[i].name == order[i]
      ensures forall i, j :: 0 <= i < j < |r| ==> r[i] != r[j]
      ensures forall t :: t in teams.Values <==> t in r
    {
      r := [];
      for i := 0 to |order|
        invariant |r| == i
        invariant forall k :: 0 <= k < i ==> r[k] == teams[order[k]]
      {
        r := r + [teams[order[i]]];
      }
      forall t | t in teams.Values ensures t in r {
        var n :| n in teams && teams[n] == t;
        var k :| 0 <= k < |order| && order[k] == n;
        assert r[k] == t;
      }
    }

    /** Create the team `name` unless a team of that name exists. */
    method RegisterTeam(name: string)
      requires Valid()
      modifies this
      ensures Valid()
      ensures State() == Register(old(State()), name)
      ensures forall t :: t in teams.Values ==> t in old(teams.Values) || fresh(t)
    {
      if name !in teams {
        var team := new Team(name, "owner");
        teams := teams[name := team];
        order := order + [name];
        assert State().picks == old(State()).picks[name := EmptyWeeks()];
      }
    }

    /** `team.add_weekly_pick(week, pick)` on the team named `name`. */
    method AddPickTo(name: string, week: int, pick: Pick) returns (ok: bool)
      requires Valid() && name in teams
      modifies teams[name]
      ensures Valid()
      ensures Run(State(), if ok then None else Some(UnknownWeek(week))) == AddPick(old(State()), name, week, pick)
    {
      var team := teams[name];
      ok := team.AddWeeklyPick(week, pick);
      forall n | n in teams && n != name
        ensures teams[n].weeksToPicks == old(teams[n].weeksToPicks)
      {
        assert teams[n] != team;
      }
      assert State().picks == old(State()).picks[name := team.weeksToPicks];
      assert old(State()).picks[name] == old(team.weeksToPicks);
      if ok {
        assert State() == AddPick(old(State()), name, week, pick).state;
      } else {
        assert State() == old(State());
      }
    }

    /** The pick cells of one mapped row: each admitted cell makes a `Pick`
        that is appended to the team's week. */
    method AddCellPicks(name: string, week: int, cells: seq<Cell>) returns (err: Option<ParseError>)
      requires Valid() && name in teams
      modifies teams.Values
      ensures Valid()
      ensures Run(State(), err) == Fold(cells, old(State()), CellStepFor(Admit, name, week))
    {
      var step := CellStepFor(Admit, name, week);
      for i := 0 to |cells|
        invariant Valid() && name in teams
        invariant Run(State(), None) == Fold(cells[..i], old(State()), step)
      {
        FoldNext(cells, i, old(State()), step);
        var cell := cells[i];
        var hasNoPick := NoPickClass in cell.classes;
        var hasImage := cell.images != [];
        if !hasNoPick && hasImage {
          var pick := NewPick(cell);
          if pick.Failure? {
            FoldStopped(cells, i + 1, old(State()), step);
            return Some(BadPick(pick.error));
          }
          var ok := AddPickTo(name, week, pick.value);
          if !ok {
            FoldStopped(cells, i + 1, old(State()), step);
            return Some(UnknownWeek(week));
          }
        }
      }
      assert cells[..|cells|] == cells;
      return None;
    }

    /** One row of a picks table. */
    method ParseRowPicks(idx: map<int, string>, week: int, row: Row) returns (err: Option<ParseError>)
      requires Valid()
      modifies teams.Values
      ensures Valid()
      ensures Run(State(), err) == RowPicks(Admit, idx, week, old(State()), row)
    {
      if row.dataIdx.None? {
        return None;
      }
      var teamIdx := ParseInt(row.dataIdx.value);
      if teamIdx.None? {
        return Some(BadDataIdx(row.dataIdx.value));
      }
      var k := teamIdx.value;
      if k in idx && idx[k] != "" && idx[k] in teams {
        var picks := FindAllTd(row.cells, PickCellMarker);
        err := AddCellPicks(idx[k], week, picks);
      } else {
        err := None;
      }
    }

    /** Every row of one picks table. */
    method ParseTablePicks(idx: map<int, string>, week: int, rows: seq<Row>) returns (err: Option<ParseError>)
      requires Valid()
      modifies teams.Values
      ensures Valid()
      ensures Run(State(), err) == Fold(rows, old(State()), RowStepFor(Admit, idx, week))
    {
      var step := RowStepFor(Admit, idx, week);
      for i := 0 to |rows|
        invariant Valid()
        invariant Run(State(), None) == Fold(rows[..i], old(State()), step)
      {
        FoldNext(rows, i, old(State()), step);
        err := ParseRowPicks(idx, week, rows[i]);
        if err.Some? {
          FoldStopped(rows, i + 1, old(State()), step);
          return;
        }
      }
      assert rows[..|rows|] == rows;
      return None;
    }

    /** `_parse_picks(tables, idx_to_name, week)`. */
    method ParsePicks(tables: seq<Table>, idx: map<int, string>, week: int) returns (err: Option<ParseError>)
      requires Valid()
      modifies teams.Values
      ensures Valid()
      ensures Run(State(), err) == Picks(Admit, tables, idx, week, old(State()))
    {
      var step := TableStepFor(Admit, idx, week);
      for i := 0 to |tables|
        invariant Valid()
        invariant Run(State(), None) == Fold(tables[..i], old(State()), step)
      {
        FoldNext(tables, i, old(State()), step);
        if IsPicksTable(tables[i]) {
          err := ParseTablePicks(idx, week, tables[i].rows);
          if err.Some? {
            FoldStopped(tables, i + 1, old(State()), step);
            return;
          }
        }
      }
      assert tables[..|tables|] == tables;
      return None;
    }

    /** The rows of one entries table after its two header rows. */
    method ParseEntriesRows(rows: seq<Row>, idx0: map<int, string>) returns (idx: map<int, string>, err: Option<ParseError>)
      requires Valid()
      modifies this
      ensures Valid()
      ensures Run((idx, State()), err) == Fold(rows, (idx0, old(State())), NameStep)
      ensures forall t :: t in teams.Values ==> t in old(teams.Values) || fresh(t)
    {
      idx := idx0;
      for i := 0 to |rows|
        invariant Valid()
        invariant Run((idx, State()), None) == Fold(rows[..i], (idx0, old(State())), NameStep)
        invariant forall t :: t in teams.Values ==> t in old(teams.Values) || fresh(t)
      {
        FoldNext(rows, i, (idx0, old(State())), NameStep);
        var row := rows[i];
        if row.dataIdx.None? {
          FoldStopped(rows, i + 1, (idx0, old(State())), NameStep);
          return idx, Some(MissingDataIdx);
        }
        var k := ParseInt(row.dataIdx.value);
        if k.None? {
          FoldStopped(rows, i + 1, (idx0, old(State())), NameStep);
          return idx, Some(BadDataIdx(row.dataIdx.value));
        }
        var nameCell := FindTd(row.cells, NameCellMarker);
        if nameCell.Some? {
          var nameAnchor := FindAnchor(nameCell.value.anchors, EntryLinkClass);
          if nameAnchor.Some? {
            var name := Strip(nameAnchor.value.text);
            idx := idx[k.value := name];
            RegisterTeam(name);
          }
        }
      }
      assert rows[..|rows|] == rows;
      return idx, None;
    }

    /** `_parse_team_names(tables)`: the index-to-name map of one snapshot,
        registering every team it names. */
    method ParseTeamNames(tables: seq<Table>) returns (idx: map<int, string>, err: Option<ParseError>)
      requires Valid()
      modifies this
      ensures Valid()
      ensures Run((idx, State()), err) == TeamNames(tables, old(State()))
      ensures forall t :: t in teams.Values ==> t in old(teams.Values) || fresh(t)
    {
      idx := map[];
      for i := 0 to |tables|
        invariant Valid()
        invariant Run((idx, State()), None) == Fold(tables[..i], (map[], old(State())), NamesTableStep)
        invariant forall t :: t in teams.Values ==> t in old(teams.Values) || fresh(t)
      {
        FoldNext(tables, i, (map[], old(State())), NamesTableStep);
        if IsEntriesTable(tables[i]) {
          idx, err := ParseEntriesRows(HeaderSkipped(tables[i].rows), idx);
          if err.Some? {
            FoldStopped(tables, i + 1, (map[], old(State())), NamesTableStep);
            return;
          }
        }
      }
      assert tables[..|tables|] == tables;
      return idx, None;
    }

    /** One snapshot of `_parse_soups`: its team names, then its picks. */
    method ParseSnapshot(week: int, snap: Snapshot) returns (err: Option<ParseError>)
      requires Valid()
      modifies this, teams.Values
      ensures Valid()
      ensures Run(State(), err) == SnapshotStep(Admit, week, old(State()), snap)
      ensures forall t :: t in teams.Values ==> t in old(teams.Values) || fresh(t)
    {
      var idx;
      idx, err := ParseTeamNames(snap.tables);
      if err.Some? {
        return;
      }
      err := ParsePicks(snap.tables, idx, week);
    }

    /** The snapshots of one week, in order. */
    method ParseWeek(week: int, snaps: seq<Snapshot>) returns (err: Option<ParseError>)
      requires Valid()
      modifies this, teams.Values
      ensures Valid()
      ensures Run(State(), err) == Fold(snaps, old(State()), SnapshotStepFor(Admit, week))
      ensures forall t :: t in teams.Values ==> t in old(teams.Values) || fresh(t)
    {
      var step := SnapshotStepFor(Admit, week);
      for i := 0 to |snaps|
        invariant Valid()
        invariant Run(State(), None) == Fold(snaps[..i], old(State()), step)
        invariant forall t :: t in teams.Values ==> t in old(teams.Values) || fresh(t)
      {
        FoldNext(snaps, i, old(State()), step);
        err := ParseSnapshot(week, snaps[i]);
        if err.Some? {
          FoldStopped(snaps, i + 1, old(State()), step);
          return;
        }
      }
      assert snaps[..|snaps|] == snaps;
      return None;
    }

    /** `_parse_soups(weeks_to_soups)`: every week with snapshots, in the
        map's order; `err` is the exception that stops it, if any. */
    method ParseSoups(weeksToSoups: WeekMap) returns (err: Option<ParseError>)
      requires Valid()
      modifies this, teams.Values
      ensures Valid()
      ensures Run(State(), err) == Extraction.ParseSoups(Admit, weeksToSoups, old(State()))
    {
      var step := WeekStepFor(Admit);
      for i := 0 to |weeksToSoups|
        invariant Valid()
        invariant Run(State(), None) == Fold(weeksToSoups[..i], old(State()), step)
        invariant forall t :: t in teams.Values ==> t in old(teams.Values) || fresh(t)
      {
        FoldNext(weeksToSoups, i, old(State()), step);
        var (week, soups) := weeksToSoups[i];
        if soups != [] {
          err := ParseWeek(week, soups);
          if err.Some? {
            FoldStopped(weeksToSoups, i + 1, old(State()), step);
            return;
          }
        }
      }
      assert weeksToSoups[..|weeksToSoups|] == weeksToSoups;
      return None;
    }
  }
}
