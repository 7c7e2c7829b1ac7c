/** Reading team names and picks out of the captured page snapshots, as
    value-level functions: the entries table gives each row index its team
    name (registering new teams), and the picks table adds each mapped row's
    pick cells to that team's list for the week. Any exception the source
    raises stops the parse where it happens; a `Run` records the state
    reached and the error. */
module Extraction {
  import opened Wrappers
  import opened Text
  import opened Html
  import opened Models
  import opened Weeks

  /** Why a parse stops: a row of the entries table without `data-idx`
      (`KeyError`), a `data-idx` that is not an integer (`ValueError`), a
      pick cell that does not make a `Pick`, or a week the team's ledger
      does not hold (`KeyError`). */
  datatype ParseError = MissingDataIdx | BadDataIdx(text: string) | BadPick(reason: PickError) | UnknownWeek(week: int)

  /** The client's teams: names in insertion order, and each team's ledger. */
  datatype Book = Book(order: seq<string>, picks: map<string, map<int, seq<Pick>>>)

  /** The state a parse reaches, and the error that stopped it, if any. */
  datatype Run<S> = Run(state: S, error: Option<ParseError>)

  /** A `for` loop over `xs` whose body is `step`: it stops at the first
      error, keeping the state reached at that point. */
  function Fold<S, X>(xs: seq<X>, start: S, step: (S, X) -> Run<S>): Run<S>
    decreases |xs|
  {
    if xs == [] then Run(start, None)
    else
      var r := Fold(xs[..|xs| - 1], start, step);
      if r.error.Some? then r else step(r.state, xs[|xs| - 1])
  }

  /** Running a loop over `xs + ys` is running it over `xs`, then, unless
      that stopped, over `ys` from where it left off. */
  lemma {:induction false} FoldAppend<S, X>(xs: seq<X>, ys: seq<X>, start: S, step: (S, X) -> Run<S>)
    ensures Fold(xs + ys, start, step) ==
              var r := Fold(xs, start, step);
              if r.error.Some? then r else Fold(ys, r.state, step)
    decreases |ys|
  {
    if ys == [] {
      assert xs + ys == xs;
    } else {
      var init := ys[..|ys| - 1];
      FoldAppend(xs, init, start, step);
      assert (xs + ys)[..|xs + ys| - 1] == xs + init;
    }
  }

  /** An element whose step never changes anything can be dropped. */
  lemma FoldSkip<S, X>(xs: seq<X>, x: X, ys: seq<X>, start: S, step: (S, X) -> Run<S>)
    requires forall s :: step(s, x) == Run(s, None)
    ensures Fold(xs + [x] + ys, start, step) == Fold(xs + ys, start, step)
  {
    FoldAppend(xs + [x], ys, start, step);
    FoldAppend(xs, [x], start, step);
    FoldAppend(xs, ys, start, step);
    var r := Fold(xs, start, step);
    if r.error.None? {
      assert [x][..0] == [];
      assert Fold([x], r.state, step) == Run(r.state, None);
    }
  }

  /** A loop over a prefix, one element further. */
  lemma FoldNext<S, X>(xs: seq<X>, i: nat, start: S, step: (S, X) -> Run<S>)
    requires i < |xs|
    ensures Fold(xs[..i + 1], start, step) ==
              var r := Fold(xs[..i], start, step);
              if r.error.Some? then r else step(r.state, xs[i])
  {
    assert xs[..i + 1][..i] == xs[..i];
  }

  /** Once a loop has stopped on a prefix, the rest changes nothing. */
  lemma FoldStopped<S, X>(xs: seq<X>, i: nat, start: S, step: (S, X) -> Run<S>)
    requires i <= |xs| && Fold(xs[..i], start, step).error.Some?
    ensures Fold(xs, start, step) == Fold(xs[..i], start, step)
  {
    FoldAppend(xs[..i], xs[i..], start, step);
    assert xs[..i] + xs[i..] == xs;
  }

  /** A relation every step establishes between the state before and after
      it, if reflexive and transitive, holds between the start and the end. */
  lemma {:induction false} FoldMonotone<S, X>(xs: seq<X>, start: S, step: (S, X) -> Run<S>, rel: (S, S) -> bool)
    requires forall a :: rel(a, a)
    requires forall a, b, c :: rel(a, b) && rel(b, c) ==> rel(a, c)
    requires forall a, x :: rel(a, step(a, x).state)
    ensures rel(start, Fold(xs, start, step).state)
    decreases |xs|
  {
    if xs != [] {
      FoldMonotone(xs[..|xs| - 1], start, step, rel);
    }
  }

  /** Two loop bodies that agree whenever the first raises nothing give
      loops that agree whenever the first raises nothing. */
  lemma {:induction false} FoldAgree<S, X>(xs: seq<X>, start: S, f: (S, X) -> Run<S>, g: (S, X) -> Run<S>)
    requires forall a, x :: f(a, x).error.None? ==> g(a, x) == f(a, x)
    ensures Fold(xs, start, f).error.None? ==> Fold(xs, start, g) == Fold(xs, start, f)
    decreases |xs|
  {
    if xs != [] {
      FoldAgree(xs[..|xs| - 1], start, f, g);
    }
  }

  /** A step that never stops with error `e` gives a loop that never does. */
  lemma {:induction false} FoldAvoids<S, X>(xs: seq<X>, start: S, step: (S, X) -> Run<S>, e: ParseError)
    requires forall a, x :: step(a, x).error != Some(e)
    ensures Fold(xs, start, step).error != Some(e)
    decreases |xs|
  {
    if xs != [] {
      FoldAvoids(xs[..|xs| - 1], start, step, e);
    }
  }

  const EntriesMarker: string := "GROUP ENTRIES"
  const NameCellMarker: string := "GroupPickGrid-column--entryName"
  const EntryLinkClass: string := "GroupPickGrid-entryLink"
  const PicksMarker: string := "PICKS"
  const PickCellMarker: string := "GroupPickGrid-column--pick"
  const NoPickClass: string := "noPick"

  /** The team name a row of the entries table carries: the stripped text
      of the entry link inside its name cell, if both are there. */
  function RowName(row: Row): (r: Option<string>)
    ensures r.Some? <==> var cell := FindTd(row.cells, NameCellMarker);
              cell.Some? && FindAnchor(cell.value.anchors, EntryLinkClass).Some?
    ensures r.Some? ==> r.value == Strip(FindAnchor(FindTd(row.cells, NameCellMarker).value.anchors, EntryLinkClass).value.text)
  {
    match FindTd(row.cells, NameCellMarker)
    case None => None
    case Some(cell) =>
      match FindAnchor(cell.anchors, EntryLinkClass)
      case None => None
      case Some(a) => Some(Strip(a.text))
  }

  /** `if name not in self.teams: self.teams[name] = Team(name, "owner")`. */
  function Register(b: Book, name: string): (r: Book)
    ensures name in r.picks
  {
    if name in b.picks then b else Book(b.order + [name], b.picks[name := EmptyWeeks()])
  }

  /** `rows[2:]`. */
  function HeaderSkipped(rows: seq<Row>): seq<Row> {
    if |rows| < 2 then [] else rows[2..]
  }

  /** The index-to-name map being built, and the teams. */
  type Names = (map<int, string>, Book)

  /** One row of an entries table: its `data-idx` must be an integer; when
      the row names a team, the index maps to that name and the team is
      registered. */
  function NameStep(st: Names, row: Row): (r: Run<Names>)
    ensures r.error.None? <==> row.dataIdx.Some? && ParseInt(row.dataIdx.value).Some?
    ensures r.error.Some? ==> r.state == st
    ensures KeepsTeams(st.1, r.state.1)
  {
    match row.dataIdx
    case None => Run(st, Some(MissingDataIdx))
    case Some(text) =>
      match ParseInt(text)
      case None => Run(st, Some(BadDataIdx(text)))
      case Some(k) =>
        match RowName(row)
        case None => Run(st, None)
        case Some(name) => Run((st.0[k := name], Register(st.1, name)), None)
  }

  predicate IsEntriesTable(t: Table) {
    Contains(Upper(t.text), EntriesMarker)
  }

  /** One table in `_parse_team_names`: only entries tables are read, from
      their third row on. */
  function NamesTableStep(st: Names, t: Table): Run<Names> {
    if IsEntriesTable(t) then Fold(HeaderSkipped(t.rows), st, NameStep) else Run(st, None)
  }

  /** `_parse_team_names(tables)`, starting from an empty index map. */
  function TeamNames(tables: seq<Table>, b: Book): (r: Run<Names>)
    ensures KeepsTeams(b, r.state.1)
  {
    TeamNamesKeepTeams(tables, b);
    Fold(tables, (map[], b), NamesTableStep)
  }

  /** The cell-admission test of `_parse_picks` as written: not `noPick`,
      and a link or an image inside. */
  predicate AdmitAsWritten(c: Cell)
    ensures Admit(c) ==> AdmitAsWritten(c)
    ensures AdmitAsWritten(c) && c.images != [] ==> Admit(c)
    ensures AdmitAsWritten(c) && c.images == [] ==> NewPick(c) == Failure(NoImage)
  {
    NoPickClass !in c.classes && (c.anchors != [] || c.images != [])
  }

  /** The admission test the scraper needs: not `noPick`, and an image
      inside (the team logo the `Pick` reads its team from). */
  predicate Admit(c: Cell)
    ensures Admit(c) ==> NewPick(c) != Failure(NoImage)
  {
    NoPickClass !in c.classes && c.images != []
  }

  /** `team.add_weekly_pick(week, p)` on the team named `name`. */
  function AddPick(b: Book, name: string, week: int, p: Pick): (r: Run<Book>)
    ensures r.error.None? <==> name in b.picks && week in b.picks[name]
  {
    if name in b.picks && week in b.picks[name] then
      Run(Book(b.order, b.picks[name := b.picks[name][week := b.picks[name][week] + [p]]]), None)
    else Run(b, Some(UnknownWeek(week)))
  }

  /** One pick cell of a mapped row. */
  function CellStep(admit: Cell -> bool, name: string, week: int, b: Book, c: Cell): Run<Book> {
    if !admit(c) then Run(b, None)
    else
      match NewPick(c)
      case Failure(e) => Run(b, Some(BadPick(e)))
      case Success(p) => AddPick(b, name, week, p)
  }

  function CellStepFor(admit: Cell -> bool, name: string, week: int): (Book, Cell) -> Run<Book> {
    (b: Book, c: Cell) => CellStep(admit, name, week, b, c)
  }

  /** The team a picks-table row belongs to: its index must be mapped to a
      non-empty name of a known team. */
  predicate MappedTo(idx: map<int, string>, b: Book, k: int) {
    k in idx && idx[k] != "" && idx[k] in b.picks
  }

  /** One row of a picks table: rows without `data-idx` are skipped, the
      index must be an integer, and a row of a known team adds its admitted
      pick cells to that team's week. */
  function RowPicks(admit: Cell -> bool, idx: map<int, string>, week: int, b: Book, row: Row): (r: Run<Book>)
    ensures OnlyAppends(b, r.state)
  {
    match row.dataIdx
    case None => Run(b, None)
    case Some(text) =>
      match ParseInt(text)
      case None => Run(b, Some(BadDataIdx(text)))
      case Some(k) =>
        if MappedTo(idx, b, k) then
          var cells := FindAllTd(row.cells, PickCellMarker);
          CellsOnlyAppend(admit, idx[k], week, cells, b);
          Fold(cells, b, CellStepFor(admit, idx[k], week))
        else Run(b, None)
  }

  /** The pick cells of a row only append picks. */
  lemma CellsOnlyAppend(admit: Cell -> bool, name: string, week: int, cells: seq<Cell>, b: Book)
    ensures OnlyAppends(b, Fold(cells, b, CellStepFor(admit, name, week)).state)
  {
    FoldMonotone(cells, b, CellStepFor(admit, name, week), (x: Book, y: Book) => OnlyAppends(x, y));
  }

  function RowStepFor(admit: Cell -> bool, idx: map<int, string>, week: int): (Book, Row) -> Run<Book> {
    (b: Book, row: Row) => RowPicks(admit, idx, week, b, row)
  }

  predicate IsPicksTable(t: Table) {
    Contains(Upper(t.text), PicksMarker)
  }

  /** One table in `_parse_picks`: only picks tables are read, every row. */
  function TablePicks(admit: Cell -> bool, idx: map<int, string>, week: int, b: Book, t: Table): Run<Book> {
    if IsPicksTable(t) then Fold(t.rows, b, RowStepFor(admit, idx, week)) else Run(b, None)
  }

  function TableStepFor(admit: Cell -> bool, idx: map<int, string>, week: int): (Book, Table) -> Run<Book> {
    (b: Book, t: Table) => TablePicks(admit, idx, week, b, t)
  }

  /** `_parse_picks(tables, idx_to_name, week)`. */
  function Picks(admit: Cell -> bool, tables: seq<Table>, idx: map<int, string>, week: int, b: Book): (r: Run<Book>)
    ensures OnlyAppends(b, r.state)
  {
    PicksOnlyAppend(admit, tables, idx, week, b);
    Fold(tables, b, TableStepFor(admit, idx, week))
  }

  /** One snapshot in `_parse_soups`: its own index map from its own
      tables, then its picks through that map. */
  function SnapshotStep(admit: Cell -> bool, week: int, b: Book, snap: Snapshot): Run<Book> {
    var names := TeamNames(snap.tables, b);
    if names.error.Some? then Run(names.state.1, names.error)
    else Picks(admit, snap.tables, names.state.0, week, names.state.1)
  }

  function SnapshotStepFor(admit: Cell -> bool, week: int): (Book, Snapshot) -> Run<Book> {
    (b: Book, snap: Snapshot) => SnapshotStep(admit, week, b, snap)
  }

  /** One week's snapshots, in order. */
  function WeekStep(admit: Cell -> bool, b: Book, item: (int, seq<Snapshot>)): Run<Book> {
    Fold(item.1, b, SnapshotStepFor(admit, item.0))
  }

  function WeekStepFor(admit: Cell -> bool): (Book, (int, seq<Snapshot>)) -> Run<Book> {
    (b: Book, item: (int, seq<Snapshot>)) => WeekStep(admit, b, item)
  }

  /** `_parse_soups(weeks_to_soups)`, week by week in the map's order. */
  function ParseSoups(admit: Cell -> bool, weeks: WeekMap, b: Book): (r: Run<Book>)
    ensures Grows(b, r.state)
  {
    ParseSoupsGrows(admit, weeks, b);
    Fold(weeks, b, WeekStepFor(admit))
  }

  // The admission test as written against the one the scraper needs.

  /** A cell with a link and no image passes the test as written, and then
      `Pick(cell)` fails on the missing image; the corrected test skips it. */
  lemma LinkOnlyCell(name: string, week: int, b: Book)
    ensures var c := Cell(Td, [PickCellMarker], {}, [Anchor([], "BUF")], []);
            CellStep(AdmitAsWritten, name, week, b, c) == Run(b, Some(BadPick(NoImage)))
            && CellStep(Admit, name, week, b, c) == Run(b, None)
  {
    var c := Cell(Td, [PickCellMarker], {}, [Anchor([], "BUF")], []);
    assert NoPickClass !in c.classes;
  }

  /** The corrected test admits a subset of the cells, and differs from the
      test as written only on cells where the latter fails. */
  lemma CellAgree(name: string, week: int)
    ensures forall b, c :: CellStep(AdmitAsWritten, name, week, b, c).error.None? ==>
              CellStep(Admit, name, week, b, c) == CellStep(AdmitAsWritten, name, week, b, c)
    ensures forall b, c :: CellStep(Admit, name, week, b, c).error != Some(BadPick(NoImage))
  {
  }

  lemma RowAgree(idx: map<int, string>, week: int)
    ensures forall b, row :: RowPicks(AdmitAsWritten, idx, week, b, row).error.None? ==>
              RowPicks(Admit, idx, week, b, row) == RowPicks(AdmitAsWritten, idx, week, b, row)
    ensures forall b, row :: RowPicks(Admit, idx, week, b, row).error != Some(BadPick(NoImage))
  {
    forall b: Book, row: Row | row.dataIdx.Some? && ParseInt(row.dataIdx.value).Some?
                    && MappedTo(idx, b, ParseInt(row.dataIdx.value).value)
      ensures RowPicks(AdmitAsWritten, idx, week, b, row).error.None? ==>
                RowPicks(Admit, idx, week, b, row) == RowPicks(AdmitAsWritten, idx, week, b, row)
      ensures RowPicks(Admit, idx, week, b, row).error != Some(BadPick(NoImage))
    {
      var name := idx[ParseInt(row.dataIdx.value).value];
      var cells := FindAllTd(row.cells, PickCellMarker);
      CellAgree(name, week);
      FoldAgree(cells, b, CellStepFor(AdmitAsWritten, name, week), CellStepFor(Admit, name, week));
      FoldAvoids(cells, b, CellStepFor(Admit, name, week), BadPick(NoImage));
    }
  }

  lemma TableAgree(idx: map<int, string>, week: int)
    ensures forall b, t :: TablePicks(AdmitAsWritten, idx, week, b, t).error.None? ==>
              TablePicks(Admit, idx, week, b, t) == TablePicks(AdmitAsWritten, idx, week, b, t)
    ensures forall b, t :: TablePicks(Admit, idx, week, b, t).error != Some(BadPick(NoImage))
  {
    RowAgree(idx, week);
    forall b: Book, t: Table | IsPicksTable(t)
      ensures TablePicks(AdmitAsWritten, idx, week, b, t).error.None? ==>
                TablePicks(Admit, idx, week, b, t) == TablePicks(AdmitAsWritten, idx, week, b, t)
      ensures TablePicks(Admit, idx, week, b, t).error != Some(BadPick(NoImage))
    {
      FoldAgree(t.rows, b, RowStepFor(AdmitAsWritten, idx, week), RowStepFor(Admit, idx, week));
      FoldAvoids(t.rows, b, RowStepFor(Admit, idx, week), BadPick(NoImage));
    }
  }

  lemma SnapshotAgree(week: int)
    ensures forall b, snap :: SnapshotStep(AdmitAsWritten, week, b, snap).error.None? ==>
              SnapshotStep(Admit, week, b, snap) == SnapshotStep(AdmitAsWritten, week, b, snap)
    ensures forall b, snap :: SnapshotStep(Admit, week, b, snap).error != Some(BadPick(NoImage))
  {
    forall b: Book, snap: Snapshot
      ensures SnapshotStep(AdmitAsWritten, week, b, snap).error.None? ==>
                SnapshotStep(Admit, week, b, snap) == SnapshotStep(AdmitAsWritten, week, b, snap)
      ensures SnapshotStep(Admit, week, b, snap).error != Some(BadPick(NoImage))
    {
      var names := TeamNames(snap.tables, b);
      FoldAvoids(snap.tables, (map[], b), NamesTableStep, BadPick(NoImage)) by {
        forall st, t ensures NamesTableStep(st, t).error != Some(BadPick(NoImage)) {
          if IsEntriesTable(t) {
            FoldAvoids(HeaderSkipped(t.rows), st, NameStep, BadPick(NoImage));
          }
        }
      }
      if names.error.None? {
        TableAgree(names.state.0, week);
        FoldAgree(snap.tables, names.state.1, TableStepFor(AdmitAsWritten, names.state.0, week),
                  TableStepFor(Admit, names.state.0, week));
        FoldAvoids(snap.tables, names.state.1, TableStepFor(Admit, names.state.0, week), BadPick(NoImage));
      }
    }
  }

  lemma WeekAgree()
    ensures forall b, item :: WeekStep(AdmitAsWritten, b, item).error.None? ==>
              WeekStep(Admit, b, item) == WeekStep(AdmitAsWritten, b, item)
    ensures forall b, item :: WeekStep(Admit, b, item).error != Some(BadPick(NoImage))
  {
    forall b: Book, item: (int, seq<Snapshot>)
      ensures WeekStep(AdmitAsWritten, b, item).error.None? ==>
                WeekStep(Admit, b, item) == WeekStep(AdmitAsWritten, b, item)
      ensures WeekStep(Admit, b, item).error != Some(BadPick(NoImage))
    {
      SnapshotAgree(item.0);
      FoldAgree(item.1, b, SnapshotStepFor(AdmitAsWritten, item.0), SnapshotStepFor(Admit, item.0));
      FoldAvoids(item.1, b, SnapshotStepFor(Admit, item.0), BadPick(NoImage));
    }
  }

  /** Wherever the parse as written raises nothing, the corrected parse
      gives the same teams and picks; and the corrected parse never fails
      on a pick cell without an image. */
  lemma ParseSoupsAgree(weeks: WeekMap, b: Book)
    ensures ParseSoups(AdmitAsWritten, weeks, b).error.None? ==>
              ParseSoups(Admit, weeks, b) == ParseSoups(AdmitAsWritten, weeks, b)
    ensures ParseSoups(Admit, weeks, b).error != Some(BadPick(NoImage))
  {
    WeekAgree();
    FoldAgree(weeks, b, WeekStepFor(AdmitAsWritten), WeekStepFor(Admit));
    FoldAvoids(weeks, b, WeekStepFor(Admit), BadPick(NoImage));
  }

  // What reading the entries tables does to the teams.

  /** `b2` keeps every team of `b1` as it was, in the same order, and every
      team it adds comes new and empty, appended to the order. */
  predicate KeepsTeams(b1: Book, b2: Book) {
    && b1.order <= b2.order
    && (forall n :: n in b1.picks ==> n in b2.picks && b2.picks[n] == b1.picks[n])
    && (forall n :: n in b2.picks && n !in b1.picks ==> b2.picks[n] == EmptyWeeks())
    && (forall i :: |b1.order| <= i < |b2.order| ==> b2.order[i] in b2.picks && b2.order[i] !in b1.picks)
  }

  /** Reading team names never replaces or reorders a known team: a team
      is created only under a name not seen before, with an empty ledger. */
  lemma TeamNamesKeepTeams(tables: seq<Table>, b: Book)
    ensures KeepsTeams(b, Fold(tables, (map[], b), NamesTableStep).state.1)
  {
    var rel := (x: Names, y: Names) => KeepsTeams(x.1, y.1);
    forall st: Names, t: Table ensures rel(st, NamesTableStep(st, t).state) {
      if IsEntriesTable(t) {
        FoldMonotone(HeaderSkipped(t.rows), st, NameStep, rel);
      }
    }
    FoldMonotone(tables, (map[], b), NamesTableStep, rel);
  }

  // What reading the picks tables does to the teams.

  /** `b2` has the teams of `b1`, in the same order, each with the same
      weeks, and every week's list of `b1` is a prefix of that in `b2`. */
  predicate OnlyAppends(b1: Book, b2: Book) {
    && b1.order == b2.order
    && b1.picks.Keys == b2.picks.Keys
    && (forall n :: n in b1.picks ==> b1.picks[n].Keys == b2.picks[n].Keys)
    && (forall n, w :: n in b1.picks && w in b1.picks[n] ==> b1.picks[n][w] <= b2.picks[n][w])
  }

  /** Reading picks tables neither adds, removes nor reorders teams, and
      only appends to their weekly lists. */
  lemma PicksOnlyAppend(admit: Cell -> bool, tables: seq<Table>, idx: map<int, string>, week: int, b: Book)
    ensures OnlyAppends(b, Fold(tables, b, TableStepFor(admit, idx, week)).state)
  {
    var rel := (x: Book, y: Book) => OnlyAppends(x, y);
    forall a: Book, t: Table ensures rel(a, TableStepFor(admit, idx, week)(a, t).state) {
      if IsPicksTable(t) {
        FoldMonotone(t.rows, a, RowStepFor(admit, idx, week), rel);
      }
    }
    FoldMonotone(tables, b, TableStepFor(admit, idx, week), rel);
  }

  /** `b2` has every team of `b1`, in the same order, each with the same
      weeks, and every week's list of `b1` is a prefix of that in `b2`. */
  predicate Grows(b1: Book, b2: Book) {
    && b1.order <= b2.order
    && (forall n :: n in b1.picks ==> n in b2.picks && b1.picks[n].Keys == b2.picks[n].Keys)
    && (forall n, w :: n in b1.picks && w in b1.picks[n] ==> b1.picks[n][w] <= b2.picks[n][w])
  }

  /** Parsing all snapshots never drops or replaces a team and never
      removes a pick: it only adds teams and appends picks. */
  lemma ParseSoupsGrows(admit: Cell -> bool, weeks: WeekMap, b: Book)
    ensures Grows(b, Fold(weeks, b, WeekStepFor(admit)).state)
  {
    var rel := (x: Book, y: Book) => Grows(x, y);
    forall a: Book, item: (int, seq<Snapshot>) ensures rel(a, WeekStepFor(admit)(a, item).state) {
      FoldMonotone(item.1, a, SnapshotStepFor(admit, item.0), rel);
    }
    FoldMonotone(weeks, b, WeekStepFor(admit), rel);
  }

  // Which picks a row adds.

  /** The picks of the admitted cells that make a `Pick`, in cell order. */
  function AdmittedPicks(admit: Cell -> bool, cells: seq<Cell>): (r: seq<Pick>)
    ensures |r| <= |cells|
    decreases |cells|
  {
    if cells == [] then []
    else
      var earlier := AdmittedPicks(admit, cells[..|cells| - 1]);
      var c := cells[|cells| - 1];
      if admit(c) && NewPick(c).Success? then earlier + [NewPick(c).value] else earlier
  }

  /** Appending `ps` to week `week` of team `name`, when the team has it. */
  function AppendPicks(b: Book, name: string, week: int, ps: seq<Pick>): Book {
    if name in b.picks && week in b.picks[name] then
      Book(b.order, b.picks[name := b.picks[name][week := b.picks[name][week] + ps]])
    else b
  }

  /** The cells of a mapped row, one after another: the loop raises nothing
      exactly when every admitted cell makes a `Pick` and the week is in the
      team's ledger, and then it appends exactly the admitted cells' picks,
      in cell order, to that team's week. */
  lemma {:induction false} CellsAppend(admit: Cell -> bool, name: string, week: int, cells: seq<Cell>, b: Book)
    requires name in b.picks
    ensures var r := Fold(cells, b, CellStepFor(admit, name, week));
            && (r.error.None? <==>
                  forall c :: c in cells && admit(c) ==> NewPick(c).Success? && week in b.picks[name])
            && (r.error.None? ==> r.state == AppendPicks(b, name, week, AdmittedPicks(admit, cells)))
    decreases |cells|
  {
    var step := CellStepFor(admit, name, week);
    if cells == [] {
      if week in b.picks[name] {
        assert b.picks[name][week] + [] == b.picks[name][week];
        assert b.picks[name][week := b.picks[name][week]] == b.picks[name];
        assert b.picks[name := b.picks[name]] == b.picks;
      }
    } else {
      var init := cells[..|cells| - 1];
      var c := cells[|cells| - 1];
      CellsAppend(admit, name, week, init, b);
      assert forall x :: x in cells <==> x in init || x == c;
      var r0 := Fold(init, b, step);
      if r0.error.None? {
        var ps := AdmittedPicks(admit, init);
        if admit(c) && NewPick(c).Success? && week in b.picks[name] {
          var p := NewPick(c).value;
          var ledger := b.picks[name];
          assert ps + [p] == AdmittedPicks(admit, cells);
          assert r0.state.picks[name] == ledger[week := ledger[week] + ps];
          assert Fold(cells, b, step) == AddPick(r0.state, name, week, p);
          assert ledger[week] + ps + [p] == ledger[week] + (ps + [p]);
          var grown := ledger[week := ledger[week] + (ps + [p])];
          assert ledger[week := ledger[week] + ps][week := ledger[week] + ps + [p]] == grown;
          assert r0.state.picks[name := grown] == b.picks[name := grown];
        }
      }
    }
  }

  /** A row of a picks table whose index is mapped to a known team adds to
      that team's week exactly the picks of its pick cells that are not
      `noPick` and pass the admission test, in cell order; it raises
      exactly when one of those cells makes no `Pick` or the week is not in
      the ledger. */
  lemma MappedRowAddsPicks(admit: Cell -> bool, idx: map<int, string>, week: int, b: Book, row: Row, k: int)
    requires row.dataIdx.Some? && ParseInt(row.dataIdx.value) == Some(k) && MappedTo(idx, b, k)
    ensures var r := RowPicks(admit, idx, week, b, row);
            var cells := FindAllTd(row.cells, PickCellMarker);
            && (r.error.None? <==>
                  forall c :: c in cells && admit(c) ==> NewPick(c).Success? && week in b.picks[idx[k]])
            && (r.error.None? ==> r.state == AppendPicks(b, idx[k], week, AdmittedPicks(admit, cells)))
  {
    CellsAppend(admit, idx[k], week, FindAllTd(row.cells, PickCellMarker), b);
  }

  /** A row without `data-idx`, or whose index names no team, can be left
      out of a picks table without changing what the table does. */
  lemma UnmappedRowSkipped(admit: Cell -> bool, idx: map<int, string>, week: int, b: Book,
                           text: string, before: seq<Row>, row: Row, after: seq<Row>)
    requires row.dataIdx.None? ||
             (ParseInt(row.dataIdx.value).Some? &&
              (ParseInt(row.dataIdx.value).value !in idx || idx[ParseInt(row.dataIdx.value).value] == ""))
    ensures TablePicks(admit, idx, week, b, Table(text, before + [row] + after))
            == TablePicks(admit, idx, week, b, Table(text, before + after))
  {
    FoldSkip(before, row, after, b, RowStepFor(admit, idx, week));
  }

  /** A week with no snapshots can be left out of the map without changing
      the parse. */
  lemma EmptyWeekSkipped(admit: Cell -> bool, before: WeekMap, week: int, after: WeekMap, b: Book)
    ensures ParseSoups(admit, before + [(week, [])] + after, b) == ParseSoups(admit, before + after, b)
  {
    FoldSkip(before, (week, []), after, b, WeekStepFor(admit));
  }

  /** A snapshot without an entries table maps no index to a team, so it
      adds no team and no pick, whatever its picks tables hold. */
  lemma NoEntriesNoChange(admit: Cell -> bool, week: int, b: Book, snap: Snapshot)
    requires forall t :: t in snap.tables ==> !IsEntriesTable(t)
    ensures SnapshotStep(admit, week, b, snap).state == b
  {
    assert TeamNames(snap.tables, b) == Run((map[], b), None) by {
      NoEntriesIdle(snap.tables, b);
    }
    var same := (x: Book, y: Book) => x == y;
    forall a: Book, t: Table ensures same(a, TableStepFor(admit, map[], week)(a, t).state) {
      if IsPicksTable(t) {
        FoldMonotone(t.rows, a, RowStepFor(admit, map[], week), same);
      }
    }
    FoldMonotone(snap.tables, b, TableStepFor(admit, map[], week), same);
  }

  lemma {:induction false} NoEntriesIdle(tables: seq<Table>, b: Book)
    requires forall t :: t in tables ==> !IsEntriesTable(t)
    ensures TeamNames(tables, b) == Run((map[], b), None)
    decreases |tables|
  {
    if tables != [] {
      NoEntriesIdle(tables[..|tables| - 1], b);
    }
  }

  /** The rows `_parse_team_names` reads, in order: every entries table's
      rows from the third on. */
  function ScannedRows(tables: seq<Table>): seq<Row>
    decreases |tables|
  {
    if tables == [] then []
    else
      var t := tables[|tables| - 1];
      ScannedRows(tables[..|tables| - 1]) + (if IsEntriesTable(t) then HeaderSkipped(t.rows) else [])
  }

  lemma {:induction false} ScannedRowsAppend(a: seq<Table>, c: seq<Table>)
    ensures ScannedRows(a + c) == ScannedRows(a) + ScannedRows(c)
    decreases |c|
  {
    if c == [] {
      assert a + c == a;
    } else {
      ScannedRowsAppend(a, c[..|c| - 1]);
      assert (a + c)[..|a + c| - 1] == a + c[..|c| - 1];
    }
  }

  /** Reading the names table by table is one loop over the scanned rows. */
  lemma {:induction false} TeamNamesScan(tables: seq<Table>, st: Names)
    ensures Fold(tables, st, NamesTableStep) == Fold(ScannedRows(tables), st, NameStep)
    decreases |tables|
  {
    if tables != [] {
      var init := tables[..|tables| - 1];
      var t := tables[|tables| - 1];
      TeamNamesScan(init, st);
      var rows := if IsEntriesTable(t) then HeaderSkipped(t.rows) else [];
      FoldAppend(ScannedRows(init), rows, st, NameStep);
    }
  }

  /** No row of `rows` carries the integer `data-idx` `k`. */
  predicate NoIndex(rows: seq<Row>, k: int) {
    forall l :: 0 <= l < |rows| ==> rows[l].dataIdx.None? || ParseInt(rows[l].dataIdx.value) != Some(k)
  }

  /** After a loop over rows that raises nothing and none of which has
      index `k`, `k` still maps to what it mapped to. */
  lemma {:induction false} IndexKept(rows: seq<Row>, st: Names, k: int)
    requires k in st.0 && NoIndex(rows, k)
    requires Fold(rows, st, NameStep).error.None?
    ensures k in Fold(rows, st, NameStep).state.0 && Fold(rows, st, NameStep).state.0[k] == st.0[k]
    decreases |rows|
  {
    if rows != [] {
      var init := rows[..|rows| - 1];
      assert forall l :: 0 <= l < |init| ==> init[l] == rows[l];
      IndexKept(init, st, k);
    }
  }

  /** A row of an entries table, from the third row on, that carries an
      integer `data-idx` `k` and a team name: when reading the names raises
      nothing, that team is registered at the end, and `k` maps to the name
      unless a later row read carries index `k` too. */
  lemma EntriesRowRegistered(before: seq<Table>, t: Table, after: seq<Table>, b: Book, ri: int, k: int, name: string)
    requires IsEntriesTable(t) && 2 <= ri < |t.rows|
    requires t.rows[ri].dataIdx.Some? && ParseInt(t.rows[ri].dataIdx.value) == Some(k)
    requires RowName(t.rows[ri]) == Some(name)
    requires TeamNames(before + [t] + after, b).error.None?
    ensures name in TeamNames(before + [t] + after, b).state.1.picks
    ensures NoIndex(t.rows[ri + 1..] + ScannedRows(after), k) ==>
              k in TeamNames(before + [t] + after, b).state.0 &&
              TeamNames(before + [t] + after, b).state.0[k] == name
  {
    var tables := before + [t] + after;
    ScannedRowsAround(before, t, after, ri);
    TeamNamesScan(tables, (map[], b));
    RowRead(ScannedRows(before) + t.rows[2..ri], t.rows[ri], t.rows[ri + 1..] + ScannedRows(after), (map[], b), k, name);
  }

  lemma ScannedRowsAround(before: seq<Table>, t: Table, after: seq<Table>, ri: int)
    requires IsEntriesTable(t) && 2 <= ri < |t.rows|
    ensures ScannedRows(before + [t] + after) ==
              (ScannedRows(before) + t.rows[2..ri]) + [t.rows[ri]] + (t.rows[ri + 1..] + ScannedRows(after))
  {
    var a, c := ScannedRows(before), ScannedRows(after);
    var x, r, y := t.rows[2..ri], t.rows[ri], t.rows[ri + 1..];
    assert ScannedRows([t]) == x + [r] + y by {
      assert [t][..0] == [];
      assert t.rows[2..] == x + [r] + y;
    }
    assert ScannedRows(before + [t]) == a + (x + [r] + y) by {
      ScannedRowsAppend(before, [t]);
    }
    assert ScannedRows(before + [t] + after) == a + (x + [r] + y) + c by {
      ScannedRowsAppend(before + [t], after);
    }
    assert a + (x + [r] + y) + c == (a + x) + [r] + (y + c);
  }

  /** A row with a readable index `k` and a name registers that name under `k`. */
  lemma NameStepNamed(st: Names, row: Row, k: int, name: string)
    requires row.dataIdx.Some? && ParseInt(row.dataIdx.value) == Some(k) && RowName(row) == Some(name)
    ensures NameStep(st, row) == Run((st.0[k := name], Register(st.1, name)), None)
  {
  }

  /** Scanning `p + [row] + q` is scanning `q` from the state just after
      `row` registered its name. */
  lemma FoldThroughRow(p: seq<Row>, row: Row, q: seq<Row>, start: Names, k: int, name: string)
    requires row.dataIdx.Some? && ParseInt(row.dataIdx.value) == Some(k) && RowName(row) == Some(name)
    requires Fold(p + [row] + q, start, NameStep).error.None?
    ensures var r1 := Fold(p, start, NameStep);
            Fold(p + [row] + q, start, NameStep) ==
              Fold(q, (r1.state.0[k := name], Register(r1.state.1, name)), NameStep)
  {
    var r1 := Fold(p, start, NameStep);
    FoldAppend(p + [row], q, start, NameStep);
    FoldAppend(p, [row], start, NameStep);
    assert r1.error.None?;
    assert [row][..0] == [];
    NameStepNamed(r1.state, row, k, name);
  }

  /** The same for one row of the scanned rows `p + [row] + q`. */
  lemma RowRead(p: seq<Row>, row: Row, q: seq<Row>, start: Names, k: int, name: string)
    requires row.dataIdx.Some? && ParseInt(row.dataIdx.value) == Some(k) && RowName(row) == Some(name)
    requires Fold(p + [row] + q, start, NameStep).error.None?
    ensures name in Fold(p + [row] + q, start, NameStep).state.1.picks
    ensures NoIndex(q, k) ==>
              k in Fold(p + [row] + q, start, NameStep).state.0 &&
              Fold(p + [row] + q, start, NameStep).state.0[k] == name
  {
    var r1 := Fold(p, start, NameStep);
    var mid := (r1.state.0[k := name], Register(r1.state.1, name));
    var all := Fold(p + [row] + q, start, NameStep);
    FoldThroughRow(p, row, q, start, k, name);
    assert name in all.state.1.picks by {
      var rel := (x: Names, y: Names) => KeepsTeams(x.1, y.1);
        FoldMonotone(q, mid, NameStep, rel);
    }
    if NoIndex(q, k) {
      IndexKept(q, mid, k);
    }
  }

  /** Every team's ledger holds exactly weeks 1..18. */
  ghost predicate LedgersHoldWeeks(b: Book) {
    forall n, w :: n in b.picks ==> (w in b.picks[n] <==> IsWeek(w))
  }

  /** Parsing keeps every ledger at weeks 1..18: known teams keep their
      weeks and new teams start with all of them. */
  lemma ParseSoupsKeepsWeeks(admit: Cell -> bool, weeks: WeekMap, b: Book)
    requires LedgersHoldWeeks(b)
    ensures LedgersHoldWeeks(ParseSoups(admit, weeks, b).state)
  {
    var rel := (x: Book, y: Book) => LedgersHoldWeeks(x) ==> LedgersHoldWeeks(y);
    forall a: Book, snap: Snapshot, week: int ensures rel(a, SnapshotStep(admit, week, a, snap).state) {
      TeamNamesKeepTeams(snap.tables, a);
      var names := TeamNames(snap.tables, a);
      if names.error.None? {
        PicksOnlyAppend(admit, snap.tables, names.state.0, week, names.state.1);
      }
    }
    forall a: Book, item: (int, seq<Snapshot>) ensures rel(a, WeekStepFor(admit)(a, item).state) {
      FoldMonotone(item.1, a, SnapshotStepFor(admit, item.0), rel);
    }
    FoldMonotone(weeks, b, WeekStepFor(admit), rel);
  }
}
