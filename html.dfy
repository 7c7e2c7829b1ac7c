/** The parsed snapshot of one results page, as the scraper queries it through
    BeautifulSoup. Only what the scraper reads is kept: every table with its
    text and rows, every row with its optional `data-idx` attribute and its
    cells, and every cell with its class list, the classes found on elements
    inside it, its anchors and its images, each in document order. */
module Html {
  import opened Wrappers
  import opened Text

  /** An `<img>` element; `alt` is absent when the attribute is missing. */
  datatype Image = Image(alt: Option<string>)

  /** An `<a>` element with its class list and its text. */
  datatype Anchor = Anchor(classes: seq<string>, text: string)

  datatype CellTag = Td | Th

  /** A table cell: `classes` is its `class` attribute (empty when absent),
      `innerClasses` the classes carried by elements nested inside it. */
  datatype Cell = Cell(
    tag: CellTag,
    classes: seq<string>,
    innerClasses: set<string>,
    anchors: seq<Anchor>,
    images: seq<Image>)

  datatype Row = Row(dataIdx: Option<string>, cells: seq<Cell>)

  /** A `<table>`: `text` is its `.text`, `rows` every `<tr>` inside it. */
  datatype Table = Table(text: string, rows: seq<Row>)

  /** `soup.find_all("table")` of one captured page. */
  datatype Snapshot = Snapshot(tables: seq<Table>)

  /** A class filter given as a function `lambda x: x and marker in x`:
      true when some class of the element contains `marker`. */
  predicate ClassContains(classes: seq<string>, marker: string) {
    exists i :: 0 <= i < |classes| && Contains(classes[i], marker)
  }

  /** Whether a cell is a `<td>` whose classes contain `marker`. */
  predicate IsMarkedTd(c: Cell, marker: string) {
    c.tag == Td && ClassContains(c.classes, marker)
  }

  function MarkedTd(marker: string): Cell -> bool {
    c => IsMarkedTd(c, marker)
  }

  /** None of the first `n` cells is a `<td>` whose classes contain `marker`. */
  predicate NoTdBefore(cells: seq<Cell>, marker: string, n: int)
    requires 0 <= n <= |cells|
  {
    forall j :: 0 <= j < n ==> !IsMarkedTd(cells[j], marker)
  }

  /** None of the first `n` anchors carries class `cls`. */
  predicate NoAnchorBefore(anchors: seq<Anchor>, cls: string, n: int)
    requires 0 <= n <= |anchors|
  {
    forall j :: 0 <= j < n ==> cls !in anchors[j].classes
  }

  /** `row.find("td", {"class": lambda x: x and marker in x})`: the first
      `<td>` whose classes contain `marker`. */
  function FindTd(cells: seq<Cell>, marker: string): (r: Option<Cell>)
    ensures r.Some? ==> r.value.tag == Td && ClassContains(r.value.classes, marker)
    ensures r.Some? ==> exists i :: 0 <= i < |cells| && cells[i] == r.value && NoTdBefore(cells, marker, i)
    ensures r.None? ==> NoTdBefore(cells, marker, |cells|)
  {
    if cells == [] then None
    else if cells[0].tag == Td && ClassContains(cells[0].classes, marker) then Some(cells[0])
    else FindTd(cells[1..], marker)
  }

  /** `cell.find("a", {"class": cls})`: the first anchor carrying class `cls`. */
  function FindAnchor(anchors: seq<Anchor>, cls: string): (r: Option<Anchor>)
    ensures r.Some? ==> cls in r.value.classes
    ensures r.Some? ==> exists i :: 0 <= i < |anchors| && anchors[i] == r.value && NoAnchorBefore(anchors, cls, i)
    ensures r.None? ==> NoAnchorBefore(anchors, cls, |anchors|)
  {
    if anchors == [] then None
    else if cls in anchors[0].classes then Some(anchors[0])
    else FindAnchor(anchors[1..], cls)
  }

  /** `row.find_all("td", {"class": lambda x: x and marker in x})`: every
      `<td>` whose classes contain `marker`, in document order. */
  function FindAllTd(cells: seq<Cell>, marker: string): (r: seq<Cell>)
    ensures forall c :: multiset(r)[c] == if IsMarkedTd(c, marker) then multiset(cells)[c] else 0
    ensures |r| <= |cells|
  {
    if cells == [] then []
    else
      var init := cells[..|cells| - 1];
      var earlier := FindAllTd(init, marker);
      var c := cells[|cells| - 1];
      assert cells == init + [c];
      if IsMarkedTd(c, marker) then earlier + [c] else earlier
  }

  /** `r` lists elements of `xs` at the strictly increasing positions
      `idx`, and those positions are exactly the ones `keep` holds for. */
  ghost predicate SelectedAt<T>(xs: seq<T>, keep: T -> bool, r: seq<T>, idx: seq<int>) {
    && |idx| == |r|
    && (forall k :: 0 <= k < |idx| ==> 0 <= idx[k] < |xs| && xs[idx[k]] == r[k])
    && (forall k, l :: 0 <= k < l < |idx| ==> idx[k] < idx[l])
    && (forall k :: 0 <= k < |idx| ==> keep(r[k]))
    && (forall i :: 0 <= i < |xs| && keep(xs[i]) ==> i in idx)
  }

  /** `find_all` keeps the marked cells in document order: the result is
      the marked `<td>` cells taken at increasing positions, every one of
      them. */
  lemma {:induction false} FindAllTdInOrder(cells: seq<Cell>, marker: string)
    ensures exists idx :: SelectedAt(cells, MarkedTd(marker), FindAllTd(cells, marker), idx)
    decreases |cells|
  {
    var keep := MarkedTd(marker);
    if cells == [] {
      assert FindAllTd(cells, marker) == [];
      assert SelectedAt(cells, keep, [], []);
    } else {
      var init := cells[..|cells| - 1];
      var c := cells[|cells| - 1];
      assert cells == init + [c];
      var r := FindAllTd(init, marker);
      assert FindAllTd(cells, marker) == if keep(c) then r + [c] else r;
      FindAllTdInOrder(init, marker);
      var idx :| SelectedAt(init, keep, r, idx);
      var idx' := SelectedExtend(init, c, keep, r, idx);
    }
  }

  /** One element more: the positions extend by the new element's when
      `keep` holds for it. */
  lemma SelectedExtend<T>(init: seq<T>, c: T, keep: T -> bool, r: seq<T>, idx: seq<int>) returns (idx': seq<int>)
    requires SelectedAt(init, keep, r, idx)
    ensures SelectedAt(init + [c], keep, if keep(c) then r + [c] else r, idx')
  {
    var xs := init + [c];
    var n := |init|;
    if keep(c) {
      idx' := idx + [n];
      var r' := r + [c];
      forall k | 0 <= k < |idx'| ensures 0 <= idx'[k] < |xs| && xs[idx'[k]] == r'[k] {
        if k < |idx| {
          assert xs[idx[k]] == init[idx[k]];
        }
      }
      forall i | 0 <= i < |xs| && keep(xs[i]) ensures i in idx' {
        if i < n {
          assert xs[i] == init[i];
          assert i in idx;
        } else {
          assert idx'[|idx|] == i;
        }
      }
    } else {
      idx' := idx;
      forall k | 0 <= k < |idx| ensures 0 <= idx[k] < |xs| && xs[idx[k]] == r[k] {
        assert xs[idx[k]] == init[idx[k]];
      }
      forall i | 0 <= i < |xs| && keep(xs[i]) ensures i in idx {
        assert i < n;
        assert xs[i] == init[i];
      }
    }
  }
}
