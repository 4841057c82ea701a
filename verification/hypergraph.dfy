/**
 * The circuit hypergraph of the two-way partitioner and the token-level parser
 * that builds it (`Partitioner::parseInput`).
 *
 * Cells and nets live in two arenas indexed by their construction ids. A cell
 * keeps the ids of the nets it is on, one entry per recorded pin, and a net keeps
 * the ids of its cells, one entry per recorded pin; the two lists always agree
 * pin for pin (`Valid`).
 */
module Hypergraph {
  import opened Arena

  datatype Cell = Cell(name: string, nets: seq<nat>, pinNum: nat)

  datatype Net = Net(name: string, cells: seq<nat>)

  datatype Graph = Graph(
    cells: seq<Cell>,
    nets: seq<Net>,
    cellIds: map<string, nat>,
    netIds: map<string, nat>)

  /** The token that opens a net record. */
  const NetKeyword: string := "NET"
  /** The token that closes a net record. */
  const RecordEnd: string := ";"

  /** The arenas are consistent: ids in range, pin counts match, incidences agree both ways, names resolve. */
  ghost predicate Valid(g: Graph) {
    && (forall c | 0 <= c < |g.cells| :: Below(g.cells[c].nets, |g.nets|))
    && (forall n | 0 <= n < |g.nets| :: Below(g.nets[n].cells, |g.cells|))
    && (forall c | 0 <= c < |g.cells| :: g.cells[c].pinNum == |g.cells[c].nets|)
    && (forall c, n | 0 <= c < |g.cells| && 0 <= n < |g.nets| ::
          Occ(g.nets[n].cells, c) == Occ(g.cells[c].nets, n))
    && (forall name | name in g.cellIds ::
          g.cellIds[name] < |g.cells| && g.cells[g.cellIds[name]].name == name)
    && (forall c | 0 <= c < |g.cells| :: g.cells[c].name in g.cellIds && g.cellIds[g.cells[c].name] == c)
    && (forall name | name in g.netIds :: g.netIds[name] < |g.nets| && g.nets[g.netIds[name]].name == name)
  }

  /** Every net lists each of its cells at most once. */
  ghost predicate DupFree(g: Graph) {
    forall n | 0 <= n < |g.nets| :: Distinct(g.nets[n].cells)
  }

  /** The cell-name lookup only ever points into the cell arena. */
  predicate IdsInRange(g: Graph) {
    forall name | name in g.cellIds :: g.cellIds[name] < |g.cells|
  }

  function Empty(): (g: Graph)
    ensures Valid(g)
  {
    Graph([], [], map[], map[])
  }

  /** Records one pin: cell `c` on net `n` (`addNet`, `incPinNum` and `addCell` together). */
  function AddPin(g: Graph, c: nat, n: nat): (r: Graph)
    requires c < |g.cells| && n < |g.nets|
    ensures |r.cells| == |g.cells| && |r.nets| == |g.nets|
    ensures r.cellIds == g.cellIds && r.netIds == g.netIds
    ensures r.nets[n].cells == g.nets[n].cells + [c]
    ensures r.cells[c].nets == g.cells[c].nets + [n]
    ensures r.cells[c].pinNum == g.cells[c].pinNum + 1
    ensures forall m | 0 <= m < |g.nets| && m != n :: r.nets[m] == g.nets[m]
    ensures forall d | 0 <= d < |g.cells| && d != c :: r.cells[d] == g.cells[d]
    ensures forall m | 0 <= m < |g.nets| :: r.nets[m].name == g.nets[m].name
    ensures forall d | 0 <= d < |g.cells| :: r.cells[d].name == g.cells[d].name
  {
    var cell := g.cells[c];
    var net := g.nets[n];
    g.(cells := g.cells[c := cell.(nets := cell.nets + [n], pinNum := cell.pinNum + 1)],
       nets := g.nets[n := net.(cells := net.cells + [c])])
  }

  lemma AddPinValid(g: Graph, c: nat, n: nat)
    requires Valid(g) && c < |g.cells| && n < |g.nets|
    ensures Valid(AddPin(g, c, n))
  {
    AddPinOccAll(g, c, n);
    AddPinBelow(g, c, n);
  }

  /** A pin on existing ids keeps every id list within range and every cell named in the table. */
  lemma AddPinBelow(g: Graph, c: nat, n: nat)
    requires Valid(g) && c < |g.cells| && n < |g.nets|
    ensures var r := AddPin(g, c, n);
      && (forall d | 0 <= d < |r.cells| :: Below(r.cells[d].nets, |r.nets|))
      && (forall m | 0 <= m < |r.nets| :: Below(r.nets[m].cells, |r.cells|))
      && (forall d | 0 <= d < |r.cells| :: r.cells[d].name in r.cellIds && r.cellIds[r.cells[d].name] == d)
  {
    var r := AddPin(g, c, n);
    forall d | 0 <= d < |r.cells|
      ensures Below(r.cells[d].nets, |r.nets|)
    {
      assert Below(g.cells[d].nets, |g.nets|);
    }
    forall m | 0 <= m < |r.nets|
      ensures Below(r.nets[m].cells, |r.cells|)
    {
      assert Below(g.nets[m].cells, |g.cells|);
    }
    forall d | 0 <= d < |r.cells|
      ensures r.cells[d].name in r.cellIds && r.cellIds[r.cells[d].name] == d
    {
      assert g.cellIds[g.cells[d].name] == d;
    }
  }

  /** A pin recorded on both sides keeps every cell's count on every net equal to the net's count of the cell. */
  lemma AddPinOccAll(g: Graph, c: nat, n: nat)
    requires c < |g.cells| && n < |g.nets|
    requires forall d, m | 0 <= d < |g.cells| && 0 <= m < |g.nets| :: Occ(g.nets[m].cells, d) == Occ(g.cells[d].nets, m)
    ensures var r := AddPin(g, c, n);
      forall d, m | 0 <= d < |r.cells| && 0 <= m < |r.nets| :: Occ(r.nets[m].cells, d) == Occ(r.cells[d].nets, m)
  {
    var r := AddPin(g, c, n);
    forall d, m | 0 <= d < |r.cells| && 0 <= m < |r.nets|
      ensures Occ(r.nets[m].cells, d) == Occ(r.cells[d].nets, m)
    {
      AddPinOcc(g, c, n, d, m);
    }
  }

  lemma AddPinOcc(g: Graph, c: nat, n: nat, d: nat, m: nat)
    requires c < |g.cells| && n < |g.nets| && d < |g.cells| && m < |g.nets|
    requires Occ(g.nets[m].cells, d) == Occ(g.cells[d].nets, m)
    ensures var r := AddPin(g, c, n); Occ(r.nets[m].cells, d) == Occ(r.cells[d].nets, m)
  {
    var r := AddPin(g, c, n);
    if m == n {
      assert multiset(r.nets[m].cells) == multiset(g.nets[m].cells) + multiset{c};
    }
    if d == c {
      assert multiset(r.cells[d].nets) == multiset(g.cells[d].nets) + multiset{n};
    }
  }

  /** A first-seen cell name: a new cell with the next id, then its first pin on net `n`. */
  function NewCell(g: Graph, name: string, n: nat): (r: Graph)
    requires n < |g.nets|
    ensures |r.cells| == |g.cells| + 1 && |r.nets| == |g.nets|
    ensures r.cellIds == g.cellIds[name := |g.cells|] && r.netIds == g.netIds
    ensures r.nets[n].cells == g.nets[n].cells + [|g.cells|]
    ensures forall m | 0 <= m < |g.nets| && m != n :: r.nets[m] == g.nets[m]
    ensures forall m | 0 <= m < |g.nets| :: r.nets[m].name == g.nets[m].name
  {
    var id := |g.cells|;
    var g1 := g.(cells := g.cells + [Cell(name, [], 0)], cellIds := g.cellIds[name := id]);
    AddPin(g1, id, n)
  }

  lemma NewCellValid(g: Graph, name: string, n: nat)
    requires Valid(g) && n < |g.nets| && name !in g.cellIds
    ensures Valid(NewCell(g, name, n))
  {
    var id := |g.cells|;
    var g1 := g.(cells := g.cells + [Cell(name, [], 0)], cellIds := g.cellIds[name := id]);
    forall d, m | 0 <= d < |g1.cells| && 0 <= m < |g1.nets|
      ensures Occ(g1.nets[m].cells, d) == Occ(g1.cells[d].nets, m)
    {
      if d < |g.cells| {
        assert Occ(g.nets[m].cells, d) == Occ(g.cells[d].nets, m);
      } else {
        assert Below(g.nets[m].cells, |g.cells|);
        assert d !in g.nets[m].cells;
      }
    }
    forall m | 0 <= m < |g1.nets|
      ensures Below(g1.nets[m].cells, |g1.cells|)
    {
      assert Below(g.nets[m].cells, |g.cells|);
    }
    forall d | 0 <= d < |g1.cells|
      ensures Below(g1.cells[d].nets, |g1.nets|)
    {
      if d < |g.cells| {
        assert Below(g.cells[d].nets, |g.nets|);
      }
    }
    forall d | 0 <= d < |g1.cells|
      ensures g1.cells[d].name in g1.cellIds && g1.cellIds[g1.cells[d].name] == d
    {
      if d < |g.cells| {
        assert g.cellIds[g.cells[d].name] == d;
      }
    }
    assert Valid(g1);
    AddPinValid(g1, id, n);
  }

  /** Index of the first record terminator at or after `i`, or the end of the tokens. */
  function NamesEnd(toks: seq<string>, i: nat): (e: nat)
    requires i <= |toks|
    ensures i <= e <= |toks|
    ensures forall k | i <= k < e :: toks[k] != RecordEnd
    ensures e < |toks| ==> toks[e] == RecordEnd
    decreases |toks| - i
  {
    if i == |toks| || toks[i] == RecordEnd then i else NamesEnd(toks, i + 1)
  }

  /**
   * The cell-name loop of one net record, from token `i` on, for net `nid`;
   * `last` is the name most recently added to this record ("" at its start).
   * Returns the graph and the index just past the record.
   */
  function ParseCells(toks: seq<string>, i: nat, g: Graph, nid: nat, last: string): (r: (Graph, nat))
    requires i <= |toks| && nid < |g.nets| && IdsInRange(g)
    ensures IdsInRange(r.0)
    ensures r.1 == (var e := NamesEnd(toks, i); if e < |toks| then e + 1 else e)
    ensures |r.0.nets| == |g.nets| && |r.0.cells| >= |g.cells|
    decreases |toks| - i
  {
    if i == |toks| then (g, i)
    else if toks[i] == RecordEnd then (g, i + 1)
    else if toks[i] !in g.cellIds then ParseCells(toks, i + 1, NewCell(g, toks[i], nid), nid, toks[i])
    else if toks[i] != last then ParseCells(toks, i + 1, AddPin(g, g.cellIds[toks[i]], nid), nid, toks[i])
    else ParseCells(toks, i + 1, g, nid, last)
  }

  /** The cell-name loop touches only its own net, and never renames or re-numbers anything. */
  lemma {:induction false} ParseCellsFrame(toks: seq<string>, i: nat, g: Graph, nid: nat, last: string)
    requires i <= |toks| && nid < |g.nets| && IdsInRange(g)
    ensures var r := ParseCells(toks, i, g, nid, last).0;
            && (forall m | 0 <= m < |g.nets| && m != nid :: r.nets[m] == g.nets[m])
            && (forall m | 0 <= m < |g.nets| :: r.nets[m].name == g.nets[m].name)
            && (forall name | name in g.cellIds :: name in r.cellIds && r.cellIds[name] == g.cellIds[name])
            && r.netIds == g.netIds
    decreases |toks| - i
  {
    if i == |toks| || toks[i] == RecordEnd {
    } else if toks[i] !in g.cellIds {
      ParseCellsFrame(toks, i + 1, NewCell(g, toks[i], nid), nid, toks[i]);
    } else if toks[i] != last {
      ParseCellsFrame(toks, i + 1, AddPin(g, g.cellIds[toks[i]], nid), nid, toks[i]);
    } else {
      ParseCellsFrame(toks, i + 1, g, nid, last);
    }
  }

  lemma {:induction false} ParseCellsValid(toks: seq<string>, i: nat, g: Graph, nid: nat, last: string)
    requires i <= |toks| && nid < |g.nets| && IdsInRange(g)
    requires Valid(g)
    ensures Valid(ParseCells(toks, i, g, nid, last).0)
    decreases |toks| - i
  {
    if i == |toks| || toks[i] == RecordEnd {
    } else if toks[i] !in g.cellIds {
      NewCellValid(g, toks[i], nid);
      ParseCellsValid(toks, i + 1, NewCell(g, toks[i], nid), nid, toks[i]);
    } else if toks[i] != last {
      AddPinValid(g, g.cellIds[toks[i]], nid);
      ParseCellsValid(toks, i + 1, AddPin(g, g.cellIds[toks[i]], nid), nid, toks[i]);
    } else {
      ParseCellsValid(toks, i + 1, g, nid, last);
    }
  }

  /** Opens a new net named `name` with no cells yet. */
  function OpenNet(g: Graph, name: string): (r: Graph)
    ensures |r.nets| == |g.nets| + 1 && r.nets[|g.nets|] == Net(name, [])
    ensures r.cells == g.cells && r.cellIds == g.cellIds
    ensures forall m | 0 <= m < |g.nets| :: r.nets[m] == g.nets[m]
  {
    g.(nets := g.nets + [Net(name, [])], netIds := g.netIds[name := |g.nets|])
  }

  lemma OpenNetValid(g: Graph, name: string)
    requires Valid(g)
    ensures Valid(OpenNet(g, name))
  {
    var r := OpenNet(g, name);
    forall c | 0 <= c < |g.cells| ensures Below(r.cells[c].nets, |r.nets|) {
      assert Below(g.cells[c].nets, |g.nets|);
    }
    forall c, n | 0 <= c < |r.cells| && 0 <= n < |r.nets|
      ensures Occ(r.nets[n].cells, c) == Occ(r.cells[c].nets, n)
    {
      if n < |g.nets| {
        assert Occ(g.nets[n].cells, c) == Occ(g.cells[c].nets, n);
      } else {
        assert Below(g.cells[c].nets, |g.nets|);
        assert n !in g.cells[c].nets;
      }
    }
  }

  /** The record loop of `parseInput`, from token `i` on. */
  function ParseFrom(toks: seq<string>, i: nat, g: Graph): (r: Graph)
    requires IdsInRange(g)
    ensures IdsInRange(r)
    ensures |r.nets| >= |g.nets|
    decreases |toks| - i
  {
    if i >= |toks| then g
    else if toks[i] != NetKeyword then ParseFrom(toks, i + 1, g)
    else
      var name := if i + 1 < |toks| then toks[i + 1] else "";
      var start := if i + 2 < |toks| then i + 2 else |toks|;
      var r := ParseCells(toks, start, OpenNet(g, name), |g.nets|, "");
      ParseFrom(toks, r.1, r.0)
  }

  /** Later records append nets and cells but leave earlier nets and names as they were. */
  lemma {:induction false} ParseFromFrame(toks: seq<string>, i: nat, g: Graph)
    requires IdsInRange(g)
    ensures var r := ParseFrom(toks, i, g);
            && (forall m | 0 <= m < |g.nets| :: r.nets[m] == g.nets[m])
            && (forall name | name in g.cellIds :: name in r.cellIds && r.cellIds[name] == g.cellIds[name])
    decreases |toks| - i
  {
    if i >= |toks| {
    } else if toks[i] != NetKeyword {
      ParseFromFrame(toks, i + 1, g);
    } else {
      var name := if i + 1 < |toks| then toks[i + 1] else "";
      var start := if i + 2 < |toks| then i + 2 else |toks|;
      var g1 := OpenNet(g, name);
      ParseCellsFrame(toks, start, g1, |g.nets|, "");
      var r := ParseCells(toks, start, g1, |g.nets|, "");
      ParseFromFrame(toks, r.1, r.0);
    }
  }

  lemma {:induction false} ParseFromValid(toks: seq<string>, i: nat, g: Graph)
    requires IdsInRange(g) && Valid(g)
    ensures Valid(ParseFrom(toks, i, g))
    decreases |toks| - i
  {
    if i >= |toks| {
    } else if toks[i] != NetKeyword {
      ParseFromValid(toks, i + 1, g);
    } else {
      var name := if i + 1 < |toks| then toks[i + 1] else "";
      var start := if i + 2 < |toks| then i + 2 else |toks|;
      var g1 := OpenNet(g, name);
      OpenNetValid(g, name);
      ParseCellsValid(toks, start, g1, |g.nets|, "");
      var r := ParseCells(toks, start, g1, |g.nets|, "");
      ParseFromValid(toks, r.1, r.0);
    }
  }

  /**
   * `parseInput` over the whitespace-separated tokens of the input. The first
   * token is the balance factor, which the caller converts; the hypergraph is
   * built from the tokens after it.
   */
  function ParseInput(toks: seq<string>): (g: Graph)
    ensures Valid(g)
  {
    ParseFromValid(toks, 1, Empty());
    ParseFrom(toks, 1, Empty())
  }

  /** The names of a record with every name equal to its immediate predecessor dropped. */
  function Collapse(names: seq<string>): seq<string> {
    if |names| <= 1 then names
    else if names[|names| - 1] == names[|names| - 2] then Collapse(names[..|names| - 1])
    else Collapse(names[..|names| - 1]) + [names[|names| - 1]]
  }

  /** Resolves names to cell ids (a name the lookup lacks resolves to 0). */
  function Ids(m: map<string, nat>, names: seq<string>): (r: seq<nat>)
    ensures |r| == |names|
  {
    if names == [] then []
    else
      var name := names[|names| - 1];
      Ids(m, names[..|names| - 1]) + [if name in m then m[name] else 0]
  }

  lemma {:induction false} IdsStable(m: map<string, nat>, m': map<string, nat>, names: seq<string>)
    requires forall name | name in names :: name in m
    requires forall name | name in m :: name in m' && m'[name] == m[name]
    ensures Ids(m', names) == Ids(m, names)
    decreases |names|
  {
    if names != [] {
      IdsStable(m, m', names[..|names| - 1]);
    }
  }

  lemma {:induction false} CollapseElements(names: seq<string>)
    ensures forall x | x in Collapse(names) :: x in names
    decreases |names|
  {
    if |names| > 1 {
      var front := names[..|names| - 1];
      CollapseElements(front);
      assert forall x | x in front :: x in names;
    }
  }

  /** One more name on the right: it is dropped exactly when it repeats the previous name. */
  lemma CollapseSnoc(names: seq<string>, x: string)
    ensures Collapse(names + [x]) ==
      if |names| > 0 && names[|names| - 1] == x then Collapse(names) else Collapse(names) + [x]
  {
    assert (names + [x])[..|names|] == names;
  }

  /** The graph and last name after the cell-name loop handles token `i` (not a terminator). */
  function CellStep(toks: seq<string>, i: nat, g: Graph, nid: nat, last: string): (r: (Graph, string))
    requires i < |toks| && nid < |g.nets| && IdsInRange(g)
  {
    var x := toks[i];
    if x !in g.cellIds then (NewCell(g, x, nid), x)
    else if x != last then (AddPin(g, g.cellIds[x], nid), x)
    else (g, last)
  }

  lemma CellStepUnfold(toks: seq<string>, i: nat, g: Graph, nid: nat, last: string)
    requires i < |toks| && toks[i] != RecordEnd && nid < |g.nets| && IdsInRange(g)
    ensures var s := CellStep(toks, i, g, nid, last); var g1, last1 := s.0, s.1;
            IdsInRange(g1) && nid < |g1.nets| &&
            ParseCells(toks, i, g, nid, last) == ParseCells(toks, i + 1, g1, nid, last1)
  {
  }

  /** The invariant of the cell-name loop: the net holds the collapsed names seen so far. */
  ghost predicate Collapsed(toks: seq<string>, start: nat, i: nat, g: Graph, nid: nat, last: string, base: seq<nat>)
    requires start <= i <= |toks| && nid < |g.nets|
  {
    && (forall k | start <= k < i :: toks[k] != RecordEnd && toks[k] in g.cellIds)
    && last == (if i == start then "" else toks[i - 1])
    && g.nets[nid].cells == base + Ids(g.cellIds, Collapse(toks[start..i]))
  }

  /** Appending a known name to a list of known names appends its id. */
  lemma IdsSnoc(m: map<string, nat>, names: seq<string>, x: string)
    requires x in m
    ensures Ids(m, names + [x]) == Ids(m, names) + [m[x]]
  {
    assert (names + [x])[..|names|] == names;
  }

  /**
   * One name `x` after the names `seen` of a record: the net gains the id of
   * `x` exactly when `x` differs from the previous name.
   */
  lemma CollapseStep(seen: seq<string>, x: string, m: map<string, nat>, m': map<string, nat>,
                     cells: seq<nat>, base: seq<nat>)
    requires x != "" && x in m'
    requires forall name | name in seen :: name in m
    requires forall name | name in m :: name in m' && m'[name] == m[name]
    requires cells == base + Ids(m, Collapse(seen))
    ensures var last := if seen == [] then "" else seen[|seen| - 1];
            (if x != last then cells + [m'[x]] else cells) == base + Ids(m', Collapse(seen + [x]))
  {
    var before := Collapse(seen);
    CollapseElements(seen);
    IdsStable(m, m', before);
    CollapseSnoc(seen, x);
    var last := if seen == [] then "" else seen[|seen| - 1];
    if x != last {
      assert Collapse(seen + [x]) == before + [x];
      IdsSnoc(m', before, x);
    } else {
      assert Collapse(seen + [x]) == before;
    }
  }

  /** What one step of the cell-name loop does to the name table and to the net's cell list. */
  lemma CellStepEffect(toks: seq<string>, i: nat, g: Graph, nid: nat, last: string)
    requires i < |toks| && nid < |g.nets| && IdsInRange(g)
    ensures var s := CellStep(toks, i, g, nid, last); var g1, last1 := s.0, s.1;
            var x := toks[i];
            && nid < |g1.nets| && last1 == x && x in g1.cellIds
            && (forall name | name in g.cellIds :: name in g1.cellIds && g1.cellIds[name] == g.cellIds[name])
            && g1.nets[nid].cells ==
                 (if x in g.cellIds && x == last then g.nets[nid].cells else g.nets[nid].cells + [g1.cellIds[x]])
  {
  }

  /** The names of tokens `start` to `i` are all in a table that holds each of those tokens. */
  lemma SeenKnown(toks: seq<string>, start: nat, i: nat, m: map<string, nat>)
    requires start <= i <= |toks| && forall k | start <= k < i :: toks[k] in m
    ensures forall name | name in toks[start..i] :: name in m
  {
    forall name | name in toks[start..i] ensures name in m {
      var k :| 0 <= k < i - start && toks[start..i][k] == name;
      assert toks[start + k] == name;
    }
  }

  lemma CellStepCollapsed(toks: seq<string>, start: nat, i: nat, g: Graph, nid: nat, last: string, base: seq<nat>)
    requires start <= i < |toks| && toks[i] != RecordEnd && nid < |g.nets| && IdsInRange(g)
    requires forall k | start <= k < |toks| :: toks[k] != ""
    requires Collapsed(toks, start, i, g, nid, last, base)
    ensures var s := CellStep(toks, i, g, nid, last); var g1, last1 := s.0, s.1;
            nid < |g1.nets| && Collapsed(toks, start, i + 1, g1, nid, last1, base)
  {
    var s := CellStep(toks, i, g, nid, last); var g1, last1 := s.0, s.1;
    var x, seen := toks[i], toks[start..i];
    assert toks[start..i + 1] == seen + [x] by {
      SliceSnoc(toks, start, i);
    }
    assert last == if seen == [] then "" else seen[|seen| - 1];
    assert forall name | name in seen :: name in g.cellIds by {
      SeenKnown(toks, start, i, g.cellIds);
    }
    CellStepEffect(toks, i, g, nid, last);
    CollapsedNext(seen, x, g.cellIds, g1.cellIds, g.nets[nid].cells, g1.nets[nid].cells, last, base);
  }

  /** `s[a..b + 1]` is `s[a..b]` and then `s[b]`. */
  lemma SliceSnoc<T>(s: seq<T>, a: nat, b: nat)
    requires a <= b < |s|
    ensures s[a..b + 1] == s[a..b] + [s[b]]
  {
  }

  /**
   * The loop invariant carried over one name `x` after the names `seen`,
   * stated on the name tables and cell lists alone: the cell list gains the
   * id of `x` unless `x` repeats the previous name.
   */
  lemma CollapsedNext(seen: seq<string>, x: string, m: map<string, nat>, m': map<string, nat>,
                      cells: seq<nat>, cells': seq<nat>, last: string, base: seq<nat>)
    requires x != "" && x in m'
    requires forall name | name in seen :: name in m
    requires last == if seen == [] then "" else seen[|seen| - 1]
    requires cells == base + Ids(m, Collapse(seen))
    requires forall name | name in m :: name in m' && m'[name] == m[name]
    requires cells' == if x in m && x == last then cells else cells + [m'[x]]
    ensures cells' == base + Ids(m', Collapse(seen + [x]))
  {
    if x == last {
      assert seen[|seen| - 1] in seen;
    }
    CollapseStep(seen, x, m, m', cells, base);
  }

  /**
   * Inside one record the cell list of the net grows by the record's names with
   * consecutive repeats collapsed; `start` is where the record's names begin.
   */
  lemma {:induction false} ParseCellsCollapse(toks: seq<string>, start: nat, i: nat, g: Graph, nid: nat,
                                              last: string, base: seq<nat>)
    requires start <= i <= |toks| && nid < |g.nets| && IdsInRange(g)
    requires forall k | start <= k < |toks| :: toks[k] != ""
    requires Collapsed(toks, start, i, g, nid, last, base)
    ensures var r := ParseCells(toks, i, g, nid, last);
            var e := NamesEnd(toks, i);
            && (forall k | start <= k < e :: toks[k] in r.0.cellIds)
            && r.0.nets[nid].cells == base + Ids(r.0.cellIds, Collapse(toks[start..e]))
    decreases |toks| - i
  {
    if i == |toks| || toks[i] == RecordEnd {
    } else {
      var s := CellStep(toks, i, g, nid, last); var g1, last1 := s.0, s.1;
      CellStepUnfold(toks, i, g, nid, last);
      CellStepCollapsed(toks, start, i, g, nid, last, base);
      ParseCellsCollapse(toks, start, i + 1, g1, nid, last1, base);
    }
  }

  /**
   * A `NET` record at token `i` creates net number |g.nets|, named by the next
   * token, whose cell list is the record's names with consecutive repeats
   * collapsed and non-consecutive repeats kept; later records leave it alone.
   */
  lemma RecordCollapses(toks: seq<string>, i: nat, g: Graph)
    requires i + 2 <= |toks| && toks[i] == NetKeyword && IdsInRange(g)
    requires forall k | i + 2 <= k < |toks| :: toks[k] != ""
    ensures var r := ParseFrom(toks, i, g);
            var e := NamesEnd(toks, i + 2);
            && |r.nets| > |g.nets|
            && r.nets[|g.nets|].name == toks[i + 1]
            && (forall k | i + 2 <= k < e :: toks[k] in r.cellIds)
            && r.nets[|g.nets|].cells == Ids(r.cellIds, Collapse(toks[i + 2..e]))
  {
    var g1 := OpenNet(g, toks[i + 1]);
    var start := i + 2;
    assert toks[start..start] == [];
    assert Collapsed(toks, start, start, g1, |g.nets|, "", []);
    ParseCellsCollapse(toks, start, start, g1, |g.nets|, "", []);
    ParseCellsFrame(toks, start, g1, |g.nets|, "");
    var (g2, j) := ParseCells(toks, start, g1, |g.nets|, "");
    var e := NamesEnd(toks, start);
    CollapseElements(toks[start..e]);
    forall name | name in toks[start..e] ensures name in g2.cellIds {
      var k :| 0 <= k < e - start && toks[start..e][k] == name;
      assert toks[start + k] == name;
    }
    ParseFromFrame(toks, j, g2);
    IdsStable(g2.cellIds, ParseFrom(toks, j, g2).cellIds, Collapse(toks[start..e]));
  }

  /** A record naming `a a b a` gives its net the cells a, b, a: only the adjacent repeat is dropped. */
  lemma ConsecutiveRepeatDropped()
    ensures Collapse(["a", "a", "b", "a"]) == ["a", "b", "a"]
    ensures Collapse(["a", "b", "b", "b"]) == ["a", "b"]
  {
    assert ["a", "a", "b", "a"][..3] == ["a", "a", "b"];
    assert ["a", "a", "b"][..2] == ["a", "a"];
    assert ["a", "a"][..1] == ["a"];
    assert ["a", "b", "b", "b"][..3] == ["a", "b", "b"];
    assert ["a", "b", "b"][..2] == ["a", "b"];
    assert ["a", "b"][..1] == ["a"];
  }
}
