/**
 * writeVTK of src/VTKWriter.py: the legacy VTK unstructured-grid file for
 * one time value, as its sections in file order. Node renumbering, the
 * CELLS size header, the connectivity rows, the cell types and the FIELD
 * sections of the results blocks written at that time.
 */
module VtkWriter {
  import opened Wrappers
  import opened Frd
  import opened Topology
  import opened Fields

  /**
   * The file's sections: 'POINTS <n> double' and the coordinates,
   * 'CELLS <n> <size>' and the rows, 'CELL_TYPES <n>' and the codes,
   * 'POINT_DATA <n>' and the FIELD sections. The fixed header lines and the
   * blank lines between sections are not represented.
   */
  datatype VtkFile = VtkFile(
    pointsDeclared: nat,
    points: seq<seq<Value>>,
    cellsDeclared: nat,
    cellListSize: nat,
    cells: seq<Cell>,
    cellTypesDeclared: nat,
    cellTypes: seq<int>,
    pointDataDeclared: nat,
    fields: seq<Field>)

  /** A written file and the warnings logged while writing it. */
  datatype Conversion = Conversion(file: VtkFile, warnings: seq<Warning>)

  // ---------------------------------------------------------------- POINTS

  /**
   * How many nodes the POINTS loop visits: it stops once the counter reaches
   * numnod, which never happens when numnod is 0 or above the node count.
   */
  function NumberedCount(total: nat, numnod: nat): (k: nat)
    ensures k <= total
    ensures 1 <= numnod <= total ==> k == numnod
    ensures k < total ==> 1 <= k == numnod
    ensures numnod == 0 || numnod >= total ==> k == total
  {
    if 1 <= numnod <= total then numnod else total
  }

  /** The ids of the first k nodes. */
  function NumberedIds(nodes: seq<Node>, k: nat): set<int>
    requires k <= |nodes|
  {
    set j | 0 <= j < k :: nodes[j].id
  }

  lemma NumberedIdsStep(nodes: seq<Node>, i: nat)
    requires i < |nodes|
    ensures NumberedIds(nodes, i + 1) == NumberedIds(nodes, i) + {nodes[i].id}
  {
    forall id | id in NumberedIds(nodes, i + 1) ensures id in NumberedIds(nodes, i) + {nodes[i].id} {
      var j :| 0 <= j < i + 1 && nodes[j].id == id;
      if j < i { assert id in NumberedIds(nodes, i); }
    }
  }

  /** The first k nodes numbered 0, 1, 2, ... in iteration order. */
  function Renumbering(nodes: seq<Node>, k: nat): (r: map<int, nat>)
    requires k <= |nodes| && DistinctIds(nodes)
    ensures r.Keys == NumberedIds(nodes, k)
    ensures forall j :: 0 <= j < k ==> r[nodes[j].id] == j
  {
    map j | 0 <= j < k :: nodes[j].id := j
  }

  /** A map over the first k ids giving node j the number j is the renumbering. */
  lemma MatchesRenumbering(nodes: seq<Node>, k: nat, m: map<int, nat>)
    requires k <= |nodes| && DistinctIds(nodes)
    requires m.Keys == NumberedIds(nodes, k)
    requires forall j :: 0 <= j < k ==> nodes[j].id in m && m[nodes[j].id] == j
    ensures m == Renumbering(nodes, k)
  {
    var r := Renumbering(nodes, k);
    forall id | id in m ensures m[id] == r[id] {
      var j :| 0 <= j < k && nodes[j].id == id;
    }
  }

  function PointRows(nodes: seq<Node>, k: nat): (points: seq<seq<Value>>)
    requires k <= |nodes|
    ensures |points| == k && forall j :: 0 <= j < k ==> points[j] == nodes[j].coords
  {
    seq(k, j requires 0 <= j < k => nodes[j].coords)
  }

  /**
   * The POINTS loop: writes each node's coordinates and gives it the next
   * number, stopping as soon as numnod nodes are numbered.
   */
  method WritePoints(nodes: seq<Node>, numnod: nat) returns (points: seq<seq<Value>>, renumbered: map<int, nat>)
    requires DistinctIds(nodes)
    ensures points == PointRows(nodes, NumberedCount(|nodes|, numnod))
    ensures renumbered == Renumbering(nodes, NumberedCount(|nodes|, numnod))
  {
    var newNodeNumber := 0;
    points, renumbered := [], map[];
    var i := 0;
    while i < |nodes|
      invariant 0 <= i <= |nodes| && newNodeNumber == i
      invariant numnod == 0 || i < numnod
      invariant points == PointRows(nodes, i)
      invariant renumbered.Keys == NumberedIds(nodes, i)
      invariant forall j :: 0 <= j < i ==> nodes[j].id in renumbered && renumbered[nodes[j].id] == j
    {
      var n := nodes[i];
      points := points + [n.coords];
      NumberedIdsStep(nodes, i);
      renumbered := renumbered[n.id := newNodeNumber];
      newNodeNumber := newNodeNumber + 1;
      i := i + 1;
      if newNodeNumber == numnod {
        break;
      }
    }
    assert i == NumberedCount(|nodes|, numnod);
    MatchesRenumbering(nodes, i, renumbered);
  }

  /**
   * The renumbering is a bijection from the ids of the first k nodes onto
   * 0..k-1.
   */
  lemma RenumberingIsBijection(nodes: seq<Node>, k: nat)
    requires k <= |nodes| && DistinctIds(nodes)
    ensures forall id :: id in Renumbering(nodes, k) ==> Renumbering(nodes, k)[id] < k
    ensures forall a, b :: a in Renumbering(nodes, k) && b in Renumbering(nodes, k) && a != b ==>
      Renumbering(nodes, k)[a] != Renumbering(nodes, k)[b]
    ensures forall j :: 0 <= j < k ==> nodes[j].id in Renumbering(nodes, k) && Renumbering(nodes, k)[nodes[j].id] == j
  {
    var r := Renumbering(nodes, k);
    forall id | id in r ensures r[id] < k && nodes[r[id]].id == id {
      var j :| 0 <= j < k && nodes[j].id == id;
    }
  }

  /**
   * With numnod > 0 every assigned number is below numnod and at most numnod
   * nodes are numbered; with numnod == 0 every node is numbered.
   */
  lemma NumberingBounds(nodes: seq<Node>, numnod: nat)
    requires DistinctIds(nodes)
    ensures var k := NumberedCount(|nodes|, numnod);
      && k <= |nodes|
      && (numnod > 0 ==> k <= numnod && forall id :: id in Renumbering(nodes, k) ==> Renumbering(nodes, k)[id] < numnod)
      && (numnod == 0 ==> k == |nodes|)
      && (numnod <= |nodes| && numnod > 0 ==> k == numnod)
  {
    RenumberingIsBijection(nodes, NumberedCount(|nodes|, numnod));
  }

  // ----------------------------------------------------------------- CELLS

  /** What the totn loop adds for one element: 6 for type 5, else its node count. */
  function Tally(e: Element): (t: nat)
    ensures |e.nodes| >= MinNodes(e.etype) ==> t >= CountPrefix(e.etype, |e.nodes|)
    ensures |e.nodes| >= MinNodes(e.etype) ==> (t == CountPrefix(e.etype, |e.nodes|) <==> StandardNodeCount(e))
  {
    if e.etype == 5 then 6 else |e.nodes|
  }

  /** The totn sum over the elements: every element's term is part of it. */
  function TotalNodes(es: seq<Element>): (total: nat)
    ensures forall i :: 0 <= i < |es| ==> Tally(es[i]) <= total
  {
    if es == [] then 0
    else
      var init := es[..|es| - 1];
      assert forall i :: 0 <= i < |init| ==> init[i] == es[i];
      TotalNodes(init) + Tally(es[|es| - 1])
  }

  /** The size written in the CELLS header: numelem plus the totn sum. */
  method CellListSize(numelem: nat, elements: seq<Element>) returns (size: nat)
    ensures size == numelem + TotalNodes(elements)
  {
    var totn := 0;
    var i := 0;
    while i < |elements|
      invariant 0 <= i <= |elements|
      invariant totn == TotalNodes(elements[..i])
    {
      var e := elements[i];
      assert elements[..i + 1][..i] == elements[..i];
      if e.etype == 5 {
        totn := totn + 6;
      } else {
        totn := totn + |e.nodes|;
      }
      i := i + 1;
    }
    assert elements[..i] == elements;
    size := numelem + totn;
  }

  /** write_element_connectivity applied to each element. */
  function ConnectAll(renumbered: map<int, nat>, es: seq<Element>): (rows: seq<Result<Cell, ConversionError>>)
    ensures |rows| == |es| && forall i :: 0 <= i < |es| ==> rows[i] == Connect(renumbered, es[i])
  {
    seq(|es|, i requires 0 <= i < |es| => Connect(renumbered, es[i]))
  }

  /** The rows of the CELLS section; the first element that fails raises its exception. */
  function CellRows(renumbered: map<int, nat>, es: seq<Element>): (r: Result<seq<Cell>, ConversionError>)
    ensures r.Ok? <==> forall i :: 0 <= i < |es| ==> Connect(renumbered, es[i]).Ok?
    ensures r.Ok? ==> |r.value| == |es| && forall i :: 0 <= i < |es| ==> Connect(renumbered, es[i]) == Ok(r.value[i])
    ensures r.Err? ==> exists i :: (0 <= i < |es| && Connect(renumbered, es[i]) == Err(r.error)
      && forall i' :: 0 <= i' < i ==> Connect(renumbered, es[i']).Ok?)
  {
    Collect(ConnectAll(renumbered, es))
  }

  /** The connectivity loop: one call of write_element_connectivity per element. */
  method WriteCells(renumbered: map<int, nat>, es: seq<Element>) returns (r: Result<seq<Cell>, ConversionError>)
    ensures r == CellRows(renumbered, es)
  {
    ghost var rows := ConnectAll(renumbered, es);
    var cells: seq<Cell> := [];
    var i := 0;
    while i < |es|
      invariant 0 <= i <= |es|
      invariant Collect(rows[..i]) == Ok(cells)
    {
      var row := WriteElementConnectivity(renumbered, es[i]);
      CollectStep(rows, i, cells);
      if row.Err? {
        CollectErrPersists(rows, i + 1);
        return Err(row.error);
      }
      cells := cells + [row.value];
      i := i + 1;
    }
    assert rows[..i] == rows;
    r := Ok(cells);
  }

  /** Tokens in the CELLS rows: each row's count plus its indices. */
  function RowTokens(cells: seq<Cell>): nat
  {
    if cells == [] then 0 else RowTokens(cells[..|cells| - 1]) + 1 + |cells[|cells| - 1].indices|
  }

  /** The element types whose node count the CELLS size assumes. */
  predicate StandardNodeCount(e: Element)
  {
    (e.etype == 4 ==> |e.nodes| == 20) && (e.etype == 2 ==> |e.nodes| == 6)
  }

  lemma {:induction false} SizeExceedsTokens(es: seq<Element>, cells: seq<Cell>)
    requires |cells| == |es|
    requires forall i :: 0 <= i < |es| ==>
      |es[i].nodes| >= MinNodes(es[i].etype) && |cells[i].indices| == CountPrefix(es[i].etype, |es[i].nodes|)
    ensures |es| + TotalNodes(es) >= RowTokens(cells)
    ensures |es| + TotalNodes(es) == RowTokens(cells) <==> forall i :: 0 <= i < |es| ==> StandardNodeCount(es[i])
  {
    if es != [] {
      var init, e := es[..|es| - 1], es[|es| - 1];
      var initCells, c := cells[..|cells| - 1], cells[|cells| - 1];
      assert forall i :: 0 <= i < |init| ==> init[i] == es[i] && initCells[i] == cells[i];
      SizeExceedsTokens(init, initCells);
      assert Tally(e) >= |c.indices|;
      assert Tally(e) == |c.indices| <==> StandardNodeCount(e);
    }
  }

  /**
   * The CELLS size agrees with the rows written (numelem being the number of
   * elements) exactly when every type-4 element has 20 nodes and every
   * type-2 element 6; otherwise it is larger.
   */
  lemma CellListSizeMatchesRows(renumbered: map<int, nat>, es: seq<Element>, cells: seq<Cell>)
    requires CellRows(renumbered, es) == Ok(cells)
    ensures |es| + TotalNodes(es) >= RowTokens(cells)
    ensures |es| + TotalNodes(es) == RowTokens(cells) <==> forall i :: 0 <= i < |es| ==> StandardNodeCount(es[i])
  {
    RowSizes(renumbered, es, cells);
    SizeExceedsTokens(es, cells);
  }

  // ------------------------------------------------------------ CELL_TYPES

  /** One converted type code per element; the conversion table is a parameter. */
  function CellTypeRows(es: seq<Element>, cellType: int -> int): (types: seq<int>)
    ensures |types| == |es| && forall i :: 0 <= i < |es| ==> types[i] == cellType(es[i].etype)
  {
    seq(|es|, i requires 0 <= i < |es| => cellType(es[i].etype))
  }

  method WriteCellTypes(es: seq<Element>, cellType: int -> int) returns (types: seq<int>)
    ensures types == CellTypeRows(es, cellType)
  {
    types := [];
    for i := 0 to |es|
      invariant types == CellTypeRows(es[..i], cellType)
    {
      types := types + [cellType(es[i].etype)];
    }
    assert es[..|es|] == es;
  }

  // ------------------------------------------------------------ POINT_DATA

  /** A block is written when its value is the requested time and it has results and components. */
  predicate HasData(b: ResultBlock)
  {
    |b.results| > 0 && |b.components| > 0
  }

  /** The FIELD sections and warnings of several blocks, in order. */
  datatype Sections = Sections(fields: seq<Field>, warnings: seq<Warning>)

  /** What one results block contributes to POINT_DATA. */
  function BlockOutput(b: ResultBlock, time: real, numnod: nat): (r: Result<Sections, ConversionError>)
    ensures r.Ok? <==> b.value != time || !HasData(b) || numnod <= |b.results|
  {
    if b.value != time then Ok(Sections([], []))
    else if HasData(b) then
      match FieldData(b, numnod)
      case Err(err) => Err(err)
      case Ok(out) => Ok(Sections([out.field], out.warnings))
    else Ok(Sections([], [NoData(b.name)]))
  }

  function PointData(blocks: seq<ResultBlock>, time: real, numnod: nat): (r: Result<Sections, ConversionError>)
    ensures r.Ok? <==> forall i :: 0 <= i < |blocks| ==> BlockOutput(blocks[i], time, numnod).Ok?
  {
    if blocks == [] then Ok(Sections([], []))
    else
      var init := blocks[..|blocks| - 1];
      assert forall i :: 0 <= i < |init| ==> init[i] == blocks[i];
      match PointData(init, time, numnod)
      case Err(err) => Err(err)
      case Ok(s) =>
        match BlockOutput(blocks[|blocks| - 1], time, numnod)
        case Err(err) => Err(err)
        case Ok(t) => Ok(Sections(s.fields + t.fields, s.warnings + t.warnings))
  }

  /** One more block appends its sections to a successful prefix or raises. */
  lemma PointDataStep(blocks: seq<ResultBlock>, time: real, numnod: nat, i: nat, s: Sections)
    requires i < |blocks| && PointData(blocks[..i], time, numnod) == Ok(s)
    ensures PointData(blocks[..i + 1], time, numnod) ==
      match BlockOutput(blocks[i], time, numnod)
      case Err(err) => Err(err)
      case Ok(t) => Ok(Sections(s.fields + t.fields, s.warnings + t.warnings))
  {
    var t := blocks[..i + 1];
    assert t[..|t| - 1] == blocks[..i];
  }

  lemma {:induction false} PointDataErrPersists(blocks: seq<ResultBlock>, time: real, numnod: nat, i: nat)
    requires i <= |blocks| && PointData(blocks[..i], time, numnod).Err?
    ensures PointData(blocks, time, numnod) == PointData(blocks[..i], time, numnod)
    decreases |blocks| - i
  {
    if i < |blocks| {
      var t := blocks[..i + 1];
      assert t[..|t| - 1] == blocks[..i];
      PointDataErrPersists(blocks, time, numnod, i + 1);
    } else {
      assert blocks[..i] == blocks;
    }
  }

  /** The POINT_DATA loop: blocks at other times are skipped, empty ones only logged. */
  method WritePointData(blocks: seq<ResultBlock>, time: real, numnod: nat) returns (r: Result<Sections, ConversionError>)
    ensures r == PointData(blocks, time, numnod)
  {
    var fields: seq<Field> := [];
    var warnings: seq<Warning> := [];
    var i := 0;
    while i < |blocks|
      invariant 0 <= i <= |blocks|
      invariant PointData(blocks[..i], time, numnod) == Ok(Sections(fields, warnings))
    {
      var b := blocks[i];
      PointDataStep(blocks, time, numnod, i, Sections(fields, warnings));
      if b.value != time {
        assert fields + [] == fields && warnings + [] == warnings;
        i := i + 1;
        continue;
      }
      if |b.results| > 0 && |b.components| > 0 {
        var out := WriteData(b, numnod);
        if out.Err? {
          PointDataErrPersists(blocks, time, numnod, i + 1);
          return Err(out.error);
        }
        fields := fields + [out.value.field];
        warnings := warnings + out.value.warnings;
      } else {
        assert fields + [] == fields;
        warnings := warnings + [NoData(b.name)];
      }
      i := i + 1;
    }
    assert blocks[..i] == blocks;
    r := Ok(Sections(fields, warnings));
  }

  /** The blocks that get a FIELD section, in order. */
  function WrittenBlocks(blocks: seq<ResultBlock>, time: real): seq<ResultBlock>
  {
    if blocks == [] then []
    else
      var b := blocks[|blocks| - 1];
      WrittenBlocks(blocks[..|blocks| - 1], time) + (if b.value == time && HasData(b) then [b] else [])
  }

  /**
   * Exactly the blocks at the requested time that have data are written,
   * in their original order.
   */
  lemma {:induction false} WrittenBlocksAreThoseAtTime(blocks: seq<ResultBlock>, time: real)
    ensures forall b :: b in WrittenBlocks(blocks, time) <==> b in blocks && b.value == time && HasData(b)
  {
    if blocks != [] {
      WrittenBlocksAreThoseAtTime(blocks[..|blocks| - 1], time);
      assert blocks == blocks[..|blocks| - 1] + [blocks[|blocks| - 1]];
    }
  }

  /** A successful POINT_DATA splits into that of all blocks but the last and the last block's. */
  lemma PointDataSplit(blocks: seq<ResultBlock>, time: real, numnod: nat, s: Sections) returns (s0: Sections, t: Sections)
    requires blocks != [] && PointData(blocks, time, numnod) == Ok(s)
    ensures PointData(blocks[..|blocks| - 1], time, numnod) == Ok(s0)
    ensures BlockOutput(blocks[|blocks| - 1], time, numnod) == Ok(t)
    ensures s == Sections(s0.fields + t.fields, s0.warnings + t.warnings)
  {
    s0 := PointData(blocks[..|blocks| - 1], time, numnod).value;
    t := BlockOutput(blocks[|blocks| - 1], time, numnod).value;
  }

  /** Field f is the FIELD section write_data builds from block b, with numnod rows. */
  predicate WrittenFrom(f: Field, b: ResultBlock, numnod: nat)
  {
    FieldData(b, numnod).Ok? && f == FieldData(b, numnod).value.field
    && |f.rows| == numnod && f.name == b.name
  }

  /** The fields are, one for one, the sections built from the blocks. */
  predicate AllWrittenFrom(fields: seq<Field>, blocks: seq<ResultBlock>, numnod: nat)
  {
    |fields| == |blocks| && forall i :: 0 <= i < |fields| ==> WrittenFrom(fields[i], blocks[i], numnod)
  }

  /**
   * POINT_DATA holds one FIELD section per written block, built from that
   * block by write_data with numnod rows.
   */
  lemma {:induction false} PointDataFields(blocks: seq<ResultBlock>, time: real, numnod: nat, s: Sections)
    requires PointData(blocks, time, numnod) == Ok(s)
    ensures AllWrittenFrom(s.fields, WrittenBlocks(blocks, time), numnod)
  {
    if blocks != [] {
      var init, b := blocks[..|blocks| - 1], blocks[|blocks| - 1];
      var s0, t := PointDataSplit(blocks, time, numnod, s);
      PointDataFields(init, time, numnod, s0);
      if b.value == time && HasData(b) {
        FieldDataShape(b, numnod);
        var w := WrittenBlocks(blocks, time);
        assert w == WrittenBlocks(init, time) + [b];
        forall i | 0 <= i < |s.fields| ensures WrittenFrom(s.fields[i], w[i], numnod) {
          if i < |s0.fields| {
            assert s.fields[i] == s0.fields[i] && w[i] == WrittenBlocks(init, time)[i];
          } else {
            assert s.fields[i] == t.fields[0] && w[i] == b;
          }
        }
      } else {
        assert s.fields == s0.fields + [];
      }
    }
  }

  // ---------------------------------------------------------------- writeVTK

  /** The file writeVTK produces for one time value, or the exception it raises. */
  function Convert(p: FrdFile, time: real, cellType: int -> int): (r: Result<Conversion, ConversionError>)
    requires DistinctIds(p.nodeBlock.nodes)
    ensures var nodes := p.nodeBlock.nodes;
      var cells := CellRows(Renumbering(nodes, NumberedCount(|nodes|, p.nodeBlock.numnod)), p.elemBlock.elements);
      var data := PointData(p.resultBlocks, time, p.nodeBlock.numnod);
      && (r.Ok? <==> cells.Ok? && data.Ok?)
      && (r.Err? ==> r.error == if cells.Err? then cells.error else data.error)
  {
    var nodes, numnod := p.nodeBlock.nodes, p.nodeBlock.numnod;
    var numelem, es := p.elemBlock.numelem, p.elemBlock.elements;
    var k := NumberedCount(|nodes|, numnod);
    match CellRows(Renumbering(nodes, k), es)
    case Err(err) => Err(err)
    case Ok(cells) =>
      match PointData(p.resultBlocks, time, numnod)
      case Err(err) => Err(err)
      case Ok(data) =>
        Ok(Conversion(
          VtkFile(numnod, PointRows(nodes, k),
                  numelem, numelem + TotalNodes(es), cells,
                  numelem, CellTypeRows(es, cellType),
                  numnod, data.fields),
          data.warnings))
  }

  /** writeVTK: the sections written in order into one file. */
  method WriteVtk(p: FrdFile, time: real, cellType: int -> int) returns (r: Result<Conversion, ConversionError>)
    requires DistinctIds(p.nodeBlock.nodes)
    ensures r == Convert(p, time, cellType)
  {
    var numnod := p.nodeBlock.numnod;
    var points, renumbered := WritePoints(p.nodeBlock.nodes, numnod);
    var numelem := p.elemBlock.numelem;
    var size := CellListSize(numelem, p.elemBlock.elements);
    var cells := WriteCells(renumbered, p.elemBlock.elements);
    if cells.Err? {
      return Err(cells.error);
    }
    var types := WriteCellTypes(p.elemBlock.elements, cellType);
    var data := WritePointData(p.resultBlocks, time, numnod);
    if data.Err? {
      return Err(data.error);
    }
    var file := VtkFile(numnod, points, numelem, size, cells.value, numelem, types, numnod, data.value.fields);
    r := Ok(Conversion(file, data.value.warnings));
  }

  // ------------------------------------------------------ document properties

  /**
   * The conversion raises exactly when some element reads a position its
   * node list lacks or a node that was not numbered, or some block written
   * at this time has fewer results than numnod.
   */
  lemma ConvertSucceeds(p: FrdFile, time: real, cellType: int -> int)
    requires DistinctIds(p.nodeBlock.nodes)
    ensures var nodes := p.nodeBlock.nodes;
      Convert(p, time, cellType).Ok? <==>
        && ElementsReadable(Renumbering(nodes, NumberedCount(|nodes|, p.nodeBlock.numnod)), p.elemBlock.elements)
        && BlocksLongEnough(p.resultBlocks, time, p.nodeBlock.numnod)
  {
    var nodes := p.nodeBlock.nodes;
    ElementsConnect(Renumbering(nodes, NumberedCount(|nodes|, p.nodeBlock.numnod)), p.elemBlock.elements);
    BlocksWrite(p.resultBlocks, time, p.nodeBlock.numnod);
  }

  /** Every element lists each position its type reads, and each node read was numbered. */
  predicate ElementsReadable(numbered: map<int, nat>, es: seq<Element>)
  {
    forall i :: 0 <= i < |es| ==>
      && |es[i].nodes| >= MinNodes(es[i].etype)
      && forall j :: 0 <= j < |LocalOrder(es[i].etype, |es[i].nodes|)| ==>
           es[i].nodes[LocalOrder(es[i].etype, |es[i].nodes|)[j]] in numbered
  }

  /** Every block written at this time has at least numnod results. */
  predicate BlocksLongEnough(blocks: seq<ResultBlock>, time: real, numnod: nat)
  {
    forall b :: b in blocks && b.value == time && HasData(b) ==> numnod <= |b.results|
  }

  lemma ElementsConnect(numbered: map<int, nat>, es: seq<Element>)
    ensures CellRows(numbered, es).Ok? <==> ElementsReadable(numbered, es)
  {
    forall i | 0 <= i < |es| {
      ConnectSucceeds(numbered, es[i]);
    }
  }

  lemma BlocksWrite(blocks: seq<ResultBlock>, time: real, numnod: nat)
    ensures PointData(blocks, time, numnod).Ok? <==> BlocksLongEnough(blocks, time, numnod)
  {
    if !PointData(blocks, time, numnod).Ok? {
      var i :| 0 <= i < |blocks| && !BlockOutput(blocks[i], time, numnod).Ok?;
      assert blocks[i] in blocks;
    }
  }

  /**
   * Section sizes: POINTS and POINT_DATA both declare numnod, the rows
   * written are the first nodes up to numnod (all of them when numnod is 0
   * or larger than the node count); CELLS and CELL_TYPES declare numelem and
   * hold one row per element.
   */
  lemma DocumentShape(p: FrdFile, time: real, cellType: int -> int, c: Conversion)
    requires DistinctIds(p.nodeBlock.nodes)
    requires Convert(p, time, cellType) == Ok(c)
    ensures var nodes, numnod := p.nodeBlock.nodes, p.nodeBlock.numnod;
      && c.file.pointsDeclared == numnod && c.file.pointDataDeclared == numnod
      && |c.file.points| <= |nodes|
      && (forall j :: 0 <= j < |c.file.points| ==> c.file.points[j] == nodes[j].coords)
      && (1 <= numnod <= |nodes| ==> |c.file.points| == numnod)
      && (numnod == 0 || numnod > |nodes| ==> |c.file.points| == |nodes|)
      && c.file.cellsDeclared == p.elemBlock.numelem && c.file.cellTypesDeclared == p.elemBlock.numelem
      && |c.file.cells| == |p.elemBlock.elements| && |c.file.cellTypes| == |p.elemBlock.elements|
      && forall i :: 0 <= i < |c.file.cellTypes| ==> c.file.cellTypes[i] == cellType(p.elemBlock.elements[i].etype)
  {
  }

  /** Every point index in a CELLS row refers to a written point. */
  lemma CellIndicesInRange(p: FrdFile, time: real, cellType: int -> int, c: Conversion)
    requires DistinctIds(p.nodeBlock.nodes)
    requires Convert(p, time, cellType) == Ok(c)
    ensures forall cell, x :: cell in c.file.cells && x in cell.indices ==> x < |c.file.points|
  {
    var nodes := p.nodeBlock.nodes;
    var k := NumberedCount(|nodes|, p.nodeBlock.numnod);
    var numbered := Renumbering(nodes, k);
    RenumberingIsBijection(nodes, k);
    IndicesAreNumbers(numbered, p.elemBlock.elements, c.file.cells);
  }

  lemma IndicesAreNumbers(numbered: map<int, nat>, es: seq<Element>, cells: seq<Cell>)
    requires CellRows(numbered, es) == Ok(cells)
    ensures forall cell, x :: cell in cells && x in cell.indices ==> x in numbered.Values
  {
    forall cell, x | cell in cells && x in cell.indices ensures x in numbered.Values {
      var i :| 0 <= i < |cells| && cells[i] == cell;
      ConnectIndicesAreNumbers(numbered, es[i]);
    }
  }

  /**
   * When numelem is the number of elements, the CELLS size equals the tokens
   * of its rows exactly when every type-4 element has 20 nodes and every
   * type-2 element 6; otherwise the declared size is larger.
   */
  lemma DeclaredCellListSize(p: FrdFile, time: real, cellType: int -> int, c: Conversion)
    requires DistinctIds(p.nodeBlock.nodes)
    requires Convert(p, time, cellType) == Ok(c) && p.elemBlock.numelem == |p.elemBlock.elements|
    ensures c.file.cellListSize >= RowTokens(c.file.cells)
    ensures c.file.cellListSize == RowTokens(c.file.cells) <==>
      forall i :: 0 <= i < |p.elemBlock.elements| ==> StandardNodeCount(p.elemBlock.elements[i])
  {
    var nodes := p.nodeBlock.nodes;
    CellListSizeMatchesRows(Renumbering(nodes, NumberedCount(|nodes|, p.nodeBlock.numnod)), p.elemBlock.elements, c.file.cells);
  }

  /**
   * The FIELD sections are those of the blocks at the requested time that
   * have data, in order, each with numnod rows.
   */
  lemma DocumentFields(p: FrdFile, time: real, cellType: int -> int, c: Conversion)
    requires DistinctIds(p.nodeBlock.nodes)
    requires Convert(p, time, cellType) == Ok(c)
    ensures |c.file.fields| == |WrittenBlocks(p.resultBlocks, time)|
    ensures forall b :: b in WrittenBlocks(p.resultBlocks, time) <==> b in p.resultBlocks && b.value == time && HasData(b)
    ensures forall i :: 0 <= i < |c.file.fields| ==>
      && c.file.fields[i] == FieldData(WrittenBlocks(p.resultBlocks, time)[i], p.nodeBlock.numnod).value.field
      && c.file.fields[i].name == WrittenBlocks(p.resultBlocks, time)[i].name
      && |c.file.fields[i].rows| == p.nodeBlock.numnod
  {
    var s := PointData(p.resultBlocks, time, p.nodeBlock.numnod).value;
    PointDataFields(p.resultBlocks, time, p.nodeBlock.numnod, s);
    WrittenBlocksAreThoseAtTime(p.resultBlocks, time);
  }

  /**
   * Every block at the requested time without results or components is
   * reported, and every NoData warning reports such a block.
   */
  lemma {:induction false} EmptyBlocksReported(blocks: seq<ResultBlock>, time: real, numnod: nat, s: Sections)
    requires PointData(blocks, time, numnod) == Ok(s)
    ensures forall b :: b in blocks && b.value == time && !HasData(b) ==> NoData(b.name) in s.warnings
    ensures forall name :: NoData(name) in s.warnings ==>
      exists b :: b in blocks && b.value == time && !HasData(b) && b.name == name
  {
    if blocks != [] {
      var init, last := blocks[..|blocks| - 1], blocks[|blocks| - 1];
      var s0, t := PointDataSplit(blocks, time, numnod, s);
      EmptyBlocksReported(init, time, numnod, s0);
      assert blocks == init + [last];
      forall name | NoData(name) in s.warnings
        ensures exists b :: b in blocks && b.value == time && !HasData(b) && b.name == name
      {
        if NoData(name) in s0.warnings {
          var b :| b in init && b.value == time && !HasData(b) && b.name == name;
          assert b in blocks;
        } else {
          assert NoData(name) in t.warnings;
          if last.value == time && HasData(last) {
            assert false;
          }
          assert last in blocks;
        }
      }
    }
  }

}
