/**
 * write_element_connectivity of src/VTKWriter.py: the per-type node
 * permutations from .frd local order to VTK local order, applied through the
 * node renumbering.
 */
module Topology {
  import opened Wrappers
  import opened Frd

  /** The 20-node brick: nodes 0..11, then 16..19, then 12..15. */
  const BrickOrder: seq<nat> := [0, 1, 2, 3, 4, 5, 6, 7, 8, 9, 10, 11, 16, 17, 18, 19, 12, 13, 14, 15]

  /** The 6-node wedge (and the 15-node wedge cut down to its corners). */
  const WedgeOrder: seq<nat> := [0, 2, 1, 3, 5, 4]

  function Range(n: nat): (r: seq<nat>)
    ensures |r| == n && forall i :: 0 <= i < n ==> r[i] == i
  {
    seq(n, i => i)
  }

  /** The local node positions read, in the order they are written. */
  function LocalOrder(etype: int, n: nat): seq<nat>
  {
    if etype == 4 then BrickOrder
    else if etype == 5 || etype == 2 then WedgeOrder
    else Range(n)
  }

  /** The count written at the head of the row: '20 ', '6 ' or len(e.nodes). */
  function CountPrefix(etype: int, n: nat): nat
  {
    if etype == 4 then 20
    else if etype == 5 || etype == 2 then 6
    else n
  }

  /** One row of the CELLS section: the count, then the renumbered node indices. */
  datatype Cell = Cell(count: nat, indices: seq<nat>)

  /**
   * renumbered[e.nodes[i]], or the exception reading it raises: an IndexError
   * past the end of the node list, a KeyError for a node not renumbered.
   */
  function ReadPosition(renumbered: map<int, nat>, e: Element, i: nat): Result<nat, ConversionError>
  {
    if i >= |e.nodes| then Err(ShortElement(e.id, i))
    else if e.nodes[i] !in renumbered then Err(MissingNode(e.id, e.nodes[i]))
    else Ok(renumbered[e.nodes[i]])
  }

  /** The reads of the positions of order, one by one. */
  function ReadAll(renumbered: map<int, nat>, e: Element, order: seq<nat>): (rs: seq<Result<nat, ConversionError>>)
    ensures |rs| == |order| && forall j :: 0 <= j < |order| ==> rs[j] == ReadPosition(renumbered, e, order[j])
  {
    seq(|order|, j requires 0 <= j < |order| => ReadPosition(renumbered, e, order[j]))
  }

  /**
   * renumbered[e.nodes[i]] for each i of order, in order; the first position
   * that cannot be read raises its exception.
   */
  function MapNodes(renumbered: map<int, nat>, e: Element, order: seq<nat>): (r: Result<seq<nat>, ConversionError>)
    ensures r.Ok? <==> forall j :: 0 <= j < |order| ==> ReadPosition(renumbered, e, order[j]).Ok?
    ensures r.Ok? ==> |r.value| == |order| && forall j :: 0 <= j < |order| ==> ReadPosition(renumbered, e, order[j]) == Ok(r.value[j])
    ensures r.Err? ==> exists j :: (0 <= j < |order| && ReadPosition(renumbered, e, order[j]) == Err(r.error)
      && forall j' :: 0 <= j' < j ==> ReadPosition(renumbered, e, order[j']).Ok?)
  {
    Collect(ReadAll(renumbered, e, order))
  }

  /** The CELLS row of one element, or the exception raised while building it. */
  function Connect(renumbered: map<int, nat>, e: Element): (r: Result<Cell, ConversionError>)
    ensures var order := LocalOrder(e.etype, |e.nodes|);
      && (r.Ok? ==> r.value.count == CountPrefix(e.etype, |e.nodes|) && |r.value.indices| == |order|)
      && (r.Ok? ==> forall j :: 0 <= j < |order| ==> ReadPosition(renumbered, e, order[j]) == Ok(r.value.indices[j]))
      && (r.Err? ==> exists j :: 0 <= j < |order| && ReadPosition(renumbered, e, order[j]) == Err(r.error))
  {
    match MapNodes(renumbered, e, LocalOrder(e.etype, |e.nodes|))
    case Err(err) => Err(err)
    case Ok(indices) => Ok(Cell(CountPrefix(e.etype, |e.nodes|), indices))
  }

  /** The count written first and the local positions read, chosen by element type. */
  method RowLayout(e: Element) returns (count: nat, order: seq<nat>)
    ensures count == CountPrefix(e.etype, |e.nodes|) && order == LocalOrder(e.etype, |e.nodes|)
  {
    if e.etype == 4 {
      count := 20;
      var r1, r2, r3 := Range(12), [12, 13, 14, 15], [16, 17, 18, 19];
      order := r1 + r3 + r2;
      assert order == BrickOrder;
    } else if e.etype == 5 || e.etype == 2 {
      count := 6;
      order := WedgeOrder;
    } else {
      count := |e.nodes|;
      order := Range(|e.nodes|);
    }
  }

  /** Reads renumbered[e.nodes[i]] for each i of order, raising at the first failure. */
  method ReadNodes(renumbered: map<int, nat>, e: Element, order: seq<nat>) returns (r: Result<seq<nat>, ConversionError>)
    ensures r == MapNodes(renumbered, e, order)
  {
    ghost var attempts := ReadAll(renumbered, e, order);
    var indices: seq<nat> := [];
    var j := 0;
    while j < |order|
      invariant 0 <= j <= |order|
      invariant Collect(attempts[..j]) == Ok(indices)
    {
      var i := order[j];
      CollectStep(attempts, j, indices);
      if i >= |e.nodes| {
        CollectErrPersists(attempts, j + 1);
        return Err(ShortElement(e.id, i));
      }
      if e.nodes[i] !in renumbered {
        CollectErrPersists(attempts, j + 1);
        return Err(MissingNode(e.id, e.nodes[i]));
      }
      indices := indices + [renumbered[e.nodes[i]]];
      j := j + 1;
    }
    assert attempts[..j] == attempts;
    r := Ok(indices);
  }

  /** Builds one CELLS row position by position, as the source does. */
  method WriteElementConnectivity(renumbered: map<int, nat>, e: Element) returns (r: Result<Cell, ConversionError>)
    ensures r == Connect(renumbered, e)
  {
    var count, order := RowLayout(e);
    var indices := ReadNodes(renumbered, e, order);
    if indices.Err? {
      return Err(indices.error);
    }
    r := Ok(Cell(count, indices.value));
  }

  /** The count prefix always equals the number of indices that follow it. */
  lemma CountMatchesIndices(renumbered: map<int, nat>, e: Element)
    requires Connect(renumbered, e).Ok?
    ensures Connect(renumbered, e).value.count == |Connect(renumbered, e).value.indices|
  {
  }

  /** The brick order is a bijection of 0..19 that is its own inverse. */
  lemma BrickOrderIsInvolution()
    ensures |BrickOrder| == 20
    ensures forall i :: 0 <= i < 20 ==> BrickOrder[i] < 20 && BrickOrder[BrickOrder[i]] == i
  {
  }

  /** The wedge order is a bijection of 0..5 that is its own inverse. */
  lemma WedgeOrderIsInvolution()
    ensures |WedgeOrder| == 6
    ensures forall i :: 0 <= i < 6 ==> WedgeOrder[i] < 6 && WedgeOrder[WedgeOrder[i]] == i
  {
  }

  /** renumbered[nodes[j]] for the first k nodes. */
  function Images(renumbered: map<int, nat>, nodes: seq<int>, k: nat): (imgs: seq<nat>)
    requires k <= |nodes| && forall j :: 0 <= j < k ==> nodes[j] in renumbered
    ensures |imgs| == k && forall j :: 0 <= j < k ==> imgs[j] == renumbered[nodes[j]]
  {
    seq(k, j requires 0 <= j < k => renumbered[nodes[j]])
  }

  /** The row of an element whose every read position is valid. */
  lemma ConnectReads(renumbered: map<int, nat>, e: Element, order: seq<nat>)
    requires order == LocalOrder(e.etype, |e.nodes|)
    requires forall j :: 0 <= j < |order| ==> order[j] < |e.nodes| && e.nodes[order[j]] in renumbered
    ensures Connect(renumbered, e).Ok?
    ensures |Connect(renumbered, e).value.indices| == |order|
    ensures forall j :: 0 <= j < |order| ==> Connect(renumbered, e).value.indices[j] == renumbered[e.nodes[order[j]]]
  {
    assert forall j :: 0 <= j < |order| ==> ReadPosition(renumbered, e, order[j]).Ok?;
  }

  /** Swapping the blocks 12..15 and 16..19 keeps every element exactly once. */
  lemma BrickSwapKeepsElements(imgs: seq<nat>)
    requires |imgs| == 20
    ensures multiset(imgs[..12] + imgs[16..] + imgs[12..16]) == multiset(imgs)
  {
    assert imgs == imgs[..12] + imgs[12..16] + imgs[16..];
  }

  /** Swapping positions 1, 2 and positions 4, 5 keeps every element exactly once. */
  lemma WedgeSwapKeepsElements(w: seq<nat>)
    requires |w| == 6
    ensures multiset([w[0], w[2], w[1], w[3], w[5], w[4]]) == multiset(w)
  {
    assert w == [w[0]] + [w[1], w[2]] + [w[3]] + [w[4], w[5]];
    assert [w[0], w[2], w[1], w[3], w[5], w[4]] == [w[0]] + [w[2], w[1]] + [w[3]] + [w[5], w[4]];
    assert multiset([w[2], w[1]]) == multiset([w[1], w[2]]);
    assert multiset([w[5], w[4]]) == multiset([w[4], w[5]]);
  }

  /**
   * A 20-node brick: the row is "20" followed by the renumbered nodes
   * 0..11, 16..19, 12..15, so every node of the element appears exactly once.
   */
  lemma BrickRow(renumbered: map<int, nat>, e: Element)
    requires e.etype == 4 && |e.nodes| == 20
    requires forall j :: 0 <= j < 20 ==> e.nodes[j] in renumbered
    ensures Connect(renumbered, e).Ok?
    ensures Connect(renumbered, e).value.count == 20
    ensures var imgs := Images(renumbered, e.nodes, 20);
      Connect(renumbered, e).value.indices == imgs[..12] + imgs[16..] + imgs[12..16]
    ensures multiset(Connect(renumbered, e).value.indices) == multiset(Images(renumbered, e.nodes, 20))
  {
    var order := BrickOrder;
    BrickOrderIsInvolution();
    ConnectReads(renumbered, e, order);
    var imgs := Images(renumbered, e.nodes, 20);
    var indices := Connect(renumbered, e).value.indices;
    assert forall j :: 0 <= j < 12 ==> order[j] == j;
    assert forall j :: 12 <= j < 16 ==> order[j] == j + 4;
    assert forall j :: 16 <= j < 20 ==> order[j] == j - 4;
    assert indices == imgs[..12] + imgs[16..] + imgs[12..16];
    BrickSwapKeepsElements(imgs);
  }

  /**
   * A 6-node or 15-node wedge: the row is "6" followed by the renumbered
   * corner nodes in the order 0, 2, 1, 3, 5, 4; every corner appears exactly
   * once and nodes 6 and beyond are dropped.
   */
  lemma WedgeRow(renumbered: map<int, nat>, e: Element)
    requires e.etype == 5 || e.etype == 2
    requires |e.nodes| >= 6 && forall j :: 0 <= j < 6 ==> e.nodes[j] in renumbered
    ensures Connect(renumbered, e).Ok?
    ensures Connect(renumbered, e).value.count == 6
    ensures var w := Images(renumbered, e.nodes, 6);
      Connect(renumbered, e).value.indices == [w[0], w[2], w[1], w[3], w[5], w[4]]
    ensures multiset(Connect(renumbered, e).value.indices) == multiset(Images(renumbered, e.nodes, 6))
  {
    var order := WedgeOrder;
    WedgeOrderIsInvolution();
    ConnectReads(renumbered, e, order);
    var w := Images(renumbered, e.nodes, 6);
    var indices := Connect(renumbered, e).value.indices;
    assert indices == [w[0], w[2], w[1], w[3], w[5], w[4]];
    WedgeSwapKeepsElements(w);
  }

  /**
   * Every other type: the row is len(e.nodes) followed by all the renumbered
   * nodes in their original order.
   */
  lemma OtherRow(renumbered: map<int, nat>, e: Element)
    requires e.etype != 4 && e.etype != 5 && e.etype != 2
    requires forall j :: 0 <= j < |e.nodes| ==> e.nodes[j] in renumbered
    ensures Connect(renumbered, e).Ok?
    ensures Connect(renumbered, e).value == Cell(|e.nodes|, Images(renumbered, e.nodes, |e.nodes|))
  {
  }

  /**
   * The row can be built exactly when the element has every local position
   * its type reads and all the nodes at those positions were renumbered.
   */
  lemma ConnectSucceeds(renumbered: map<int, nat>, e: Element)
    ensures Connect(renumbered, e).Ok? <==>
      && |e.nodes| >= MinNodes(e.etype)
      && forall j :: 0 <= j < |LocalOrder(e.etype, |e.nodes|)| ==> e.nodes[LocalOrder(e.etype, |e.nodes|)[j]] in renumbered
  {
    var order := LocalOrder(e.etype, |e.nodes|);
    assert Connect(renumbered, e).Ok? <==> MapNodes(renumbered, e, order).Ok?;
    ReadsSucceed(renumbered, e, order);
    OrderInBounds(e.etype, |e.nodes|);
  }

  /** Every position of order can be read exactly when each exists and names a renumbered node. */
  lemma ReadsSucceed(renumbered: map<int, nat>, e: Element, order: seq<nat>)
    ensures MapNodes(renumbered, e, order).Ok? <==>
      forall j :: 0 <= j < |order| ==> order[j] < |e.nodes| && e.nodes[order[j]] in renumbered
  {
    if MapNodes(renumbered, e, order).Ok? {
      forall j | 0 <= j < |order| ensures order[j] < |e.nodes| && e.nodes[order[j]] in renumbered {
        assert ReadPosition(renumbered, e, order[j]).Ok?;
      }
    }
  }

  /** An element has every position its type reads exactly when it lists MinNodes nodes. */
  lemma OrderInBounds(etype: int, n: nat)
    ensures n >= MinNodes(etype) <==> forall j :: 0 <= j < |LocalOrder(etype, n)| ==> LocalOrder(etype, n)[j] < n
  {
    var order := LocalOrder(etype, n);
    if etype == 4 {
      BrickOrderIsInvolution();
      assert order[15] == 19;
    } else if etype == 5 || etype == 2 {
      WedgeOrderIsInvolution();
      assert order[4] == 5;
    }
  }

  /** A built row has the count prefix's number of indices, and the element had enough nodes. */
  lemma RowSize(renumbered: map<int, nat>, e: Element)
    requires Connect(renumbered, e).Ok?
    ensures |e.nodes| >= MinNodes(e.etype)
    ensures |Connect(renumbered, e).value.indices| == CountPrefix(e.etype, |e.nodes|)
  {
    ConnectSucceeds(renumbered, e);
    CountMatchesIndices(renumbered, e);
  }

  /** RowSize for every element of a sequence whose rows were all built. */
  lemma RowSizes(renumbered: map<int, nat>, es: seq<Element>, cells: seq<Cell>)
    requires |cells| == |es| && forall i :: 0 <= i < |es| ==> Connect(renumbered, es[i]) == Ok(cells[i])
    ensures forall i :: 0 <= i < |es| ==>
      |es[i].nodes| >= MinNodes(es[i].etype) && |cells[i].indices| == CountPrefix(es[i].etype, |es[i].nodes|)
  {
    forall i | 0 <= i < |es|
      ensures |es[i].nodes| >= MinNodes(es[i].etype) && |cells[i].indices| == CountPrefix(es[i].etype, |es[i].nodes|)
    {
      RowSize(renumbered, es[i]);
    }
  }

  /** Every index in a row is the new number of some renumbered node. */
  lemma ConnectIndicesAreNumbers(renumbered: map<int, nat>, e: Element)
    requires Connect(renumbered, e).Ok?
    ensures forall x :: x in Connect(renumbered, e).value.indices ==> x in renumbered.Values
  {
    var order := LocalOrder(e.etype, |e.nodes|);
    var indices := Connect(renumbered, e).value.indices;
    forall x | x in indices ensures x in renumbered.Values {
      var j :| 0 <= j < |indices| && indices[j] == x;
      assert ReadPosition(renumbered, e, order[j]) == Ok(x);
    }
  }

  /** The fewest nodes an element of each type must list. */
  function MinNodes(etype: int): nat
  {
    if etype == 4 then 20
    else if etype == 5 || etype == 2 then 6
    else 0
  }

}
