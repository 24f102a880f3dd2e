/**
 * The structures the .frd parser hands to the converter, taken as given.
 * Floating-point numbers are abstracted to the four kinds of value the
 * writer distinguishes; their text formatting is not modelled.
 */
module Frd {

  /** A double as read from the .frd file. */
  datatype Value = Finite(r: real) | PosInf | NegInf | NaN
  {
    /** Python's math.isinf: true for both infinities. */
    predicate IsInf() { PosInf? || NegInf? }
    /** Python's math.isnan. */
    predicate IsNan() { NaN? }
  }

  datatype Node = Node(id: int, coords: seq<Value>)

  /** An element: its .frd type code and its node ids in .frd local order. */
  datatype Element = Element(id: int, etype: int, nodes: seq<int>)

  /**
   * One nodal results block: field name, step number, time value,
   * component names and the results dictionary (node id -> values).
   */
  datatype ResultBlock = ResultBlock(
    name: string,
    numstep: nat,
    value: real,
    components: seq<string>,
    results: map<int, seq<Value>>)

  /**
   * The node block: the declared node count and the nodes dictionary,
   * represented by its items in iteration (insertion) order.
   */
  datatype NodeBlock = NodeBlock(numnod: nat, nodes: seq<Node>)

  /** The element block: the declared element count and the element list. */
  datatype ElemBlock = ElemBlock(numelem: nat, elements: seq<Element>)

  /** A parsed .frd file. */
  datatype FrdFile = FrdFile(
    fileName: string,
    nodeBlock: NodeBlock,
    elemBlock: ElemBlock,
    resultBlocks: seq<ResultBlock>)

  /** Keys of a Python dictionary are distinct. */
  predicate DistinctIds(nodes: seq<Node>)
  {
    forall i, j :: 0 <= i < j < |nodes| ==> nodes[i].id != nodes[j].id
  }

}
