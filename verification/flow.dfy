/** The reactflow shapes the canvas works with: points, nodes and edges. */
module Flow {
  import opened Wrappers

  /** A position on the canvas. Coordinates are reals: only `<`, `+` and `abs` matter. */
  datatype Point = Point(x: real, y: real)

  /** The `data` a pod node carries; `caption` is its `label`. */
  datatype NodeData = NodeData(caption: string, name: Option<string>, parent: string)

  /** The `style` of a node: its CSS width and height, `None` when unset. */
  datatype Style = Style(width: Option<real>, height: Option<real>)

  /**
    A canvas node. `width`/`height` are `None` while unmeasured (`undefined`);
    `parentNode` is the id of the enclosing deck, `None` at top level; `dragHandle` is the
    selector of the element that drags the node, `None` when the whole node does.
  */
  datatype Node = Node(
    id: string,
    kind: string,
    data: NodeData,
    position: Point,
    parentNode: Option<string>,
    style: Style,
    width: Option<real>,
    height: Option<real>,
    dragHandle: Option<string>)

  /** A canvas edge between two nodes; the handles name the side it attaches to. */
  datatype Edge = Edge(
    id: string,
    source: string,
    target: string,
    sourceHandle: Option<string>,
    targetHandle: Option<string>)

  /** `Math.abs`. */
  function Abs(r: real): (a: real)
    ensures a >= 0.0 && (a == r || a == -r)
  {
    if r < 0.0 then -r else r
  }
}
