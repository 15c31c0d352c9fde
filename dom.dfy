/** The small part of the browser's DOM that the components rely on: custom
    events and their dispatch, a mouse event's cancel and propagation flags,
    and nodes with an ordered child list. */
module Dom {

  /** `undefined` (None) or a value (Some), for fields declared with `!`. */
  datatype Option<+T> = None | Some(value: T)

  /** A `CustomEvent` as constructed by the components: its type and its init bag. */
  datatype CustomEvent<+D> = CustomEvent(
    eventType: string,
    bubbles: bool,
    composed: bool,
    cancelable: bool,
    detail: D)

  /** One call of `dispatchEvent` on a host: the event and the host state its
      listeners observe while it is dispatched. */
  datatype Dispatched<+D, +S> = Dispatched(event: CustomEvent<D>, observed: S)

  /** What `dispatchEvent` returns when the listeners' answer is `listenersCancel`:
      a listener's `preventDefault` takes effect only on a cancelable event. */
  predicate NotCanceled<D>(e: CustomEvent<D>, listenersCancel: bool)
  {
    !(e.cancelable && listenersCancel)
  }

  /** A native UI event (such as a click) with its two mutable flags. */
  class UiEvent {
    const cancelable: bool
    var defaultPrevented: bool
    var propagationStopped: bool

    constructor (cancelable: bool)
      ensures this.cancelable == cancelable
      ensures !defaultPrevented && !propagationStopped
    {
      this.cancelable := cancelable;
      defaultPrevented := false;
      propagationStopped := false;
    }

    /** Marks the event canceled; a non-cancelable event ignores the call. */
    method PreventDefault()
      modifies this
      ensures defaultPrevented == (old(defaultPrevented) || cancelable)
      ensures propagationStopped == old(propagationStopped)
    {
      if cancelable {
        defaultPrevented := true;
      }
    }

    /** Stops the event from reaching further listeners. */
    method StopPropagation()
      modifies this
      ensures propagationStopped
      ensures defaultPrevented == old(defaultPrevented)
    {
      propagationStopped := true;
    }
  }

  /** The content of a node and of its whole subtree, as a value. */
  datatype NodeData =
    | Element(tag: string, attributes: seq<(string, string)>, content: seq<NodeData>)
    | Text(text: string)

  /** A node object; identity matters (a clone is a different node). */
  class Node {
    const data: NodeData

    constructor (data: NodeData)
      ensures this.data == data
    {
      this.data := data;
    }

    /** `cloneNode(true)`: a new node with a copy of the whole subtree. */
    method CloneDeep() returns (copy: Node)
      ensures fresh(copy)
      ensures copy.data == data
    {
      copy := new Node(data);
    }
  }

  /** The content of a list of nodes, in order. */
  function DataOf(nodes: seq<Node>): (r: seq<NodeData>)
    ensures |r| == |nodes|
    ensures forall i :: 0 <= i < |nodes| ==> r[i] == nodes[i].data
  {
    if nodes == [] then [] else [nodes[0].data] + DataOf(nodes[1..])
  }

  /** No node occurs twice: a node has at most one place in the tree. */
  predicate Distinct(nodes: seq<Node>)
  {
    forall i, j :: 0 <= i < j < |nodes| ==> nodes[i] != nodes[j]
  }

  /** `nodes` with `n` taken out. */
  function Without(nodes: seq<Node>, n: Node): (r: seq<Node>)
    ensures n !in r
    ensures forall i :: 0 <= i < |r| ==> r[i] in nodes
    ensures forall i :: 0 <= i < |nodes| && nodes[i] != n ==> nodes[i] in r
    ensures Distinct(nodes) ==> Distinct(r)
  {
    if nodes == [] then []
    else (if nodes[0] == n then [] else [nodes[0]]) + Without(nodes[1..], n)
  }

  lemma {:induction false} WithoutAbsent(nodes: seq<Node>, n: Node)
    requires n !in nodes
    ensures Without(nodes, n) == nodes
  {
    if nodes != [] {
      WithoutAbsent(nodes[1..], n);
    }
  }

  lemma {:induction false} WithoutFirst(nodes: seq<Node>)
    requires nodes != [] && Distinct(nodes)
    ensures Without(nodes, nodes[0]) == nodes[1..]
  {
    assert nodes[0] !in nodes[1..];
    WithoutAbsent(nodes[1..], nodes[0]);
  }

  /** An element with an ordered list of child nodes (here: the `<select>`). */
  class ParentNode {
    var children: seq<Node>

    ghost predicate Valid()
      reads this
    {
      Distinct(children)
    }

    constructor ()
      ensures Valid() && children == []
    {
      children := [];
    }

    /** `firstChild`: the first child, or `null` (None) when there is none. */
    function FirstChild(): Option<Node>
      reads this
    {
      if children == [] then None else Some(children[0])
    }

    /** `removeChild`: takes `child` out of the list; the DOM throws when it is not a child. */
    method RemoveChild(child: Node)
      requires Valid() && child in children
      modifies this
      ensures Valid()
      ensures children == Without(old(children), child)
    {
      children := Without(children, child);
    }

    /** `appendChild`: puts `child` last, moving it if it already was a child. */
    method AppendChild(child: Node)
      requires Valid()
      modifies this
      ensures Valid()
      ensures children == Without(old(children), child) + [child]
    {
      children := Without(children, child) + [child];
    }
  }
}
