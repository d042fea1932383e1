/**
 * The part of the host DOM that the XPath generator reads: each node's
 * type, names, `id` attribute, parent reference and child list.
 */
module DomModel {
  import opened Wrappers

  /** A node reference; two references are the same node (`===`) iff they are equal. */
  type NodeId = nat

  /**
   * The `nodeType` values the generator names. Every other type (entity
   * reference, entity, document type, document fragment, notation, ...) is
   * `Other`, which keeps its `nodeType` code so that different types stay apart.
   * The code of a named kind can not be an `Other` code.
   */
  datatype Kind =
    | Element
    | Attribute
    | Text
    | CData
    | ProcessingInstruction
    | Comment
    | Document
    | Other(nodeType: OtherCode)

  /** The `nodeType` codes of the kinds above: element 1, attribute 2, text 3, CDATA 4, processing instruction 7, comment 8, document 9. */
  const NamedCodes: set<nat> := {1, 2, 3, 4, 7, 8, 9}

  type OtherCode = c: nat | c !in NamedCodes witness 0

  /**
   * One node as the generator sees it. `id` is what `getAttribute("id")` returns
   * (None for a missing attribute); `children` is the host's `children` collection,
   * taken as given: nothing ties it to the other nodes' `parent` references.
   */
  datatype Node = Node(
    kind: Kind,
    localName: string,
    nodeName: string,
    id: Option<string>,
    parent: Option<NodeId>,
    children: seq<NodeId>)

  /**
   * A document snapshot. `depth` is a ranking of the nodes along the parent
   * references; it exists only to state that parent chains are finite, and
   * the generator never reads it.
   */
  datatype Dom = Dom(nodes: map<NodeId, Node>, ghost depth: map<NodeId, nat>)

  /**
   * Every parent and child reference names a node of the snapshot. (The trigger
   * keeps the solver from following parent references on its own.)
   */
  predicate Closed(d: Dom) {
    forall n {:trigger d.nodes[n]} | n in d.nodes ::
      (d.nodes[n].parent.Some? ==> d.nodes[n].parent.value in d.nodes) &&
      (forall c | c in d.nodes[n].children :: c in d.nodes)
  }

  /** A parent always ranks strictly below its child, so no parent chain is cyclic. */
  ghost predicate Ranked(d: Dom) {
    d.nodes.Keys <= d.depth.Keys &&
    forall n {:trigger d.nodes[n]} | n in d.nodes && d.nodes[n].parent.Some? ::
      d.nodes[n].parent.value in d.depth && d.depth[d.nodes[n].parent.value] < d.depth[n]
  }

  ghost predicate WellFormed(d: Dom) {
    Closed(d) && Ranked(d)
  }

  /** The DOM's own rule that a document node is never the child of another node. */
  predicate DocumentsAreRoots(d: Dom) {
    forall n {:trigger d.nodes[n]} | n in d.nodes && d.nodes[n].kind == Document ::
      d.nodes[n].parent.None?
  }
}
