/**
 * `DOMNodePathStep` and `_xPathValue` of get_xpath.js: one node turned into
 * one location step, or no step when its sibling index is inconsistent.
 */
module Steps {
  import opened Wrappers
  import opened DomModel
  import opened Numerals
  import opened Siblings

  /**
   * A location step. `optimized` marks a step after which the upward walk stops:
   * the id shortcut, which is an absolute path on its own, and the document step.
   */
  datatype PathStep = PathStep(value: string, optimized: bool)

  /** `new DOMNodePathStep(value, optimized)`: a missing `optimized` argument means false. */
  function NewPathStep(value: string, optimized: Option<bool>): (st: PathStep)
    ensures st.value == value
    ensures st.optimized <==> optimized == Some(true)
  {
    PathStep(value, if optimized.Some? then optimized.value else false)
  }

  // The two halves of the id shortcut: //*[@id=" before the id and "] after it.
  const IdOpen: string := "//*[@id=\""
  const IdClose: string := "\"]"

  // The absolute id shortcut, an any-depth element step with an id predicate;
  // the id is embedded between double quotes without escaping.
  function IdShortcut(id: string): string {
    IdOpen + id + IdClose
  }

  /** The node tests of the non-element kinds. */
  const TextTest: string := "text()"
  const PiTest: string := "processing-instruction()"
  const CommentTest: string := "comment()"

  /** The node test of a step, by the node's type. */
  function NodeTest(nd: Node): (t: string)
    ensures XPathKind(nd.kind) == Text ==> t == TextTest
    ensures nd.kind == Attribute ==> |t| >= 1 && t[0] == '@' && t[1..] == nd.nodeName
    ensures t == "" ==> nd.kind == Element || nd.kind == Document || nd.kind.Other?
  {
    match nd.kind
    case Element => nd.localName
    case Attribute => "@" + nd.nodeName
    case Text => TextTest
    case CData => TextTest
    case ProcessingInstruction => PiTest
    case Comment => CommentTest
    case Document => ""
    case Other(_) => ""
  }

  /** The positional predicate `[k]`, present only for a positive index. */
  function IndexPredicate(index: int): (p: string)
    ensures p == "" <==> index <= 0
    ensures index > 0 ==> |p| >= 3 && p[0] == '[' && p[|p| - 1] == ']'
  {
    if index > 0 then "[" + Decimal(index) + "]" else ""
  }

  /** `optimized && node.getAttribute("id")` on an element: the id is present and non-empty. */
  predicate UsesIdShortcut(nd: Node, optimized: bool) {
    optimized && nd.kind == Element && nd.id.Some? && nd.id.value != ""
  }

  /** The case analysis of `_xPathValue` for a node whose sibling index is already known. */
  function MakeStep(nd: Node, index: int, optimized: bool): (r: Option<PathStep>)
    ensures r.None? <==> index == -1
    ensures r.Some? ==> (r.value.optimized <==> UsesIdShortcut(nd, optimized) || nd.kind == Document)
    ensures r.Some? && UsesIdShortcut(nd, optimized) ==> r.value.value == IdShortcut(nd.id.value)
    ensures r.Some? && !UsesIdShortcut(nd, optimized) && index == 0 ==> r.value.value == NodeTest(nd)
  {
    if index == -1 then None
    else if UsesIdShortcut(nd, optimized) then Some(NewPathStep(IdShortcut(nd.id.value), Some(true)))
    else Some(NewPathStep(NodeTest(nd) + IndexPredicate(index), Some(nd.kind == Document)))
  }

  /**
   * `v` is the node test `test` followed by `[k]`, where the digits between
   * the brackets are the decimal numeral of `index`.
   */
  predicate NamesIndex(v: string, test: string, index: int) {
    var t := |test|;
    t + 3 <= |v| && v[..t] == test && v[t] == '[' && v[|v| - 1] == ']' &&
    AllDigits(v[t + 1..|v| - 1]) && ParseDecimal(v[t + 1..|v| - 1]) == index
  }

  /** A node test followed by `[k]`, for a positive k, reads back as that node test and k. */
  lemma {:induction false} IndexPredicateRoundTrip(test: string, index: int)
    requires index > 0
    ensures NamesIndex(test + IndexPredicate(index), test, index)
  {
    var v := test + IndexPredicate(index);
    assert v == test + "[" + Decimal(index) + "]";
    assert v[|test| + 1..|v| - 1] == Decimal(index);
    ParseDecimalRoundTrip(index);
  }

  /**
   * After the node test, a step for a positive index holds exactly `[k]` with
   * k in decimal, so the sibling index can be read back from the step.
   */
  lemma {:induction false} StepNamesIndex(nd: Node, index: int, optimized: bool)
    requires index > 0 && !UsesIdShortcut(nd, optimized)
    ensures MakeStep(nd, index, optimized).Some?
    ensures NamesIndex(MakeStep(nd, index, optimized).value.value, NodeTest(nd), index)
  {
    IndexPredicateRoundTrip(NodeTest(nd), index);
  }

  /** `_xPathValue` as a function of the snapshot. */
  function StepFor(d: Dom, n: NodeId, optimized: bool): (r: Option<PathStep>)
    requires Closed(d) && n in d.nodes
    ensures r.None? <==> SiblingIndex(d, n) == -1
  {
    MakeStep(d.nodes[n], SiblingIndex(d, n), optimized)
  }

  /**
   * Similar nodes other than attributes share their node test, so the `[k]`
   * predicate counts only siblings that the step's node test also matches.
   */
  lemma {:induction false} SimilarNodesShareNodeTest(d: Dom, a: NodeId, b: NodeId)
    requires a in d.nodes && b in d.nodes && AreNodesSimilar(d, a, b)
    requires d.nodes[a].kind != Attribute
    ensures NodeTest(d.nodes[a]) == NodeTest(d.nodes[b])
  {
    SimilarIffSameKey(d, a, b);
    if a != b && d.nodes[a].kind != Element {
      assert XPathKind(d.nodes[a].kind) == XPathKind(d.nodes[b].kind);
    }
  }

  /** The step of a document node without a parent is the empty, optimized step. */
  lemma {:induction false} DocumentStep(d: Dom, n: NodeId, optimized: bool)
    requires Closed(d) && n in d.nodes
    requires d.nodes[n].kind == Document && d.nodes[n].parent.None?
    ensures StepFor(d, n, optimized) == Some(PathStep("", true))
  {
    assert SiblingIndex(d, n) == 0;
    assert NodeTest(d.nodes[n]) + IndexPredicate(0) == "";
  }

  /** `_xPathValue`: the index is computed first, so a node with index -1 never yields a step. */
  method XPathValue(d: Dom, node: NodeId, optimized: bool) returns (step: Option<PathStep>)
    requires Closed(d) && node in d.nodes
    ensures step == StepFor(d, node, optimized)
    ensures step.None? <==> SiblingIndex(d, node) == -1
  {
    var ownIndex := XPathIndex(d, node);
    step := MakeStep(d.nodes[node], ownIndex, optimized);
  }
}
