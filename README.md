# XPath generator for DOM nodes

This project is a Dafny model of `get_xpath.js`. Given a node of a document
tree, that file builds an XPath 1.0 location path that addresses the node.
`Utils.xPath` walks from the node up through its parents. It asks
`Utils._xPathValue` for one location step per node. It stops at the first
node that yields no step, after the first step marked `optimized`, or at a
node without a parent. It then reverses the steps and joins them with "/".
A step is a node test. It is followed by a positional predicate `[k]` when
`Utils._xPathIndex` gives the node a positive index. The index is the node's
1-based position among the children of its parent that are similar to it,
as decided by `areNodesSimilar`. An element with a non-empty id, when
`optimized` is set, is given the absolute shortcut `//*[@id="…"]` instead.

A result of "/" does not mean success. Suppose the node is missing from its
parent's children while another child is similar to it. Its index is then -1
(`MissingNodeIsError`), and `xPath` returns "/" (`FailedStepGivesRoot`). If no
other child is similar, the index is 0 and the missing node goes undetected:
it gets its ordinary step and the walk goes on. The same holds for an
ancestor. With a similar sibling present, the walk stops below it and the
result is a partial path that still starts with "/" (`PathAtWalkTop`).
Without one, the ancestor goes undetected.

The modules follow the source:

- `DomModel` (`dom.dfy`) is the part of the DOM the generator reads. Each
  node has a type, `localName`, `nodeName`, the `id` attribute, a parent
  reference and the `children` list. A snapshot `Dom` maps node references
  to nodes. `WellFormed` says two things: every reference names a node of
  the snapshot, and a ghost ranking `depth` decreases strictly from child to
  parent, so parent chains are finite.
- `Numerals` (`decimal.dfy`) is the decimal text JavaScript produces for
  `"[" + ownIndex + "]"`, and its inverse.
- `Siblings` (`sibling_index.dfy`) holds `areNodesSimilar` and
  `_xPathIndex`. The two `for` loops of `_xPathIndex` are the methods
  `ScanForSimilar` and `ScanForRank`. Each is proved against a reference
  function. `SiblingIndex` is the reference definition of the whole index.
- `Steps` (`path_step.dfy`) holds `DOMNodePathStep` and `_xPathValue`. The
  case analysis on the node's type is the function `MakeStep`. The method
  `XPathValue` computes the index first and then applies it.
- `PathBuilder` (`path_builder.dfy`) holds `xPath`. The method `XPath` keeps
  the source's `while` loop over `contextNode`. It is proved equal to
  `PathOf`, which is `Render` applied to the upward walk `Walk`. `Render`
  reverses the collected steps and joins them.

## Model

| member | source | states |
|---|---|---|
| PathBuilder.XPath | get_xpath.js:39-57 | the loop returns exactly `PathOf(node)`; a document node gives "/" with no walk |
| PathBuilder.Walk | get_xpath.js:46-54 | given acyclic parent references, the walk ends and collects at most depth(node)+1 steps |
| PathBuilder.WalkAdvance | get_xpath.js:47-53 | one turn of the loop: no step ends the walk with nothing pushed; an optimized step or a missing parent ends it after the push; otherwise the walk continues at the parent |
| PathBuilder.WalkStopsAtOptimized | get_xpath.js:50-52 | only the last collected step can be optimized, because the walk stops right after pushing one |
| PathBuilder.WalkCons | get_xpath.js:50-53 | a walk of two or more steps begins with a non-optimized step, and the parent's walk follows it |
| PathBuilder.Reverse | get_xpath.js:55 | reversal keeps the length |
| PathBuilder.ReverseAt | get_xpath.js:55 | position i of the reversed steps holds the step collected at position n-1-i |
| PathBuilder.Values | get_xpath.js:56 | one string per step, and position i holds the value of step i (`toString`) |
| PathBuilder.ValuesSnoc | get_xpath.js:56 | the values of the steps with one more step appended are the earlier values followed by that step's value |
| PathBuilder.Join | get_xpath.js:56 | `Array.prototype.join("/")`, defined by cases; `JoinSnoc` states how it grows |
| PathBuilder.Render | get_xpath.js:55-56 | reverse the collected steps, join their values with "/", and prefix "/" unless the first reversed step is optimized; `RenderCons` and `RenderBelowDocument` state its cases |
| PathBuilder.PathOf | get_xpath.js:39-57 | "/" for a document node, otherwise the rendered walk; the path lemmas below state its cases |
| PathBuilder.JoinSnoc | get_xpath.js:56 | joining one more part appends "/" and that part |
| PathBuilder.RenderCons | get_xpath.js:55-56 | collecting one more non-optimized step below a non-empty walk appends "/" and that step's value to the path |
| PathBuilder.FailedStepGivesRoot | get_xpath.js:47-56 | if the node itself yields no step, the path is "/" |
| PathBuilder.IdShortcutPath | get_xpath.js:71-72 | with `optimized`, an element with a non-empty id and an index other than -1 gets exactly `//*[@id="<id>"]`, whatever its ancestors |
| PathBuilder.UnoptimizedTerminalStepIsEmpty | get_xpath.js:88-97 | without `optimized`, every optimized step the walk collects has the empty value |
| PathBuilder.UnoptimizedPathIsAbsolute | get_xpath.js:56 | without `optimized`, every path starts with "/": from the prefix, or from the join after the empty document step |
| PathBuilder.PathExtendsParent | get_xpath.js:46-56 | a node's path is its parent's path, then "/", then its own step, when both steps exist and neither is optimized |
| PathBuilder.PathBelowDocument | get_xpath.js:46-56 | a child of a root document node has the path "/" followed by its own step |
| PathBuilder.RenderBelowDocument | get_xpath.js:55-56 | a non-optimized step collected before the empty document step renders as "/" and that step |
| PathBuilder.PathAtWalkTop | get_xpath.js:46-56 | where the walk ends after the node's own step (no parent, or the parent yields no step), the path is "/" and that step |
| Steps.NewPathStep | get_xpath.js:142-146 | the step keeps the value it is given, and it is optimized only when `true` is passed |
| Steps.NodeTest | get_xpath.js:69-94 | text and CDATA nodes share the test `text()`; an attribute's test is "@" followed by its name; only elements, documents and other types can have the empty test |
| Steps.IndexPredicate | get_xpath.js:95-96 | the predicate is empty iff the index is not positive; otherwise it is at least three characters, between "[" and "]" |
| Steps.UsesIdShortcut | get_xpath.js:71 | definition: `optimized` is set, the node is an element, and `getAttribute("id")` is present and non-empty; `MakeStep` states its effect |
| Steps.StepFor | get_xpath.js:63-98 | the node yields no step iff its sibling index is -1 |
| Steps.SimilarNodesShareNodeTest | get_xpath.js:69-94 | two similar nodes that are not attributes have the same node test |
| Steps.MakeStep | get_xpath.js:65-97 | no step iff the index is -1, checked before the id shortcut; the step is optimized iff it is the id shortcut or the node is a document; the shortcut value is exactly `//*[@id="<id>"]` with no `[k]`; with index 0 the value is the bare node test |
| Steps.IndexPredicateRoundTrip | get_xpath.js:95-96 | a node test followed by the `[k]` predicate for k > 0 reads back as that node test, brackets and the decimal digits of k |
| Steps.StepNamesIndex | get_xpath.js:73-96 | for a positive index and no shortcut, the step value is the node test followed by `[k]`, from which k reads back |
| Steps.DocumentStep | get_xpath.js:88-97 | a document node without a parent yields the empty, optimized step |
| Steps.XPathValue | get_xpath.js:63-98 | the method computes the index first and yields no step iff the index is -1 |
| Numerals.Decimal | get_xpath.js:96 | the index is written in decimal digits with no leading zero, and "0" only for 0 |
| Numerals.ParseDecimalRoundTrip | get_xpath.js:96 | the decimal text of a number reads back as that number |
| Numerals.DecimalInjective | get_xpath.js:96 | different indices give different texts |
| Siblings.AreNodesSimilar | get_xpath.js:106-118 | a node is similar to itself; an element and a non-element are similar only if they are the same node |
| Siblings.SimilarIffSameKey | get_xpath.js:106-118 | two nodes are similar iff they are the same node or they share a key: an element's local name, or for any other node its type (CDATA as text), so any two attributes are similar |
| Siblings.SimilarCases | get_xpath.js:106-118 | two elements are similar iff their local names are equal; two non-elements iff their types agree with CDATA as text; an element and a non-element never are |
| Siblings.SimilarIsEquivalence | get_xpath.js:106-118 | similarity is reflexive, symmetric and transitive |
| Siblings.SameKeySameSiblings | get_xpath.js:106-118 | similar nodes select the same siblings |
| Siblings.SimilarSiblingsMember | get_xpath.js:132-137 | a node is among the similar siblings iff it is a child similar to the node |
| Siblings.SimilarSiblingsAppend | get_xpath.js:132-137 | the similar siblings of two concatenated child lists are those of each list, in order |
| Siblings.HasSimilarOther | get_xpath.js:122-128 | definition: some child other than the node is similar to it; `ScanForSimilar` computes it and `ZeroIndexIsUnambiguous` states its meaning |
| Siblings.Rank | get_xpath.js:131-139 | -1 iff the node does not occur among the children, otherwise between 1 and the number of children |
| Siblings.FirstIndex | get_xpath.js:134-135 | the position of the node's first occurrence among the children |
| Siblings.RankSelects | get_xpath.js:131-138 | the rank k of a node that occurs among the children is between 1 and the number of similar children, and the k-th similar child is the node |
| Siblings.SiblingIndex | get_xpath.js:119-139 | the index is never below -1 |
| Siblings.ScanForSimilar | get_xpath.js:122-128 | the first loop finds whether some other child is similar to the node |
| Siblings.ScanForRank | get_xpath.js:131-139 | the second loop returns 1 + the number of similar children before the node's first occurrence, or -1 if the node does not occur |
| Siblings.XPathIndex | get_xpath.js:103-140 | `_xPathIndex` returns the reference index `SiblingIndex` |
| Siblings.IndexSelectsNode | get_xpath.js:131-139 | a positive index k is sound: the k-th child similar to the node is the node itself, and another similar child exists |
| Siblings.ZeroIndexIsUnambiguous | get_xpath.js:119-130 | the index is 0 iff the node has no parent or no other child of the parent is similar to it |
| Siblings.MissingNodeIsError | get_xpath.js:123-139 | the index is -1 iff the node has a parent whose children do not contain it but do contain another similar node |
| Siblings.SimilarSiblingsGetDistinctIndices | get_xpath.js:131-139 | two different similar children of one parent both get positive, different indices |

## Left out

- `lib/ghostmode.xpath.js` is not part of this model. It registers callbacks on a host object and passes paths to the browser's own XPath evaluator, which has no visible semantics here. For the same reason, no lemma relates a generated path to the nodes an evaluator would select.
- The `Utils` namespace object (get_xpath.js:32) and the `module.exports` line (get_xpath.js:159) are module wiring.
- `DOMNodePathStep.prototype.toString` is the `value` field. `Values` reads that field directly.
- `children` is the host's collection, taken as an arbitrary sequence of nodes of the snapshot. In browsers it holds element children only, but that HTMLCollection behaviour is not encoded. Nothing ties a node's `children` to the other nodes' `parent` references, so the inconsistent case that yields -1 stays reachable.
- The id is embedded between double quotes without escaping, as the source does. A `"` inside an id gives a malformed path, and the model reproduces that.
- Termination of the walk rests on a ghost ranking `depth` of the snapshot, which the source does not have. A DOM never has a cyclic parent chain.
- Node types other than the seven named kinds are the kind `Other`, which keeps the `nodeType` code. The type `OtherCode` rules out the codes of the named kinds. Two such nodes are similar exactly when their codes are equal, as at get_xpath.js:112-117, and they get the empty node test, as the `default` branch does.
- PathBuilder.UnoptimizedPathIsAbsolute and PathBuilder.UnoptimizedTerminalStepIsEmpty additionally require that document nodes have no parent (`DocumentsAreRoots`), a rule of the DOM that the source relies on without checking.
- PathBuilder.XPath: `steps.reverse()` reverses the array in place. The model reassigns the `steps` sequence to its reversal, so the aliasing of the array is not modelled.
- Siblings.XPathIndex: the two loops are two helper methods, `ScanForSimilar` and `ScanForRank`, called in the source's order.
