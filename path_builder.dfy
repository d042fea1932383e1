/**
 * `xPath` of get_xpath.js: walk from a node up through its parents, one
 * step per node, then reverse the steps and join them with "/".
 */
module PathBuilder {
  import opened Wrappers
  import opened DomModel
  import opened Siblings
  import opened Steps

  /**
   * The steps the walk collects, starting at `n` and going up: it ends before
   * the first node that yields no step, after the first optimized step, or at
   * a node without a parent.
   */
  function Walk(d: Dom, n: NodeId, optimized: bool): (steps: seq<PathStep>)
    requires WellFormed(d) && n in d.nodes
    ensures |steps| <= d.depth[n] + 1
    decreases d.depth[n]
  {
    match StepFor(d, n, optimized)
    case None => []
    case Some(step) =>
      if step.optimized then [step]
      else
        match d.nodes[n].parent
        case None => [step]
        case Some(p) => [step] + Walk(d, p, optimized)
  }

  /** One step of the walk, in terms of the node's own step and its parent. */
  lemma {:induction false} WalkUnfold(d: Dom, n: NodeId, optimized: bool)
    requires WellFormed(d) && n in d.nodes
    ensures Walk(d, n, optimized) ==
      match StepFor(d, n, optimized)
      case None => []
      case Some(st) =>
        if st.optimized || d.nodes[n].parent.None? then [st]
        else [st] + Walk(d, d.nodes[n].parent.value, optimized)
  {
  }

  /** Only the last step of a walk can be optimized. */
  lemma {:induction false} WalkStopsAtOptimized(d: Dom, n: NodeId, optimized: bool)
    requires WellFormed(d) && n in d.nodes
    ensures var w := Walk(d, n, optimized);
      forall i | 0 <= i < |w| - 1 :: !w[i].optimized
    decreases d.depth[n]
  {
    var w := Walk(d, n, optimized);
    if |w| > 1 {
      WalkCons(d, n, optimized);
      var p := d.nodes[n].parent.value;
      var rest := Walk(d, p, optimized);
      WalkStopsAtOptimized(d, p, optimized);
      forall i | 0 <= i < |w| - 1
        ensures !w[i].optimized
      {
        if i > 0 {
          assert w[i] == rest[i - 1];
        }
      }
    }
  }

  /** A walk of two or more steps is a non-optimized first step followed by the parent's walk. */
  lemma {:induction false} WalkCons(d: Dom, n: NodeId, optimized: bool)
    requires WellFormed(d) && n in d.nodes && |Walk(d, n, optimized)| > 1
    ensures d.nodes[n].parent.Some?
    ensures var w := Walk(d, n, optimized);
      !w[0].optimized && w == [w[0]] + Walk(d, d.nodes[n].parent.value, optimized)
  {
    WalkUnfold(d, n, optimized);
  }

  /** `Array.prototype.reverse`, as a value. */
  function Reverse<T>(s: seq<T>): (r: seq<T>)
    ensures |r| == |s|
  {
    if s == [] then [] else Reverse(s[1..]) + [s[0]]
  }

  lemma {:induction false} ReverseAt<T>(s: seq<T>, i: nat)
    requires i < |s|
    ensures Reverse(s)[i] == s[|s| - 1 - i]
  {
    if i < |s| - 1 {
      ReverseAt(s[1..], i);
    }
  }

  /** The steps' `toString()` values. */
  function Values(steps: seq<PathStep>): (r: seq<string>)
    ensures |r| == |steps|
    ensures forall i | 0 <= i < |steps| :: r[i] == steps[i].value
  {
    if steps == [] then [] else [steps[0].value] + Values(steps[1..])
  }

  lemma {:induction false} ValuesSnoc(steps: seq<PathStep>, last: PathStep)
    ensures Values(steps + [last]) == Values(steps) + [last.value]
  {
    if steps != [] {
      assert (steps + [last])[1..] == steps[1..] + [last];
      ValuesSnoc(steps[1..], last);
    }
  }

  /** `Array.prototype.join("/")`. */
  function Join(parts: seq<string>): string {
    if |parts| == 0 then ""
    else if |parts| == 1 then parts[0]
    else parts[0] + "/" + Join(parts[1..])
  }

  lemma {:induction false} JoinSnoc(parts: seq<string>, last: string)
    requires |parts| > 0
    ensures Join(parts + [last]) == Join(parts) + "/" + last
  {
    if |parts| > 1 {
      assert (parts + [last])[1..] == parts[1..] + [last];
      JoinSnoc(parts[1..], last);
    }
  }

  /**
   * The end of `xPath` for the steps collected node first: reverse them, join
   * them with "/" and prefix "/" unless the first of the reversed steps is optimized.
   */
  function Render(collected: seq<PathStep>): string {
    var steps := Reverse(collected);
    (if |steps| > 0 && steps[0].optimized then "" else "/") + Join(Values(steps))
  }

  /** Collecting one more step below a non-empty walk adds "/" and that step at the end. */
  lemma {:induction false} RenderCons(st: PathStep, rest: seq<PathStep>)
    requires rest != [] && !st.optimized
    ensures Render([st] + rest) == Render(rest) + "/" + st.value
  {
    var r := Reverse(rest);
    assert ([st] + rest)[1..] == rest;
    assert Reverse([st] + rest) == r + [st];
    ReverseAt(rest, 0);
    ValuesSnoc(r, st);
    JoinSnoc(Values(r), st.value);
  }

  /** The string `xPath(node, optimized)` returns. */
  function PathOf(d: Dom, n: NodeId, optimized: bool): string
    requires WellFormed(d) && n in d.nodes
  {
    if d.nodes[n].kind == Document then "/" else Render(Walk(d, n, optimized))
  }

  /** `xPath`: the upward walk with its early exits, then reverse and join. */
  method XPath(d: Dom, node: NodeId, optimized: bool) returns (path: string)
    requires WellFormed(d) && node in d.nodes
    ensures path == PathOf(d, node, optimized)
    ensures d.nodes[node].kind == Document ==> path == "/"
  {
    if d.nodes[node].kind == Document {
      return "/";
    }
    var steps: seq<PathStep> := [];
    var contextNode: Option<NodeId> := Some(node);
    while contextNode.Some?
      invariant contextNode.Some? ==> contextNode.value in d.nodes
      invariant steps + (if contextNode.Some? then Walk(d, contextNode.value, optimized) else [])
        == Walk(d, node, optimized)
      decreases if contextNode.Some? then d.depth[contextNode.value] + 1 else 0
    {
      var current := contextNode.value;
      var step := XPathValue(d, current, optimized);
      WalkAdvance(d, node, current, optimized, steps);
      if step.None? {
        break;
      }
      steps := steps + [step.value];
      if step.value.optimized {
        break;
      }
      contextNode := d.nodes[current].parent;
    }
    assert steps == Walk(d, node, optimized);
    steps := Reverse(steps);
    path := (if |steps| > 0 && steps[0].optimized then "" else "/") + Join(Values(steps));
  }

  /** What one turn of the loop in `xPath` does to the steps collected so far. */
  lemma {:induction false} WalkAdvance(d: Dom, node: NodeId, current: NodeId, optimized: bool,
                                       steps: seq<PathStep>)
    requires WellFormed(d) && node in d.nodes && current in d.nodes
    requires steps + Walk(d, current, optimized) == Walk(d, node, optimized)
    ensures StepFor(d, current, optimized).None? ==> steps == Walk(d, node, optimized)
    ensures StepFor(d, current, optimized).Some? ==>
      var st := StepFor(d, current, optimized).value;
      if st.optimized || d.nodes[current].parent.None? then
        steps + [st] == Walk(d, node, optimized)
      else
        steps + [st] + Walk(d, d.nodes[current].parent.value, optimized) == Walk(d, node, optimized)
  {
    WalkUnfold(d, current, optimized);
    if StepFor(d, current, optimized).None? {
      assert steps + [] == steps;
    } else {
      var st := StepFor(d, current, optimized).value;
      if !st.optimized && d.nodes[current].parent.Some? {
        AppendAssoc(steps, [st], Walk(d, d.nodes[current].parent.value, optimized));
      }
    }
  }

  lemma {:induction false} AppendAssoc<T>(a: seq<T>, b: seq<T>, c: seq<T>)
    ensures a + (b + c) == a + b + c
  {
  }

  /** If the node itself yields no step, the walk collects nothing and the path is "/". */
  lemma {:induction false} FailedStepGivesRoot(d: Dom, n: NodeId, optimized: bool)
    requires WellFormed(d) && n in d.nodes && StepFor(d, n, optimized).None?
    ensures PathOf(d, n, optimized) == "/"
  {
    WalkUnfold(d, n, optimized);
  }

  /** With `optimized`, an element with a non-empty id and a consistent index is addressed by its id alone. */
  lemma {:induction false} IdShortcutPath(d: Dom, n: NodeId)
    requires WellFormed(d) && n in d.nodes
    requires UsesIdShortcut(d.nodes[n], true) && SiblingIndex(d, n) != -1
    ensures PathOf(d, n, true) == IdShortcut(d.nodes[n].id.value)
  {
    var st := PathStep(IdShortcut(d.nodes[n].id.value), true);
    WalkUnfold(d, n, true);
    assert Walk(d, n, true) == [st];
    assert Reverse([st]) == [st];
  }

  /** A step after which the walk stops is, without `optimized`, the empty document step. */
  lemma {:induction false} UnoptimizedTerminalStepIsEmpty(d: Dom, n: NodeId)
    requires WellFormed(d) && DocumentsAreRoots(d) && n in d.nodes
    ensures var w := Walk(d, n, false);
      forall i | 0 <= i < |w| :: w[i].optimized ==> w[i].value == ""
    decreases d.depth[n]
  {
    WalkUnfold(d, n, false);
    var w := Walk(d, n, false);
    match StepFor(d, n, false)
    case None =>
    case Some(step) =>
      if step.optimized {
        assert SiblingIndex(d, n) == 0;
      } else if d.nodes[n].parent.Some? {
        var p := d.nodes[n].parent.value;
        UnoptimizedTerminalStepIsEmpty(d, p);
        assert w == [step] + Walk(d, p, false);
      }
  }

  /** Without `optimized`, every path is absolute: it starts with "/". */
  lemma {:induction false} UnoptimizedPathIsAbsolute(d: Dom, n: NodeId)
    requires WellFormed(d) && DocumentsAreRoots(d) && n in d.nodes
    ensures |PathOf(d, n, false)| > 0 && PathOf(d, n, false)[0] == '/'
  {
    if d.nodes[n].kind != Document {
      var w := Walk(d, n, false);
      var r := Reverse(w);
      if |r| > 0 && r[0].optimized {
        ReverseAt(w, 0);
        UnoptimizedTerminalStepIsEmpty(d, n);
        WalkStopsAtOptimized(d, n, false);
        WalkUnfold(d, n, false);
        assert |w| >= 2;
        assert Values(r)[0] == "";
      }
    }
  }

  /** A node's path is its parent's path followed by its own step. */
  lemma {:induction false} PathExtendsParent(d: Dom, n: NodeId, optimized: bool)
    requires WellFormed(d) && n in d.nodes && d.nodes[n].kind != Document
    requires StepFor(d, n, optimized).Some? && !StepFor(d, n, optimized).value.optimized
    requires d.nodes[n].parent.Some?
    requires var p := d.nodes[n].parent.value;
      d.nodes[p].kind != Document && StepFor(d, p, optimized).Some?
    ensures PathOf(d, n, optimized) ==
      PathOf(d, d.nodes[n].parent.value, optimized) + "/" + StepFor(d, n, optimized).value.value
  {
    var p := d.nodes[n].parent.value;
    var st := StepFor(d, n, optimized).value;
    WalkUnfold(d, n, optimized);
    WalkUnfold(d, p, optimized);
    RenderCons(st, Walk(d, p, optimized));
  }

  /** A child of a root document node has the path "/" followed by its own step. */
  lemma {:induction false} PathBelowDocument(d: Dom, n: NodeId, optimized: bool)
    requires WellFormed(d) && n in d.nodes && d.nodes[n].kind != Document
    requires StepFor(d, n, optimized).Some? && !StepFor(d, n, optimized).value.optimized
    requires d.nodes[n].parent.Some?
    requires var p := d.nodes[n].parent.value;
      d.nodes[p].kind == Document && d.nodes[p].parent.None?
    ensures PathOf(d, n, optimized) == "/" + StepFor(d, n, optimized).value.value
  {
    var p := d.nodes[n].parent.value;
    var st := StepFor(d, n, optimized).value;
    DocumentStep(d, p, optimized);
    WalkUnfold(d, n, optimized);
    WalkUnfold(d, p, optimized);
    RenderBelowDocument(st, Walk(d, n, optimized));
  }

  /** Two collected steps, the upper one the document step, render as "/" and the lower one. */
  lemma {:induction false} RenderBelowDocument(st: PathStep, collected: seq<PathStep>)
    requires !st.optimized && collected == [st] + [PathStep("", true)]
    ensures Render(collected) == "/" + st.value
  {
    var doc := PathStep("", true);
    RenderCons(st, [doc]);
    assert Reverse([doc]) == [doc];
  }

  /** Where the walk ends after the node's own step, the path is "/" and that step. */
  lemma {:induction false} PathAtWalkTop(d: Dom, n: NodeId, optimized: bool)
    requires WellFormed(d) && n in d.nodes && d.nodes[n].kind != Document
    requires StepFor(d, n, optimized).Some? && !StepFor(d, n, optimized).value.optimized
    requires d.nodes[n].parent.None? || StepFor(d, d.nodes[n].parent.value, optimized).None?
    ensures PathOf(d, n, optimized) == "/" + StepFor(d, n, optimized).value.value
  {
    var st := StepFor(d, n, optimized).value;
    WalkUnfold(d, n, optimized);
    if d.nodes[n].parent.Some? {
      WalkUnfold(d, d.nodes[n].parent.value, optimized);
    }
    assert Walk(d, n, optimized) == [st];
    assert Reverse([st]) == [st];
  }
}
