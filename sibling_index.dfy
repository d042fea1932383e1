/**
 * `_xPathIndex` of get_xpath.js: a node's 1-based position among the children
 * of its parent that the node's own step would also match (the proximity
 * positions of section 2.4 of XPath 1.0), 0 when the step alone is
 * unambiguous, and -1 when the node is missing from its parent's children.
 */
module Siblings {
  import opened Wrappers
  import opened DomModel

  /** The node type an XPath node test sees: CDATA sections are text (section 5.7 of XPath 1.0). */
  function XPathKind(k: Kind): Kind {
    if k == CData then Text else k
  }

  /** The key similarity compares: an element's local name, or for any other node its type (CDATA as text). */
  datatype TestKey = NameKey(name: string) | KindKey(kind: Kind)

  function KeyOf(nd: Node): TestKey {
    if nd.kind == Element then NameKey(nd.localName) else KindKey(XPathKind(nd.kind))
  }

  /**
   * `areNodesSimilar`: the same node, or two nodes with the same key. For
   * attributes the key is the type alone, so two attributes are similar whatever their names.
   */
  predicate AreNodesSimilar(d: Dom, left: NodeId, right: NodeId)
    requires left in d.nodes && right in d.nodes
    ensures left == right ==> AreNodesSimilar(d, left, right)
    ensures (d.nodes[left].kind == Element) != (d.nodes[right].kind == Element) ==>
      (AreNodesSimilar(d, left, right) <==> left == right)
  {
    if left == right then true
    else if d.nodes[left].kind == Element && d.nodes[right].kind == Element then
      d.nodes[left].localName == d.nodes[right].localName
    else if d.nodes[left].kind == d.nodes[right].kind then true
    else XPathKind(d.nodes[left].kind) == XPathKind(d.nodes[right].kind)
  }

  /** Two nodes are similar iff they are the same node or their steps share a node test. */
  lemma {:induction false} SimilarIffSameKey(d: Dom, left: NodeId, right: NodeId)
    requires left in d.nodes && right in d.nodes
    ensures AreNodesSimilar(d, left, right) <==>
      left == right || KeyOf(d.nodes[left]) == KeyOf(d.nodes[right])
  {
  }

  /** The three cases of similarity, each in both directions. */
  lemma {:induction false} SimilarCases(d: Dom, left: NodeId, right: NodeId)
    requires left in d.nodes && right in d.nodes
    ensures d.nodes[left].kind == Element && d.nodes[right].kind == Element ==>
      (AreNodesSimilar(d, left, right) <==> d.nodes[left].localName == d.nodes[right].localName)
    ensures d.nodes[left].kind != Element && d.nodes[right].kind != Element ==>
      (AreNodesSimilar(d, left, right) <==>
        XPathKind(d.nodes[left].kind) == XPathKind(d.nodes[right].kind))
    ensures (d.nodes[left].kind == Element) != (d.nodes[right].kind == Element) ==>
      !AreNodesSimilar(d, left, right)
  {
  }

  /** Similarity is an equivalence relation on the nodes of a snapshot. */
  lemma {:induction false} SimilarIsEquivalence(d: Dom, a: NodeId, b: NodeId, c: NodeId)
    requires a in d.nodes && b in d.nodes && c in d.nodes
    ensures AreNodesSimilar(d, a, a)
    ensures AreNodesSimilar(d, a, b) ==> AreNodesSimilar(d, b, a)
    ensures AreNodesSimilar(d, a, b) && AreNodesSimilar(d, b, c) ==> AreNodesSimilar(d, a, c)
  {
  }

  predicate AllIn(d: Dom, s: seq<NodeId>) {
    forall c | c in s :: c in d.nodes
  }

  /** The nodes of `s` similar to `n`, in document order: what the step of `n` selects among them. */
  function SimilarSiblings(d: Dom, n: NodeId, s: seq<NodeId>): (r: seq<NodeId>)
    requires n in d.nodes && AllIn(d, s)
    ensures |r| <= |s|
    decreases |s|
  {
    if s == [] then []
    else
      var last := s[|s| - 1];
      SimilarSiblings(d, n, s[..|s| - 1]) + (if AreNodesSimilar(d, n, last) then [last] else [])
  }

  lemma {:induction false} SimilarSiblingsMember(d: Dom, n: NodeId, s: seq<NodeId>, c: NodeId)
    requires n in d.nodes && AllIn(d, s)
    ensures c in SimilarSiblings(d, n, s) <==> c in s && c in d.nodes && AreNodesSimilar(d, n, c)
    decreases |s|
  {
    if s != [] {
      SimilarSiblingsMember(d, n, s[..|s| - 1], c);
      assert s == s[..|s| - 1] + [s[|s| - 1]];
    }
  }

  lemma {:induction false} SimilarSiblingsAppend(d: Dom, n: NodeId, a: seq<NodeId>, b: seq<NodeId>)
    requires n in d.nodes && AllIn(d, a) && AllIn(d, b)
    ensures SimilarSiblings(d, n, a + b) == SimilarSiblings(d, n, a) + SimilarSiblings(d, n, b)
    decreases |b|
  {
    if b == [] {
      assert a + b == a;
    } else {
      var b' := b[..|b| - 1];
      assert (a + b)[..|a + b| - 1] == a + b';
      SimilarSiblingsAppend(d, n, a, b');
    }
  }

  lemma {:induction false} PrefixStep(d: Dom, n: NodeId, s: seq<NodeId>, i: nat)
    requires n in d.nodes && AllIn(d, s) && i < |s|
    ensures SimilarSiblings(d, n, s[..i + 1]) ==
      SimilarSiblings(d, n, s[..i]) + (if AreNodesSimilar(d, n, s[i]) then [s[i]] else [])
  {
    assert s[..i + 1][..i] == s[..i];
  }

  /** Position of the first occurrence of `n` in `s`. */
  function FirstIndex(n: NodeId, s: seq<NodeId>): (i: nat)
    requires n in s
    ensures i < |s| && s[i] == n && n !in s[..i]
  {
    if s[0] == n then 0 else 1 + FirstIndex(n, s[1..])
  }

  lemma {:induction false} FirstIndexAt(n: NodeId, s: seq<NodeId>, i: nat)
    requires i < |s| && s[i] == n && forall j | 0 <= j < i :: s[j] != n
    ensures n in s && FirstIndex(n, s) == i
  {
  }

  predicate HasSimilarOther(d: Dom, n: NodeId, s: seq<NodeId>)
    requires n in d.nodes && AllIn(d, s)
  {
    exists i | 0 <= i < |s| :: s[i] != n && AreNodesSimilar(d, n, s[i])
  }

  /** 1 + the number of nodes similar to `n` before its first occurrence in `s`; -1 if it does not occur. */
  function Rank(d: Dom, n: NodeId, s: seq<NodeId>): (r: int)
    requires n in d.nodes && AllIn(d, s)
    ensures r == -1 <==> n !in s
    ensures r != -1 ==> 1 <= r <= |s|
  {
    if n in s then |SimilarSiblings(d, n, s[..FirstIndex(n, s)])| + 1 else -1
  }

  /** A rank k >= 1 picks `n` out: `n` is the k-th node of `s` similar to it. */
  lemma {:induction false} RankSelects(d: Dom, n: NodeId, s: seq<NodeId>)
    requires n in d.nodes && AllIn(d, s) && n in s
    ensures 1 <= Rank(d, n, s) <= |SimilarSiblings(d, n, s)|
    ensures SimilarSiblings(d, n, s)[Rank(d, n, s) - 1] == n
  {
    var j := FirstIndex(n, s);
    var pre, post := s[..j], s[j + 1..];
    assert AllIn(d, pre) && AllIn(d, post) && AllIn(d, [n]) && AllIn(d, pre + [n]);
    assert s == (pre + [n]) + post;
    var left := SimilarSiblings(d, n, pre);
    assert SimilarSiblings(d, n, [n]) == [n] by {
      assert [n][..0] == [];
    }
    SimilarSiblingsAppend(d, n, pre, [n]);
    assert SimilarSiblings(d, n, pre + [n]) == left + [n];
    SimilarSiblingsAppend(d, n, pre + [n], post);
    assert SimilarSiblings(d, n, s) == left + [n] + SimilarSiblings(d, n, post);
    assert Rank(d, n, s) == |left| + 1;
  }

  /** Reference definition of what `_xPathIndex` returns. */
  function SiblingIndex(d: Dom, n: NodeId): (r: int)
    requires Closed(d) && n in d.nodes
    ensures r >= -1
  {
    match d.nodes[n].parent
    case None => 0
    case Some(p) =>
      var s := d.nodes[p].children;
      if !HasSimilarOther(d, n, s) then 0 else Rank(d, n, s)
  }

  /** The first scan of `_xPathIndex`: is some other node of `siblings` similar to `node`? */
  method ScanForSimilar(d: Dom, node: NodeId, siblings: seq<NodeId>) returns (hasSameNamedElements: bool)
    requires node in d.nodes && AllIn(d, siblings)
    ensures hasSameNamedElements == HasSimilarOther(d, node, siblings)
  {
    hasSameNamedElements := false;
    for i := 0 to |siblings|
      invariant !hasSameNamedElements
      invariant forall j | 0 <= j < i :: !(siblings[j] != node && AreNodesSimilar(d, node, siblings[j]))
    {
      if AreNodesSimilar(d, node, siblings[i]) && siblings[i] != node {
        hasSameNamedElements := true;
        return;
      }
    }
  }

  /** The second scan of `_xPathIndex`: count similar nodes until `node` itself is met. */
  method ScanForRank(d: Dom, node: NodeId, siblings: seq<NodeId>) returns (index: int)
    requires node in d.nodes && AllIn(d, siblings)
    ensures index == Rank(d, node, siblings)
  {
    var ownIndex := 1;
    for i := 0 to |siblings|
      invariant forall j | 0 <= j < i :: siblings[j] != node
      invariant ownIndex == |SimilarSiblings(d, node, siblings[..i])| + 1
    {
      PrefixStep(d, node, siblings, i);
      if AreNodesSimilar(d, node, siblings[i]) {
        if siblings[i] == node {
          FirstIndexAt(node, siblings, i);
          return ownIndex;
        }
        ownIndex := ownIndex + 1;
      }
    }
    assert node !in siblings;
    return -1;
  }

  /** `_xPathIndex`: 0 for a root, 0 when no sibling shares the node test, else the rank (or -1). */
  method XPathIndex(d: Dom, node: NodeId) returns (index: int)
    requires Closed(d) && node in d.nodes
    ensures index == SiblingIndex(d, node)
  {
    if d.nodes[node].parent.None? {
      return 0;
    }
    var siblings := d.nodes[d.nodes[node].parent.value].children;
    var hasSameNamedElements := ScanForSimilar(d, node, siblings);
    if !hasSameNamedElements {
      return 0;
    }
    index := ScanForRank(d, node, siblings);
  }

  /**
   * A positive index k is sound: the k-th child of the parent that the node's
   * step matches is the node itself, and at least one other child matches too.
   */
  lemma {:induction false} IndexSelectsNode(d: Dom, n: NodeId)
    requires Closed(d) && n in d.nodes && SiblingIndex(d, n) >= 1
    ensures d.nodes[n].parent.Some?
    ensures var s := d.nodes[d.nodes[n].parent.value].children;
      var k := SiblingIndex(d, n);
      k <= |SimilarSiblings(d, n, s)| && SimilarSiblings(d, n, s)[k - 1] == n &&
      exists c :: c in SimilarSiblings(d, n, s) && c != n
  {
    var s := d.nodes[d.nodes[n].parent.value].children;
    assert AllIn(d, s);
    RankSelects(d, n, s);
    var i :| 0 <= i < |s| && s[i] != n && AreNodesSimilar(d, n, s[i]);
    SimilarSiblingsMember(d, n, s, s[i]);
  }

  /** Index 0 means the step needs no predicate: no other child of the parent is matched by it. */
  lemma {:induction false} ZeroIndexIsUnambiguous(d: Dom, n: NodeId)
    requires Closed(d) && n in d.nodes
    ensures SiblingIndex(d, n) == 0 <==>
      d.nodes[n].parent.None? ||
      forall c | c in SimilarSiblings(d, n, d.nodes[d.nodes[n].parent.value].children) :: c == n
  {
    if d.nodes[n].parent.Some? {
      var s := d.nodes[d.nodes[n].parent.value].children;
      if HasSimilarOther(d, n, s) {
        var i :| 0 <= i < |s| && s[i] != n && AreNodesSimilar(d, n, s[i]);
        SimilarSiblingsMember(d, n, s, s[i]);
      } else {
        forall c | c in SimilarSiblings(d, n, s) ensures c == n {
          SimilarSiblingsMember(d, n, s, c);
        }
      }
    }
  }

  /** Index -1 is exactly the inconsistent case: the parent's children lack the node but hold a similar one. */
  lemma {:induction false} MissingNodeIsError(d: Dom, n: NodeId)
    requires Closed(d) && n in d.nodes
    ensures SiblingIndex(d, n) == -1 <==>
      d.nodes[n].parent.Some? &&
      var s := d.nodes[d.nodes[n].parent.value].children;
      n !in s && exists c :: c in SimilarSiblings(d, n, s) && c != n
  {
    if d.nodes[n].parent.Some? {
      var s := d.nodes[d.nodes[n].parent.value].children;
      if HasSimilarOther(d, n, s) {
        var i :| 0 <= i < |s| && s[i] != n && AreNodesSimilar(d, n, s[i]);
        SimilarSiblingsMember(d, n, s, s[i]);
      }
      if exists c :: c in SimilarSiblings(d, n, s) && c != n {
        var c :| c in SimilarSiblings(d, n, s) && c != n;
        SimilarSiblingsMember(d, n, s, c);
      }
    }
  }

  /** Two different children of one parent that share a node test get different predicates. */
  lemma {:induction false} SimilarSiblingsGetDistinctIndices(d: Dom, p: NodeId, a: NodeId, b: NodeId)
    requires Closed(d) && p in d.nodes && a in d.nodes && b in d.nodes
    requires d.nodes[a].parent == Some(p) && d.nodes[b].parent == Some(p)
    requires a in d.nodes[p].children && b in d.nodes[p].children
    requires a != b && AreNodesSimilar(d, a, b)
    ensures SiblingIndex(d, a) >= 1 && SiblingIndex(d, b) >= 1
    ensures SiblingIndex(d, a) != SiblingIndex(d, b)
  {
    var s := d.nodes[p].children;
    var ib := FirstIndex(b, s);
    var ia := FirstIndex(a, s);
    assert HasSimilarOther(d, a, s) by {
      assert s[ib] != a && AreNodesSimilar(d, a, s[ib]);
    }
    assert HasSimilarOther(d, b, s) by {
      assert s[ia] != b && AreNodesSimilar(d, b, s[ia]);
    }
    IndexSelectsNode(d, a);
    IndexSelectsNode(d, b);
    assert SimilarSiblings(d, a, s) == SimilarSiblings(d, b, s) by {
      SameKeySameSiblings(d, a, b, s);
    }
  }

  lemma {:induction false} SameKeySameSiblings(d: Dom, a: NodeId, b: NodeId, s: seq<NodeId>)
    requires a in d.nodes && b in d.nodes && AllIn(d, s)
    requires AreNodesSimilar(d, a, b)
    ensures SimilarSiblings(d, a, s) == SimilarSiblings(d, b, s)
    decreases |s|
  {
    if s != [] {
      SameKeySameSiblings(d, a, b, s[..|s| - 1]);
    }
  }
}
