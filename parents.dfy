/**
 * The parent annotation pass that both scanners run before visiting, and the
 * elif test that reads it.
 */
module Parents {
  import opened SyntaxTree

  /**
   * `parent` is what the annotation pass leaves behind: every node except the
   * root has a parent entry, and that entry names the node whose children
   * contain it.
   */
  ghost predicate IsAnnotation(t: Node, parent: map<Path, Path>) {
    (forall r :: r in parent <==> r != [] && ValidPath(t, r)) &&
    (forall r :: r in parent ==> parent[r] == Up(r))
  }

  /**
   * For every node of the walk and every child of it, record the node as the
   * child's parent. The walk is taken in pre-order; the pass writes each
   * child's entry exactly once, so the order of the walk does not matter.
   */
  method AnnotateParents(t: Node) returns (parent: map<Path, Path>)
    ensures IsAnnotation(t, parent)
  {
    var walk := Visited(t);
    WalkNodes(t);
    parent := map[];
    for w := 0 to |walk|
      invariant parent == PassOver(t, walk[..w])
    {
      var node := walk[w];
      var children := At(t, node).children;
      for c := 0 to |children|
        invariant parent == PassOver(t, walk[..w]) + ChildEntries(node, c)
      {
        MapUpdateUnion(PassOver(t, walk[..w]), ChildEntries(node, c), node + [c], node);
        parent := parent[node + [c] := node];
      }
      PassOverStep(t, walk, w);
    }
    assert walk[..|walk|] == walk;
    PassOverWalk(t);
  }

  lemma {:induction false} WalkNodes(t: Node)
    ensures forall k :: 0 <= k < |Visited(t)| ==> ValidPath(t, Visited(t)[k])
  {
    VisitedExactly(t);
  }

  /** The entries the pass writes for the first `c` children of the node at `q`. */
  ghost function ChildEntries(q: Path, c: nat): map<Path, Path> {
    if c == 0 then map[] else ChildEntries(q, c - 1)[q + [c - 1] := q]
  }

  /** The entries the pass writes for the nodes `ns`, taken in that order. */
  ghost function PassOver(t: Node, ns: seq<Path>): map<Path, Path> {
    if ns == [] then map[]
    else
      var q := ns[|ns| - 1];
      PassOver(t, ns[..|ns| - 1]) + (if ValidPath(t, q) then ChildEntries(q, |At(t, q).children|) else map[])
  }

  /** Updating a union updates its right part; it keeps the inner loop's invariant cheap to check. */
  lemma {:induction false} MapUpdateUnion(a: map<Path, Path>, b: map<Path, Path>, k: Path, v: Path)
    ensures (a + b)[k := v] == a + b[k := v]
  {
  }

  lemma {:induction false} PassOverStep(t: Node, walk: seq<Path>, w: nat)
    requires w < |walk| && ValidPath(t, walk[w])
    ensures PassOver(t, walk[..w + 1]) ==
      PassOver(t, walk[..w]) + ChildEntries(walk[w], |At(t, walk[w]).children|)
  {
    assert walk[..w + 1][..w] == walk[..w];
  }

  lemma {:induction false} ChildEntriesExactly(q: Path, c: nat)
    ensures forall r :: r in ChildEntries(q, c) <==> r != [] && Up(r) == q && Last(r) < c
    ensures forall r :: r in ChildEntries(q, c) ==> ChildEntries(q, c)[r] == q
  {
    if c > 0 {
      ChildEntriesExactly(q, c - 1);
      UpChild(q, c - 1);
      forall r | r != [] && Up(r) == q && Last(r) == c - 1
        ensures r == q + [c - 1]
      {
        UpLast(r);
      }
    }
  }

  lemma {:induction false} PassOverExactly(t: Node, ns: seq<Path>)
    requires forall k :: 0 <= k < |ns| ==> ValidPath(t, ns[k])
    ensures forall r :: r in PassOver(t, ns) <==> r != [] && Up(r) in ns && ValidPath(t, r)
    ensures forall r :: r in PassOver(t, ns) ==> PassOver(t, ns)[r] == Up(r)
  {
    if ns != [] {
      var front := ns[..|ns| - 1];
      var q := ns[|ns| - 1];
      PassOverExactly(t, front);
      ChildEntriesExactly(q, |At(t, q).children|);
      assert ns == front + [q];
      forall r | r != [] && Up(r) == q
        ensures ValidPath(t, r) <==> Last(r) < |At(t, q).children|
      {
        UpLast(r);
        AtChild(t, q, Last(r));
      }
    }
  }

  /** The pass over the whole walk leaves the annotation. */
  lemma {:induction false} PassOverWalk(t: Node)
    ensures IsAnnotation(t, PassOver(t, Visited(t)))
  {
    VisitedExactly(t);
    var walk := Visited(t);
    PassOverExactly(t, walk);
    var parent := PassOver(t, walk);
    forall r | r != [] && ValidPath(t, r)
      ensures r in parent
    {
      PathPrefix(t, r, |r| - 1);
    }
  }

  /**
   * In an annotated tree, the parent entry of a node names the node whose
   * children contain it, at the node's own position.
   */
  lemma {:induction false} ParentLink(t: Node, parent: map<Path, Path>, r: Path)
    requires IsAnnotation(t, parent) && r in parent
    ensures ValidPath(t, parent[r]) && r == parent[r] + [Last(r)]
    ensures Last(r) < |At(t, parent[r]).children|
    ensures At(t, parent[r]).children[Last(r)] == At(t, r)
  {
    PathPrefix(t, r, |r| - 1);
    UpLast(r);
    AtChild(t, Up(r), Last(r));
  }

  /**
   * The elif rule stated on the tree itself: the node at `p` has a parent, the
   * parent is an If, and the node is one of that If's orelse elements.
   */
  ghost predicate ElifAt(t: Node, p: Path)
    requires ValidPath(t, p)
  {
    p != [] && (PathPrefix(t, p, |p| - 1); At(t, Up(p)).InOrelse(Last(p)))
  }

  /** The identities of the elements of the orelse list of the If at `q`. */
  function OrelseIds(t: Node, q: Path): (ids: seq<Path>)
    requires ValidPath(t, q) && At(t, q).If?
    ensures |ids| == |At(t, q).Orelse()|
  {
    var n := At(t, q);
    seq(|n.Orelse()|, j requires 0 <= j < |n.Orelse()| => q + [1 + n.bodyCount + j])
  }

  /**
   * The scanners' elif test on the node at `p`: it has a parent annotation,
   * the parent is an If, and the node is (by identity) in the parent's orelse.
   */
  predicate ElifByParent(t: Node, parent: map<Path, Path>, p: Path)
    requires IsAnnotation(t, parent)
  {
    p in parent && (ParentLink(t, parent, p); At(t, parent[p]).If? && p in OrelseIds(t, parent[p]))
  }

  /**
   * On an annotated tree the scanners' test is exactly the structural rule,
   * and it never holds for the root.
   */
  lemma {:induction false} ElifRule(t: Node, parent: map<Path, Path>, p: Path)
    requires IsAnnotation(t, parent) && ValidPath(t, p)
    ensures ElifByParent(t, parent, p) <==> ElifAt(t, p)
    ensures p == [] ==> !ElifByParent(t, parent, p)
  {
    if p != [] {
      UpLast(p);
      ElifRuleChild(t, parent, Up(p), Last(p));
    }
  }

  lemma {:induction false} ElifRuleChild(t: Node, parent: map<Path, Path>, q: Path, i: nat)
    requires IsAnnotation(t, parent) && ValidPath(t, q + [i])
    ensures ElifByParent(t, parent, q + [i]) <==> ElifAt(t, q + [i])
  {
    PathPrefix(t, q + [i], |q|);
    UpChild(q, i);
    assert q + [i] in parent && parent[q + [i]] == q;
    if At(t, q).If? {
      OrelseIdsExactly(t, q, i);
    }
  }

  lemma {:induction false} OrelseIdsExactly(t: Node, q: Path, i: nat)
    requires ValidPath(t, q) && At(t, q).If?
    ensures q + [i] in OrelseIds(t, q) <==> At(t, q).InOrelse(i)
  {
    var n := At(t, q);
    var ids := OrelseIds(t, q);
    if q + [i] in ids {
      var j :| 0 <= j < |ids| && ids[j] == q + [i];
      assert [i] == (q + [i])[|q|..] == (q + [1 + n.bodyCount + j])[|q|..];
    }
    if n.InOrelse(i) {
      assert ids[i - 1 - n.bodyCount] == q + [i];
    }
  }

  /**
   * The child at position `i` of the node at `q` is classified elif exactly
   * when that node is an If and the child is one of its orelse elements, at
   * any position of the orelse list; a child in the test or body of an If,
   * or a child of any other node, is not.
   */
  lemma {:induction false} ElifPosition(t: Node, q: Path, i: nat)
    requires ValidPath(t, q + [i])
    ensures ValidPath(t, q)
    ensures ElifAt(t, q + [i]) <==>
      At(t, q).If? &&
      exists j :: 0 <= j < |At(t, q).Orelse()| && i == 1 + At(t, q).bodyCount + j &&
        At(t, q + [i]) == At(t, q).Orelse()[j]
  {
    PathPrefix(t, q + [i], |q|);
    UpChild(q, i);
    AtChild(t, q, i);
    var n := At(t, q);
    if n.If? && n.InOrelse(i) {
      var j := i - 1 - n.bodyCount;
      assert n.children[i] == n.Orelse()[j];
    }
  }
}
