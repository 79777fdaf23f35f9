/**
 * The parsed syntax tree that the construct scanner walks, reduced to what the
 * scanner looks at: the node's class, its line number and its child nodes in
 * field order.  A node is identified by its path from the root (the position of
 * each child among its parent's children), which plays the part of Python's
 * object identity: two structurally equal subtrees at different places are
 * different nodes.
 */
module SyntaxTree {

  /**
   * One node of the tree. Every node keeps its child nodes in the order the
   * parser's field iteration yields them. For an If these are its test, then
   * the statements of its body, then those of its orelse list, and `bodyCount`
   * says how many belong to the body, so the orelse elements are the children
   * from position 1 + bodyCount on. Nodes of classes the scanner does not track
   * (Module, Expr, Name, AsyncFor, AsyncFunctionDef, ListComp, ...) are `Other`.
   */
  datatype Node =
    | If(line: nat, children: seq<Node>, bodyCount: nat)
    | For(line: nat, children: seq<Node>)
    | While(line: nat, children: seq<Node>)
    | FunctionDef(line: nat, children: seq<Node>)
    | ClassDef(line: nat, children: seq<Node>)
    | List(line: nat, children: seq<Node>)
    | Dict(line: nat, children: seq<Node>)
    | Other(line: nat, children: seq<Node>)
  {
    /** The orelse list of an If. */
    function Orelse(): (orelse: seq<Node>)
      requires If?
      ensures |orelse| == if 1 + bodyCount <= |children| then |children| - (1 + bodyCount) else 0
      ensures forall j :: 0 <= j < |orelse| ==> orelse[j] == children[1 + bodyCount + j]
    {
      if 1 + bodyCount <= |children| then children[1 + bodyCount..] else []
    }

    /** Child number `i` is one of the elements of this If's orelse list. */
    predicate InOrelse(i: nat) {
      If? && 1 + bodyCount <= i < |children|
    }
  }

  /** The If node `if test: body else: orelse`, its fields in the parser's order. */
  function IfNode(line: nat, test: Node, body: seq<Node>, orelse: seq<Node>): (n: Node)
    ensures n.If? && n.line == line && |n.children| == 1 + |body| + |orelse| && n.children[0] == test
    ensures n.children[1..1 + |body|] == body && n.Orelse() == orelse
  {
    var n := If(line, [test] + body + orelse, |body|);
    assert n.children[1 + |body|..] == orelse;
    assert n.children[1..1 + |body|] == body;
    n
  }

  /** The address of a node: the child positions taken from the root down. */
  type Path = seq<nat>

  /** The path of the parent of the node at `p`. */
  function Up(p: Path): Path
    requires p != []
  {
    p[..|p| - 1]
  }

  /** The position of the node at `p` among its parent's children. */
  function Last(p: Path): nat
    requires p != []
  {
    p[|p| - 1]
  }

  /** `p` leads from `t` to one of its nodes. */
  predicate ValidPath(t: Node, p: Path)
    decreases |p|
  {
    p == [] || (p[0] < |t.children| && ValidPath(t.children[p[0]], p[1..]))
  }

  /** The node of `t` that `p` leads to. */
  function At(t: Node, p: Path): Node
    requires ValidPath(t, p)
    decreases |p|
  {
    if p == [] then t else At(t.children[p[0]], p[1..])
  }

  /** The paths `qs`, taken relative to the node at `p`, made absolute. */
  function Under(p: Path, qs: seq<Path>): (rs: seq<Path>)
    ensures |rs| == |qs|
    ensures forall k :: 0 <= k < |qs| ==> rs[k] == p + qs[k]
  {
    seq(|qs|, k requires 0 <= k < |qs| => p + qs[k])
  }

  /**
   * Every node of `n`, as a path relative to `n`, in the order a depth-first
   * pre-order walk reaches it: the node itself, then the subtrees of its
   * children in field order.
   */
  function Visited(n: Node): seq<Path>
    decreases n, |n.children| + 1
  {
    [[]] + VisitedUpTo(n, |n.children|)
  }

  /** The walk through the subtrees of the first `i` children of `n`. */
  function VisitedUpTo(n: Node, i: nat): seq<Path>
    requires i <= |n.children|
    decreases n, i
  {
    if i == 0 then []
    else VisitedUpTo(n, i - 1) + Under([i - 1], Visited(n.children[i - 1]))
  }

  /**
   * Pre-order in field order on paths: a node comes before every node of its
   * subtree, and the subtree of an earlier child before that of a later
   * sibling. This is the order of the fields, not of the source text: a
   * FunctionDef's decorators come after its body, and a Dict's keys all come
   * before its values.
   */
  predicate LexLess(a: Path, b: Path)
    decreases |a|
  {
    |b| > 0 && (|a| == 0 || a[0] < b[0] || (a[0] == b[0] && LexLess(a[1..], b[1..])))
  }

  predicate StrictlySorted(ps: seq<Path>) {
    forall i, j :: 0 <= i < j < |ps| ==> LexLess(ps[i], ps[j])
  }

  // ---------------------------------------------------------------------------
  // Paths

  /** Walking `p` and then `q` is walking `p + q`. */
  lemma {:induction false} PathConcat(t: Node, p: Path, q: Path)
    ensures ValidPath(t, p + q) <==> ValidPath(t, p) && ValidPath(At(t, p), q)
    ensures ValidPath(t, p + q) ==> At(t, p + q) == At(At(t, p), q)
    decreases |p|
  {
    if p == [] {
      assert p + q == q;
    } else {
      assert (p + q)[0] == p[0];
      assert (p + q)[1..] == p[1..] + q;
      if p[0] < |t.children| {
        PathConcat(t.children[p[0]], p[1..], q);
      }
    }
  }

  /** One step down from the node at `p`. */
  lemma {:induction false} AtChild(t: Node, p: Path, i: nat)
    requires ValidPath(t, p)
    ensures ValidPath(t, p + [i]) <==> i < |At(t, p).children|
    ensures ValidPath(t, p + [i]) ==> At(t, p + [i]) == At(t, p).children[i]
  {
    PathConcat(t, p, [i]);
    var n := At(t, p);
    assert ValidPath(n, [i]) <==> i < |n.children| by {
      assert [i][1..] == [];
    }
    if i < |n.children| {
      assert [i][1..] == [];
      assert At(n, [i]) == At(n.children[i], []);
    }
  }

  lemma {:induction false} UpLast(p: Path)
    requires p != []
    ensures p == Up(p) + [Last(p)]
  {
  }

  lemma {:induction false} UpChild(q: Path, i: nat)
    ensures Up(q + [i]) == q && Last(q + [i]) == i
  {
    assert (q + [i])[..|q|] == q;
  }

  /** Every prefix of a path to a node leads to an ancestor of that node. */
  lemma {:induction false} PathPrefix(t: Node, p: Path, k: nat)
    requires ValidPath(t, p) && k <= |p|
    ensures ValidPath(t, p[..k])
    ensures k == |p| - 1 ==> ValidPath(t, Up(p))
  {
    assert p == p[..k] + p[k..];
    PathConcat(t, p[..k], p[k..]);
  }

  // ---------------------------------------------------------------------------
  // The walk

  lemma {:induction false} UnderConcat(p: Path, a: seq<Path>, b: seq<Path>)
    ensures Under(p, a + b) == Under(p, a) + Under(p, b)
  {
  }

  lemma {:induction false} UnderUnder(p: Path, q: Path, a: seq<Path>)
    ensures Under(p, Under(q, a)) == Under(p + q, a)
  {
    forall k | 0 <= k < |a|
      ensures Under(p, Under(q, a))[k] == Under(p + q, a)[k]
    {
      assert p + (q + a[k]) == (p + q) + a[k];
    }
  }

  /** Every path the walk lists leads to a node. */
  lemma {:induction false} VisitedValid(n: Node)
    ensures forall k :: 0 <= k < |Visited(n)| ==> ValidPath(n, Visited(n)[k])
    decreases n, |n.children| + 1
  {
    VisitedUpToValid(n, |n.children|);
  }

  lemma {:induction false} VisitedUpToValid(n: Node, i: nat)
    requires i <= |n.children|
    ensures forall k :: 0 <= k < |VisitedUpTo(n, i)| ==>
      ValidPath(n, VisitedUpTo(n, i)[k]) && |VisitedUpTo(n, i)[k]| > 0 && VisitedUpTo(n, i)[k][0] < i
    decreases n, i
  {
    if i > 0 {
      var c := n.children[i - 1];
      var front := VisitedUpTo(n, i - 1);
      var sub := Visited(c);
      var block := Under([i - 1], sub);
      assert VisitedUpTo(n, i) == front + block;
      VisitedUpToValid(n, i - 1);
      VisitedValid(c);
      forall k | 0 <= k < |block|
        ensures ValidPath(n, block[k]) && |block[k]| > 0 && block[k][0] == i - 1
      {
        assert block[k] == [i - 1] + sub[k];
        assert block[k][1..] == sub[k];
      }
    }
  }

  lemma {:induction false} VisitedUpToGrows(n: Node, j: nat, m: nat, r: Path)
    requires j <= m <= |n.children| && r in VisitedUpTo(n, j)
    ensures r in VisitedUpTo(n, m)
    decreases m
  {
    if j < m {
      VisitedUpToGrows(n, j, m - 1, r);
    }
  }

  /** Every node of the tree is listed by the walk. */
  lemma {:induction false} VisitedComplete(n: Node, r: Path)
    requires ValidPath(n, r)
    ensures r in Visited(n)
    decreases |r|
  {
    if r != [] {
      var i := r[0];
      var c := n.children[i];
      VisitedComplete(c, r[1..]);
      var k :| 0 <= k < |Visited(c)| && Visited(c)[k] == r[1..];
      var block := Under([i], Visited(c));
      assert block[k] == r;
      assert VisitedUpTo(n, i + 1) == VisitedUpTo(n, i) + block;
      VisitedUpToGrows(n, i + 1, |n.children|, r);
    }
  }

  /** The walk reaches exactly the nodes of the tree. */
  lemma {:induction false} VisitedExactly(n: Node)
    ensures forall r :: r in Visited(n) <==> ValidPath(n, r)
  {
    VisitedValid(n);
    forall r | ValidPath(n, r)
      ensures r in Visited(n)
    {
      VisitedComplete(n, r);
    }
  }

  lemma {:induction false} LexLessUnder(p: Path, a: Path, b: Path)
    ensures LexLess(p + a, p + b) <==> LexLess(a, b)
    decreases |p|
  {
    if p != [] {
      assert (p + a)[1..] == p[1..] + a;
      assert (p + b)[1..] == p[1..] + b;
      LexLessUnder(p[1..], a, b);
    } else {
      assert p + a == a && p + b == b;
    }
  }

  lemma {:induction false} LexLessAsymmetric(a: Path, b: Path)
    ensures LexLess(a, b) ==> !LexLess(b, a)
    decreases |a|
  {
    if |a| > 0 && |b| > 0 && a[0] == b[0] {
      LexLessAsymmetric(a[1..], b[1..]);
    }
  }

  /** A node comes before every node of its subtree. */
  lemma {:induction false} ProperPrefixLexLess(a: Path, b: Path)
    requires |a| < |b| && a == b[..|a|]
    ensures LexLess(a, b)
    decreases |a|
  {
    if |a| > 0 {
      assert a[1..] == b[1..][..|a| - 1];
      ProperPrefixLexLess(a[1..], b[1..]);
    }
  }

  /** The subtree of an earlier child comes before that of a later sibling. */
  lemma {:induction false} SiblingLexLess(p: Path, i: nat, j: nat, x: Path, y: Path)
    requires i < j
    ensures LexLess(p + [i] + x, p + [j] + y)
  {
    assert p + [i] + x == p + ([i] + x);
    assert p + [j] + y == p + ([j] + y);
    LexLessUnder(p, [i] + x, [j] + y);
  }

  lemma {:induction false} SortedConcat(a: seq<Path>, b: seq<Path>)
    requires StrictlySorted(a) && StrictlySorted(b)
    requires forall i, j :: 0 <= i < |a| && 0 <= j < |b| ==> LexLess(a[i], b[j])
    ensures StrictlySorted(a + b)
  {
    var ab := a + b;
    forall i, j | 0 <= i < j < |ab|
      ensures LexLess(ab[i], ab[j])
    {
      if j < |a| {
        assert ab[i] == a[i] && ab[j] == a[j];
      } else if i < |a| {
        assert ab[i] == a[i] && ab[j] == b[j - |a|];
      } else {
        assert ab[i] == b[i - |a|] && ab[j] == b[j - |a|];
      }
    }
  }

  lemma {:induction false} SortedUnder(p: Path, a: seq<Path>)
    requires StrictlySorted(a)
    ensures StrictlySorted(Under(p, a))
  {
    var b := Under(p, a);
    forall i, j | 0 <= i < j < |b|
      ensures LexLess(b[i], b[j])
    {
      LexLessUnder(p, a[i], a[j]);
    }
  }

  /** The walk lists every node once, in pre-order. */
  lemma {:induction false} VisitedSorted(n: Node)
    ensures StrictlySorted(Visited(n))
    decreases n, |n.children| + 1
  {
    var rest := VisitedUpTo(n, |n.children|);
    VisitedUpToSorted(n, |n.children|);
    VisitedUpToValid(n, |n.children|);
    assert StrictlySorted([[]]);
    SortedConcat([[]], rest);
  }

  lemma {:induction false} VisitedUpToSorted(n: Node, i: nat)
    requires i <= |n.children|
    ensures StrictlySorted(VisitedUpTo(n, i))
    decreases n, i
  {
    if i > 0 {
      var c := n.children[i - 1];
      var front := VisitedUpTo(n, i - 1);
      var sub := Visited(c);
      var block := Under([i - 1], sub);
      assert VisitedUpTo(n, i) == front + block;
      VisitedUpToSorted(n, i - 1);
      VisitedUpToValid(n, i - 1);
      VisitedSorted(c);
      SortedUnder([i - 1], sub);
      forall x, y | 0 <= x < |front| && 0 <= y < |block|
        ensures LexLess(front[x], block[y])
      {
        assert block[y] == [i - 1] + sub[y];
      }
      SortedConcat(front, block);
    }
  }

  /**
   * In the walk, one node comes before another exactly when it is earlier in
   * the order LexLess; by ProperPrefixLexLess a node precedes its whole
   * subtree, and by SiblingLexLess siblings' subtrees are reached in field order.
   */
  lemma {:induction false} WalkOrder(n: Node, i: nat, j: nat)
    requires i < |Visited(n)| && j < |Visited(n)|
    ensures i < j <==> LexLess(Visited(n)[i], Visited(n)[j])
  {
    VisitedSorted(n);
    var ps := Visited(n);
    if j < i {
      LexLessAsymmetric(ps[j], ps[i]);
    } else if i == j {
      LexLessAsymmetric(ps[i], ps[i]);
    }
  }
}
