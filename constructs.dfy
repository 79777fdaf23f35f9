/**
 * What the counting visitor and the debug visitor compute, stated on the tree:
 * the kind each node is given, the records the debug visitor appends, the
 * amounts by which the counting visitor raises its counters, and how the two
 * views agree.
 */
module Constructs {
  import opened Wrappers
  import opened SyntaxTree
  import opened Parents

  /** The eight kinds of construct the scanners track. */
  datatype Construct =
    | IfBlock | ElifBlock | ForBlock | WhileBlock | DefBlock | ClassBlock | ListBlock | DictBlock
  {
    /** The key of the counts dictionary and the word in the debug messages. */
    function Name(): string {
      match this
      case IfBlock => "if"
      case ElifBlock => "elif"
      case ForBlock => "for"
      case WhileBlock => "while"
      case DefBlock => "def"
      case ClassBlock => "class"
      case ListBlock => "list"
      case DictBlock => "dict"
    }
  }

  /** The kinds in the order the counts dictionary is written (and reported). */
  const Kinds: seq<Construct> :=
    [IfBlock, ElifBlock, ForBlock, WhileBlock, DefBlock, ClassBlock, ListBlock, DictBlock]

  /** One debug record: the kind of a tracked node and that node's line number. */
  datatype Record = Record(kind: Construct, line: nat)

  /**
   * The kind a visit gives `n`, if `n` is tracked at all; `elif` tells whether
   * `n` lies in the orelse list of an If that is its parent.
   */
  function KindOf(n: Node, elif: bool): Option<Construct> {
    match n
    case If(_, _, _) => Some(if elif then ElifBlock else IfBlock)
    case For(_, _) => Some(ForBlock)
    case While(_, _) => Some(WhileBlock)
    case FunctionDef(_, _) => Some(DefBlock)
    case ClassDef(_, _) => Some(ClassBlock)
    case List(_, _) => Some(ListBlock)
    case Dict(_, _) => Some(DictBlock)
    case Other(_, _) => None
  }

  /** The record the debug visitor appends for `n` itself, before its children. */
  function Own(n: Node, elif: bool): seq<Record> {
    match KindOf(n, elif)
    case Some(k) => [Record(k, n.line)]
    case None => []
  }

  /** The records the debug visitor appends while it visits the subtree of `n`. */
  function Log(n: Node, elif: bool): seq<Record>
    decreases n, |n.children| + 1
  {
    Own(n, elif) + LogUpTo(n, |n.children|)
  }

  /** The records appended for the subtrees of the first `i` children of `n`. */
  function LogUpTo(n: Node, i: nat): seq<Record>
    requires i <= |n.children|
    decreases n, i
  {
    if i == 0 then []
    else LogUpTo(n, i - 1) + Log(n.children[i - 1], n.InOrelse(i - 1))
  }

  /** The amount by which the counting visitor raises counter `k` while it visits the subtree of `n`. */
  function Count(n: Node, elif: bool, k: Construct): nat
    decreases n, |n.children| + 1
  {
    (if KindOf(n, elif) == Some(k) then 1 else 0) + CountUpTo(n, |n.children|, k)
  }

  function CountUpTo(n: Node, i: nat, k: Construct): nat
    requires i <= |n.children|
    decreases n, i
  {
    if i == 0 then 0
    else CountUpTo(n, i - 1, k) + Count(n.children[i - 1], n.InOrelse(i - 1), k)
  }

  /** Every kind is one of the eight listed. */
  lemma {:induction false} KindsListed()
    ensures forall k :: k in Kinds
  {
    forall k: Construct
      ensures k in Kinds
    {
      match k
      case IfBlock =>
      case ElifBlock =>
      case ForBlock =>
      case WhileBlock =>
      case DefBlock =>
      case ClassBlock =>
      case ListBlock =>
      case DictBlock =>
    }
  }

  /** The counters after a visit of `n` that started from zero. */
  function Counts(n: Node, elif: bool): (counts: map<Construct, nat>)
    ensures forall k :: k in counts
  {
    KindsListed();
    map k | k in Kinds :: Count(n, elif, k)
  }

  /** The number of records of kind `k`. */
  function Occurrences(rs: seq<Record>, k: Construct): nat {
    if rs == [] then 0
    else Occurrences(rs[..|rs| - 1], k) + (if rs[|rs| - 1].kind == k then 1 else 0)
  }

  /** The sum of all eight counters. */
  function Total(counts: map<Construct, nat>): nat
    requires forall k :: k in counts
  {
    counts[IfBlock] + counts[ElifBlock] + counts[ForBlock] + counts[WhileBlock] +
    counts[DefBlock] + counts[ClassBlock] + counts[ListBlock] + counts[DictBlock]
  }

  // ---------------------------------------------------------------------------
  // The two views agree

  lemma {:induction false} OccurrencesConcat(a: seq<Record>, b: seq<Record>, k: Construct)
    ensures Occurrences(a + b, k) == Occurrences(a, k) + Occurrences(b, k)
    decreases |b|
  {
    if b == [] {
      assert a + b == a;
    } else {
      assert (a + b)[..|a + b| - 1] == a + b[..|b| - 1];
      OccurrencesConcat(a, b[..|b| - 1], k);
    }
  }

  /** Every record has exactly one of the eight kinds, so the eight tallies add up to the length. */
  lemma {:induction false} OccurrencesTotal(rs: seq<Record>)
    ensures Occurrences(rs, IfBlock) + Occurrences(rs, ElifBlock) + Occurrences(rs, ForBlock) +
      Occurrences(rs, WhileBlock) + Occurrences(rs, DefBlock) + Occurrences(rs, ClassBlock) +
      Occurrences(rs, ListBlock) + Occurrences(rs, DictBlock) == |rs|
  {
    if rs != [] {
      OccurrencesTotal(rs[..|rs| - 1]);
    }
  }

  /** Counter `k` is raised exactly once per record of kind `k` in the debug log of the same subtree. */
  lemma {:induction false} CountIsOccurrences(n: Node, elif: bool, k: Construct)
    ensures Count(n, elif, k) == Occurrences(Log(n, elif), k)
    decreases n, |n.children| + 1
  {
    CountUpToIsOccurrences(n, |n.children|, k);
    OccurrencesConcat(Own(n, elif), LogUpTo(n, |n.children|), k);
    OwnOccurrences(n, elif, k);
  }

  lemma {:induction false} OwnOccurrences(n: Node, elif: bool, k: Construct)
    ensures Occurrences(Own(n, elif), k) == if KindOf(n, elif) == Some(k) then 1 else 0
  {
    match KindOf(n, elif)
    case Some(kind) =>
      assert Own(n, elif)[..0] == [];
    case None =>
  }

  lemma {:induction false} CountUpToIsOccurrences(n: Node, i: nat, k: Construct)
    requires i <= |n.children|
    ensures CountUpTo(n, i, k) == Occurrences(LogUpTo(n, i), k)
    decreases n, i
  {
    if i > 0 {
      var c := n.children[i - 1];
      var e := n.InOrelse(i - 1);
      calc {
        CountUpTo(n, i, k);
        CountUpTo(n, i - 1, k) + Count(c, e, k);
        { CountUpToIsOccurrences(n, i - 1, k); ChildCountIsOccurrences(n, i - 1, c, k); }
        Occurrences(LogUpTo(n, i - 1), k) + Occurrences(Log(c, e), k);
        { OccurrencesConcat(LogUpTo(n, i - 1), Log(c, e), k); }
        Occurrences(LogUpTo(n, i - 1) + Log(c, e), k);
        Occurrences(LogUpTo(n, i), k);
      }
    }
  }

  lemma {:induction false} ChildCountIsOccurrences(n: Node, i: nat, c: Node, k: Construct)
    requires i < |n.children| && c == n.children[i]
    ensures Count(c, n.InOrelse(i), k) == Occurrences(Log(c, n.InOrelse(i)), k)
    decreases n, i
  {
    CountIsOccurrences(c, n.InOrelse(i), k);
  }

  /**
   * On the same tree, every counter equals the number of debug records of its
   * kind, and the sum of the counters is the length of the debug log.
   */
  lemma {:induction false} CountsAgreeWithLog(t: Node, elif: bool)
    ensures forall k :: Counts(t, elif)[k] == Occurrences(Log(t, elif), k)
    ensures Total(Counts(t, elif)) == |Log(t, elif)|
  {
    forall k
      ensures Counts(t, elif)[k] == Occurrences(Log(t, elif), k)
    {
      CountIsOccurrences(t, elif, k);
    }
    OccurrencesTotal(Log(t, elif));
  }

  // ---------------------------------------------------------------------------
  // The debug log follows the walk

  /** The record the visit of the node at `r` contributes: its kind and its own line number. */
  ghost function RecordAt(t: Node, r: Path): seq<Record> {
    if ValidPath(t, r) then Own(At(t, r), ElifAt(t, r)) else []
  }

  ghost function RecordsAt(t: Node, rs: seq<Path>): seq<Record> {
    if rs == [] then [] else RecordsAt(t, rs[..|rs| - 1]) + RecordAt(t, rs[|rs| - 1])
  }

  lemma {:induction false} RecordsAtConcat(t: Node, a: seq<Path>, b: seq<Path>)
    ensures RecordsAt(t, a + b) == RecordsAt(t, a) + RecordsAt(t, b)
    decreases |b|
  {
    if b == [] {
      assert a + b == a;
    } else {
      assert (a + b)[..|a + b| - 1] == a + b[..|b| - 1];
      RecordsAtConcat(t, a, b[..|b| - 1]);
    }
  }

  lemma {:induction false} RecordsAtCons(t: Node, p: Path, rs: seq<Path>)
    ensures RecordsAt(t, [p] + rs) == RecordAt(t, p) + RecordsAt(t, rs)
  {
    RecordsAtConcat(t, [p], rs);
    assert [p][..0] == [];
  }

  lemma {:induction false} UnderRoot(p: Path, rs: seq<Path>)
    ensures Under(p, [[]] + rs) == [p] + Under(p, rs)
  {
    UnderConcat(p, [[]], rs);
    assert Under(p, [[]])[0] == p + [] == p;
  }

  /** One step down from the node at `p`, together with the elif flag of the child. */
  lemma {:induction false} ElifChild(t: Node, p: Path, i: nat)
    requires ValidPath(t, p) && i < |At(t, p).children|
    ensures ValidPath(t, p + [i]) && At(t, p + [i]) == At(t, p).children[i]
    ensures ElifAt(t, p + [i]) == At(t, p).InOrelse(i)
  {
    AtChild(t, p, i);
    UpChild(p, i);
  }

  /**
   * The records the visit of the node `n` at `p` appends are the records of the
   * nodes of its subtree, in walk order.
   */
  lemma {:induction false} LogAt(t: Node, p: Path, n: Node)
    requires ValidPath(t, p) && At(t, p) == n
    ensures Log(n, ElifAt(t, p)) == RecordsAt(t, Under(p, Visited(n)))
    decreases n, |n.children| + 1
  {
    var rest := VisitedUpTo(n, |n.children|);
    LogUpToAt(t, p, n, |n.children|);
    RecordsAtCons(t, p, Under(p, rest));
    UnderRoot(p, rest);
  }

  lemma {:induction false} LogUpToAt(t: Node, p: Path, n: Node, i: nat)
    requires ValidPath(t, p) && At(t, p) == n && i <= |n.children|
    ensures LogUpTo(n, i) == RecordsAt(t, Under(p, VisitedUpTo(n, i)))
    decreases n, i
  {
    if i == 0 {
      LogUpToNone(t, p, n);
    } else {
      var c := n.children[i - 1];
      LogUpToAt(t, p, n, i - 1);
      ChildLogAt(t, p, n, i - 1, c);
      LogUpToStep(t, p, n, i, c);
    }
  }

  /** Before any child is visited, nothing has been appended. */
  lemma {:induction false} LogUpToNone(t: Node, p: Path, n: Node)
    ensures LogUpTo(n, 0) == RecordsAt(t, Under(p, VisitedUpTo(n, 0)))
  {
    assert Under(p, VisitedUpTo(n, 0)) == [];
  }

  /** The step of LogUpToAt from the first `i - 1` children to the first `i`. */
  lemma {:induction false} LogUpToStep(t: Node, p: Path, n: Node, i: nat, c: Node)
    requires 0 < i <= |n.children| && c == n.children[i - 1]
    requires LogUpTo(n, i - 1) == RecordsAt(t, Under(p, VisitedUpTo(n, i - 1)))
    requires Log(c, n.InOrelse(i - 1)) == RecordsAt(t, Under(p + [i - 1], Visited(c)))
    ensures LogUpTo(n, i) == RecordsAt(t, Under(p, VisitedUpTo(n, i)))
  {
    calc {
      LogUpTo(n, i);
      LogUpTo(n, i - 1) + Log(c, n.InOrelse(i - 1));
      { AppendEqual(LogUpTo(n, i - 1), RecordsAt(t, Under(p, VisitedUpTo(n, i - 1))),
          Log(c, n.InOrelse(i - 1)), RecordsAt(t, Under(p + [i - 1], Visited(c)))); }
      RecordsAt(t, Under(p, VisitedUpTo(n, i - 1))) + RecordsAt(t, Under(p + [i - 1], Visited(c)));
      { WalkStep(t, p, VisitedUpTo(n, i - 1), [i - 1], Visited(c)); }
      RecordsAt(t, Under(p, VisitedUpTo(n, i - 1) + Under([i - 1], Visited(c))));
    }
  }

  /** Congruence of concatenation; it keeps LogUpToStep's steps cheap to check. */
  lemma {:induction false} AppendEqual(a: seq<Record>, a': seq<Record>, b: seq<Record>, b': seq<Record>)
    requires a == a' && b == b'
    ensures a + b == a' + b'
  {
  }

  /** Appending the records of a child's subtree to those of the earlier children. */
  lemma {:induction false} WalkStep(t: Node, p: Path, front: seq<Path>, q: Path, below: seq<Path>)
    ensures RecordsAt(t, Under(p, front)) + RecordsAt(t, Under(p + q, below)) ==
      RecordsAt(t, Under(p, front + Under(q, below)))
  {
    RecordsAtConcat(t, Under(p, front), Under(p + q, below));
    UnderUnder(p, q, below);
    UnderConcat(p, front, Under(q, below));
  }

  /** The records the visit of child `i` of the node `n` at `p` appends. */
  lemma {:induction false} ChildLogAt(t: Node, p: Path, n: Node, i: nat, c: Node)
    requires ValidPath(t, p) && At(t, p) == n && i < |n.children| && c == n.children[i]
    ensures Log(c, n.InOrelse(i)) == RecordsAt(t, Under(p + [i], Visited(c)))
    decreases n, i
  {
    ElifChild(t, p, i);
    LogAt(t, p + [i], c);
  }

  /**
   * The debug log is the walk in pre-order with every untracked node dropped:
   * one record per tracked node, carrying that node's kind and line number.
   * Together with SyntaxTree.VisitedExactly and SyntaxTree.WalkOrder this says
   * that every tracked node is reported once, each node before its subtree and
   * siblings in field order.
   */
  lemma {:induction false} LogFollowsWalk(t: Node)
    ensures Log(t, false) == RecordsAt(t, Visited(t))
  {
    LogAt(t, [], t);
    UnderNothing(Visited(t));
  }

  lemma {:induction false} UnderNothing(qs: seq<Path>)
    ensures Under([], qs) == qs
  {
    forall k | 0 <= k < |qs|
      ensures Under([], qs)[k] == qs[k]
    {
      assert [] + qs[k] == qs[k];
    }
  }

  lemma {:induction false} RecordsAtUntracked(t: Node, rs: seq<Path>)
    requires forall r :: r in rs && ValidPath(t, r) ==> At(t, r).Other?
    ensures RecordsAt(t, rs) == []
    decreases |rs|
  {
    if rs != [] {
      assert forall r :: r in rs[..|rs| - 1] ==> r in rs;
      RecordsAtUntracked(t, rs[..|rs| - 1]);
    }
  }

  /** A tree with no tracked node leaves every counter at zero and the debug log empty. */
  lemma {:induction false} NothingTracked(t: Node)
    requires forall r :: ValidPath(t, r) ==> At(t, r).Other?
    ensures Log(t, false) == []
    ensures forall k :: Counts(t, false)[k] == 0
  {
    LogFollowsWalk(t);
    RecordsAtUntracked(t, Visited(t));
    CountsAgreeWithLog(t, false);
  }

  // ---------------------------------------------------------------------------
  // Two example trees: a def holding a for holding an if, and an if/elif/else chain.
  // Both are simplified parses: the `arguments` child of a FunctionDef and the
  // context child (Load, Store) of each Name are left out; they are untracked
  // leaves and change no record or count.

  /**
   * `def f(): for x in xs: if c: pass` counts one def, one for and one if. The
   * loop's children are its target, its iterable and its body; the If's test
   * is `c`, its body `pass` and its orelse empty.
   */
  lemma {:induction false} NestedConstructs(tree: Node)
    requires tree == Other(0, [FunctionDef(1, [For(2, [Other(2, []), Other(2, []),
      IfNode(3, Other(3, []), [Other(4, [])], [])])])])
    ensures Log(tree, false) == [Record(DefBlock, 1), Record(ForBlock, 2), Record(IfBlock, 3)]
    ensures forall k :: Counts(tree, false)[k] == if k in {DefBlock, ForBlock, IfBlock} then 1 else 0
  {
    var rs := [Record(DefBlock, 1), Record(ForBlock, 2), Record(IfBlock, 3)];
    NestedLog(tree);
    CountsAgreeWithLog(tree, false);
    forall k
      ensures Occurrences(rs, k) == if k in {DefBlock, ForBlock, IfBlock} then 1 else 0
    {
      OccurrencesOfThree(rs[0], rs[1], rs[2], k);
    }
  }

  lemma {:induction false} NestedLog(tree: Node)
    requires tree == Other(0, [FunctionDef(1, [For(2, [Other(2, []), Other(2, []),
      IfNode(3, Other(3, []), [Other(4, [])], [])])])])
    ensures Log(tree, false) == [Record(DefBlock, 1), Record(ForBlock, 2), Record(IfBlock, 3)]
  {
    var loop := For(2, [Other(2, []), Other(2, []), IfNode(3, Other(3, []), [Other(4, [])], [])]);
    var def := FunctionDef(1, [loop]);
    NestedLoopLog(loop);
    assert LogUpTo(def, 1) == Log(loop, false);
    assert LogUpTo(tree, 1) == Log(def, false);
  }

  lemma {:induction false} NestedLoopLog(loop: Node)
    requires loop == For(2, [Other(2, []), Other(2, []), IfNode(3, Other(3, []), [Other(4, [])], [])])
    ensures Log(loop, false) == [Record(ForBlock, 2), Record(IfBlock, 3)]
  {
    var leaf := Other(2, []);
    var cond := If(3, [Other(3, []), Other(4, [])], 1);
    assert IfNode(3, Other(3, []), [Other(4, [])], []) == cond;
    assert LogUpTo(cond, 2) == [];
    assert Log(cond, false) == [Record(IfBlock, 3)];
    assert Log(leaf, false) == [];
    assert LogUpTo(loop, 1) == [];
    assert LogUpTo(loop, 2) == [];
    assert LogUpTo(loop, 3) == Log(cond, false);
  }

  lemma {:induction false} OccurrencesOfThree(a: Record, b: Record, c: Record, k: Construct)
    ensures Occurrences([a, b, c], k) ==
      (if a.kind == k then 1 else 0) + (if b.kind == k then 1 else 0) + (if c.kind == k then 1 else 0)
  {
    assert [a, b, c] == [a, b] + [c];
    assert [a, b] == [a] + [b];
    OccurrencesConcat([a, b], [c], k);
    OccurrencesConcat([a], [b], k);
    assert [a][..0] == [b][..0] == [c][..0] == [];
  }

  /**
   * `if a: pass / elif b: pass / else: pass` counts one if and one elif: the
   * elif is an If that is the whole orelse list of the outer If, and the final
   * `else: pass` is the orelse list of the inner one.
   */
  lemma {:induction false} IfElifElseChain(tree: Node)
    requires tree == Other(0, [IfNode(1, Other(1, []), [Other(2, [])],
      [IfNode(3, Other(3, []), [Other(4, [])], [Other(6, [])])])])
    ensures Log(tree, false) == [Record(IfBlock, 1), Record(ElifBlock, 3)]
    ensures forall k :: Counts(tree, false)[k] == if k in {IfBlock, ElifBlock} then 1 else 0
  {
    ChainLog(tree);
    CountsOfTwo(tree, Record(IfBlock, 1), Record(ElifBlock, 3));
  }

  /** A subtree whose log holds two records counts their two kinds and nothing else. */
  lemma {:induction false} CountsOfTwo(t: Node, a: Record, b: Record)
    requires Log(t, false) == [a, b]
    ensures forall k :: Counts(t, false)[k] == (if a.kind == k then 1 else 0) + (if b.kind == k then 1 else 0)
  {
    CountsAgreeWithLog(t, false);
    forall k
      ensures Occurrences([a, b], k) == (if a.kind == k then 1 else 0) + (if b.kind == k then 1 else 0)
    {
      assert [a, b] == [a] + [b];
      OccurrencesConcat([a], [b], k);
      assert [a][..0] == [b][..0] == [];
    }
  }

  lemma {:induction false} ChainLog(tree: Node)
    requires tree == Other(0, [IfNode(1, Other(1, []), [Other(2, [])],
      [IfNode(3, Other(3, []), [Other(4, [])], [Other(6, [])])])])
    ensures Log(tree, false) == [Record(IfBlock, 1), Record(ElifBlock, 3)]
  {
    var inner := If(3, [Other(3, []), Other(4, []), Other(6, [])], 1);
    var outer := If(1, [Other(1, []), Other(2, []), inner], 1);
    assert IfNode(3, Other(3, []), [Other(4, [])], [Other(6, [])]) == inner;
    assert IfNode(1, Other(1, []), [Other(2, [])], [inner]) == outer;
    assert LogUpTo(inner, 2) == [];
    assert LogUpTo(inner, 3) == [];
    assert Log(inner, true) == [Record(ElifBlock, 3)];
    assert LogUpTo(outer, 2) == [];
    assert LogUpTo(outer, 3) == Log(inner, true);
    assert LogUpTo(tree, 1) == Log(outer, false);
  }
}
