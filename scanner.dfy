/**
 * The two scanners: `cmb_count`, whose visitor raises one counter per tracked
 * node, and `debug`, whose visitor appends one message per tracked node. Both
 * annotate parents first and then visit the tree depth first, each tracked
 * node before its children.
 */
module Scanner {
  import opened Wrappers
  import opened SyntaxTree
  import opened Parents
  import opened Constructs
  import opened Render

  /** The counts dictionary as it is written before any visit: every kind at zero. */
  function ZeroCounts(): (counts: map<Construct, nat>)
    ensures forall k :: k in counts && counts[k] == 0
  {
    KindsListed();
    map k | k in Kinds :: 0
  }

  /** The visitor of `cmb_count`, raising the counters of a dictionary it shares. */
  class CountVisitor {
    const tree: Node
    const parent: map<Path, Path>
    var counts: map<Construct, nat>

    ghost predicate Valid()
      reads this
    {
      IsAnnotation(tree, parent) && forall k :: k in counts
    }

    constructor(tree: Node, parent: map<Path, Path>)
      requires IsAnnotation(tree, parent)
      ensures Valid() && this.tree == tree && this.parent == parent
      ensures counts == ZeroCounts()
    {
      this.tree := tree;
      this.parent := parent;
      counts := ZeroCounts();
    }

    /**
     * Visit the node at `p`: raise the counter of its kind, if it has one
     * (elif for an If in the orelse list of an If parent, if for any other
     * If), then visit its children.
     */
    method Visit(n: Node, p: Path)
      requires Valid() && ValidPath(tree, p) && At(tree, p) == n
      modifies this
      ensures Valid()
      ensures forall k :: counts[k] == old(counts[k]) + Count(n, ElifAt(tree, p), k)
      decreases n, 1
    {
      ElifRule(tree, parent, p);
      match n {
      case If(_, _, _) =>
        if ElifByParent(tree, parent, p) {
          counts := counts[ElifBlock := counts[ElifBlock] + 1];
        } else {
          counts := counts[IfBlock := counts[IfBlock] + 1];
        }
      case For(_, _) => counts := counts[ForBlock := counts[ForBlock] + 1];
      case While(_, _) => counts := counts[WhileBlock := counts[WhileBlock] + 1];
      case FunctionDef(_, _) => counts := counts[DefBlock := counts[DefBlock] + 1];
      case ClassDef(_, _) => counts := counts[ClassBlock := counts[ClassBlock] + 1];
      case List(_, _) => counts := counts[ListBlock := counts[ListBlock] + 1];
      case Dict(_, _) => counts := counts[DictBlock := counts[DictBlock] + 1];
      case Other(_, _) =>
      }
      GenericVisit(n, p);
    }

    /** Visit the children of the node at `p` in field order. */
    method GenericVisit(n: Node, p: Path)
      requires Valid() && ValidPath(tree, p) && At(tree, p) == n
      modifies this
      ensures Valid()
      ensures forall k :: counts[k] == old(counts[k]) + CountUpTo(n, |n.children|, k)
      decreases n, 0
    {
      for i := 0 to |n.children|
        invariant Valid()
        invariant forall k :: counts[k] == old(counts[k]) + CountUpTo(n, i, k)
      {
        ElifChild(tree, p, i);
        Visit(n.children[i], p + [i]);
      }
    }
  }

  /** The visitor of `debug`, appending to a log it shares. */
  class DebugVisitor {
    const tree: Node
    const parent: map<Path, Path>
    var log: seq<string>

    constructor(tree: Node, parent: map<Path, Path>)
      requires IsAnnotation(tree, parent)
      ensures this.tree == tree && this.parent == parent
      ensures log == []
    {
      this.tree := tree;
      this.parent := parent;
      log := [];
    }

    /**
     * Visit the node at `p`: append the message for its kind and line, if it
     * has a kind, then visit its children.
     */
    method Visit(n: Node, p: Path)
      requires IsAnnotation(tree, parent) && ValidPath(tree, p) && At(tree, p) == n
      modifies this
      ensures log == old(log) + DebugLog(n, ElifAt(tree, p))
      decreases n, 1
    {
      ElifRule(tree, parent, p);
      match n {
      case If(line, _, _) =>
        if ElifByParent(tree, parent, p) {
          log := log + [Message(Record(ElifBlock, line))];
        } else {
          log := log + [Message(Record(IfBlock, line))];
        }
      case For(line, _) => log := log + [Message(Record(ForBlock, line))];
      case While(line, _) => log := log + [Message(Record(WhileBlock, line))];
      case FunctionDef(line, _) => log := log + [Message(Record(DefBlock, line))];
      case ClassDef(line, _) => log := log + [Message(Record(ClassBlock, line))];
      case List(line, _) => log := log + [Message(Record(ListBlock, line))];
      case Dict(line, _) => log := log + [Message(Record(DictBlock, line))];
      case Other(_, _) =>
      }
      ghost var mid := log;
      assert mid == old(log) + OwnMessage(n, ElifAt(tree, p));
      GenericVisit(n, p);
      OwnThenChildren(old(log), mid, log, n, ElifAt(tree, p));
    }

    /** Visit the children of the node at `p` in field order. */
    method GenericVisit(n: Node, p: Path)
      requires IsAnnotation(tree, parent) && ValidPath(tree, p) && At(tree, p) == n
      modifies this
      ensures log == old(log) + DebugLogUpTo(n, |n.children|)
      decreases n, 0
    {
      ghost var start := log;
      for i := 0 to |n.children|
        invariant log == start + DebugLogUpTo(n, i)
      {
        ElifChild(tree, p, i);
        var c := n.children[i];
        ghost var mid := log;
        Visit(c, p + [i]);
        ChildStep(start, mid, log, n, i, c, ElifAt(tree, p + [i]));
      }
    }
  }

  // The debug log once more, at the level of the printed strings. These three
  // functions have no counterpart of their own in the visitor's code: they
  // keep the visitor's proof cheap, and DebugLogRendersLog shows that they
  // produce Messages(Log(...)).

  /** The message the debug visitor appends for `n` itself, before its children. */
  function OwnMessage(n: Node, elif: bool): seq<string> {
    match KindOf(n, elif)
    case Some(k) => [Message(Record(k, n.line))]
    case None => []
  }

  /** The messages the debug visitor appends while it visits the subtree of `n`. */
  function DebugLog(n: Node, elif: bool): seq<string>
    decreases n, |n.children| + 1
  {
    OwnMessage(n, elif) + DebugLogUpTo(n, |n.children|)
  }

  /** The messages appended for the subtrees of the first `i` children of `n`. */
  function DebugLogUpTo(n: Node, i: nat): seq<string>
    requires i <= |n.children|
    decreases n, i
  {
    if i == 0 then []
    else DebugLogUpTo(n, i - 1) + DebugLog(n.children[i - 1], n.InOrelse(i - 1))
  }

  /** The visitor's messages are the records of the walk, each rendered by Message. */
  lemma {:induction false} DebugLogRendersLog(n: Node, elif: bool)
    ensures DebugLog(n, elif) == Messages(Log(n, elif))
    decreases n, |n.children| + 1
  {
    DebugLogUpToRendersLog(n, |n.children|);
    OwnRendered(n, elif);
    RenderStep(OwnMessage(n, elif), DebugLogUpTo(n, |n.children|), Own(n, elif), LogUpTo(n, |n.children|));
  }

  lemma {:induction false} OwnRendered(n: Node, elif: bool)
    ensures OwnMessage(n, elif) == Messages(Own(n, elif))
  {
    match KindOf(n, elif)
    case Some(k) =>
      assert Own(n, elif) == [Record(k, n.line)];
      assert Own(n, elif)[..0] == [];
    case None =>
  }

  lemma {:induction false} DebugLogUpToRendersLog(n: Node, i: nat)
    requires i <= |n.children|
    ensures DebugLogUpTo(n, i) == Messages(LogUpTo(n, i))
    decreases n, i
  {
    if i > 0 {
      var c := n.children[i - 1];
      DebugLogUpToRendersLog(n, i - 1);
      ChildRendersLog(n, i - 1, c);
      RenderStep(DebugLogUpTo(n, i - 1), DebugLog(c, n.InOrelse(i - 1)), LogUpTo(n, i - 1), Log(c, n.InOrelse(i - 1)));
    }
  }

  lemma {:induction false} RenderStep(x: seq<string>, y: seq<string>, a: seq<Record>, b: seq<Record>)
    requires x == Messages(a) && y == Messages(b)
    ensures x + y == Messages(a + b)
  {
    MessagesConcat(a, b);
  }

  lemma {:induction false} ChildRendersLog(n: Node, i: nat, c: Node)
    requires i < |n.children| && c == n.children[i]
    ensures DebugLog(c, n.InOrelse(i)) == Messages(Log(c, n.InOrelse(i)))
    decreases n, i
  {
    DebugLogRendersLog(c, n.InOrelse(i));
  }

  // Steps of the debug visitor's proof, stated on plain sequences so that the
  // visitor's own proof obligations stay small.

  /** After the node's own message and its children's messages, the log holds its DebugLog. */
  lemma {:induction false} OwnThenChildren(before: seq<string>, mid: seq<string>, after: seq<string>,
                                           n: Node, elif: bool)
    requires mid == before + OwnMessage(n, elif)
    requires after == mid + DebugLogUpTo(n, |n.children|)
    ensures after == before + DebugLog(n, elif)
  {
  }

  /** Visiting child `i` extends the log from DebugLogUpTo(n, i) to DebugLogUpTo(n, i + 1). */
  lemma {:induction false} ChildStep(before: seq<string>, mid: seq<string>, after: seq<string>,
                                     n: Node, i: nat, c: Node, elif: bool)
    requires i < |n.children| && c == n.children[i] && elif == n.InOrelse(i)
    requires mid == before + DebugLogUpTo(n, i)
    requires after == mid + DebugLog(c, elif)
    ensures after == before + DebugLogUpTo(n, i + 1)
  {
  }

  /**
   * `cmb_count`: the lines it prints for the file at `path` (whose base name
   * is `baseName`), or the not-found line when `file` holds no parsed tree.
   */
  method CmbCount(path: string, baseName: string, file: Option<Node>) returns (output: seq<string>)
    ensures file == None ==> output == [NotFound(path)]
    ensures file.Some? ==> output == [AnalyzedHeader(baseName)] + ReportLines(Counts(file.value, false))
  {
    if file == None {
      return [NotFound(path)];
    }
    var tree := file.value;
    var parent := AnnotateParents(tree);
    var visitor := new CountVisitor(tree, parent);
    visitor.Visit(tree, []);
    assert visitor.counts == Counts(tree, false);
    var lines := RenderCounts(visitor.counts);
    output := [AnalyzedHeader(baseName)] + lines;
  }

  /**
   * `debug`: the lines it prints for the file at `path`, or the not-found
   * line when `file` holds no parsed tree.
   */
  method Debug(path: string, baseName: string, file: Option<Node>) returns (output: seq<string>)
    ensures file == None ==> output == [NotFound(path)]
    ensures file.Some? ==> output == [DebugHeader(baseName)] + Messages(Log(file.value, false))
  {
    if file == None {
      return [NotFound(path)];
    }
    var tree := file.value;
    var parent := AnnotateParents(tree);
    var visitor := new DebugVisitor(tree, parent);
    visitor.Visit(tree, []);
    DebugLogRendersLog(tree, false);
    output := [DebugHeader(baseName)] + visitor.log;
  }
}
