/**
 * The text the two scanners print: the per-kind lines of the count report and
 * the messages of the debug log, with the decimal rendering of numbers they
 * rely on.
 */
module Render {
  import opened Constructs

  // ---------------------------------------------------------------------------
  // Decimal numbers

  predicate IsDigit(c: char) {
    '0' <= c <= '9'
  }

  predicate AllDigits(s: string) {
    forall i :: 0 <= i < |s| ==> IsDigit(s[i])
  }

  function DigitChar(d: nat): (c: char)
    requires d < 10
    ensures IsDigit(c) && c as int - '0' as int == d
  {
    ['0', '1', '2', '3', '4', '5', '6', '7', '8', '9'][d]
  }

  /** The decimal form of `n`, as Python's `str` of an int writes it: no sign, no leading zero. */
  function Digits(n: nat): (s: string)
    ensures |s| > 0 && AllDigits(s)
  {
    if n < 10 then [DigitChar(n)] else Digits(n / 10) + [DigitChar(n % 10)]
  }

  /** The number a string of decimal digits denotes. */
  function DigitsValue(s: string): nat
    requires AllDigits(s)
  {
    if s == [] then 0 else DigitsValue(s[..|s| - 1]) * 10 + (s[|s| - 1] as int - '0' as int)
  }

  lemma {:induction false} DigitsRoundTrip(n: nat)
    ensures DigitsValue(Digits(n)) == n
  {
    if n >= 10 {
      var s := Digits(n);
      assert s[..|s| - 1] == Digits(n / 10);
      DigitsRoundTrip(n / 10);
    }
  }

  /** Two numbers print alike only when they are equal. */
  lemma DigitsInjective(m: nat, n: nat)
    ensures Digits(m) == Digits(n) ==> m == n
  {
    DigitsRoundTrip(m);
    DigitsRoundTrip(n);
  }

  // ---------------------------------------------------------------------------
  // Splitting a printed line at a marker character

  /**
   * When two strings that both start with a part free of `c` followed by `c`
   * are equal, the parts before `c` and the parts after it are equal.
   */
  lemma {:induction false} SplitAt(x: string, y: string, x': string, y': string, c: char)
    requires c !in x && c !in x'
    requires x + [c] + y == x' + [c] + y'
    ensures x == x' && y == y'
  {
    var s := x + [c] + y;
    assert s[|x|] == c && s[|x'|] == c;
    assert forall i :: 0 <= i < |x| ==> s[i] == x[i];
    assert forall i :: 0 <= i < |x'| ==> s[i] == x'[i];
    assert |x| == |x'|;
    assert x == s[..|x|] == x';
    assert y == s[|x| + 1..] == y';
  }

  lemma {:induction false} NameShape(k: Construct)
    ensures |k.Name()| > 0 && '\'' !in k.Name() && ' ' !in k.Name()
  {
  }

  /** Every kind has its own name. */
  lemma {:induction false} NameInjective(k: Construct, k': Construct)
    ensures k.Name() == k'.Name() ==> k == k'
  {
  }

  lemma {:induction false} DropPrefix(a: string, x: string, x': string)
    requires a + x == a + x'
    ensures x == x'
  {
    assert x == (a + x)[|a|..];
    assert x' == (a + x')[|a|..];
  }

  lemma {:induction false} NotInDigits(n: nat, c: char)
    requires !IsDigit(c)
    ensures c !in Digits(n)
  {
  }

  // ---------------------------------------------------------------------------
  // The count report

  /** The line printed for a kind whose counter holds `n`, e.g. `2 'def' blocks`. */
  function BlockLine(k: Construct, n: nat): string {
    Digits(n) + " '" + k.Name() + "' block" + Plural(n)
  }

  /** The plural suffix of a report line. */
  function Plural(n: nat): string {
    if n > 1 then "s" else ""
  }

  lemma {:induction false} BlockLineShape(k: Construct, n: nat)
    ensures BlockLine(k, n) == Digits(n) + [' '] + ("'" + k.Name() + "' block" + Plural(n))
    ensures "'" + k.Name() + "' block" + Plural(n) == "'" + (k.Name() + ['\''] + (" block" + Plural(n)))
  {
  }

  /** The plural suffix is there exactly when the counter is above one. */
  lemma {:induction false} BlockLinePlural(k: Construct, n: nat)
    ensures BlockLine(k, n)[|BlockLine(k, n)| - 1] == 's' <==> n > 1
    ensures n <= 1 ==> BlockLine(k, n)[|BlockLine(k, n)| - 5..] == "block"
    ensures n > 1 ==> BlockLine(k, n)[|BlockLine(k, n)| - 6..] == "blocks"
  {
  }

  /** A report line names exactly one kind and one count. */
  lemma {:induction false} BlockLineInjective(k: Construct, n: nat, k': Construct, n': nat)
    ensures BlockLine(k, n) == BlockLine(k', n') ==> k == k' && n == n'
  {
    if BlockLine(k, n) == BlockLine(k', n') {
      var rest := k.Name() + ['\''] + (" block" + Plural(n));
      var rest' := k'.Name() + ['\''] + (" block" + Plural(n'));
      BlockLineShape(k, n);
      BlockLineShape(k', n');
      NotInDigits(n, ' ');
      NotInDigits(n', ' ');
      SplitAt(Digits(n), "'" + rest, Digits(n'), "'" + rest', ' ');
      DigitsInjective(n, n');
      DropPrefix("'", rest, rest');
      NameShape(k);
      NameShape(k');
      SplitAt(k.Name(), " block" + Plural(n), k'.Name(), " block" + Plural(n'), '\'');
      NameInjective(k, k');
    }
  }

  /** The kinds among `ks` whose counter is above zero, in the order of `ks`. */
  function Reported(counts: map<Construct, nat>, ks: seq<Construct>): seq<Construct>
    requires forall k :: k in counts
  {
    if ks == [] then []
    else
      var k := ks[|ks| - 1];
      Reported(counts, ks[..|ks| - 1]) + (if counts[k] > 0 then [k] else [])
  }

  /** The lines printed after the `Result:` header, one per reported kind. */
  function ReportLines(counts: map<Construct, nat>): (lines: seq<string>)
    requires forall k :: k in counts
    ensures |lines| == |Reported(counts, Kinds)|
  {
    var ks := Reported(counts, Kinds);
    seq(|ks|, i requires 0 <= i < |ks| => BlockLine(ks[i], counts[ks[i]]))
  }

  /** The lines of ReportLines that the loop has produced after the first `j` kinds. */
  function ReportLinesUpTo(counts: map<Construct, nat>, j: nat): seq<string>
    requires forall k :: k in counts
    requires j <= |Kinds|
  {
    var ks := Reported(counts, Kinds[..j]);
    seq(|ks|, i requires 0 <= i < |ks| => BlockLine(ks[i], counts[ks[i]]))
  }

  /**
   * Walk the dictionary in its insertion order and emit a line for every
   * counter above zero.
   */
  method RenderCounts(counts: map<Construct, nat>) returns (lines: seq<string>)
    requires forall k :: k in counts
    ensures lines == ReportLines(counts)
  {
    lines := [];
    for j := 0 to |Kinds|
      invariant lines == ReportLinesUpTo(counts, j)
    {
      var k := Kinds[j];
      if counts[k] > 0 {
        lines := lines + [BlockLine(k, counts[k])];
      }
      ReportLinesStep(counts, j);
    }
    assert Kinds[..|Kinds|] == Kinds;
  }

  lemma {:induction false} ReportLinesStep(counts: map<Construct, nat>, j: nat)
    requires forall k :: k in counts
    requires j < |Kinds|
    ensures ReportLinesUpTo(counts, j + 1) ==
      ReportLinesUpTo(counts, j) +
      (if counts[Kinds[j]] > 0 then [BlockLine(Kinds[j], counts[Kinds[j]])] else [])
  {
    assert Kinds[..j + 1][..j] == Kinds[..j];
  }

  /** The position of each kind in the counts dictionary. */
  function Rank(k: Construct): (r: nat)
    ensures r < |Kinds| && Kinds[r] == k
  {
    match k
    case IfBlock => 0
    case ElifBlock => 1
    case ForBlock => 2
    case WhileBlock => 3
    case DefBlock => 4
    case ClassBlock => 5
    case ListBlock => 6
    case DictBlock => 7
  }

  lemma {:induction false} ReportedExactly(counts: map<Construct, nat>, ks: seq<Construct>)
    requires forall k :: k in counts
    ensures forall k :: k in Reported(counts, ks) <==> k in ks && counts[k] > 0
  {
    if ks != [] {
      ReportedExactly(counts, ks[..|ks| - 1]);
      assert ks == ks[..|ks| - 1] + [ks[|ks| - 1]];
    }
  }

  lemma {:induction false} ReportedInOrder(counts: map<Construct, nat>, m: nat)
    requires forall k :: k in counts
    requires m <= |Kinds|
    ensures forall i :: 0 <= i < |Reported(counts, Kinds[..m])| ==> Rank(Reported(counts, Kinds[..m])[i]) < m
    ensures forall i, j :: 0 <= i < j < |Reported(counts, Kinds[..m])| ==>
      Rank(Reported(counts, Kinds[..m])[i]) < Rank(Reported(counts, Kinds[..m])[j])
  {
    if m > 0 {
      ReportedInOrder(counts, m - 1);
      assert Kinds[..m][..m - 1] == Kinds[..m - 1];
      assert Rank(Kinds[m - 1]) == m - 1;
    }
  }

  /**
   * The report has a line for each kind whose counter is above zero and for
   * no other kind, and that line carries the kind's name and count, with the
   * plural suffix exactly when the count is above one (BlockLinePlural).
   */
  lemma ReportListsCounted(counts: map<Construct, nat>)
    requires forall k :: k in counts
    ensures forall k :: counts[k] > 0 <==> BlockLine(k, counts[k]) in ReportLines(counts)
  {
    var ks := Reported(counts, Kinds);
    var lines := ReportLines(counts);
    ReportedExactly(counts, Kinds);
    KindsListed();
    forall k
      ensures counts[k] > 0 <==> BlockLine(k, counts[k]) in lines
    {
      if counts[k] > 0 {
        var i :| 0 <= i < |ks| && ks[i] == k;
        assert lines[i] == BlockLine(k, counts[k]);
      }
      if BlockLine(k, counts[k]) in lines {
        var i :| 0 <= i < |lines| && lines[i] == BlockLine(k, counts[k]);
        BlockLineInjective(k, counts[k], ks[i], counts[ks[i]]);
      }
    }
  }

  /**
   * The report lines follow the reported kinds one for one, and the reported
   * kinds keep the order of the counts dictionary: if, elif, for, while, def,
   * class, list, dict.
   */
  lemma ReportInOrder(counts: map<Construct, nat>)
    requires forall k :: k in counts
    ensures forall i :: 0 <= i < |Reported(counts, Kinds)| ==>
      counts[Reported(counts, Kinds)[i]] > 0 &&
      ReportLines(counts)[i] == BlockLine(Reported(counts, Kinds)[i], counts[Reported(counts, Kinds)[i]])
    ensures forall i, j :: 0 <= i < j < |Reported(counts, Kinds)| ==>
      Rank(Reported(counts, Kinds)[i]) < Rank(Reported(counts, Kinds)[j])
  {
    ReportedExactly(counts, Kinds);
    ReportedInOrder(counts, |Kinds|);
    assert Kinds[..|Kinds|] == Kinds;
  }

  /** When every counter is zero the report has no line. */
  lemma NothingReported(counts: map<Construct, nat>)
    requires forall k :: k in counts && counts[k] == 0
    ensures ReportLines(counts) == []
  {
    NoneReported(counts, Kinds);
  }

  lemma {:induction false} NoneReported(counts: map<Construct, nat>, ks: seq<Construct>)
    requires forall k :: k in counts && counts[k] == 0
    ensures Reported(counts, ks) == []
  {
    if ks != [] {
      NoneReported(counts, ks[..|ks| - 1]);
    }
  }

  /** The line printed before the report, naming the file by its base name. */
  function AnalyzedHeader(baseName: string): string {
    "\nAnalyzed: " + baseName + "\nResult:"
  }

  // ---------------------------------------------------------------------------
  // The debug log

  /** The debug message for one record, e.g. `Found 'for' at line 12`. */
  function Message(r: Record): string {
    "Found '" + r.kind.Name() + "' at line " + Digits(r.line)
  }

  /** A debug message names exactly one kind and one line. */
  lemma {:induction false} MessageInjective(r: Record, r': Record)
    ensures Message(r) == Message(r') ==> r == r'
  {
    if Message(r) == Message(r') {
      var rest := " at line " + Digits(r.line);
      var rest' := " at line " + Digits(r'.line);
      MessageShape(r);
      MessageShape(r');
      DropPrefix("Found '", r.kind.Name() + ['\''] + rest, r'.kind.Name() + ['\''] + rest');
      NameShape(r.kind);
      NameShape(r'.kind);
      SplitAt(r.kind.Name(), rest, r'.kind.Name(), rest', '\'');
      NameInjective(r.kind, r'.kind);
      DropPrefix(" at line ", Digits(r.line), Digits(r'.line));
      DigitsInjective(r.line, r'.line);
    }
  }

  lemma {:induction false} MessageShape(r: Record)
    ensures Message(r) == "Found '" + (r.kind.Name() + ['\''] + (" at line " + Digits(r.line)))
  {
  }

  /** The messages for a sequence of records, one each, in order. */
  function Messages(rs: seq<Record>): (ms: seq<string>)
    ensures |ms| == |rs|
  {
    seq(|rs|, i requires 0 <= i < |rs| => Message(rs[i]))
  }

  /** The message at each position is the message of the record at that position. */
  lemma {:induction false} MessagesAt(rs: seq<Record>)
    ensures forall i :: 0 <= i < |rs| ==> Messages(rs)[i] == Message(rs[i])
  {
  }

  lemma {:induction false} MessagesConcat(a: seq<Record>, b: seq<Record>)
    ensures Messages(a + b) == Messages(a) + Messages(b)
  {
  }

  /** The debug log can be read back: equal logs come from equal record sequences. */
  lemma MessagesInjective(rs: seq<Record>, rs': seq<Record>)
    ensures Messages(rs) == Messages(rs') ==> rs == rs'
  {
    if Messages(rs) == Messages(rs') {
      MessagesAt(rs);
      MessagesAt(rs');
      forall i | 0 <= i < |rs|
        ensures rs[i] == rs'[i]
      {
        MessageInjective(rs[i], rs'[i]);
      }
    }
  }

  /** The line printed before the debug messages, naming the file by its base name. */
  function DebugHeader(baseName: string): string {
    "\nDebugging: " + baseName + "\n--- DEBUG INFO ---"
  }

  /** The line printed instead of a report when the path names no file. */
  function NotFound(path: string): string {
    "File not found: " + path
  }
}
