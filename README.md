# pyTools core: construct scanner and error reporter

This project models the helpers of `pyTools/core.py` that have logic in them:

- `cmb_count` parses a Python file and annotates every syntax node with its
  parent. It then walks the tree with a `NodeVisitor` that raises one of eight
  counters (if, elif, for, while, def, class, list, dict) per tracked node, and
  prints a line for every counter above zero.
- `debug` does the same walk with a visitor that appends a
  `Found '<kind>' at line <n>` message per tracked node, and prints the log.
- `report_err` classifies an exception by its class name as WARNING, ERROR or
  CRITICAL. It builds a header and traceback block, prints it when
  `force_print` is set, and appends it to `error_log.txt` followed by a row of
  60 dashes.

Modules:

- `SyntaxTree`: the parsed tree, reduced to a node's class, line number and
  children in field order. An If keeps its test, body and orelse in that order,
  with `bodyCount` marking where the body ends. Nodes are identified by their
  path from the root, which stands for Python's object identity. The module
  also defines the pre-order walk and the order on paths it follows: a node
  before its subtree, siblings in field order. Field order is not source-text
  order: a def's decorators come after its body, and a dict's keys all come
  before its values.
- `Parents`: the annotation loop, and the elif test that reads the annotation.
- `Constructs`: the eight kinds, and the specification functions of the two
  visitors on the tree (`Count`, `Log`). It proves that the counts agree with
  the log, and that the log follows the walk.
- `Render`: decimal numbers, the report lines and their loop, and the debug
  messages.
- `Scanner`: the two visitor classes with their recursive `Visit`, and the
  `CmbCount` and `Debug` entry points.
- `ErrorReport`: severity, the header, report and entry formats, the log file
  as an `ErrorLog` object, and `ReportErr`.

The lines a function prints are returned as a sequence of strings. Inputs the
model takes from outside are parameters:

- the resolved absolute path of the file;
- its base name;
- the parsed tree, or `None` when no file is there;
- the timestamp;
- the formatted traceback.

The elif rule is the code's rule. An If counts as elif when its parent is an
If and it is one of the parent's orelse elements, at any position of that
list. So a bare `if` written inside an `else:` block counts as elif too, even
after other statements (`ElifPosition`).

## Model

| member | source | states |
|---|---|---|
| SyntaxTree.IfNode | build/lib/pyTools/core.py:34 | an If's children are its test, then its body, then its orelse list, and `Orelse()` gives back exactly the orelse list |
| SyntaxTree.VisitedExactly | build/lib/pyTools/core.py:68-69 | the depth-first visit from the root reaches every node of the tree and nothing else |
| SyntaxTree.VisitedSorted | build/lib/pyTools/core.py:68-69 | the walk lists each node once, in pre-order with siblings in field order (LexLess) |
| SyntaxTree.WalkOrder | build/lib/pyTools/core.py:68-69 | one node comes before another in the walk exactly when it is earlier in the order LexLess: a node before its subtree (ProperPrefixLexLess), the subtrees of siblings in field order (SiblingLexLess) |
| Parents.AnnotateParents | build/lib/pyTools/core.py:64-66 | after the loop over the walk, every node except the root has a parent entry, that entry is the node whose children contain it, and the root has none |
| Parents.ParentLink | build/lib/pyTools/core.py:64-66 | a node's parent entry names a node of the tree that holds it as a child at the node's own position |
| Parents.ElifRule | build/lib/pyTools/core.py:34 | the visitors' test holds exactly when the node has a parent, the parent is an If, and the node is in the parent's orelse; it never holds for the root |
| Parents.ElifPosition | build/lib/pyTools/core.py:34 | a child is classified elif exactly when its parent is an If and it is that If's orelse element at some position j; a child in the test or body, or under any other node, is not |
| Constructs.KindsListed | build/lib/pyTools/core.py:21-30 | the counts dictionary's eight keys cover every kind |
| Constructs.Counts | build/lib/pyTools/core.py:21-30 | the counters after a visit have an entry for every kind |
| Constructs.OwnOccurrences | build/lib/pyTools/core.py:33-62 | a tracked node contributes exactly one record, of its own kind; an untracked node contributes none |
| Constructs.CountIsOccurrences | build/lib/pyTools/core.py:32-62 | the amount by which a visit raises counter k is the number of records of kind k that the debug visit of the same subtree appends |
| Constructs.OccurrencesConcat | build/lib/pyTools/core.py:92-122 | counting records of a kind distributes over appending logs |
| Constructs.OccurrencesTotal | build/lib/pyTools/core.py:92-122 | the records of the eight kinds together make up the whole log |
| Constructs.CountsAgreeWithLog | build/lib/pyTools/core.py:32-62 | every counter equals the number of debug records of its kind, and the sum of all counters equals the length of the debug log |
| Constructs.LogFollowsWalk | build/lib/pyTools/core.py:92-129 | the debug log is the walk in pre-order with untracked nodes dropped; each record carries its node's kind and line |
| Constructs.NothingTracked | build/lib/pyTools/core.py:21-30 | a tree with no tracked node gives an empty debug log and zero in every counter |
| Constructs.NestedConstructs | build/lib/pyTools/core.py:48-50 | a def holding a for holding an if gives the records def, for, if in that order, and counts 1, 1, 1 for def, for and if and 0 for the rest |
| Constructs.IfElifElseChain | build/lib/pyTools/core.py:33-38 | `if A: … elif B: … else: …` gives one if record and one elif record, in that order, and counts 1 for if and elif and 0 for the rest |
| Render.DigitsRoundTrip | build/lib/pyTools/core.py:74 | the decimal rendering of a count reads back as that count |
| Render.BlockLinePlural | build/lib/pyTools/core.py:74 | a report line ends in "blocks" when the count is above one and in "block" otherwise |
| Render.BlockLineInjective | build/lib/pyTools/core.py:74 | a report line determines its kind and its count |
| Render.RenderCounts | build/lib/pyTools/core.py:72-74 | the loop over the dictionary emits exactly the report lines of ReportLines, in dictionary order |
| Render.ReportListsCounted | build/lib/pyTools/core.py:72-74 | the report carries a line for a kind exactly when its counter is above zero, and that line shows the kind's count |
| Render.ReportInOrder | build/lib/pyTools/core.py:72-74 | every reported kind has a counter above zero, and the report lists the kinds in the order if, elif, for, while, def, class, list, dict |
| Render.NothingReported | build/lib/pyTools/core.py:72-74 | when every counter is zero the report has no line |
| Render.MessageInjective | build/lib/pyTools/core.py:92-122 | a debug message determines the kind and the line number it was made from |
| Render.MessagesInjective | build/lib/pyTools/core.py:131-133 | the printed debug log determines the sequence of records behind it |
| Scanner.ZeroCounts | build/lib/pyTools/core.py:21-30 | the dictionary starts with every kind at zero |
| Scanner.CountVisitor.constructor | build/lib/pyTools/core.py:21-30 | every counter starts at zero |
| Scanner.CountVisitor.Visit | build/lib/pyTools/core.py:32-62 | visiting a node raises each counter by that counter's Count for the node's subtree, taking the elif test from the parent annotation |
| Scanner.CountVisitor.GenericVisit | build/lib/pyTools/core.py:32-62 | visiting the children in field order raises each counter by the sum of their Counts, each child with its own elif flag |
| Scanner.DebugVisitor.constructor | build/lib/pyTools/core.py:90 | the debug log starts empty |
| Scanner.DebugVisitor.Visit | build/lib/pyTools/core.py:92-122 | visiting a node appends the messages of its subtree: its own message first, if it is tracked, then those of its children |
| Scanner.DebugVisitor.GenericVisit | build/lib/pyTools/core.py:92-122 | the messages of the children's subtrees are appended in field order |
| Scanner.DebugLogRendersLog | build/lib/pyTools/core.py:92-122 | the visitor's log consists of the debug records of the walk, each rendered as `Found '<kind>' at line <n>` |
| Scanner.CmbCount | build/lib/pyTools/core.py:6-74 | a missing file prints only the not-found line; otherwise the output is the header and then the report lines of the counts of the whole tree |
| Scanner.Debug | build/lib/pyTools/core.py:76-133 | a missing file prints only the not-found line; otherwise the output is the header and then one message per debug record, in walk order |
| ErrorReport.Severity | build/lib/pyTools/core.py:158-163 | the three listed warning names give WARNING, the three listed error names give ERROR, and every other name gives CRITICAL |
| ErrorReport.SeverityExamples | build/lib/pyTools/core.py:158-163 | each listed name gets its level; an unlisted name such as NameError, the name of a subclass of a listed type such as UnicodeDecodeError, or a listed name in another case is critical |
| ErrorReport.ZeroDivisionHeader | build/lib/pyTools/core.py:165 | a ZeroDivisionError in context `calc` has the header `[<timestamp>] [WARNING] (calc) ZeroDivisionError: <message>` |
| ErrorReport.HeaderLevelReadBack | build/lib/pyTools/core.py:165 | for a given timestamp, the header determines the severity it carries |
| ErrorReport.ReportParts | build/lib/pyTools/core.py:167 | the printed and logged block starts with the header |
| ErrorReport.Separator | build/lib/pyTools/core.py:173 | the separator is 60 dashes |
| ErrorReport.EntryParts | build/lib/pyTools/core.py:173 | a log entry is the whole block, a newline, 60 dashes and a newline |
| ErrorReport.EntryInjective | build/lib/pyTools/core.py:173 | a log entry determines the block it was made from |
| ErrorReport.ErrorLog.Write | build/lib/pyTools/core.py:172-173 | writing to the file opened for appending adds the text at the end and changes nothing before it |
| ErrorReport.ReportErr | build/lib/pyTools/core.py:154-173 | the block is printed exactly when `force_print` is set; the log grows by exactly one entry for the block, after the old contents, which stay a prefix |
| ErrorReport.ReportErrDefault | build/lib/pyTools/core.py:154 | without arguments the context is `Unknown` and the block is printed |

After N calls of `ReportErr`, the log holds the old contents followed by the N
entries in call order; this follows from applying `ReportErr`'s postcondition
once per call.

## Left out

- Path handling (`os.path.abspath`, the default `__file__` path, `os.path.isfile`, `os.path.basename`): the resolved path, the base name and whether a file is there are inputs. "File not found" is the `None` case of the tree argument.
- Reading the file and `ast.parse`: the parsed tree is an input. A `SyntaxError` from the parser propagates out of the source functions and is not modelled.
- `ast.walk` visits breadth first, while `AnnotateParents` loops over the depth-first walk. The loop writes each child's entry once, so the resulting annotation is the same; the order of the writes is not modelled.
- The parser shares context objects such as `Load()` between nodes, so their `parent` attribute is overwritten and ends as one of their parents. Such nodes are never If nodes, and only an If's parent is ever read, so the model gives every node its own identity.
- Node classes the visitors do not name (AsyncFor, AsyncFunctionDef, comprehensions, expression contexts, …) are all `Other`, which the visitors pass through to their children. The contents of nodes other than their children and line number are not modelled.
- Printing and flushing standard output: the printed lines are returned as strings.
- `datetime.now().strftime(...)`, `TracebackException` formatting, `type(err).__name__` and `str(err)`: these are string inputs.
- Opening `error_log.txt` and UTF-8 encoding: the file is an `ErrorLog` object whose contents only `ReportErr` changes; failures to open or write the file are not modelled.
- `can_d0`: returns 0 when the divisor is 0 and otherwise the floating-point quotient; not modelled, because it is floating point and has no state.
- CmbCount, Debug: the interpreter's recursion limit is not modelled. The Python visitors recurse once per tree level, a few frames each, so a parsed tree deeper than about 1000 frames (an `if`/`elif` chain of some 330 branches, say) makes `cmb_count` and `debug` raise `RecursionError`. The model reports every tree.
- `help`, `note` and the version banner printed on import: constant text output with no logic.
