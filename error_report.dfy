/**
 * `report_err`: the severity an exception's type name is given, the message
 * built from it, and the entry appended to the error log file.
 */
module ErrorReport {
  import opened Render

  /** The three severities a report can carry. */
  datatype Level = Warning | Error | Critical {
    /** The word written between brackets in the header. */
    function Name(): string {
      match this
      case Warning => "WARNING"
      case Error => "ERROR"
      case Critical => "CRITICAL"
    }
  }

  /** The exception types reported as warnings. */
  const WarningTypes: seq<string> := ["ZeroDivisionError", "IndexError", "KeyError"]

  /** The exception types reported as errors. */
  const ErrorTypes: seq<string> := ["TypeError", "AttributeError", "ValueError"]

  /**
   * The severity of an exception whose class is named `errorType`. The name is
   * matched exactly: a subclass of a listed type is critical.
   */
  function Severity(errorType: string): (level: Level)
    ensures level == Warning <==> errorType in WarningTypes
    ensures level == Error <==> errorType in ErrorTypes
    ensures level == Critical <==> errorType !in WarningTypes && errorType !in ErrorTypes
  {
    if errorType in WarningTypes then Warning
    else if errorType in ErrorTypes then Error
    else Critical
  }

  /** The exception being reported: its class name and its `str` text. */
  datatype Exception = Exception(typeName: string, text: string)

  /** The first line of a report, e.g. `[2024-01-01 12:00:00] [ERROR] (load) ValueError: bad`. */
  function Header(timestamp: string, level: Level, context: string, err: Exception): string {
    "[" + timestamp + "] [" + level.Name() + "] (" + context + ") " + err.typeName + ": " + err.text
  }

  /** The report printed and logged for `err`: its header, then the formatted traceback. */
  function Report(timestamp: string, context: string, err: Exception, traceback: string): string {
    Header(timestamp, Severity(err.typeName), context, err) + "\nTraceback:\n" + traceback
  }

  /** The line of sixty dashes that closes every log entry. */
  function Separator(): (s: string)
    ensures |s| == 60 && forall i :: 0 <= i < |s| ==> s[i] == '-'
  {
    seq(60, _ => '-')
  }

  /** The text appended to the log for one report. */
  function Entry(report: string): string {
    report + "\n" + Separator() + "\n"
  }

  /** The context recorded when the caller names none. */
  const UnknownContext: string := "Unknown"

  /** The error log file, opened for appending. */
  class ErrorLog {
    var contents: string

    constructor(contents: string)
      ensures this.contents == contents
    {
      this.contents := contents;
    }

    /** Append `text` at the end of the file. */
    method Write(text: string)
      modifies this
      ensures contents == old(contents) + text
    {
      contents := contents + text;
    }
  }

  /**
   * `report_err`: build the report for `err`, print it when `forcePrint` is
   * set (the returned lines are what is printed), and append its entry to the
   * log. The clock reading and the traceback text come in as `timestamp` and
   * `traceback`.
   */
  method ReportErr(log: ErrorLog, err: Exception, context: string, forcePrint: bool,
                   timestamp: string, traceback: string) returns (printed: seq<string>)
    modifies log
    ensures printed == if forcePrint then [Report(timestamp, context, err, traceback)] else []
    ensures log.contents == old(log.contents) + Entry(Report(timestamp, context, err, traceback))
    ensures old(log.contents) <= log.contents
  {
    var level := Severity(err.typeName);
    var header := Header(timestamp, level, context, err);
    var message := header + "\nTraceback:\n" + traceback;
    printed := [];
    if forcePrint {
      printed := [message];
    }
    log.Write(message + "\n" + Separator() + "\n");
  }

  /** `report_err(err)` with its defaults: no context is named and the report is printed. */
  method ReportErrDefault(log: ErrorLog, err: Exception, timestamp: string, traceback: string)
    returns (printed: seq<string>)
    modifies log
    ensures printed == [Report(timestamp, UnknownContext, err, traceback)]
    ensures log.contents == old(log.contents) + Entry(Report(timestamp, UnknownContext, err, traceback))
  {
    printed := ReportErr(log, err, UnknownContext, true, timestamp, traceback);
  }

  /**
   * The six listed names get their level; any other name is critical. That
   * includes the name of a subclass of a listed type (UnicodeDecodeError is a
   * ValueError) and a listed name in another case.
   */
  lemma SeverityExamples()
    ensures Severity("ZeroDivisionError") == Warning && Severity("IndexError") == Warning
    ensures Severity("KeyError") == Warning
    ensures Severity("TypeError") == Error && Severity("AttributeError") == Error
    ensures Severity("ValueError") == Error
    ensures Severity("NameError") == Critical && Severity("UnicodeDecodeError") == Critical
    ensures Severity("") == Critical && Severity("keyerror") == Critical
  {
    assert "NameError" !in WarningTypes && "NameError" !in ErrorTypes;
    assert "UnicodeDecodeError" !in WarningTypes && "UnicodeDecodeError" !in ErrorTypes;
    assert "keyerror" != "KeyError";
  }

  /** A ZeroDivisionError reported in context `calc` carries a WARNING header. */
  lemma {:induction false} ZeroDivisionHeader(timestamp: string, text: string)
    ensures Header(timestamp, Severity("ZeroDivisionError"), "calc", Exception("ZeroDivisionError", text)) ==
      "[" + timestamp + "] [WARNING] (calc) ZeroDivisionError: " + text
  {
    var err := Exception("ZeroDivisionError", text);
    HeaderMiddle(timestamp, Warning, "calc", err);
    CalcMiddle();
  }

  /** The header is its timestamp, one middle part, and the exception's text. */
  lemma {:induction false} HeaderMiddle(timestamp: string, level: Level, context: string, err: Exception)
    ensures Header(timestamp, level, context, err) ==
      "[" + timestamp + ("] [" + level.Name() + "] (" + context + ") " + err.typeName + ": ") + err.text
  {
  }

  /** The middle part of a WARNING header in context `calc` for a ZeroDivisionError. */
  lemma {:induction false} CalcMiddle()
    ensures "] [" + Warning.Name() + "] (" + "calc" + ") " + "ZeroDivisionError" + ": " ==
      "] [WARNING] (calc) ZeroDivisionError: "
  {
  }

  lemma {:induction false} LevelNameInjective(l: Level, l': Level)
    ensures l.Name() == l'.Name() ==> l == l'
    ensures ']' !in l.Name()
  {
  }

  lemma {:induction false} HeaderShape(timestamp: string, level: Level, context: string, err: Exception)
    ensures Header(timestamp, level, context, err) ==
      ("[" + timestamp + "] [") + (level.Name() + [']'] + (" (" + context + ") " + err.typeName + ": " + err.text))
  {
  }

  /**
   * The severity can be read back from a header: two headers with the same
   * timestamp that are equal carry the same level.
   */
  lemma {:induction false} HeaderLevelReadBack(timestamp: string, level: Level, context: string, err: Exception,
                                               level': Level, context': string, err': Exception)
    ensures Header(timestamp, level, context, err) == Header(timestamp, level', context', err') ==> level == level'
  {
    if Header(timestamp, level, context, err) == Header(timestamp, level', context', err') {
      var front := "[" + timestamp + "] [";
      var rest := " (" + context + ") " + err.typeName + ": " + err.text;
      var rest' := " (" + context' + ") " + err'.typeName + ": " + err'.text;
      HeaderShape(timestamp, level, context, err);
      HeaderShape(timestamp, level', context', err');
      DropPrefix(front, level.Name() + [']'] + rest, level'.Name() + [']'] + rest');
      LevelNameInjective(level, level');
      LevelNameInjective(level', level);
      SplitAt(level.Name(), rest, level'.Name(), rest', ']');
    }
  }

  /** A log entry starts with the whole report and ends with the separator line. */
  lemma {:induction false} EntryParts(report: string)
    ensures |Entry(report)| == |report| + 62
    ensures Entry(report)[..|report|] == report
    ensures Entry(report)[|report|] == '\n' && Entry(report)[|report| + 61] == '\n'
    ensures forall i :: |report| < i < |report| + 61 ==> Entry(report)[i] == '-'
  {
  }

  /** Equal entries come from equal reports: the log can be read back report by report. */
  lemma {:induction false} EntryInjective(report: string, report': string)
    ensures Entry(report) == Entry(report') ==> report == report'
  {
    if Entry(report) == Entry(report') {
      EntryParts(report);
      EntryParts(report');
    }
  }

  /** The report starts with its header line. */
  lemma {:induction false} ReportParts(timestamp: string, context: string, err: Exception, traceback: string)
    ensures Report(timestamp, context, err, traceback)[..|Header(timestamp, Severity(err.typeName), context, err)|] ==
      Header(timestamp, Severity(err.typeName), context, err)
  {
  }
}
