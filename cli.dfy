/**
 * The command line of wndsize: the validation rules of `parse_args`, the
 * dispatch of `main`, and the whole run as a trace of events.
 *
 * getopts itself is not modelled: which flags were given and the values of the
 * options, already converted, are the input (`Matches`).
 */
module Cli {
  import opened Wrappers
  import opened Utf16
  import opened Windows

  /** What getopts reports: presence of each flag and the parsed option values. */
  datatype Matches = Matches(
    help: bool,
    listWindows: bool,
    resizeWindow: bool,
    width: Option<I32>,
    height: Option<I32>,
    title: Option<string>)

  /** The `Args` record that parse_args builds. */
  datatype Args = Args(
    showedHelp: bool,
    cmdListWindows: bool,
    cmdResizeWindow: bool,
    windowWidth: I32,
    windowHeight: I32,
    windowTitle: string)

  // ---------------------------------------------------------------------------
  // The error messages

  /** The whitespace a Rust string continuation (a backslash ending the line) skips. */
  predicate IsContinuationWhitespace(c: char)
  {
    c == ' ' || c == '\t' || c == '\n' || c == '\r'
  }

  /**
   * What a continuation keeps of the next line: the text after the longest
   * prefix of whitespace.
   */
  function SkipWhitespace(s: string): (r: string)
    ensures |r| <= |s| && r == s[|s| - |r|..]
    ensures forall i :: 0 <= i < |s| - |r| ==> IsContinuationWhitespace(s[i])
    ensures r == [] || !IsContinuationWhitespace(r[0])
  {
    if s != [] && IsContinuationWhitespace(s[0]) then SkipWhitespace(s[1..]) else s
  }

  /**
   * A string literal written as `head` and a backslash, with `tail` (starting
   * with the newline) on the next line.
   */
  function Continued(head: string, tail: string): string
  {
    head + SkipWhitespace(tail)
  }

  /** The line break after the backslash and the n blanks that indent the next line. */
  function Indent(n: nat): string
  {
    "\n" + seq(n, _ => ' ')
  }

  /**
   * The two error messages as written in the source: a head ending in a
   * backslash, then the body on the next line after 12 (resp. 16) blanks.
   */
  const MissingCommandHead: string := "One of the following values are required: "
  const MissingCommandBody: string := "--list-windows or --resize-window"
  const MissingCommandError: string := Continued(MissingCommandHead, Indent(12) + MissingCommandBody)

  const MissingResizeOptionsHead: string := "These arguments are required: "
  const MissingResizeOptionsBody: string := "--width, --height, --title."
  const MissingResizeOptionsError: string :=
    Continued(MissingResizeOptionsHead, Indent(16) + MissingResizeOptionsBody)

  /** Whitespace followed by a text that starts with something else is skipped whole. */
  lemma {:induction false} SkipAll(w: string, s: string)
    requires forall i :: 0 <= i < |w| ==> IsContinuationWhitespace(w[i])
    requires s == [] || !IsContinuationWhitespace(s[0])
    ensures SkipWhitespace(w + s) == s
  {
    if w == [] {
      assert w + s == s;
    } else {
      var t := w + s;
      assert t[0] == w[0] && IsContinuationWhitespace(t[0]);
      assert t[1..] == w[1..] + s;
      SkipAll(w[1..], s);
      assert SkipWhitespace(t) == SkipWhitespace(t[1..]);
    }
  }

  /** A continuation onto an indented line joins the head directly to the line's text. */
  lemma ContinuedIndent(head: string, n: nat, body: string)
    requires body == [] || !IsContinuationWhitespace(body[0])
    ensures Continued(head, Indent(n) + body) == head + body
  {
    SkipAll(Indent(n), body);
  }

  /** The first continuation leaves exactly the head followed by the body. */
  lemma MissingCommandText()
    ensures MissingCommandError == MissingCommandHead + MissingCommandBody
  {
    ContinuedIndent(MissingCommandHead, 12, MissingCommandBody);
  }

  /** The second continuation leaves exactly the head followed by the body. */
  lemma MissingResizeOptionsText()
    ensures MissingResizeOptionsError == MissingResizeOptionsHead + MissingResizeOptionsBody
  {
    ContinuedIndent(MissingResizeOptionsHead, 16, MissingResizeOptionsBody);
  }

  /** The two messages differ, so a caller can tell the two errors apart. */
  lemma ErrorMessagesDiffer()
    ensures MissingCommandError != MissingResizeOptionsError
  {
    MissingCommandText();
    MissingResizeOptionsText();
    assert MissingCommandError[0] == MissingCommandHead[0];
    assert MissingResizeOptionsError[0] == MissingResizeOptionsHead[0];
  }

  // ---------------------------------------------------------------------------
  // parse_args

  const HelpArgs: Args := Args(true, false, false, 0, 0, "")

  /** -r needs all three of -w, -h and -t. */
  predicate ResizeOptionsPresent(m: Matches)
  {
    m.width.Some? && m.height.Some? && m.title.Some?
  }

  function GetOr<T>(o: Option<T>, default: T): T
  {
    match o
    case Some(v) => v
    case None => default
  }

  /**
   * parse_args after getopts: --help wins, then one of -l/-r is required, then
   * -r requires -w, -h and -t; a successful parse copies the flags and fills
   * in the absent values with 0 and the empty title.
   */
  function ParseArgs(m: Matches): (r: Result<Args, string>)
    ensures r.Ok? && r.value.showedHelp <==> m.help
    ensures m.help ==> r == Ok(HelpArgs)
    ensures r == Err(MissingCommandError) <==> !m.help && !m.listWindows && !m.resizeWindow
    ensures r == Err(MissingResizeOptionsError) <==>
      !m.help && m.resizeWindow && !ResizeOptionsPresent(m)
    ensures r.Err? ==> r.error == MissingCommandError || r.error == MissingResizeOptionsError
    ensures r.Ok? && !m.help ==>
      r.value == Args(false, m.listWindows, m.resizeWindow,
                      GetOr(m.width, 0), GetOr(m.height, 0), GetOr(m.title, ""))
  {
    ErrorMessagesDiffer();
    if m.help then
      Ok(HelpArgs)
    else if !m.listWindows && !m.resizeWindow then
      Err(MissingCommandError)
    else if m.resizeWindow && !ResizeOptionsPresent(m) then
      Err(MissingResizeOptionsError)
    else
      Ok(Args(false, m.listWindows, m.resizeWindow,
              GetOr(m.width, 0), GetOr(m.height, 0), GetOr(m.title, "")))
  }

  /**
   * Every parsed result but help names at least one command, and a resize
   * command carries the values given on the command line, never a default.
   */
  lemma ParsedCommand(m: Matches)
    requires ParseArgs(m).Ok? && !ParseArgs(m).value.showedHelp
    ensures var a := ParseArgs(m).value;
      && (a.cmdListWindows || a.cmdResizeWindow)
      && (a.cmdResizeWindow ==>
            && Some(a.windowWidth) == m.width
            && Some(a.windowHeight) == m.height
            && Some(a.windowTitle) == m.title)
  {
  }

  // ---------------------------------------------------------------------------
  // main

  datatype Command =
    | Idle
    | ListWindows
    | ResizeWindow(title: string, width: I32, height: I32)
    | ReportError(message: string)

  /** The branch main takes: nothing after help, else the listing before the resize. */
  function Dispatch(r: Result<Args, string>): (c: Command)
    ensures r.Err? ==> c == ReportError(r.error)
    ensures r.Ok? && r.value.showedHelp ==> c == Idle
    ensures c == ListWindows <==> r.Ok? && !r.value.showedHelp && r.value.cmdListWindows
    ensures c.ResizeWindow? <==>
      r.Ok? && !r.value.showedHelp && !r.value.cmdListWindows && r.value.cmdResizeWindow
    ensures c.ResizeWindow? ==>
      c == ResizeWindow(r.value.windowTitle, r.value.windowWidth, r.value.windowHeight)
  {
    match r
    case Err(message) => ReportError(message)
    case Ok(args) =>
      if args.showedHelp then Idle
      else if args.cmdListWindows then ListWindows
      else if args.cmdResizeWindow then ResizeWindow(args.windowTitle, args.windowWidth, args.windowHeight)
      else Idle
  }

  /**
   * Everything a run of wndsize does, in order.  Every run does something
   * observable, and it starts with the usage text exactly when --help is given.
   */
  function ProgramTrace(m: Matches, host: Host): (trace: seq<Event>)
    requires host.Valid()
    ensures 0 < |trace|
    ensures trace[0] == Usage <==> m.help
  {
    (if m.help then [Usage] else [])
    + match Dispatch(ParseArgs(m))
      case Idle => []
      case ReportError(message) => [Output(message)]
      case ListWindows => [EnumWindows] + ListingTrace(host, host.topLevel)
      case ResizeWindow(title, width, height) => ResizeWindowTrace(host, title, width, height)
  }

  /** main: parses the arguments and runs the command they select. */
  method Wndsize(m: Matches, host: Host) returns (trace: seq<Event>)
    requires host.Valid()
    ensures trace == ProgramTrace(m, host)
  {
    var parsed := ParseArgs(m);
    trace := if m.help then [Usage] else [];
    match parsed {
      case Ok(args) =>
        if args.showedHelp {
          // after the help text nothing is done
        } else if args.cmdListWindows {
          var listing := ShowWindowsList(host);
          trace := trace + listing;
        } else if args.cmdResizeWindow {
          trace := trace + ResizeWindowTrace(host, args.windowTitle, args.windowWidth, args.windowHeight);
        }
      case Err(message) =>
        trace := trace + [Output(message)];
    }
  }

  // ---------------------------------------------------------------------------
  // Properties of a whole run

  /** A run does nothing after parsing exactly when --help is given. */
  lemma IdleOnlyForHelp(m: Matches)
    ensures Dispatch(ParseArgs(m)) == Idle <==> m.help
  {
  }

  /** --help prints the usage text and does nothing else. */
  lemma HelpDoesNothing(m: Matches, host: Host)
    requires host.Valid() && m.help
    ensures ProgramTrace(m, host) == [Usage]
    ensures NoHostCall(ProgramTrace(m, host))
  {
  }

  /** An argument error is printed, and no window operation follows. */
  lemma ErrorStops(m: Matches, host: Host)
    requires host.Valid() && ParseArgs(m).Err?
    ensures ProgramTrace(m, host) == [Output(ParseArgs(m).error)]
    ensures NoHostCall(ProgramTrace(m, host))
  {
  }

  /**
   * With -l the listing runs, and with -r too provided -w, -h and -t are given
   * (otherwise parsing stops first: `MissingOptionsBeforeDispatch`): the window
   * manager is asked to enumerate, the non-empty titles are printed, and the
   * only other requests are the title reads; no window is looked up or resized.
   */
  lemma ListingWins(m: Matches, host: Host)
    requires host.Valid() && !m.help && m.listWindows
    requires !m.resizeWindow || ResizeOptionsPresent(m)
    ensures var trace := ProgramTrace(m, host);
      var k := FirstFailure(host, host.topLevel);
      && trace[0] == EnumWindows
      && Outputs(trace) == NonEmpty(Titles(host, host.topLevel[..k]))
      && ResizeCount(trace) == 0
      && forall e :: e in trace[1..] && e.IsHostCall() ==> e.GetWindowText?
  {
    var trace := ProgramTrace(m, host);
    var listing := ListingTrace(host, host.topLevel);
    assert Dispatch(ParseArgs(m)) == ListWindows;
    assert trace == [EnumWindows] + listing;
    assert trace[1..] == listing;
    ListingOutputs(host, host.topLevel);
    ListingSendsNoResize(host, host.topLevel);
    ListingOnlyReadsTitles(host, host.topLevel);
    OutputsAppend([EnumWindows], listing);
    ResizeCountAppend([EnumWindows], listing);
  }

  /**
   * A run sends at most one resize request, and only for -r without -l, with
   * the values given on the command line, for the window FindWindowW found,
   * with SWP_NOMOVE.
   */
  lemma AtMostOneResize(m: Matches, host: Host)
    requires host.Valid()
    ensures var trace := ProgramTrace(m, host);
      && ResizeCount(trace) <= 1
      && (ResizeCount(trace) == 1 <==>
            && !m.help && !m.listWindows && m.resizeWindow && ResizeOptionsPresent(m)
            && host.findWindow(Utf8ToUtf16(m.title.value)) != Null)
      && (ResizeCount(trace) == 1 ==>
            trace[|trace| - 1] == SetWindowPos(host.findWindow(Utf8ToUtf16(m.title.value)), Null,
                                               0, 0, m.width.value, m.height.value, SWP_NOMOVE))
  {
    var trace := ProgramTrace(m, host);
    match Dispatch(ParseArgs(m))
    case Idle =>
    case ReportError(message) =>
      assert ResizeCount(trace) == 0 by {
        if m.help { ResizeCountAppend([Usage], [Output(message)]); }
      }
    case ListWindows =>
      ListingWins(m, host);
    case ResizeWindow(title, width, height) =>
      ParsedCommand(m);
      assert trace == ResizeWindowTrace(host, m.title.value, m.width.value, m.height.value);
      if host.findWindow(Utf8ToUtf16(title)) == Null {
        ResizeWindowMiss(host, title, width, height);
      } else {
        ResizeWindowHit(host, title, width, height);
      }
  }

  /** -r with -w, -h and -t and without -l or --help: the run is resize_window with those values. */
  lemma ResizeRun(m: Matches, host: Host)
    requires host.Valid() && !m.help && !m.listWindows && m.resizeWindow && ResizeOptionsPresent(m)
    ensures ProgramTrace(m, host) == ResizeWindowTrace(host, m.title.value, m.width.value, m.height.value)
  {
    assert Dispatch(ParseArgs(m)) == ResizeWindow(m.title.value, m.width.value, m.height.value);
  }

  /**
   * -r with -w, -h and -t and without -l or --help, for a title FindWindowW
   * does not find: the header lines and "Not found window.", and no resize.
   */
  lemma ResizeRunNotFound(m: Matches, host: Host)
    requires host.Valid() && !m.help && !m.listWindows && m.resizeWindow && ResizeOptionsPresent(m)
    requires host.findWindow(Utf8ToUtf16(m.title.value)) == Null
    ensures var trace := ProgramTrace(m, host);
      && Outputs(trace) == ResizeHeader(m.title.value, m.width.value, m.height.value) + [NotFoundMessage]
      && ResizeCount(trace) == 0
  {
    ResizeRun(m, host);
    ResizeWindowMiss(host, m.title.value, m.width.value, m.height.value);
  }

  /**
   * -r without one of -w, -h and -t, and without --help, prints only the
   * missing-options message, whether or not -l is given: parsing checks the
   * options of -r before main picks the listing.
   */
  lemma MissingOptionsBeforeDispatch(m: Matches, host: Host)
    requires host.Valid() && !m.help && m.resizeWindow && !ResizeOptionsPresent(m)
    ensures ProgramTrace(m, host) == [Output(MissingResizeOptionsHead + MissingResizeOptionsBody)]
  {
    MissingResizeOptionsText();
  }

  /** Neither -l nor -r: the exact message, and no window operation. */
  lemma ScenarioNoCommand(host: Host)
    requires host.Valid()
    ensures ProgramTrace(Matches(false, false, false, None, None, None), host) ==
      [Output(MissingCommandHead + MissingCommandBody)]
  {
    MissingCommandText();
  }

  /** -r with -h and -t but without -l or -w: the exact message, and no window operation. */
  lemma ScenarioResizeWithoutWidth(host: Host, height: I32, title: string)
    requires host.Valid()
    ensures ProgramTrace(Matches(false, false, true, None, Some(height), Some(title)), host) ==
      [Output(MissingResizeOptionsHead + MissingResizeOptionsBody)]
  {
    MissingResizeOptionsText();
  }

  /**
   * `-r -w 800 -h 600 -t <title>` on a desktop where FindWindowW finds no window
   * with that title (`NoSuchWindowXYZ`, say): the title, width and height
   * lines (`ScenarioHeader` spells them out), then "Not found window.", and no
   * resize request.
   */
  lemma ScenarioWindowNotFound(host: Host, title: string)
    requires host.Valid()
    requires host.findWindow(Utf8ToUtf16(title)) == Null
    ensures var trace := ProgramTrace(Matches(false, false, true, Some(800), Some(600), Some(title)), host);
      && Outputs(trace) == ResizeHeader(title, 800, 600) + [NotFoundMessage]
      && ResizeCount(trace) == 0
  {
    ResizeRunNotFound(Matches(false, false, true, Some(800), Some(600), Some(title)), host);
  }

  /** The header lines for a width of 800 and a height of 600. */
  lemma ScenarioHeader(title: string)
    ensures ResizeHeader(title, 800, 600) == ["window title: " + title, "width: " + "800", "height: " + "600"]
  {
    Decimals();
  }

  lemma Decimals()
    ensures Decimal(800) == "800" && Decimal(600) == "600"
  {
    assert Digits(8) == "8" && Digits(6) == "6";
    assert Digits(80) == Digits(8) + "0" && Digits(60) == Digits(6) + "0";
    assert Digits(800) == Digits(80) + "0" && Digits(600) == Digits(60) + "0";
  }
}
