/**
 * The window-manager side of wndsize: collecting the top-level windows,
 * reading a window's title through a fixed 256-unit buffer, listing the
 * non-empty titles, and resizing the window found by its title.
 *
 * The Win32 calls themselves are not modelled.  What they answer is an input
 * (a `Host`), and what the program asks of them and prints is recorded, in
 * order, as a trace of `Event`s.
 */
module Windows {
  import opened Wrappers
  import opened Utf16

  /** An opaque window handle (HWND); 0 is the null handle. */
  type Handle = nat

  const Null: Handle := 0

  /** A Rust i32, the type of the width and the height. */
  type I32 = x: int | -0x8000_0000 <= x < 0x8000_0000

  /** The capacity, in code units, of the buffer a title is read into. */
  const TitleCapacity: nat := 256

  /** SWP_NOMOVE in winuser.h: keep the window's position, ignore x and y. */
  const SWP_NOMOVE: int := 0x0002

  const NotFoundMessage: string := "Not found window."

  /**
   * What GetWindowTextW did with the zero-filled buffer: the units it wrote
   * from index 0 on, and the count it returned.
   */
  datatype TitleRead = TitleRead(written: seq<Unit>, count: int)

  /** The host keeps to the buffer and returns a count that the slice accepts. */
  predicate ValidRead(r: TitleRead)
  {
    |r.written| <= TitleCapacity && 0 <= r.count <= TitleCapacity
  }

  /**
   * The window manager as the program sees it: the handles EnumWindows hands to
   * the callback, in delivery order; GetWindowTextW's answer for each handle;
   * FindWindowW's answer for each null-terminated title (its matching rules
   * are the host's and are left open).
   */
  datatype Host = Host(
    topLevel: seq<Handle>,
    getWindowText: Handle -> TitleRead,
    findWindow: seq<Unit> -> Handle)
  {
    ghost predicate Valid()
    {
      forall h :: ValidRead(getWindowText(h))
    }
  }

  /** What the program does that can be observed, in the order it does it. */
  datatype Event =
    | Output(line: string)
    | Usage
    | Panic
    | EnumWindows
    | GetWindowText(window: Handle)
    | FindWindow(windowName: seq<Unit>)
    | SetWindowPos(window: Handle, insertAfter: Handle, x: int, y: int, cx: int, cy: int, flags: int)
  {
    predicate IsHostCall()
    {
      EnumWindows? || GetWindowText? || FindWindow? || SetWindowPos?
    }
  }

  /** The lines printed, in order. */
  function Outputs(trace: seq<Event>): seq<string>
  {
    if trace == [] then []
    else (if trace[0].Output? then [trace[0].line] else []) + Outputs(trace[1..])
  }

  /** The number of resize requests sent. */
  function ResizeCount(trace: seq<Event>): nat
  {
    if trace == [] then 0
    else (if trace[0].SetWindowPos? then 1 else 0) + ResizeCount(trace[1..])
  }

  /** The windows whose titles were read, in order. */
  function TitleReads(trace: seq<Event>): seq<Handle>
  {
    if trace == [] then []
    else (if trace[0].GetWindowText? then [trace[0].window] else []) + TitleReads(trace[1..])
  }

  predicate NoHostCall(trace: seq<Event>)
  {
    forall e :: e in trace ==> !e.IsHostCall()
  }

  lemma {:induction false} OutputsAppend(a: seq<Event>, b: seq<Event>)
    ensures Outputs(a + b) == Outputs(a) + Outputs(b)
  {
    if a != [] {
      OutputsAppend(a[1..], b);
      assert (a + b)[0] == a[0] && (a + b)[1..] == a[1..] + b;
    } else {
      assert a + b == b;
    }
  }

  lemma {:induction false} ResizeCountAppend(a: seq<Event>, b: seq<Event>)
    ensures ResizeCount(a + b) == ResizeCount(a) + ResizeCount(b)
  {
    if a != [] {
      ResizeCountAppend(a[1..], b);
      assert (a + b)[0] == a[0] && (a + b)[1..] == a[1..] + b;
    } else {
      assert a + b == b;
    }
  }

  lemma {:induction false} TitleReadsAppend(a: seq<Event>, b: seq<Event>)
    ensures TitleReads(a + b) == TitleReads(a) + TitleReads(b)
  {
    if a != [] {
      TitleReadsAppend(a[1..], b);
      assert (a + b)[0] == a[0] && (a + b)[1..] == a[1..] + b;
    } else {
      assert a + b == b;
    }
  }

  // ---------------------------------------------------------------------------
  // get_window_handle_list and enum_windows_proc

  /** The Vec<HWND> that enum_windows_proc reaches through its LPARAM. */
  class HandleList {
    var handles: seq<Handle>

    constructor ()
      ensures handles == []
    {
      handles := [];
    }
  }

  /** enum_windows_proc: appends the delivered handle and answers TRUE (go on). */
  method EnumWindowsProc(window: Handle, list: HandleList) returns (more: bool)
    modifies list
    ensures list.handles == old(list.handles) + [window]
    ensures more
  {
    list.handles := list.handles + [window];
    more := true;
  }

  /**
   * get_window_handle_list: EnumWindows hands the top-level windows to the
   * callback one by one for as long as it answers TRUE; the list ends up
   * holding every handle, in delivery order.
   */
  method GetWindowHandleList(host: Host) returns (handles: seq<Handle>)
    ensures handles == host.topLevel
  {
    var list := new HandleList();
    var i, more := 0, true;
    while i < |host.topLevel| && more
      invariant 0 <= i <= |host.topLevel|
      invariant more && list.handles == host.topLevel[..i]
    {
      more := EnumWindowsProc(host.topLevel[i], list);
      i := i + 1;
    }
    handles := list.handles;
  }

  // ---------------------------------------------------------------------------
  // get_window_title

  /** The title buffer once the host has written into the zero-filled array. */
  function FilledBuffer(r: TitleRead): (b: seq<Unit>)
    requires ValidRead(r)
  {
    r.written + seq(TitleCapacity - |r.written|, _ => 0)
  }

  /**
   * get_window_title as a value: the first `count` units of the window's
   * buffer, decoded (None: the panic); a title has at most `count` scalar values.
   */
  function WindowTitle(host: Host, window: Handle): (title: Option<string>)
    requires host.Valid()
    ensures title.Some? ==> |title.value| <= host.getWindowText(window).count
  {
    var r := host.getWindowText(window);
    Utf16ToUtf8(FilledBuffer(r)[..r.count])
  }

  /**
   * get_window_title: reads the title into a 256-unit buffer and converts
   * exactly the units the host counted.
   */
  method GetWindowTitle(window: Handle, host: Host) returns (title: Option<string>)
    requires host.Valid()
    ensures title == WindowTitle(host, window)
  {
    var buffer := new Unit[TitleCapacity](_ => 0);
    var read := host.getWindowText(window);
    // GetWindowTextW writes the title from the start of the buffer
    forall i | 0 <= i < |read.written| {
      buffer[i] := read.written[i];
    }
    assert buffer[..] == FilledBuffer(read);
    var len := read.count;
    title := Utf16ToUtf8(buffer[..len]);
  }

  /**
   * A title read decodes exactly the counted units and no unit past the
   * buffer: it is empty when the count is 0, it fails exactly when those units
   * hold an unpaired surrogate, and otherwise it has at most `count` <= 256
   * scalar values and encodes back to those units.
   */
  lemma WindowTitleBounded(host: Host, window: Handle)
    requires host.Valid()
    ensures var r := host.getWindowText(window);
      var units := FilledBuffer(r)[..r.count];
      && |FilledBuffer(r)| == TitleCapacity
      && (r.count <= |r.written| ==> units == r.written[..r.count])
      && (r.count == 0 ==> WindowTitle(host, window) == Some(""))
      && (WindowTitle(host, window).None? <==> HasUnpairedSurrogate(units))
      && (WindowTitle(host, window).Some? ==>
            |WindowTitle(host, window).value| <= r.count <= TitleCapacity
            && EncodeUtf16(WindowTitle(host, window).value) == units)
  {
    var r := host.getWindowText(window);
    var units := FilledBuffer(r)[..r.count];
    DecodeFailsIffUnpaired(units);
    if WindowTitle(host, window).Some? {
      EncodeDecode(units);
    }
  }

  /**
   * GetWindowTextW cuts a title that does not fit the buffer.  When the cut
   * falls inside a surrogate pair, the counted units end in a high surrogate
   * and the read fails: the `unwrap` panics instead of giving a shorter title.
   */
  lemma TitleCutInsidePairFails(host: Host, window: Handle)
    requires host.Valid()
    requires var r := host.getWindowText(window);
      0 < r.count && IsHighSurrogate(FilledBuffer(r)[r.count - 1])
    ensures WindowTitle(host, window).None?
  {
    var r := host.getWindowText(window);
    var units := FilledBuffer(r)[..r.count];
    assert UnpairedAt(units, r.count - 1);
    DecodeFailsIffUnpaired(units);
  }

  // ---------------------------------------------------------------------------
  // show_windows_list

  /** The non-empty texts of ts, in their order. */
  function NonEmpty(ts: seq<string>): (r: seq<string>)
    ensures |r| <= |ts|
    ensures forall t :: t in r <==> t in ts && t != ""
  {
    if ts == [] then []
    else (if ts[0] != "" then [ts[0]] else []) + NonEmpty(ts[1..])
  }

  /** Filtering keeps the order: the kept texts of a + b are those of a, then those of b. */
  lemma {:induction false} NonEmptyAppend(a: seq<string>, b: seq<string>)
    ensures NonEmpty(a + b) == NonEmpty(a) + NonEmpty(b)
  {
    if a == [] {
      assert a + b == b;
    } else {
      var first: seq<string> := if a[0] != "" then [a[0]] else [];
      assert (a + b)[0] == a[0] && (a + b)[1..] == a[1..] + b;
      assert NonEmpty(a + b) == first + NonEmpty(a[1..] + b);
      NonEmptyAppend(a[1..], b);
      assert NonEmpty(a) == first + NonEmpty(a[1..]);
    }
  }

  /**
   * What the loop of show_windows_list does for the handles hs: for each one it
   * asks GetWindowTextW for the title, then prints it unless it is empty.  So
   * each handle costs at most two events, and a title that cannot be decoded
   * panics, which ends the listing: a panic is always the last event.
   */
  function ListingTrace(host: Host, hs: seq<Handle>): (trace: seq<Event>)
    requires host.Valid()
    ensures |trace| <= 2 * |hs|
    ensures Panic in trace ==> trace[|trace| - 1] == Panic
  {
    if hs == [] then []
    else [GetWindowText(hs[0])] + match WindowTitle(host, hs[0])
      case None => [Panic]
      case Some(t) => TitleLine(t) + ListingTrace(host, hs[1..])
  }

  /**
   * Regrouping the trace built so far with one loop step, in the shapes
   * the loop body and `ListingStops`/`ListingContinues` use (the trailing `[]`
   * matches the panic step, after which nothing follows).
   */
  lemma AppendAssoc(done: seq<Event>, a: seq<Event>, b: seq<Event>, rest: seq<Event>)
    ensures done + a + b + rest == done + (a + (b + rest))
    ensures done + a + b == done + (a + (b + []))
  {
  }

  /** show_windows_list: prints each non-empty title, in enumeration order. */
  method ShowWindowsList(host: Host) returns (trace: seq<Event>)
    requires host.Valid()
    ensures trace == [EnumWindows] + ListingTrace(host, host.topLevel)
  {
    var handles := GetWindowHandleList(host);
    trace := [EnumWindows];
    var i := 0;
    while i < |handles|
      invariant 0 <= i <= |handles|
      invariant trace + ListingTrace(host, handles[i..]) == [EnumWindows] + ListingTrace(host, handles)
    {
      ghost var done := trace;
      assert handles[i..][0] == handles[i] && handles[i..][1..] == handles[i + 1..];
      trace := trace + [GetWindowText(handles[i])];
      var title := GetWindowTitle(handles[i], host);
      if title.None? {
        ListingStops(host, handles[i..]);
        trace := trace + [Panic];
        AppendAssoc(done, [GetWindowText(handles[i])], [Panic], []);
        return;
      }
      ListingContinues(host, handles[i..]);
      trace := trace + TitleLine(title.value);
      AppendAssoc(done, [GetWindowText(handles[i])], TitleLine(title.value), ListingTrace(host, handles[i + 1..]));
      i := i + 1;
    }
  }

  /** The position of the first handle whose title cannot be decoded, or |hs|. */
  function FirstFailure(host: Host, hs: seq<Handle>): (k: nat)
    requires host.Valid()
    ensures k <= |hs|
    ensures forall i :: 0 <= i < k ==> WindowTitle(host, hs[i]).Some?
    ensures k < |hs| ==> WindowTitle(host, hs[k]).None?
  {
    if hs == [] then 0
    else if WindowTitle(host, hs[0]).None? then 0
    else 1 + FirstFailure(host, hs[1..])
  }

  /** The decoded titles of windows whose titles all decode. */
  function Titles(host: Host, hs: seq<Handle>): (ts: seq<string>)
    requires host.Valid()
    requires forall i :: 0 <= i < |hs| ==> WindowTitle(host, hs[i]).Some?
    ensures |ts| == |hs|
    ensures forall i :: 0 <= i < |hs| ==> Some(ts[i]) == WindowTitle(host, hs[i])
  {
    seq(|hs|, i requires 0 <= i < |hs| => WindowTitle(host, hs[i]).value)
  }

  /** The titles of a prefix of hs are the first title, then the titles of the rest's prefix. */
  lemma TitlesTail(host: Host, hs: seq<Handle>, k: nat)
    requires host.Valid()
    requires 0 < k <= |hs|
    requires forall i :: 0 <= i < k ==> WindowTitle(host, hs[i]).Some?
    ensures Titles(host, hs[..k])[0] == WindowTitle(host, hs[0]).value
    ensures Titles(host, hs[..k])[1..] == Titles(host, hs[1..][..k - 1])
  {
  }

  /** The events for one title: printed when it is not empty. */
  function TitleLine(t: string): (line: seq<Event>)
    ensures Outputs(line) == if t != "" then [t] else []
    ensures ResizeCount(line) == 0 && TitleReads(line) == []
    ensures forall e :: e in line ==> e.Output?
  {
    if 0 < |t| then [Output(t)] else []
  }

  /** What the projections of a trace make of a title read followed by more events. */
  lemma StepProjections(window: Handle, mid: seq<Event>, rest: seq<Event>)
    ensures var trace := [GetWindowText(window)] + (mid + rest);
      && Outputs(trace) == Outputs(mid) + Outputs(rest)
      && ResizeCount(trace) == ResizeCount(mid) + ResizeCount(rest)
      && TitleReads(trace) == [window] + TitleReads(mid) + TitleReads(rest)
  {
    var read: seq<Event> := [GetWindowText(window)];
    OutputsAppend(read, mid + rest);
    OutputsAppend(mid, rest);
    ResizeCountAppend(read, mid + rest);
    ResizeCountAppend(mid, rest);
    TitleReadsAppend(read, mid + rest);
    TitleReadsAppend(mid, rest);
    assert Outputs(read) == [] + Outputs([]);
    assert TitleReads(read) == [window] + TitleReads([]);
  }

  /**
   * A title that cannot be decoded ends the listing, right after it is read,
   * with a panic.  The trace `[GetWindowText(hs[0]), Panic]` is written as a
   * read followed by `[Panic] + []`, the shape `StepProjections` and
   * `AppendAssoc` take.
   */
  lemma ListingStops(host: Host, hs: seq<Handle>)
    requires host.Valid() && hs != [] && WindowTitle(host, hs[0]).None?
    ensures ListingTrace(host, hs) == [GetWindowText(hs[0])] + ([Panic] + [])
  {
  }

  /** A title that can be decoded is read, printed unless empty, and the listing goes on. */
  lemma ListingContinues(host: Host, hs: seq<Handle>)
    requires host.Valid() && hs != [] && WindowTitle(host, hs[0]).Some?
    ensures ListingTrace(host, hs) ==
      [GetWindowText(hs[0])] + (TitleLine(WindowTitle(host, hs[0]).value) + ListingTrace(host, hs[1..]))
  {
  }

  /**
   * The listing prints exactly the non-empty titles, in enumeration order, of
   * the windows before the first title that cannot be decoded.
   */
  lemma {:induction false} ListingOutputs(host: Host, hs: seq<Handle>)
    requires host.Valid()
    ensures Outputs(ListingTrace(host, hs)) == NonEmpty(Titles(host, hs[..FirstFailure(host, hs)]))
  {
    if hs != [] {
      var k := FirstFailure(host, hs);
      if WindowTitle(host, hs[0]).None? {
        ListingStops(host, hs);
        StepProjections(hs[0], [Panic], []);
        assert Outputs([Panic]) == [] + Outputs([]);
        assert hs[..k] == [];
      } else {
        ListingContinues(host, hs);
        var t := WindowTitle(host, hs[0]).value;
        assert k == 1 + FirstFailure(host, hs[1..]);
        ListingOutputs(host, hs[1..]);
        StepProjections(hs[0], TitleLine(t), ListingTrace(host, hs[1..]));
        var ts := Titles(host, hs[..k]);
        TitlesTail(host, hs, k);
        assert NonEmpty(ts) == (if t != "" then [t] else []) + NonEmpty(ts[1..]);
      }
    }
  }

  /**
   * The listing panics exactly when some title cannot be decoded (the panic is
   * then its last event, by the contract of `ListingTrace`).
   */
  lemma {:induction false} ListingPanics(host: Host, hs: seq<Handle>)
    requires host.Valid()
    ensures Panic in ListingTrace(host, hs) <==> FirstFailure(host, hs) < |hs|
  {
    if hs != [] {
      if WindowTitle(host, hs[0]).None? {
        ListingStops(host, hs);
      } else {
        ListingContinues(host, hs);
        var t := WindowTitle(host, hs[0]).value;
        var line, rest := TitleLine(t), ListingTrace(host, hs[1..]);
        ListingPanics(host, hs[1..]);
        assert Panic !in line;
        assert Panic in [GetWindowText(hs[0])] + (line + rest) <==> Panic in rest;
      }
    }
  }

  /** The listing sends no resize request. */
  lemma {:induction false} ListingSendsNoResize(host: Host, hs: seq<Handle>)
    requires host.Valid()
    ensures ResizeCount(ListingTrace(host, hs)) == 0
  {
    if hs != [] {
      if WindowTitle(host, hs[0]).None? {
        ListingStops(host, hs);
        StepProjections(hs[0], [Panic], []);
      } else {
        ListingContinues(host, hs);
        var t := WindowTitle(host, hs[0]).value;
        ListingSendsNoResize(host, hs[1..]);
        StepProjections(hs[0], TitleLine(t), ListingTrace(host, hs[1..]));
      }
    }
  }

  /** A title that cannot be decoded is the last one read. */
  lemma ReadStops(host: Host, hs: seq<Handle>)
    requires host.Valid() && hs != [] && WindowTitle(host, hs[0]).None?
    ensures TitleReads(ListingTrace(host, hs)) == [hs[0]]
  {
    ListingStops(host, hs);
    StepProjections(hs[0], [Panic], []);
    assert TitleReads([Panic]) == [] + TitleReads([]);
  }

  /** A title that can be decoded is followed by the reads of the rest of the listing. */
  lemma ReadContinues(host: Host, hs: seq<Handle>)
    requires host.Valid() && hs != [] && WindowTitle(host, hs[0]).Some?
    ensures TitleReads(ListingTrace(host, hs)) == [hs[0]] + TitleReads(ListingTrace(host, hs[1..]))
  {
    ListingContinues(host, hs);
    var t := WindowTitle(host, hs[0]).value;
    StepProjections(hs[0], TitleLine(t), ListingTrace(host, hs[1..]));
  }

  lemma ConsPrefix(hs: seq<Handle>, r: seq<Handle>)
    requires hs != [] && r <= hs[1..]
    ensures [hs[0]] + r <= hs
  {
    assert hs == [hs[0]] + hs[1..];
  }

  /**
   * The listing reads the titles one window at a time, in enumeration order,
   * up to and including the first one that cannot be decoded.
   */
  lemma {:induction false} ListingReads(host: Host, hs: seq<Handle>)
    requires host.Valid()
    ensures var k := FirstFailure(host, hs);
      var visited := TitleReads(ListingTrace(host, hs));
      && visited <= hs
      && |visited| == if k < |hs| then k + 1 else |hs|
  {
    if hs != [] {
      var k := FirstFailure(host, hs);
      if WindowTitle(host, hs[0]).None? {
        ReadStops(host, hs);
      } else {
        ReadContinues(host, hs);
        assert k == 1 + FirstFailure(host, hs[1..]);
        ListingReads(host, hs[1..]);
        ConsPrefix(hs, TitleReads(ListingTrace(host, hs[1..])));
      }
    }
  }

  /** Reading titles is all the listing asks of the host. */
  lemma {:induction false} ListingOnlyReadsTitles(host: Host, hs: seq<Handle>)
    requires host.Valid()
    ensures forall e :: e in ListingTrace(host, hs) && e.IsHostCall() ==> e.GetWindowText?
  {
    if hs != [] {
      if WindowTitle(host, hs[0]).None? {
        ListingStops(host, hs);
      } else {
        ListingContinues(host, hs);
        ListingOnlyReadsTitles(host, hs[1..]);
      }
    }
  }

  // ---------------------------------------------------------------------------
  // find_window_from_title, set_window_size and resize_window

  /**
   * find_window_from_title: asks FindWindowW for the null-terminated UTF-16
   * title; the null handle means that no window has this title.
   */
  function FindWindowFromTitle(host: Host, title: string): (r: Option<Handle>)
    ensures r.None? <==> host.findWindow(Utf8ToUtf16(title)) == Null
    ensures r.Some? ==> r.value == host.findWindow(Utf8ToUtf16(title)) && r.value != Null
  {
    var h := host.findWindow(Utf8ToUtf16(title));
    if h == Null then None else Some(h)
  }

  /**
   * set_window_size: SetWindowPos with the null insert-after handle, the
   * position (0, 0) and SWP_NOMOVE, so that only the size is taken.
   */
  function SetWindowSize(window: Handle, width: I32, height: I32): (e: Event)
    ensures e.SetWindowPos? && e.window == window && e.cx == width && e.cy == height
    ensures e.x == 0 && e.y == 0 && e.flags == SWP_NOMOVE && e.insertAfter == Null
  {
    SetWindowPos(window, Null, 0, 0, width, height, SWP_NOMOVE)
  }

  function DigitChar(d: nat): char
    requires d < 10
  {
    ('0' as int + d) as char
  }

  predicate IsDigit(c: char)
  {
    '0' <= c <= '9'
  }

  predicate AllDigits(s: string)
  {
    forall i :: 0 <= i < |s| ==> IsDigit(s[i])
  }

  /** The number a string of decimal digits denotes, read from the left. */
  function DigitsValue(s: string): nat
    requires AllDigits(s)
  {
    if s == [] then 0 else 10 * DigitsValue(s[..|s| - 1]) + (s[|s| - 1] as int - '0' as int)
  }

  /** The decimal digits of n: at least one, no leading zero, denoting n. */
  function Digits(n: nat): (s: string)
    ensures 0 < |s| && AllDigits(s) && DigitsValue(s) == n
    ensures s[0] == '0' ==> s == "0"
  {
    if n < 10 then
      [DigitChar(n)]
    else
      var prefix := Digits(n / 10);
      var s := prefix + [DigitChar(n % 10)];
      assert s[..|s| - 1] == prefix;
      s
  }

  /**
   * The decimal form Rust's `{}` gives an i32: a minus sign exactly for a
   * negative number, then the digits of its magnitude with no leading zero.
   */
  function Decimal(n: int): (r: string)
    ensures 0 < |r| && (r[0] == '-' <==> n < 0)
    ensures var digits := if n < 0 then r[1..] else r;
      && 0 < |digits| && AllDigits(digits)
      && DigitsValue(digits) == (if n < 0 then -n else n)
      && (digits[0] == '0' ==> digits == "0")
  {
    if n < 0 then
      var r := "-" + Digits(-n);
      assert r[1..] == Digits(-n);
      r
    else
      Digits(n)
  }

  /**
   * The three lines resize_window prints before it looks the window up: each
   * is its label followed by the value, the numbers in decimal.
   */
  function ResizeHeader(title: string, width: I32, height: I32): (lines: seq<string>)
    ensures |lines| == 3
    ensures "window title: " <= lines[0] && lines[0][14..] == title
    ensures "width: " <= lines[1] && lines[1][7..] == Decimal(width)
    ensures "height: " <= lines[2] && lines[2][8..] == Decimal(height)
  {
    ["window title: " + title, "width: " + Decimal(width), "height: " + Decimal(height)]
  }

  /**
   * resize_window: three printed lines, one FindWindowW request for the
   * null-terminated title, and as the last event either the resize request or,
   * when no window was found, the printed "Not found window.".
   */
  function ResizeWindowTrace(host: Host, title: string, width: I32, height: I32): (trace: seq<Event>)
    ensures |trace| == 5
    ensures forall i :: 0 <= i < 3 ==> trace[i].Output?
    ensures trace[3] == FindWindow(Utf8ToUtf16(title))
    ensures trace[4].SetWindowPos? <==> host.findWindow(Utf8ToUtf16(title)) != Null
    ensures !trace[4].SetWindowPos? ==> trace[4] == Output(NotFoundMessage)
  {
    var header := ResizeHeader(title, width, height);
    var last := match FindWindowFromTitle(host, title)
      case Some(window) => SetWindowSize(window, width, height)
      case None => Output(NotFoundMessage);
    [Output(header[0]), Output(header[1]), Output(header[2])] + [FindWindow(Utf8ToUtf16(title)), last]
  }

  /** Three printed lines in front of a trace add exactly those lines to its output. */
  lemma HeaderProjections(a: string, b: string, c: string, rest: seq<Event>)
    ensures Outputs([Output(a), Output(b), Output(c)] + rest) == [a, b, c] + Outputs(rest)
    ensures ResizeCount([Output(a), Output(b), Output(c)] + rest) == ResizeCount(rest)
  {
    var t := [Output(a), Output(b), Output(c)] + rest;
    var u := [Output(b), Output(c)] + rest;
    var v := [Output(c)] + rest;
    assert t[0] == Output(a) && t[1..] == u;
    assert u[0] == Output(b) && u[1..] == v;
    assert v[0] == Output(c) && v[1..] == rest;
    assert Outputs(v) == [c] + Outputs(rest) && ResizeCount(v) == ResizeCount(rest);
    assert Outputs(u) == [b] + Outputs(v) && ResizeCount(u) == ResizeCount(v);
    assert Outputs(t) == [a] + Outputs(u) && ResizeCount(t) == ResizeCount(u);
    assert [a] + ([b] + ([c] + Outputs(rest))) == [a, b, c] + Outputs(rest);
  }

  /** A lookup request followed by one more event: only that last event can print or resize. */
  lemma LookupProjections(lookup: Event, last: Event)
    requires lookup.FindWindow?
    ensures Outputs([lookup, last]) == if last.Output? then [last.line] else []
    ensures ResizeCount([lookup, last]) == if last.SetWindowPos? then 1 else 0
  {
    var t := [lookup, last];
    assert t[1..] == [last] && [last][1..] == [];
    assert Outputs([last]) == (if last.Output? then [last.line] else []) + Outputs([]);
    assert ResizeCount([last]) == (if last.SetWindowPos? then 1 else 0) + ResizeCount([]);
    assert Outputs(t) == [] + Outputs([last]) && ResizeCount(t) == ResizeCount([last]);
  }

  /**
   * When FindWindowW finds the title, resize_window prints its three header
   * lines and sends exactly one resize request, its last event: the window
   * found, the given size, x = y = 0 and SWP_NOMOVE.
   */
  lemma ResizeWindowHit(host: Host, title: string, width: I32, height: I32)
    requires host.findWindow(Utf8ToUtf16(title)) != Null
    ensures var trace := ResizeWindowTrace(host, title, width, height);
      && Outputs(trace) == ResizeHeader(title, width, height)
      && ResizeCount(trace) == 1
      && trace[4] == SetWindowPos(host.findWindow(Utf8ToUtf16(title)), Null, 0, 0, width, height, SWP_NOMOVE)
  {
    var header := ResizeHeader(title, width, height);
    var trace := ResizeWindowTrace(host, title, width, height);
    var tail := [FindWindow(Utf8ToUtf16(title)), trace[4]];
    assert trace == [Output(header[0]), Output(header[1]), Output(header[2])] + tail;
    HeaderProjections(header[0], header[1], header[2], tail);
    LookupProjections(tail[0], tail[1]);
  }

  /**
   * When FindWindowW finds no window, resize_window prints its three header
   * lines, then "Not found window.", and sends no resize request.
   */
  lemma ResizeWindowMiss(host: Host, title: string, width: I32, height: I32)
    requires host.findWindow(Utf8ToUtf16(title)) == Null
    ensures var trace := ResizeWindowTrace(host, title, width, height);
      && Outputs(trace) == ResizeHeader(title, width, height) + [NotFoundMessage]
      && ResizeCount(trace) == 0
  {
    var header := ResizeHeader(title, width, height);
    var trace := ResizeWindowTrace(host, title, width, height);
    var tail := [FindWindow(Utf8ToUtf16(title)), trace[4]];
    assert trace == [Output(header[0]), Output(header[1]), Output(header[2])] + tail;
    HeaderProjections(header[0], header[1], header[2], tail);
    LookupProjections(tail[0], tail[1]);
    assert header + [NotFoundMessage] == [header[0], header[1], header[2]] + [NotFoundMessage];
  }
}
