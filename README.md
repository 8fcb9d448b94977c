# wndsize, modelled in Dafny

wndsize is a command-line tool for the Windows desktop. With `-l` it lists the
titles of the top-level windows. With `-r -w W -h H -t TITLE` it resizes the
window whose title FindWindowW matches, and leaves the window where it is.
This project models the logic around the Win32 calls in `src/main.rs` and
proves properties of it:

- the UTF-16 boundary (`utf8_to_utf16`, `utf16_to_utf8`), modelled as UTF-16
  per sections 2.1 and 2.2 of RFC 2781 over `string` (Dafny's `char`, like
  Rust's, is a Unicode scalar value);
- the bounded title read (`get_window_title`): a zero-filled 256-unit array
  that the host writes into, then the decoded slice `buffer[0..len]`;
- collecting the handles (`enum_windows_proc`, `get_window_handle_list`);
- the listing loop (`show_windows_list`) and the resize branch
  (`resize_window`, `find_window_from_title`, `set_window_size`);
- the validation rules of `parse_args` and the dispatch of `main`.

The window manager is an input, `Windows.Host`. It holds the handles
EnumWindows delivers, in order. It holds GetWindowTextW's answer per handle:
the units written into the buffer and the count returned. It holds
FindWindowW's answer per null-terminated wide title. What the program prints
or asks of the host is a trace of `Windows.Event`s: printed lines, the usage
text, a panic, and the requests EnumWindows, GetWindowTextW (one per title
read), FindWindowW and SetWindowPos.

A failed `unwrap` of `String::from_utf16` is `None` (in a trace, `Panic`).

Module layout: `Wrappers` (Option, Result), `Utf16` (the encoding),
`Windows` (host model, title read, listing, resize), `Cli` (`parse_args`,
`main`, whole-run properties).

Two behaviours of the code differ from what a user might expect:

- A user might expect a resize to change only the size. `set_window_size`
  passes a null `hWndInsertAfter` (HWND_TOP) without SWP_NOZORDER, so the
  request may also raise the window. The model records the request exactly
  (`Windows.SetWindowSize`) and does not say what the host does with it.
- A user might expect a title that does not fit to be cut without error. If
  GetWindowTextW cuts the title inside a surrogate pair, the counted units end
  in a high surrogate, so the conversion fails and the program panics
  (`Windows.TitleCutInsidePairFails`). A bad title also ends the whole
  listing, not just that one read (`Windows.ListingOutputs`, `Windows.ListingPanics`).

## Model

| member | source | states |
|---|---|---|
| `Utf16.EncodeChar` | src/main.rs:81 | a scalar value below 0x10000 becomes the single unit equal to it, which is not a surrogate; one at or above 0x10000 becomes a high surrogate then a low surrogate whose pair value is the scalar (RFC 2781, 2.1) |
| `Utf16.EncodeUtf16` | src/main.rs:81 | the encoding has Utf16Length(s) units: between \|s\| and 2\|s\| |
| `Utf16.Utf8ToUtf16` | src/main.rs:80-82 | the result is one unit longer than the UTF-16 length of s, and its last unit is 0; the units before it decode back to s; they hold a 0 exactly when s holds a NUL |
| `Utf16.Utf16ToUtf8` | src/main.rs:76-78 | a successful conversion has no more scalar values than the input has units |
| `Utf16.DecodeEncode` | src/main.rs:76-82 | decoding the encoding of any text gives that text back |
| `Utf16.EncodeDecode` | src/main.rs:76-82 | when decoding succeeds, encoding its text gives back exactly the input units |
| `Utf16.DecodeFailsIffUnpaired` | src/main.rs:76-78 | the conversion fails (the unwrap panics) exactly when the input has an unpaired surrogate: a high one with no low one after it, or a low one with no high one before it |
| `Utf16.ZeroUnitIffNul` | src/main.rs:80-82 | the encoding of a text contains a 0 unit exactly when the text contains NUL, so the appended terminator is the only 0 for NUL-free titles |
| `Windows.HandleList.constructor` | src/main.rs:31 | the handle vector starts empty |
| `Windows.EnumWindowsProc` | src/main.rs:20-28 | the callback appends the delivered handle to the vector and answers TRUE |
| `Windows.GetWindowHandleList` | src/main.rs:30-39 | the collected handles are exactly the host's top-level windows, in delivery order |
| `Windows.GetWindowTitle` | src/main.rs:41-52 | the method returns the decoding of exactly the first `count` units of the zero-filled 256-unit buffer after the host wrote into it |
| `Windows.WindowTitle` | src/main.rs:41-51 | a window's title is the decoding of the first `count` units of its zero-filled buffer, None when the unwrap panics; a title has at most `count` scalar values |
| `Windows.WindowTitleBounded` | src/main.rs:41-52 | the buffer has 256 units; a count within what the host wrote selects exactly those units; count 0 gives the empty title; the read fails exactly on an unpaired surrogate in the counted units; a title read has at most `count` <= 256 scalar values and encodes back to those units |
| `Windows.TitleCutInsidePairFails` | src/main.rs:45-51 | when the counted units end in a high surrogate, as when the host cuts a long title inside a pair, the read fails |
| `Windows.NonEmpty` | src/main.rs:138 | a text is kept if and only if it is in the input and not empty; the result is no longer than the input |
| `Windows.NonEmptyAppend` | src/main.rs:136-141 | filtering keeps the input order: the kept texts of a + b are those of a followed by those of b |
| `Windows.TitleLine` | src/main.rs:138-140 | one title prints exactly that title when it is not empty and nothing otherwise; it makes no host request |
| `Windows.ListingTrace` | src/main.rs:136-141 | the loop over the handles, one GetWindowTextW request and at most one printed line per handle: at most two events per handle, and a panic, when one occurs, is the last event |
| `Windows.ShowWindowsList` | src/main.rs:134-142 | the trace is the EnumWindows call, then the loop run over the collected handles: for each handle a GetWindowTextW request, then its title printed unless empty, and a panic ending the loop right after the first title that cannot be decoded |
| `Windows.ListingOutputs` | src/main.rs:134-142 | the listing prints exactly the non-empty titles, in enumeration order, of the windows before the first title that cannot be decoded |
| `Windows.ListingPanics` | src/main.rs:136-137 | the listing panics exactly when some title cannot be decoded (the panic is then the last event, by `Windows.ListingTrace`) |
| `Windows.ListingSendsNoResize` | src/main.rs:134-142 | the listing sends no resize request |
| `Windows.ListingReads` | src/main.rs:136-137 | the titles read are a prefix of the enumerated handles, in order, one read per handle: all of them when every title decodes, else up to and including the first that does not |
| `Windows.ListingOnlyReadsTitles` | src/main.rs:136-137 | the only requests the listing sends to the host are GetWindowTextW reads |
| `Windows.FirstFailure` | src/main.rs:136-137 | returns the first position whose title read fails, or the length: every title before it decodes |
| `Windows.FindWindowFromTitle` | src/main.rs:54-66 | no window exactly when FindWindowW answers the null handle for the null-terminated title; otherwise that non-null handle |
| `Windows.SetWindowSize` | src/main.rs:68-74 | the request is SetWindowPos of the given window with x = y = 0, the given width and height, SWP_NOMOVE and the null insert-after handle |
| `Windows.Digits` | src/main.rs:146-147 | the decimal digits of a natural number: at least one, all digits, denoting the number, and no leading zero |
| `Windows.Decimal` | src/main.rs:146-147 | Rust's `{}` for an i32: a leading minus sign exactly for a negative number, then the digits of its magnitude, denoting it, with no leading zero |
| `Windows.ResizeHeader` | src/main.rs:145-147 | three lines, each its label ("window title: ", "width: ", "height: ") followed by its value: the title as given, the width and the height in decimal |
| `Windows.ResizeWindowTrace` | src/main.rs:144-153 | resize_window makes five events: three printed lines, then one FindWindowW request for the null-terminated title, then either a resize request (exactly when FindWindowW answers a non-null handle) or the printed "Not found window." |
| `Windows.ResizeWindowHit` | src/main.rs:144-153 | when FindWindowW finds the title, the output is the title, width and height lines, and exactly one resize request is sent, as the last event: that window, the null insert-after handle, x = y = 0, the given size, SWP_NOMOVE |
| `Windows.ResizeWindowMiss` | src/main.rs:144-153 | when FindWindowW finds no window, the output is the title, width and height lines then "Not found window.", and no resize request is sent |
| `Cli.SkipWhitespace` | src/main.rs:110-111 | a continuation keeps a suffix of the next line: everything it drops is whitespace, and what it keeps is empty or starts with something other than whitespace |
| `Cli.SkipAll` | src/main.rs:110-119 | a string continuation skips the line break and all the indentation after it, up to the first other character |
| `Cli.ContinuedIndent` | src/main.rs:110-111 | a continuation onto a line indented by any number of blanks joins the head directly to the line's text when that text does not start with whitespace |
| `Cli.MissingCommandText` | src/main.rs:110-111 | the first error message, written over two source lines with a 12-blank indent, is exactly its head followed by its body: "One of the following values are required: " then "--list-windows or --resize-window" |
| `Cli.MissingResizeOptionsText` | src/main.rs:118-119 | the second error message, written with a 16-blank indent, is exactly "These arguments are required: " then "--width, --height, --title." |
| `Cli.ErrorMessagesDiffer` | src/main.rs:110-119 | the two error messages differ |
| `Cli.ParseArgs` | src/main.rs:96-130 | help wins: if and only if --help is given, parsing succeeds with showed_help, no command, 0, 0 and ""; otherwise the missing-command error comes exactly when neither -l nor -r is given; the missing-options error comes exactly when -r lacks one of -w/-h/-t; no other error exists; a success copies -l/-r and defaults width/height to 0 and the title to "" |
| `Cli.ParsedCommand` | src/main.rs:123-130 | every non-help success names -l or -r, and a resize command carries the given width, height and title, never a default |
| `Cli.Dispatch` | src/main.rs:155-168 | an error becomes printing its message; help does nothing; the listing runs exactly when a non-help parse has -l; the resize runs exactly when it has -r and not -l, with the parsed title, width and height |
| `Cli.ProgramTrace` | src/main.rs:155-168 | every run does something observable, and its first event is the usage text exactly when --help is given (src/main.rs:96-97) |
| `Cli.Wndsize` | src/main.rs:155-169 | a run's trace is the usage text for --help, then what the dispatched command does |
| `Cli.IdleOnlyForHelp` | src/main.rs:155-168 | a run does nothing after parsing exactly when --help was given |
| `Cli.HelpDoesNothing` | src/main.rs:96-106 | with --help, the run prints the usage text and does nothing else, with no host call |
| `Cli.ErrorStops` | src/main.rs:167 | after an argument error, the run prints the message and makes no host call |
| `Cli.ListingWins` | src/main.rs:160-165 | with -l, and with -r only when -w, -h and -t are given too, the run starts with the EnumWindows request, prints exactly the non-empty titles in order before the first that cannot be decoded, sends no resize request, and its only other requests are GetWindowTextW reads (no FindWindowW) |
| `Cli.AtMostOneResize` | src/main.rs:144-168 | a run sends at most one resize request; it sends one exactly for -r without -l or --help, with -w/-h/-t given, when FindWindowW finds the title; that request is the run's last event and carries the given size, x = y = 0 and SWP_NOMOVE |
| `Cli.MissingOptionsBeforeDispatch` | src/main.rs:113-121 | -r with one of -w, -h and -t missing, without --help, prints only "These arguments are required: --width, --height, --title.", even when -l is given: parse_args rejects it before main could list |
| `Cli.ResizeRun` | src/main.rs:155-168 | -r with -w, -h and -t, without -l or --help, runs resize_window with exactly the given title, width and height, and nothing else |
| `Cli.ResizeRunNotFound` | src/main.rs:144-168 | such a run, for a title FindWindowW does not find, prints the title, width and height lines then "Not found window." and sends no resize request |
| `Cli.ScenarioNoCommand` | src/main.rs:109-112 | with no flag at all, the whole trace is the one printed line "One of the following values are required: --list-windows or --resize-window" |
| `Cli.ScenarioResizeWithoutWidth` | src/main.rs:113-121 | with -r, -h and -t given, and -l, -w and --help absent, for any height and title, the whole trace is the one printed line "These arguments are required: --width, --height, --title."; the general case follows from `Cli.ParseArgs` and `Cli.ErrorStops` |
| `Cli.ScenarioWindowNotFound` | src/main.rs:144-153 | `-r -w 800 -h 600 -t T`, when FindWindowW finds no window for T, prints the header lines for 800 and 600 and then "Not found window.", and sends no resize request |
| `Cli.ScenarioHeader` | src/main.rs:145-147 | those header lines are exactly "window title: T", "width: 800" and "height: 600" |

## Left out

- The Win32 calls (EnumWindows, GetWindowTextW, FindWindowW, SetWindowPos) are not modelled. What they answer is a `Host` input, and the requests sent are trace events. FindWindowW's matching rules (case, hidden windows) belong to the host. Whether the host keeps the size or position it is sent is also the host's business.
- The `LPARAM` pointer cast in `enum_windows_proc`: the callback gets the `HandleList` object directly.
- getopts: `opts.parse(...).unwrap()` and `opt_get(...).unwrap()`, including their panics on unknown flags or non-numeric sizes. The presence of each flag and the parsed values are the input (`Cli.Matches`).
- The usage text: printing it is the single `Usage` event, and its content is not modelled.
- Console output is a sequence of lines. Rust's `{}` for an i32 is modelled as its decimal digits with a leading `-` for negatives.
- The listing keeps a title when `String::len` (its UTF-8 byte length) is positive. The model asks for at least one scalar value, which is the same condition.
- A stale handle and a window that closes during the run are not modelled: the host answers are fixed for the whole run.
