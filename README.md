# head and yes, modelled in Dafny

This project models the stream-extraction core of the mesabox `head`
utility and the buffer preparation of its `yes` utility, and proves what
they compute.

`head` prints a window of each input:
- the first N lines;
- all but the last N lines;
- the first K bytes;
- all but the last K bytes.

The last two algorithms never know the stream's length in advance. The
all-but-last-lines algorithm keeps a queue of recent lines. The
all-but-last-bytes algorithm swaps two buffers of max(K, 32 KiB) bytes and
trims at the end.

Around these windows sit four more pieces:
- the `NUMBER` parser of `-n`/`-c`, with its sign convention;
- the `==> name <==` headers, with the blank line between them;
- the mapping of `-` to standard input;
- the driver loop, which handles every source in order, records the ones
  that fail to open without stopping, and reports failure at the end if any
  did.

`yes` builds a unit from its arguments: the arguments joined by single
spaces and ended by a linefeed, or `y\n` without arguments. Short units are
tiled into a 16 KiB buffer as whole copies.

Modules:
- `Bytes` (bytes.dfy): bytes, ASCII literals, concatenation of byte strings.
- `Windows` (windows.dfy): the four windows as functions of the whole stream, and their properties.
- `Engine` (engine.dfy): the four algorithms, each proved to write exactly its window. Three are loops; first-K-bytes is the slice that `io::copy` of `take(K)` yields.
- `NumParse` (numparse.dfy): `parse_num` and `is_valid_num`.
- `Head` (driver.dfy): the mode, headers, the `Options` object with `handle_data`, the run over all sources as a function, and `execute` as a loop proved against it.
- `Yes` (yes.dfy): the unit and `prepare_buffer`.
- `Wrappers` (wrappers.dfy): `Option` and `Result`.

How sources are modelled:
- A reader is the unread rest of its stream, consumed from the front.
- A writer is the sequence of bytes appended to it.
- The file system is a map from the names that can be opened to their contents.
- The digit-and-suffix parser of the utility library, which is not part of this model, is a function parameter.

The all-but-last-lines algorithm reads one line past the N it keeps before
it evicts the oldest. So its queue reaches N + 1 lines, not N, whenever the
input has more than N lines. The model follows the code.
`Engine.WriteLinesBackward` reports that high-water mark exactly.

Concatenating the first-K-bytes window with the all-but-last-K-bytes window
does not give back the input in general: for "ab" and K = 1 both are "a".
`Windows.HeadThenDropLastIsNotInput` proves this counterexample.
What does hold is proved in `Windows.DropLastBytesRoundTrip`:
- all but the last K bytes, followed by the last K bytes, is the input;
- all but the last K bytes equals the first L - K bytes.

## Model

| member | source | states |
|---|---|---|
| Windows.Line | src/posix/head/mod.rs:209 | one `read_until(b'\n')` returns at most what is left, and nothing exactly at end of stream |
| Windows.LineShape | src/posix/head/mod.rs:209 | the line read is a prefix of the stream, has no linefeed before its last byte, and ends in a linefeed unless it is all that was left |
| Windows.Lines | src/posix/head/mod.rs:200-220 | cutting a stream into lines loses nothing: the lines concatenate back to the stream |
| Windows.LinesShape | src/posix/head/mod.rs:200-220 | every line is non-empty, has no inner linefeed, and all but the last end in a linefeed (a final unterminated line still counts) |
| Windows.HeadLinesAreLeadingLines | src/posix/head/mod.rs:206-217 | reading N lines one at a time yields exactly the first min(N, #lines) lines of the stream |
| Windows.HeadLinesWindow | src/posix/head/mod.rs:200-220 | the first-lines window is a byte prefix of the input made of its first min(N, #lines) lines; N = 0 writes nothing; N at least #lines writes everything |
| Windows.DropLastLinesWindow | src/posix/head/mod.rs:222-257 | the all-but-last-lines window is a prefix made of the lines before the last N; with at most N lines it is empty; N = 0 gives the whole input |
| Windows.DropLastLinesIsHeadLines | src/posix/head/mod.rs:222-257 | all but the last N lines equals the first #lines - N lines |
| Windows.HeadBytesWindow | src/posix/head/mod.rs:189-192 | the first-bytes window is the first min(K, L) bytes of the input |
| Windows.HeadThenDropLastIsNotInput | src/posix/head/mod.rs:189-195 | the first-K-bytes window followed by the all-but-last-K-bytes window is not the input in general: for "ab" and K = 1 the two give "aa" |
| Windows.DropLastBytesRoundTrip | src/posix/head/mod.rs:259-309 | all but the last K bytes, followed by the last K bytes, is the input; it equals the first L - K bytes, and is empty when K is at least L |
| Engine.ReadLine | src/posix/head/mod.rs:209 | one `read_until(b'\n')` yields the stream's next line as `Windows.Line` defines it (whose shape `Windows.LineShape` states) and leaves the reader just after it; it yields nothing exactly at end of stream |
| Engine.WriteLinesForward | src/posix/head/mod.rs:200-220 | the bytes written are the first N lines, and the reader is left just after them |
| Engine.WriteLinesBackward | src/posix/head/mod.rs:222-257 | the bytes written are all but the last N lines, and the reader is left at end of stream; the queue's high-water mark is N + 1 when there are more than N lines, else #lines |
| Engine.CopyBytesForward | src/posix/head/mod.rs:189-192 | `take(K)` copied out is the first min(K, L) bytes, and the reader is left just after them |
| Engine.WriteBytesBackward | src/posix/head/mod.rs:259-309 | for every input length and every K, the bytes written are the input without its last K bytes, whether the stream ends mid-buffer or on a buffer boundary; the reader is left at end of stream; no buffer ever holds more than max(K, 32768) bytes |
| Engine.ReadBlock | src/posix/head/mod.rs:284 | `take(size).read_to_end` yields the next at most `size` bytes and leaves the rest; a short block means the stream is exhausted |
| Engine.TrimmedTail | src/posix/head/mod.rs:293-306 | each of the three final trimming branches completes exactly the all-but-last-K window, given that the previous buffer is full once anything was written |
| NumParse.LeadingBlanks | src/posix/head/mod.rs:314 | the count of leading characters with the Unicode White_Space property: all before it are blank, the one at it is not |
| NumParse.TrailingBlanks | src/posix/head/mod.rs:314 | the count of trailing White_Space characters: all after the cut are blank, the one before it is not |
| NumParse.LeadingDashes | src/posix/head/mod.rs:319 | `trim_left_matches('-')` removes exactly the leading run of '-' |
| NumParse.Trim | src/posix/head/mod.rs:314 | `trim` leaves the part of the argument between a leading and a trailing run of white space; that part starts and ends with a non-blank character, and it is empty exactly when the argument is all white space |
| NumParse.StripDashes | src/posix/head/mod.rs:319 | `trim_left_matches('-')` removes a run of '-' from the front and nothing else, and what is left does not start with '-' |
| NumParse.ParseNum | src/posix/head/mod.rs:313-323 | a blank argument is not a number; otherwise the sign is positive exactly when the trimmed text does not start with '-', and the magnitude is the suffix parser's verdict on the trimmed text with every leading '-' stripped (which is the trimmed text itself when it is positive) |
| NumParse.TrimPadded | src/posix/head/mod.rs:314 | blank padding on either side does not change the trimmed text |
| NumParse.BlankIsNone | src/posix/head/mod.rs:314-315 | an empty or all-blank argument is not a number |
| NumParse.PaddingIsIgnored | src/posix/head/mod.rs:313-323 | surrounding white space does not change what `parse_num` returns |
| NumParse.SignIsSeparate | src/posix/head/mod.rs:313-323 | a trimmed numeral u parses to (n, positive) exactly when the suffix parser gives n; one or more leading '-' give the same n with positive = false, and the argument is valid exactly when the suffix parser accepts u |
| NumParse.DashesAreNegative | src/posix/head/mod.rs:315-321 | one or more leading '-' make the count negative for any rest that trimming leaves alone, including an empty one ("-", "--") and one that starts with white space ("- 5"); the magnitude is the suffix parser's verdict on that rest, and the argument is valid exactly when that verdict is a number |
| NumParse.IsValidNum | src/posix/head/mod.rs:325-331 | the validator accepts exactly the arguments `parse_num` accepts, and otherwise reports the argument in quotes followed by "is not a number or is too large" |
| Head.SelectMode | src/posix/head/mod.rs:98-107 | -c wins over -n and carries its parsed (count, sign); -n carries its own; without either the mode is the first 10 lines |
| Head.HeaderLineNamesSource | src/posix/head/mod.rs:175-177 | the header line is `==> `, the name, then ` <==` and a linefeed, so the name can be read back from between the fixed ends |
| Head.BlankLineOnlyAfterFirstHeader | src/posix/head/mod.rs:174-177 | a header ends with the header line and starts with a blank line exactly when a header was printed before |
| Head.ShowNames | src/posix/head/mod.rs:122 | names are shown whenever -v is given; otherwise exactly when there are at least two sources and -q is not given |
| Head.DisplayName | src/posix/head/mod.rs:122-128 | a source has a display name exactly when names are shown; "-" is displayed as "standard input", never as itself, and any other name as itself |
| Head.OneSourceHeaderOnlyIfVerbose | src/posix/head/mod.rs:121-128 | a single source that opens is written under a header only when -v is given, whether or not -q is |
| Head.Options.constructor | src/posix/head/mod.rs:109-112 | the options start with the selected mode and no header printed yet |
| Head.Options.HandleData | src/posix/head/mod.rs:167-198 | the header, if the source has a display name, comes before the body; the body is the mode's window; the header flag only goes from false to true; the reader is left as the engine leaves it: just after the window in the forward modes, at end of stream in the backward modes |
| Head.Step | src/posix/head/mod.rs:121-138 | one source argument only appends to the output; it adds the argument to the failures exactly when it is not "-" and does not open; the header flag becomes true when a name is shown for a source that is read; only "-" consumes standard input |
| Head.RunFiles | src/posix/head/mod.rs:115-141 | the loop over the arguments only appends to the output and to the failures, adding at most one failure per argument, and leaves standard input alone when no argument is "-" |
| Head.Invoke | src/posix/head/mod.rs:115-148 | with no source arguments nothing fails and the header flag ends as -v; otherwise there are at most as many failures as arguments |
| Head.HandleSource | src/posix/head/mod.rs:121-138 | one round of the loop: its new output, failures, unread standard input and header flag are exactly one step of the run function; "-" reads standard input, an openable name its contents, and any other name is recorded as failed |
| Head.HandleSources | src/posix/head/mod.rs:115-141 | the loop over the arguments produces exactly the run function's output, failures and header state, and its result is an error iff some source failed |
| Head.Execute | src/posix/head/mod.rs:94-149 | `execute` from the parsed flags on matches the run function for the selected mode, in both the named-sources and the standard-input-only case, and fails iff some source failed |
| Head.FailuresReported | src/posix/head/mod.rs:121-139 | every source that fails to open is recorded, in argument order, and nothing else is |
| Head.FailuresLeaveNoTrace | src/posix/head/mod.rs:161-165 | a source that fails to open writes nothing and no header and leaves the header state alone; the run equals the run over the sources that open, so the sources after a failure are still handled |
| Head.PreviousPrintedOnce | src/posix/head/mod.rs:172-180 | the header flag ends true exactly when it started true or a header was shown for a source that was read |
| Head.FailsIffSomeSourceFails | src/posix/head/mod.rs:115-141 | the invocation records a failure iff some argument other than "-" names nothing that can be opened |
| Head.WindowIsPrefix | src/posix/head/mod.rs:181-197 | in every mode the bytes written are a leading part of the source; in the forward modes they and what is left unread make up the source |
| Head.NoFilesReadsStandardInput | src/posix/head/mod.rs:142-148 | with no source arguments, standard input is read, under a "standard input" header only when verbose |
| Head.QuietTwoSourcesNoHeaders | src/posix/head/mod.rs:121-126 | with -q and without -v, two sources that open are written one after the other with no header |
| Head.TwoSourcesHeaders | src/posix/head/mod.rs:172-180 | with two sources and no -q, the first header is `==> a <==` with no blank line before it and the second has a blank line before it |
| Yes.Unit | src/gnu/yes/mod.rs:60-71 | without arguments the unit is exactly "y\n"; in every case it is never empty and ends in a linefeed, which is what lets the fill loop advance |
| Yes.SpaceFold | src/gnu/yes/mod.rs:61-65 | the fold of one or more arguments ends in a space, the one `pop` removes, and is at least one byte per argument |
| Yes.FoldIsJoin | src/gnu/yes/mod.rs:61-65 | the fold is the arguments joined by single spaces, plus one trailing space |
| Yes.UnitIsJoinedArgs | src/gnu/yes/mod.rs:60-68 | with arguments, the unit is the arguments joined by single spaces, with no trailing space, then exactly one linefeed |
| Yes.UnitHasOneNewline | src/gnu/yes/mod.rs:60-71 | if no argument contains a linefeed, the unit's only linefeed is its last byte |
| Yes.RepeatCopy | src/gnu/yes/mod.rs:85-88 | every copy in a tiling is the unit itself |
| Yes.OneMoreCopy | src/gnu/yes/mod.rs:86-88 | a copy of the unit placed right after k whole copies makes k + 1 whole copies |
| Yes.CopiesBounds | src/gnu/yes/mod.rs:83-90 | for a unit shorter than half the buffer, at least two copies fit, and the filled length lies in [16384 - n, 16384) for a unit of n bytes |
| Yes.PrepareBuffer | src/gnu/yes/mod.rs:82-94 | a short unit is tiled into the buffer as the largest whole number of copies below 16384 bytes and that prefix is returned, the rest of the buffer untouched; each copy stays in bounds; a long unit is returned unchanged with the buffer untouched |
| Yes.CopyFromSlice | src/gnu/yes/mod.rs:86-87 | `copy_from_slice` overwrites exactly as many bytes as the input has, at the offset, and nothing else |
| Yes.PrepareOutput | src/gnu/yes/mod.rs:73-74 | the bytes `yes` repeats are its unit, tiled when short, as is when long |

## Left out

- Argument parsing by clap, the help text and `AFTER_HELP`: `Head.Execute` starts from the parsed flags, file list and -c/-n values, and `Yes.Unit` from the parsed argument list.
- `util::parse_num_with_suffix` is not part of this model. It is the parameter `suffix` of `NumParse.ParseNum`: its digit syntax, SI/IEC multipliers and overflow check are not re-derived, and its failure is `None`.
- Real I/O is not modelled: opening files, `BufReader`, locking stdin/stdout/stderr and the errors they raise. A source that cannot be opened is a name missing from the file-system map. Errors during reading or writing are left out, because every engine step is modelled as succeeding.
- Head.Execute: the diagnostic text written by `display_msg!` is reduced to the failing name, and a failure to write it (which makes the source return at once) is not modelled.
- Head.Options.HandleData: `Path::display` is modelled as the name's bytes; its lossy conversion of non-UTF-8 names is left out.
- NumParse.IsValidNum: arguments that are not valid UTF-8 (rejected through `to_str`) are outside the model, whose arguments are Unicode strings.
- Standard input shared by several "-" arguments is modelled as resuming exactly where the previous use stopped reading logically; read-ahead lost in a buffered reader is not modelled.
- Counts are unbounded naturals; the `usize` limits (which the suffix parser enforces) and the u64 cast in `take` are not modelled.
- The allocation strategy of `write_bytes_backward` (`with_capacity` vs growing vectors) does not change what is written and is left out.
- Yes.PrepareBuffer: requires a non-empty unit, because the source loops forever on an empty one; its only caller passes a unit that ends in a linefeed (`Yes.Unit`).
- `run` in `yes` (an endless write loop), the `latency` variant of `prepare_buffer` (the identity), `arch` and the process-level tests have no logic to model.
