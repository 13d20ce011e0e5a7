/**
 * The `head` driver: choosing the mode, writing `==> name <==` headers,
 * mapping "-" to standard input, and running every named source in order,
 * remembering but not stopping at the ones that cannot be opened.
 *
 * The file system is a map from the names that can be opened to their
 * contents; a name missing from it fails to open. Standard input is a byte
 * stream shared by every "-" argument: each use reads on from where the
 * previous one stopped.
 */
module Head {
  import opened Wrappers
  import opened Bytes
  import opened Windows
  import Engine
  import NumParse

  /** What is extracted: a count of bytes or of lines, from the front (positive) or all but that many at the end. */
  datatype Mode = ByBytes(count: nat, positive: bool) | ByLines(count: nat, positive: bool)

  /** Without -c or -n: the first ten lines. */
  const DefaultMode: Mode := ByLines(10, true)

  /** The argument "-" (a single hyphen-minus byte). */
  const Dash: seq<byte> := [45]

  /** The display name of standard input. */
  const StandardInput: seq<byte> := Ascii("standard input")

  datatype Status = Ok | Err

  /** The mode chosen from the values given to -c and -n, which the argument validator has accepted. */
  function SelectMode(bytesArg: Option<string>, linesArg: Option<string>, suffix: string -> Option<nat>): (m: Mode)
    requires bytesArg.Some? ==> NumParse.IsValidNum(bytesArg.value, suffix).Success?
    requires linesArg.Some? ==> NumParse.IsValidNum(linesArg.value, suffix).Success?
    ensures bytesArg.Some? ==> m.ByBytes? && Some((m.count, m.positive)) == NumParse.ParseNum(bytesArg.value, suffix)
    ensures bytesArg.None? && linesArg.Some? ==>
      m.ByLines? && Some((m.count, m.positive)) == NumParse.ParseNum(linesArg.value, suffix)
    ensures bytesArg.None? && linesArg.None? ==> m.ByLines? && m.count == 10 && m.positive
  {
    if bytesArg.Some? then
      var (n, positive) := NumParse.ParseNum(bytesArg.value, suffix).value;
      ByBytes(n, positive)
    else if linesArg.Some? then
      var (n, positive) := NumParse.ParseNum(linesArg.value, suffix).value;
      ByLines(n, positive)
    else DefaultMode
  }

  /** The bytes of one source that are written in `mode`. */
  function Window(mode: Mode, s: seq<byte>): seq<byte>
  {
    match mode
    case ByLines(n, true) => HeadLines(s, n)
    case ByLines(n, false) => DropLastLines(s, n)
    case ByBytes(n, true) => HeadBytes(s, n)
    case ByBytes(n, false) => DropLastBytes(s, n)
  }

  /** What is left unread of a source after extracting in `mode`: the backward modes read to end of stream. */
  function Unread(mode: Mode, s: seq<byte>): seq<byte>
  {
    if mode.positive then s[|Window(mode, s)|..] else []
  }

  /** The line `==> name <==` that names a source. */
  function HeaderLine(name: seq<byte>): seq<byte>
  {
    Ascii("==> ") + name + Ascii(" <==") + [Newline]
  }

  /** A header: a blank line first unless it is the first header printed. */
  function Header(name: seq<byte>, previousPrinted: bool): seq<byte>
  {
    (if previousPrinted then [Newline] else []) + HeaderLine(name)
  }

  /** The name can be read back from between the fixed ends of its header line. */
  lemma HeaderLineNamesSource(name: seq<byte>)
    ensures |HeaderLine(name)| == |name| + 9
    ensures HeaderLine(name)[..4] == Ascii("==> ") && HeaderLine(name)[4..|name| + 4] == name
    ensures HeaderLine(name)[|name| + 4..] == Ascii(" <==") + [Newline]
  {
  }

  /** A header ends with the header line and starts with a blank line exactly when a header was printed before. */
  lemma BlankLineOnlyAfterFirstHeader(name: seq<byte>, previousPrinted: bool)
    ensures |Header(name, previousPrinted)| == |HeaderLine(name)| + (if previousPrinted then 1 else 0)
    ensures Header(name, previousPrinted)[|Header(name, previousPrinted)| - |HeaderLine(name)|..] == HeaderLine(name)
    ensures Header(name, previousPrinted)[0] == Newline <==> previousPrinted
  {
  }

  /** The header for an optional display name. */
  function Banner(name: Option<seq<byte>>, previousPrinted: bool): seq<byte>
  {
    if name.Some? then Header(name.value, previousPrinted) else []
  }

  /** Whether headers are shown: more than one source and not quiet, or verbose. */
  function ShowNames(fileCount: nat, quiet: bool, verbose: bool): (r: bool)
    ensures verbose ==> r
    ensures !verbose ==> (r <==> fileCount >= 2 && !quiet)
  {
    (fileCount > 1 && !quiet) || verbose
  }

  /** The name a header displays for a source argument: "-" is never displayed as itself. */
  function DisplayName(file: seq<byte>, show: bool): (r: Option<seq<byte>>)
    ensures r.Some? <==> show
    ensures show && file == Dash ==> r == Some(StandardInput)
    ensures r.Some? ==> r.value != Dash && (file != Dash ==> r.value == file)
  {
    if !show then None else if file == Dash then Some(StandardInput) else Some(file)
  }

  /** The options shared by all sources of one invocation. */
  class Options {
    const mode: Mode
    var previousPrinted: bool

    constructor (mode: Mode)
      ensures this.mode == mode && !previousPrinted
    {
      this.mode := mode;
      previousPrinted := false;
    }

    /**
     * One source: its header if it has a display name, then its window.
     * Returns the bytes written and what is left unread of the source.
     */
    method HandleData(name: Option<seq<byte>>, input: seq<byte>) returns (written: seq<byte>, rest: seq<byte>)
      modifies this
      ensures written == Banner(name, old(previousPrinted)) + Window(mode, input)
      ensures rest == Unread(mode, input)
      ensures previousPrinted == (old(previousPrinted) || name.Some?)
    {
      written := [];
      if name.Some? {
        if previousPrinted {
          written := Header(name.value, true);
        } else {
          written := Header(name.value, false);
          previousPrinted := true;
        }
      }
      var body: seq<byte>;
      match mode {
        case ByLines(lines, positive) =>
          if positive {
            body, rest := Engine.WriteLinesForward(input, lines);
          } else {
            ghost var peak;
            body, rest, peak := Engine.WriteLinesBackward(input, lines);
          }
        case ByBytes(bytes, positive) =>
          if positive {
            body, rest := Engine.CopyBytesForward(input, bytes);
          } else {
            ghost var held;
            body, rest, held := Engine.WriteBytesBackward(input, bytes);
          }
      }
      written := written + body;
    }
  }

  // ---------------------------------------------------------------------
  // The run over all sources, as a function

  /** Everything the driver has produced so far. */
  datatype RunState = RunState(out: seq<byte>, failed: seq<seq<byte>>, stdin: seq<byte>, previousPrinted: bool)

  function Start(stdin: seq<byte>): RunState
  {
    RunState([], [], stdin, false)
  }

  /** One source argument: "-" reads on from standard input, a name that opens is read whole, any other name fails. */
  function Step(mode: Mode, show: bool, fs: map<seq<byte>, seq<byte>>, st: RunState, file: seq<byte>): (r: RunState)
    ensures |st.out| <= |r.out| && r.out[..|st.out|] == st.out
    ensures r.failed == st.failed + (if file != Dash && file !in fs then [file] else [])
    ensures r.previousPrinted == (st.previousPrinted || (show && (file == Dash || file in fs)))
    ensures file != Dash ==> r.stdin == st.stdin
  {
    var name := DisplayName(file, show);
    if file == Dash then
      RunState(st.out + (Banner(name, st.previousPrinted) + Window(mode, st.stdin)), st.failed,
               Unread(mode, st.stdin), st.previousPrinted || show)
    else if file in fs then
      RunState(st.out + (Banner(name, st.previousPrinted) + Window(mode, fs[file])), st.failed,
               st.stdin, st.previousPrinted || show)
    else
      RunState(st.out, st.failed + [file], st.stdin, st.previousPrinted)
  }

  /** The source arguments handled one after the other. */
  function RunFiles(mode: Mode, show: bool, fs: map<seq<byte>, seq<byte>>, st: RunState, files: seq<seq<byte>>): (r: RunState)
    ensures |st.out| <= |r.out| && r.out[..|st.out|] == st.out
    ensures |st.failed| <= |r.failed| <= |st.failed| + |files| && r.failed[..|st.failed|] == st.failed
    ensures Dash !in files ==> r.stdin == st.stdin
  {
    if files == [] then st
    else Step(mode, show, fs, RunFiles(mode, show, fs, st, files[..|files| - 1]), files[|files| - 1])
  }

  /** The whole invocation: the named sources, or standard input alone when there are none. */
  function Invoke(mode: Mode, quiet: bool, verbose: bool, fs: map<seq<byte>, seq<byte>>,
                  stdin: seq<byte>, files: seq<seq<byte>>): (r: RunState)
    ensures files == [] ==> r.failed == [] && r.previousPrinted == verbose
    ensures |r.failed| <= |files|
  {
    if files == [] then
      RunOne(mode, verbose, fs, Start(stdin), Dash);
      RunFiles(mode, verbose, fs, Start(stdin), [Dash])
    else RunFiles(mode, ShowNames(|files|, quiet, verbose), fs, Start(stdin), files)
  }

  /**
   * One round of `execute`'s loop: "-" is read from standard input, a name
   * that opens is read whole, and a name that does not is recorded as
   * failed; the new state is one `Step` of the run.
   */
  method HandleSource(options: Options, show: bool, fs: map<seq<byte>, seq<byte>>, st: RunState, file: seq<byte>)
    returns (next: RunState)
    requires st.previousPrinted == options.previousPrinted
    modifies options
    ensures next == Step(options.mode, show, fs, st, file)
    ensures next.previousPrinted == options.previousPrinted
  {
    var name := DisplayName(file, show);
    if file == Dash {
      var written, rest := options.HandleData(name, st.stdin);
      next := st.(out := st.out + written, stdin := rest, previousPrinted := options.previousPrinted);
    } else if file in fs {
      var written, unread := options.HandleData(name, fs[file]);
      next := st.(out := st.out + written, previousPrinted := options.previousPrinted);
    } else {
      next := st.(failed := st.failed + [file]);
    }
  }

  /**
   * The loop of `execute` over the source arguments, sharing one `Options`:
   * each source is handled in turn, one that fails to open is recorded and
   * the loop goes on, and the result is an error iff some source failed.
   */
  method HandleSources(options: Options, show: bool, files: seq<seq<byte>>, fs: map<seq<byte>, seq<byte>>, stdin: seq<byte>)
    returns (st: RunState, result: Status)
    requires !options.previousPrinted
    modifies options
    ensures st == RunFiles(options.mode, show, fs, Start(stdin), files)
    ensures result == Err <==> st.failed != []
  {
    st, result := Start(stdin), Ok;
    var i := 0;
    while i < |files|
      invariant 0 <= i <= |files|
      invariant st == RunFiles(options.mode, show, fs, Start(stdin), files[..i])
      invariant st.previousPrinted == options.previousPrinted
      invariant result == Err <==> st.failed != []
    {
      var before := st;
      st := HandleSource(options, show, fs, st, files[i]);
      if |st.failed| > |before.failed| {
        result := Err;
      }
      RunFilesSnoc(options.mode, show, fs, Start(stdin), files, i);
      i := i + 1;
    }
    assert files[..i] == files;
  }

  /**
   * `execute` from the parsed flags on: select the mode, then handle the
   * source arguments in order, or standard input alone when there are none
   * (under a header only when verbose).
   */
  method Execute(bytesArg: Option<string>, linesArg: Option<string>, suffix: string -> Option<nat>,
                 quiet: bool, verbose: bool, files: seq<seq<byte>>,
                 fs: map<seq<byte>, seq<byte>>, stdin: seq<byte>)
    returns (out: seq<byte>, failed: seq<seq<byte>>, status: Status)
    requires bytesArg.Some? ==> NumParse.IsValidNum(bytesArg.value, suffix).Success?
    requires linesArg.Some? ==> NumParse.IsValidNum(linesArg.value, suffix).Success?
    ensures var r := Invoke(SelectMode(bytesArg, linesArg, suffix), quiet, verbose, fs, stdin, files);
      out == r.out && failed == r.failed
    ensures status == Err <==> failed != []
  {
    var mode := SelectMode(bytesArg, linesArg, suffix);
    var options := new Options(mode);
    if files != [] {
      var show := ShowNames(|files|, quiet, verbose);
      var st;
      st, status := HandleSources(options, show, files, fs, stdin);
      out, failed := st.out, st.failed;
    } else {
      var written, _ := options.HandleData(DisplayName(Dash, verbose), stdin);
      out, failed, status := written, [], Ok;
      assert [] + written == written;
      RunOne(mode, verbose, fs, Start(stdin), Dash);
    }
  }

  /** Handling one more source extends the run by one step. */
  lemma RunFilesSnoc(mode: Mode, show: bool, fs: map<seq<byte>, seq<byte>>, st: RunState, files: seq<seq<byte>>, i: nat)
    requires i < |files|
    ensures RunFiles(mode, show, fs, st, files[..i + 1]) == Step(mode, show, fs, RunFiles(mode, show, fs, st, files[..i]), files[i])
  {
    assert files[..i + 1][..i] == files[..i];
  }

  lemma RunOne(mode: Mode, show: bool, fs: map<seq<byte>, seq<byte>>, st: RunState, file: seq<byte>)
    ensures RunFiles(mode, show, fs, st, [file]) == Step(mode, show, fs, st, file)
  {
    assert [file][..0] == [];
  }

  // ---------------------------------------------------------------------
  // Properties of a run

  /** The sources that fail to open, in argument order. */
  function Failures(fs: map<seq<byte>, seq<byte>>, files: seq<seq<byte>>): seq<seq<byte>>
  {
    if files == [] then []
    else
      var last := files[|files| - 1];
      Failures(fs, files[..|files| - 1]) + if last != Dash && last !in fs then [last] else []
  }

  /** The sources that are read: "-" and the names that open. */
  function Opened(fs: map<seq<byte>, seq<byte>>, files: seq<seq<byte>>): seq<seq<byte>>
  {
    if files == [] then []
    else
      var last := files[|files| - 1];
      Opened(fs, files[..|files| - 1]) + if last == Dash || last in fs then [last] else []
  }

  /** Every source that fails to open is reported, in order, and nothing else is. */
  lemma {:induction false} FailuresReported(mode: Mode, show: bool, fs: map<seq<byte>, seq<byte>>, st: RunState, files: seq<seq<byte>>)
    ensures RunFiles(mode, show, fs, st, files).failed == st.failed + Failures(fs, files)
  {
    if files != [] {
      FailuresReported(mode, show, fs, st, files[..|files| - 1]);
    }
  }

  /** Sources that fail to open leave no output, no header and no change to the header state: the run equals the run over the sources that open. */
  lemma {:induction false} FailuresLeaveNoTrace(mode: Mode, show: bool, fs: map<seq<byte>, seq<byte>>, st: RunState, files: seq<seq<byte>>)
    ensures var a := RunFiles(mode, show, fs, st, files);
      var b := RunFiles(mode, show, fs, st, Opened(fs, files));
      a.out == b.out && a.stdin == b.stdin && a.previousPrinted == b.previousPrinted
  {
    if files != [] {
      var init := files[..|files| - 1];
      var last := files[|files| - 1];
      FailuresLeaveNoTrace(mode, show, fs, st, init);
      if last == Dash || last in fs {
        OpenedStep(mode, show, fs, st, Opened(fs, init), last);
      } else {
        assert Opened(fs, files) == Opened(fs, init) + [];
        assert Opened(fs, init) + [] == Opened(fs, init);
      }
    }
  }

  /** A source that is read extends the run over the sources read before it by one step. */
  lemma OpenedStep(mode: Mode, show: bool, fs: map<seq<byte>, seq<byte>>, st: RunState, prior: seq<seq<byte>>, last: seq<byte>)
    ensures RunFiles(mode, show, fs, st, prior + [last]) == Step(mode, show, fs, RunFiles(mode, show, fs, st, prior), last)
  {
    var o := prior + [last];
    assert o[..|o| - 1] == prior;
  }

  /** The header state only moves from false to true, and does so exactly when a header is printed for a source that is read. */
  lemma {:induction false} PreviousPrintedOnce(mode: Mode, show: bool, fs: map<seq<byte>, seq<byte>>, st: RunState, files: seq<seq<byte>>)
    ensures RunFiles(mode, show, fs, st, files).previousPrinted == (st.previousPrinted || (show && Opened(fs, files) != []))
  {
    if files != [] {
      PreviousPrintedOnce(mode, show, fs, st, files[..|files| - 1]);
    }
  }

  /** The run fails exactly when some source argument other than "-" names nothing that opens. */
  lemma FailsIffSomeSourceFails(mode: Mode, quiet: bool, verbose: bool, fs: map<seq<byte>, seq<byte>>,
                                stdin: seq<byte>, files: seq<seq<byte>>)
    ensures Invoke(mode, quiet, verbose, fs, stdin, files).failed != [] <==>
      exists i :: 0 <= i < |files| && files[i] != Dash && files[i] !in fs
  {
    var show := ShowNames(|files|, quiet, verbose);
    if files == [] {
      RunOne(mode, verbose, fs, Start(stdin), Dash);
    } else {
      FailuresReported(mode, show, fs, Start(stdin), files);
      FailuresExist(fs, files);
    }
  }

  lemma {:induction false} FailuresExist(fs: map<seq<byte>, seq<byte>>, files: seq<seq<byte>>)
    ensures Failures(fs, files) != [] <==> exists i :: 0 <= i < |files| && files[i] != Dash && files[i] !in fs
  {
    if files != [] {
      var init := files[..|files| - 1];
      FailuresExist(fs, init);
      assert forall i :: 0 <= i < |init| ==> init[i] == files[i];
    }
  }

  /** A window is always a leading part of its source, and a forward window followed by what is left unread is the whole source. */
  lemma WindowIsPrefix(mode: Mode, s: seq<byte>)
    ensures |Window(mode, s)| <= |s| && Window(mode, s) == s[..|Window(mode, s)|]
    ensures mode.positive ==> Window(mode, s) + Unread(mode, s) == s
  {
    var w := Window(mode, s);
    match mode {
      case ByLines(n, positive) =>
        if positive {
          HeadLinesWindow(s, n);
        } else {
          DropLastLinesWindow(s, n);
        }
      case ByBytes(n, positive) =>
        if positive {
          HeadBytesWindow(s, n);
        } else {
          DropLastBytesRoundTrip(s, n);
        }
    }
    assert w + s[|w|..] == s;
  }

  /** With no source arguments, standard input is read, under a header only when verbose. */
  lemma NoFilesReadsStandardInput(mode: Mode, quiet: bool, verbose: bool, fs: map<seq<byte>, seq<byte>>, stdin: seq<byte>)
    ensures Invoke(mode, quiet, verbose, fs, stdin, []).out ==
      (if verbose then Header(StandardInput, false) else []) + Window(mode, stdin)
    ensures Invoke(mode, quiet, verbose, fs, stdin, []).failed == []
  {
    RunOne(mode, verbose, fs, Start(stdin), Dash);
    assert [] + Banner(DisplayName(Dash, verbose), false) == Banner(DisplayName(Dash, verbose), false);
  }

  /** A single source that opens is written under a header only when verbose, with or without -q. */
  lemma OneSourceHeaderOnlyIfVerbose(mode: Mode, quiet: bool, verbose: bool, fs: map<seq<byte>, seq<byte>>,
                                     stdin: seq<byte>, a: seq<byte>)
    requires a in fs && a != Dash
    ensures Invoke(mode, quiet, verbose, fs, stdin, [a]).out ==
      (if verbose then HeaderLine(a) else []) + Window(mode, fs[a])
  {
    RunOne(mode, ShowNames(1, quiet, verbose), fs, Start(stdin), a);
    assert [] + HeaderLine(a) == HeaderLine(a);
  }

  /** With -q and without -v, the sources that open are written one after the other with no header. */
  lemma QuietTwoSourcesNoHeaders(mode: Mode, fs: map<seq<byte>, seq<byte>>, stdin: seq<byte>, a: seq<byte>, b: seq<byte>)
    requires a in fs && b in fs && a != Dash && b != Dash
    ensures Invoke(mode, true, false, fs, stdin, [a, b]).out == Window(mode, fs[a]) + Window(mode, fs[b])
  {
    var st := Start(stdin);
    var files := [a, b];
    assert files[..1] == [a] && files[..2] == files;
    RunOne(mode, false, fs, st, a);
    RunFilesSnoc(mode, false, fs, st, files, 1);
    var s1 := Step(mode, false, fs, st, a);
    NamelessStep(mode, fs, st, a);
    NamelessStep(mode, fs, s1, b);
    assert [] + Window(mode, fs[a]) == Window(mode, fs[a]);
  }

  /** A source that opens, written without a name, adds just its window to the output. */
  lemma NamelessStep(mode: Mode, fs: map<seq<byte>, seq<byte>>, st: RunState, f: seq<byte>)
    requires f in fs && f != Dash
    ensures Step(mode, false, fs, st, f).out == st.out + Window(mode, fs[f])
  {
    assert Banner(DisplayName(f, false), st.previousPrinted) == [];
    assert [] + Window(mode, fs[f]) == Window(mode, fs[f]);
  }

  /** Two sources that open, without -q: the first header has no blank line before it, the second has one. */
  lemma TwoSourcesHeaders(mode: Mode, fs: map<seq<byte>, seq<byte>>, stdin: seq<byte>, a: seq<byte>, b: seq<byte>)
    requires a in fs && b in fs && a != Dash && b != Dash
    ensures Invoke(mode, false, false, fs, stdin, [a, b]).out ==
      (HeaderLine(a) + Window(mode, fs[a])) + ([Newline] + HeaderLine(b) + Window(mode, fs[b]))
  {
    var st := Start(stdin);
    assert [a, b][..1] == [a];
    RunOne(mode, true, fs, st, a);
    var s1 := Step(mode, true, fs, st, a);
    assert s1.out == [] + (HeaderLine(a) + Window(mode, fs[a]));
    assert s1.out == HeaderLine(a) + Window(mode, fs[a]);
    assert s1.previousPrinted;
  }
}
