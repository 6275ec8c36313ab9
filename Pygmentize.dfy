/**
 * The body of the front end's `Main`: mode selection (list styles, usage,
 * dispatch) and the dispatch over the requested output kinds and the files.
 *
 * The highlighting engine, file reads and writes are the `Host`'s functions;
 * everything the program prints or writes becomes an `Action` in a log.
 * `Outcome` says what a run does; the method `Run` does it with the loops
 * and the `switch` of the C# `Main` and is proved to produce `Outcome`.
 */
module Pygmentize {
  import opened Wrappers
  import opened Text
  import opened Extensions
  import opened Arguments

  /** The three renderings of the engine: `HighlightToHtml`, `HighlightToRTF`, `HighlightToTerminal256`. */
  datatype Target = Html | Rtf | Ansi

  /** The world outside the front end. */
  datatype Host = Host(
    /** The engine's style catalogue. */
    styles: seq<string>,
    /** `File.ReadAllText`; `None` when it throws. */
    read: string -> Option<string>,
    /** The engine on (target, source text, language, style, title); `None` when it throws. */
    highlight: (Target, string, Option<string>, string, string) -> Option<string>,
    /** Whether `File.WriteAllText` on this path succeeds. */
    canWrite: string -> bool)

  /** What a run prints, writes or requests, in order. */
  datatype Action =
    | ShowStyles(list: string)                  // the joined style catalogue
    | ShowUsage                                 // the usage line
    | Announce(source: string, target: string)  // "Highlighting : [source] to [target]"
    | Write(path: string, content: string)      // a sibling file written
    | EnableAnsi                                // SetAnsiConsoleMode()
    | Echo(text: string)                        // rendered text written to the console
    | ReportFailure                             // the html loop's exception report
    | ReportUnknown(kind: string)               // "Unknown output type '<kind>' -- skipping"

  /** The actions of a run or of part of one, and whether an exception escaped it. */
  datatype Trace = Trace(log: seq<Action>, stopped: bool)

  /** The values `Main` reads from the option bag before dispatching. */
  datatype Settings = Settings(language: Option<string>, style: string, toConsole: bool)

  datatype Kind = HtmlKind | RtfKind | TerminalKind | Reserved | Unrecognised

  const HelpFlags: seq<string> := ["help", "?", "h"]
  const ConsoleFlags: seq<string> := ["console", "c"]
  const TerminalAliases: seq<string> := ["terminal256", "console256", "256", "terminal16", "console16", "16m"]

  /** The case of the `switch` an output kind selects. */
  function KindOf(o: string): Kind {
    if o == "html" then HtmlKind
    else if o == "rtf" then RtfKind
    else if o == "bbcode" || o == "latex" then Reserved
    else if o in TerminalAliases then TerminalKind
    else Unrecognised
  }

  /** Each case is selected by exactly its labels; a kind that matches no
      label goes to `default`. */
  lemma KindOfLabels(o: string)
    ensures KindOf(o) == HtmlKind <==> o == "html"
    ensures KindOf(o) == RtfKind <==> o == "rtf"
    ensures KindOf(o) == Reserved <==> o == "bbcode" || o == "latex"
    ensures KindOf(o) == TerminalKind <==> o in TerminalAliases
    ensures KindOf(o) == Unrecognised <==> o !in ["html", "rtf", "bbcode", "latex"] + TerminalAliases
  {
  }

  /** Suffix appended to the whole input name to name its sibling file: a dot
      and a name without dots, different for each target. */
  function Extension(t: Target): (e: string)
    ensures |e| > 1 && e[0] == '.' && '.' !in e[1..]
  {
    match t
    case Html => ".html"
    case Rtf => ".rtf"
    case Ansi => ".ans"
  }

  /** Different targets never write the same sibling of a file. */
  lemma SiblingsDiffer(f: string, t: Target, u: Target)
    requires t != u
    ensures f + Extension(t) != f + Extension(u)
  {
    assert (f + Extension(t))[|f|..] == Extension(t);
    assert (f + Extension(u))[|f|..] == Extension(u);
  }

  /** Language and style from the last `language=` and `style=` entries, where
      a missing or empty value gives no language and the `scite` style; console
      output when the bag holds `console` or `c`. */
  function SettingsOf(opts: seq<string>): (r: Settings)
    ensures r.toConsole <==> "console" in opts || "c" in opts
    ensures r.language != Some("") && r.style != ""
    ensures NoMatch(opts, "language") ==> r.language == None
    ensures NoMatch(opts, "style") ==> r.style == "scite"
    ensures forall i :: 0 <= i < |opts| && IsLastMatch(opts, "language", i) ==>
      r.language == (if ValueOf(opts[i], "language") == "" then None else Some(ValueOf(opts[i], "language")))
    ensures forall i :: 0 <= i < |opts| && IsLastMatch(opts, "style", i) ==>
      r.style == (if ValueOf(opts[i], "style") == "" then "scite" else ValueOf(opts[i], "style"))
  {
    ContainsAnyMembers(opts, ConsoleFlags);
    Settings(
      ValueOrDefault(opts, "language", None),
      ValueOrDefault(opts, "style", Some("scite")).value,
      ContainsAny(opts, ConsoleFlags))
  }

  /** The requested output kinds, each once, in the order first requested. */
  function Outputs(opts: seq<string>): (r: seq<string>)
    ensures r != [] && NoDuplicates(r)
    ensures forall x :: x in r <==> x in Values(opts, "output") || (NoMatch(opts, "output") && x == "html")
    ensures forall i, j :: 0 <= i < j < |r| ==>
      FirstIndex(ValuesOrDefault(opts, "output", "html"), r[i]) < FirstIndex(ValuesOrDefault(opts, "output", "html"), r[j])
  {
    var requested := ValuesOrDefault(opts, "output", "html");
    var r := Distinct(requested);
    assert requested[0] in r;
    DistinctOrder(requested);
    r
  }

  /** Read a file and render it; `None` when the read or the engine throws. */
  function Render(host: Host, t: Target, f: string, s: Settings): (r: Option<string>)
    ensures host.read(f).None? ==> r.None?
    ensures host.read(f).Some? ==> r == host.highlight(t, host.read(f).value, s.language, s.style, f)
  {
    match host.read(f)
    case None => None
    case Some(text) => host.highlight(t, text, s.language, s.style, f)
  }

  /** Only these actions come from processing one file. */
  predicate IsFileAction(a: Action) {
    a.Announce? || a.Write? || a.EnableAnsi? || a.Echo?
  }

  /** One iteration of a file loop: to the console (terminal kinds with
      `--console`) or to the sibling file; `stopped` when an exception is thrown. */
  function Attempt(host: Host, t: Target, f: string, s: Settings): (r: Trace)
    ensures forall a :: a in r.log ==> IsFileAction(a)
    ensures t == Ansi && s.toConsole ==> |r.log| > 0 && r.log[0] == EnableAnsi && Count(r.log, EnableAnsi) == 1
    ensures !(t == Ansi && s.toConsole) ==> |r.log| > 0 && r.log[0] == Announce(f, f + Extension(t)) && EnableAnsi !in r.log
    ensures r.stopped <==> Render(host, t, f, s).None? || (!(t == Ansi && s.toConsole) && !host.canWrite(f + Extension(t)))
    ensures r.stopped ==> |r.log| == 1
    ensures !r.stopped && t == Ansi && s.toConsole ==>
      r.log == [EnableAnsi, Echo(CrLf(Render(host, t, f, s).value))]
    ensures !r.stopped && !(t == Ansi && s.toConsole) ==>
      r.log == [Announce(f, f + Extension(t)), Write(f + Extension(t), Render(host, t, f, s).value)]
    ensures forall x :: Echo(x) in r.log ==> NoBareLineFeed(x)
  {
    var out := Render(host, t, f, s);
    if t == Ansi && s.toConsole then
      Trace([EnableAnsi] + (if out.Some? then [Echo(CrLf(out.value))] else []), out.None?)
    else
      var path := f + Extension(t);
      var ok := out.Some? && host.canWrite(path);
      Trace([Announce(f, path)] + (if ok then [Write(path, out.value)] else []), !ok)
  }

  /** A `foreach` whose iterations may throw: the steps' actions in order, up
      to and including the first step that stops, which stops the whole. */
  function Chain(steps: seq<Trace>): (r: Trace)
    ensures r.stopped <==> exists i :: 0 <= i < |steps| && steps[i].stopped
  {
    if steps == [] then Trace([], false)
    else
      var init := steps[..|steps| - 1];
      var prev := Chain(init);
      var last := steps[|steps| - 1];
      assert forall i :: 0 <= i < |init| ==> steps[i] == init[i];
      if prev.stopped then prev else Trace(prev.log + last.log, last.stopped)
  }

  /** Every action of a chain is an action of one of its steps. */
  lemma {:induction false} ChainActions(steps: seq<Trace>, a: Action)
    requires a in Chain(steps).log
    ensures exists i :: 0 <= i < |steps| && a in steps[i].log
  {
    var init := steps[..|steps| - 1];
    var prev := Chain(init);
    if a in prev.log {
      ChainActions(init, a);
      var i :| 0 <= i < |init| && a in init[i].log;
      assert steps[i] == init[i];
    }
  }

  /** One more step of a chain. */
  lemma ChainStep(steps: seq<Trace>, j: nat)
    requires j < |steps|
    ensures Chain(steps[..j + 1]) ==
      if Chain(steps[..j]).stopped then Chain(steps[..j])
      else Trace(Chain(steps[..j]).log + steps[j].log, steps[j].stopped)
  {
    assert steps[..j + 1][..j] == steps[..j];
  }

  /** Once a step has stopped the chain, later steps change nothing. */
  lemma {:induction false} ChainSticks(steps: seq<Trace>, k: nat)
    requires k <= |steps|
    requires Chain(steps[..k]).stopped
    ensures Chain(steps) == Chain(steps[..k])
  {
    if k < |steps| {
      var init := steps[..|steps| - 1];
      assert init[..k] == steps[..k];
      ChainSticks(init, k);
    } else {
      assert steps[..k] == steps;
    }
  }

  /** The attempt on each file, in file order. */
  function Attempts(host: Host, t: Target, files: seq<string>, s: Settings): (r: seq<Trace>)
    ensures |r| == |files|
  {
    seq(|files|, i requires 0 <= i < |files| => Attempt(host, t, files[i], s))
  }

  /** `foreach (var f in files)` over one target: the first exception ends the loop. */
  function FileLoop(host: Host, t: Target, files: seq<string>, s: Settings): (r: Trace)
    ensures forall a :: a in r.log ==> IsFileAction(a)
    ensures forall x :: Echo(x) in r.log ==> NoBareLineFeed(x)
    ensures r.stopped <==> exists i :: 0 <= i < |files| && Attempt(host, t, files[i], s).stopped
  {
    var steps := Attempts(host, t, files, s);
    assert forall i :: 0 <= i < |files| ==> steps[i] == Attempt(host, t, files[i], s);
    forall a | a in Chain(steps).log ensures IsFileAction(a) && (a.Echo? ==> NoBareLineFeed(a.text)) {
      ChainActions(steps, a);
    }
    Chain(steps)
  }

  /** One case of the `switch`. Only the html case catches exceptions, so only
      rtf and the terminal kinds can end the run. */
  function RunKind(host: Host, o: string, files: seq<string>, s: Settings): (r: Trace)
    ensures r.stopped ==> KindOf(o) == RtfKind || KindOf(o) == TerminalKind
    ensures forall a :: a in r.log ==> IsFileAction(a) || a == ReportFailure || a == ReportUnknown(o)
  {
    match KindOf(o)
    case HtmlKind =>
      var l := FileLoop(host, Html, files, s);
      if l.stopped then Trace(l.log + [ReportFailure], false) else l
    case RtfKind => FileLoop(host, Rtf, files, s)
    case TerminalKind => FileLoop(host, Ansi, files, s)
    case Reserved => Trace([], false)
    case Unrecognised => Trace([ReportUnknown(o)], false)
  }

  /** The case run for each output kind, in the order of the outputs. */
  function Kinds(host: Host, outputs: seq<string>, files: seq<string>, s: Settings): (r: seq<Trace>)
    ensures |r| == |outputs|
  {
    seq(|outputs|, i requires 0 <= i < |outputs| => RunKind(host, outputs[i], files, s))
  }

  /** `foreach (var o in outputs)`: an exception escaping a case ends the run. */
  function RunOutputs(host: Host, outputs: seq<string>, files: seq<string>, s: Settings): (r: Trace)
    ensures r.stopped ==> exists i :: 0 <= i < |outputs| && (KindOf(outputs[i]) == RtfKind || KindOf(outputs[i]) == TerminalKind)
    ensures forall a :: a in r.log ==> IsFileAction(a) || a == ReportFailure || (a.ReportUnknown? && a.kind in outputs)
  {
    var steps := Kinds(host, outputs, files, s);
    forall a | a in Chain(steps).log
      ensures IsFileAction(a) || a == ReportFailure || (a.ReportUnknown? && a.kind in outputs)
    {
      ChainActions(steps, a);
    }
    Chain(steps)
  }

  lemma AttemptsTake(host: Host, t: Target, files: seq<string>, s: Settings, j: nat)
    requires j <= |files|
    ensures Attempts(host, t, files, s)[..j] == Attempts(host, t, files[..j], s)
  {
  }

  lemma KindsTake(host: Host, outputs: seq<string>, files: seq<string>, s: Settings, j: nat)
    requires j <= |outputs|
    ensures Kinds(host, outputs, files, s)[..j] == Kinds(host, outputs[..j], files, s)
  {
  }

  /** A file loop is the loop over all files but the last, then the last unless it stopped. */
  lemma FileLoopSnoc(host: Host, t: Target, files: seq<string>, s: Settings)
    requires files != []
    ensures FileLoop(host, t, files, s) ==
      var prev := FileLoop(host, t, files[..|files| - 1], s);
      var a := Attempt(host, t, files[|files| - 1], s);
      if prev.stopped then prev else Trace(prev.log + a.log, a.stopped)
  {
    AttemptsTake(host, t, files, s, |files| - 1);
  }

  /** The outputs loop is the loop over all outputs but the last, then the last unless the run stopped. */
  lemma RunOutputsSnoc(host: Host, outputs: seq<string>, files: seq<string>, s: Settings)
    requires outputs != []
    ensures RunOutputs(host, outputs, files, s) ==
      var prev := RunOutputs(host, outputs[..|outputs| - 1], files, s);
      var k := RunKind(host, outputs[|outputs| - 1], files, s);
      if prev.stopped then prev else Trace(prev.log + k.log, k.stopped)
  {
    KindsTake(host, outputs, files, s, |outputs| - 1);
  }

  /** What a run on the command line `args` does: list the styles, print
      usage, or dispatch; only dispatching can fail. */
  function Outcome(args: seq<string>, host: Host): (r: Trace)
    ensures r.stopped ==> Files(args) != [] && !ContainsAny(Opts(args), HelpFlags)
  {
    var opts := Opts(args);
    var files := Files(args);
    if files == [] && "liststyles" in opts then Trace([ShowStyles(Join(host.styles, ", "))], false)
    else if files == [] || ContainsAny(opts, HelpFlags) then Trace([ShowUsage], false)
    else RunOutputs(host, Outputs(opts), files, SettingsOf(opts))
  }

  /** The body of a file loop, on one file. */
  method HighlightFile(host: Host, t: Target, f: string, s: Settings) returns (part: seq<Action>, failed: bool)
    ensures Trace(part, failed) == Attempt(host, t, f, s)
  {
    failed := false;
    if t == Ansi && s.toConsole {
      part := [EnableAnsi];
      var text := host.read(f);
      if text.None? {
        failed := true;
      } else {
        var out := host.highlight(t, text.value, s.language, s.style, f);
        if out.None? {
          failed := true;
        } else {
          part := part + [Echo(CrLf(out.value))];
        }
      }
    } else {
      var path := f + Extension(t);
      part := [Announce(f, path)];
      var text := host.read(f);
      if text.None? {
        failed := true;
      } else {
        var out := host.highlight(t, text.value, s.language, s.style, f);
        if out.None? || !host.canWrite(path) {
          failed := true;
        } else {
          part := part + [Write(path, out.value)];
        }
      }
    }
  }

  /** One file loop; `Main` spells it out for html, rtf and the terminal kinds. */
  method ProcessFiles(host: Host, t: Target, files: seq<string>, s: Settings) returns (log: seq<Action>, failed: bool)
    ensures Trace(log, failed) == FileLoop(host, t, files, s)
  {
    log, failed := [], false;
    var j := 0;
    while j < |files| && !failed
      invariant 0 <= j <= |files|
      invariant Trace(log, failed) == Chain(Attempts(host, t, files, s)[..j])
    {
      var part, bad := HighlightFile(host, t, files[j], s);
      ChainStep(Attempts(host, t, files, s), j);
      log, failed := log + part, bad;
      j := j + 1;
    }
    if failed {
      ChainSticks(Attempts(host, t, files, s), j);
    } else {
      assert Attempts(host, t, files, s)[..j] == Attempts(host, t, files, s);
    }
  }

  /** The front end's `Main`. */
  method Run(args: seq<string>, host: Host) returns (log: seq<Action>, aborted: bool)
    ensures Trace(log, aborted) == Outcome(args, host)
  {
    var opts := Opts(args);
    var files := Files(args);
    log, aborted := [], false;
    if |files| == 0 && "liststyles" in opts {
      log := [ShowStyles(Join(host.styles, ", "))];
      return;
    }
    if |files| == 0 || ContainsAny(opts, HelpFlags) {
      log := [ShowUsage];
      return;
    }
    var writeToConsole := ContainsAny(opts, ConsoleFlags);
    var language := ValueOrDefault(opts, "language", None);
    var style := ValueOrDefault(opts, "style", Some("scite")).value;
    var outputs := Distinct(ValuesOrDefault(opts, "output", "html"));
    log, aborted := Dispatch(host, outputs, files, Settings(language, style, writeToConsole));
  }

  /** The `switch` on one output kind. */
  method RunCase(host: Host, o: string, files: seq<string>, s: Settings) returns (part: seq<Action>, stop: bool)
    ensures Trace(part, stop) == RunKind(host, o, files, s)
  {
    part, stop := [], false;
    match KindOf(o) {
      case HtmlKind =>
        var failed;
        part, failed := ProcessFiles(host, Html, files, s);
        if failed {
          part := part + [ReportFailure];
        }
      case RtfKind =>
        part, stop := ProcessFiles(host, Rtf, files, s);
      case TerminalKind =>
        part, stop := ProcessFiles(host, Ansi, files, s);
      case Reserved =>
      case Unrecognised =>
        part := [ReportUnknown(o)];
    }
  }

  /** The `foreach` over the outputs: an exception escaping the `switch` ends `Main`. */
  method Dispatch(host: Host, outputs: seq<string>, files: seq<string>, s: Settings) returns (log: seq<Action>, aborted: bool)
    ensures Trace(log, aborted) == RunOutputs(host, outputs, files, s)
  {
    log, aborted := [], false;
    var i := 0;
    while i < |outputs|
      invariant 0 <= i <= |outputs|
      invariant Trace(log, false) == Chain(Kinds(host, outputs, files, s)[..i])
    {
      var part, stop := RunCase(host, outputs[i], files, s);
      ChainStep(Kinds(host, outputs, files, s), i);
      log := log + part;
      if stop {
        ChainSticks(Kinds(host, outputs, files, s), i + 1);
        aborted := true;
        return;
      }
      i := i + 1;
    }
    assert Kinds(host, outputs, files, s)[..i] == Kinds(host, outputs, files, s);
  }
}
