/**
 * What a run of the front end does, stated over `Pygmentize.Outcome` and its
 * parts: which mode a command line selects, which files each output kind
 * writes, and how far a failure reaches.
 */
module RunProperties {
  import opened Wrappers
  import opened Text
  import opened Extensions
  import opened Arguments
  import opened Pygmentize

  // ---- mode selection ----

  /** No file and a `liststyles` flag: only the style catalogue is printed. */
  lemma ListStylesMode(args: seq<string>, host: Host)
    requires forall i :: 0 <= i < |args| ==> IsFlag(args[i])
    requires exists i :: 0 <= i < |args| && Normalize(args[i]) == "liststyles"
    ensures Outcome(args, host) == Trace([ShowStyles(Join(host.styles, ", "))], false)
  {
    NoFilesIffAllFlags(args);
    OptsMembers(args);
  }

  /** Otherwise no file, or a help flag: only the usage line is printed. */
  lemma UsageMode(args: seq<string>, host: Host)
    requires
      (forall i :: 0 <= i < |args| ==> IsFlag(args[i]) && Normalize(args[i]) != "liststyles") ||
      ((exists i :: 0 <= i < |args| && !IsFlag(args[i])) &&
       (exists i :: 0 <= i < |args| && IsFlag(args[i]) && Normalize(args[i]) in HelpFlags))
    ensures Outcome(args, host) == Trace([ShowUsage], false)
  {
    NoFilesIffAllFlags(args);
    OptsMembers(args);
    if Files(args) != [] {
      var i :| 0 <= i < |args| && IsFlag(args[i]) && Normalize(args[i]) in HelpFlags;
      var k := Normalize(args[i]);
      assert k in Opts(args);
      var p :| 0 <= p < |Opts(args)| && Opts(args)[p] == k;
      var q :| 0 <= q < |HelpFlags| && HelpFlags[q] == k;
      assert ContainsAny(Opts(args), HelpFlags);
    }
  }

  /** With a file and no help flag, the outputs are dispatched. */
  lemma DispatchMode(args: seq<string>, host: Host)
    requires exists i :: 0 <= i < |args| && !IsFlag(args[i])
    requires forall i :: 0 <= i < |args| && IsFlag(args[i]) ==> Normalize(args[i]) !in HelpFlags
    ensures Outcome(args, host) == RunOutputs(host, Outputs(Opts(args)), Files(args), SettingsOf(Opts(args)))
  {
    NoFilesIffAllFlags(args);
    NoHelpInOpts(args);
  }

  /** Without a help flag on the command line, the option bag holds no help entry. */
  lemma {:induction false} NoHelpInOpts(args: seq<string>)
    requires forall i :: 0 <= i < |args| && IsFlag(args[i]) ==> Normalize(args[i]) !in HelpFlags
    ensures !ContainsAny(Opts(args), HelpFlags)
  {
    if args != [] {
      assert forall i :: 1 <= i < |args| ==> args[i] == args[1..][i - 1];
      NoHelpInOpts(args[1..]);
      var o := Opts(args);
      if IsFlag(args[0]) {
        assert o[0] == Normalize(args[0]) && o[1..] == Opts(args[1..]);
      } else {
        assert o == Opts(args[1..]);
      }
    }
  }

  // ---- the file loops ----

  /** A file loop runs until its first failing file, which is tried and ends it. */
  lemma FileLoopStopsAtFirstFailure(host: Host, t: Target, files: seq<string>, s: Settings, k: nat)
    requires k < |files|
    requires !FileLoop(host, t, files[..k], s).stopped
    requires Attempt(host, t, files[k], s).stopped
    ensures FileLoop(host, t, files, s) ==
      Trace(FileLoop(host, t, files[..k], s).log + Attempt(host, t, files[k], s).log, true)
  {
    var steps := Attempts(host, t, files, s);
    AttemptsTake(host, t, files, s, k);
    ChainStep(steps, k);
    ChainSticks(steps, k + 1);
  }

  /** An html failure is reported and ends only the html loop; an rtf or
      terminal failure escapes and so ends the run. */
  lemma FailureByKind(host: Host, o: string, files: seq<string>, s: Settings, k: nat)
    requires k < |files|
    requires KindOf(o) == HtmlKind || KindOf(o) == RtfKind || KindOf(o) == TerminalKind
    requires var t := LoopTarget(KindOf(o));
      !FileLoop(host, t, files[..k], s).stopped && Attempt(host, t, files[k], s).stopped
    ensures var t := LoopTarget(KindOf(o));
      RunKind(host, o, files, s) ==
        if KindOf(o) == HtmlKind
        then Trace(FileLoop(host, t, files[..k], s).log + Attempt(host, t, files[k], s).log + [ReportFailure], false)
        else Trace(FileLoop(host, t, files[..k], s).log + Attempt(host, t, files[k], s).log, true)
  {
    FileLoopStopsAtFirstFailure(host, LoopTarget(KindOf(o)), files, s, k);
  }

  /** The target whose file loop a kind runs. */
  function LoopTarget(k: Kind): Target {
    match k
    case HtmlKind => Html
    case RtfKind => Rtf
    case _ => Ansi
  }

  /** html runs its loop and reports a failure without stopping; rtf runs its
      loop; the six terminal aliases run one and the same loop; bbcode and
      latex do nothing; any other kind gets one diagnostic naming it. */
  lemma KindActions(host: Host, o: string, files: seq<string>, s: Settings)
    ensures o == "html" && !FileLoop(host, Html, files, s).stopped ==>
      RunKind(host, o, files, s) == FileLoop(host, Html, files, s)
    ensures o == "html" && FileLoop(host, Html, files, s).stopped ==>
      RunKind(host, o, files, s) == Trace(FileLoop(host, Html, files, s).log + [ReportFailure], false)
    ensures o == "rtf" ==> RunKind(host, o, files, s) == FileLoop(host, Rtf, files, s)
    ensures o in TerminalAliases ==> RunKind(host, o, files, s) == FileLoop(host, Ansi, files, s)
    ensures o == "bbcode" || o == "latex" ==> RunKind(host, o, files, s) == Trace([], false)
    ensures o !in ["html", "rtf", "bbcode", "latex"] + TerminalAliases ==>
      RunKind(host, o, files, s) == Trace([ReportUnknown(o)], false)
  {
    KindOfLabels(o);
  }

  /** The paths of the files a log writes, in order. */
  function Written(log: seq<Action>): seq<string> {
    if log == [] then []
    else
      var last := log[|log| - 1];
      Written(log[..|log| - 1]) + (if last.Write? then [last.path] else [])
  }

  lemma {:induction false} WrittenAppend(a: seq<Action>, b: seq<Action>)
    ensures Written(a + b) == Written(a) + Written(b)
  {
    if b == [] {
      assert a + b == a;
    } else {
      var init := b[..|b| - 1];
      var last := b[|b| - 1];
      var ab := a + b;
      assert ab[..|ab| - 1] == a + init && ab[|ab| - 1] == last;
      WrittenAppend(a, init);
      var tail := if last.Write? then [last.path] else [];
      calc {
        Written(ab);
        Written(a + init) + tail;
        (Written(a) + Written(init)) + tail;
        Written(a) + (Written(init) + tail);
      }
    }
  }

  /** The sibling of each file for a target: its whole name plus the suffix. */
  function Siblings(files: seq<string>, t: Target): seq<string> {
    if files == [] then [] else Siblings(files[..|files| - 1], t) + [files[|files| - 1] + Extension(t)]
  }

  lemma AttemptWrites(host: Host, t: Target, f: string, s: Settings)
    requires !(t == Ansi && s.toConsole)
    requires !Attempt(host, t, f, s).stopped
    ensures Written(Attempt(host, t, f, s).log) == [f + Extension(t)]
  {
    var path := f + Extension(t);
    var l := Attempt(host, t, f, s).log;
    assert l == [Announce(f, path), Write(path, Render(host, t, f, s).value)];
    assert l[..1] == [Announce(f, path)] && l[..1][..0] == [];
    assert Written(l[..1]) == Written([]) + [];
    assert Written(l) == Written(l[..1]) + [path];
  }

  /** A file loop that does not fail writes each file's sibling, in file order. */
  lemma {:induction false} SiblingWrites(host: Host, t: Target, files: seq<string>, s: Settings)
    requires !(t == Ansi && s.toConsole)
    requires !FileLoop(host, t, files, s).stopped
    ensures Written(FileLoop(host, t, files, s).log) == Siblings(files, t)
  {
    if files != [] {
      var init := files[..|files| - 1];
      var f := files[|files| - 1];
      var prev := FileLoop(host, t, init, s);
      var a := Attempt(host, t, f, s);
      FileLoopSnoc(host, t, files, s);
      assert !prev.stopped;
      SiblingWrites(host, t, init, s);
      AttemptWrites(host, t, f, s);
      WrittenAppend(prev.log, a.log);
    }
  }

  /** The file writes and console echoes of a log, in order. */
  function Delivered(log: seq<Action>): seq<Action> {
    if log == [] then []
    else
      var last := log[|log| - 1];
      Delivered(log[..|log| - 1]) + (if last.Write? || last.Echo? then [last] else [])
  }

  lemma {:induction false} DeliveredAppend(a: seq<Action>, b: seq<Action>)
    ensures Delivered(a + b) == Delivered(a) + Delivered(b)
  {
    if b == [] {
      assert a + b == a;
    } else {
      var init := b[..|b| - 1];
      var last := b[|b| - 1];
      var ab := a + b;
      assert ab[..|ab| - 1] == a + init && ab[|ab| - 1] == last;
      DeliveredAppend(a, init);
      var tail := if last.Write? || last.Echo? then [last] else [];
      calc {
        Delivered(ab);
        Delivered(a + init) + tail;
        (Delivered(a) + Delivered(init)) + tail;
        Delivered(a) + (Delivered(init) + tail);
      }
    }
  }

  /** What a file that was processed without failure delivers: its rendering
      written to its sibling, or, on the console, echoed with CR LF line ends. */
  function Delivery(host: Host, t: Target, f: string, s: Settings): Action
    requires Render(host, t, f, s).Some?
  {
    var out := Render(host, t, f, s).value;
    if t == Ansi && s.toConsole then Echo(CrLf(out)) else Write(f + Extension(t), out)
  }

  lemma AttemptDelivers(host: Host, t: Target, f: string, s: Settings)
    requires !Attempt(host, t, f, s).stopped
    ensures Render(host, t, f, s).Some?
    ensures Delivered(Attempt(host, t, f, s).log) == [Delivery(host, t, f, s)]
  {
    var l := Attempt(host, t, f, s).log;
    assert |l| == 2 && !l[0].Write? && !l[0].Echo?;
    assert l[..1][..0] == [] && l[..1][0] == l[0];
    assert Delivered(l[..1]) == [];
    assert l[..|l| - 1] == l[..1];
  }

  /** A file loop that does not fail delivers each file's rendering, once and
      in file order: to the sibling `f + suffix`, or to the console as `CrLf`. */
  lemma {:induction false} LoopDeliveries(host: Host, t: Target, files: seq<string>, s: Settings)
    requires !FileLoop(host, t, files, s).stopped
    ensures |Delivered(FileLoop(host, t, files, s).log)| == |files|
    ensures forall i :: 0 <= i < |files| ==>
      Render(host, t, files[i], s).Some? &&
      Delivered(FileLoop(host, t, files, s).log)[i] == Delivery(host, t, files[i], s)
  {
    if files != [] {
      var init := files[..|files| - 1];
      var f := files[|files| - 1];
      var prev := FileLoop(host, t, init, s);
      var a := Attempt(host, t, f, s);
      FileLoopSnoc(host, t, files, s);
      assert !prev.stopped && !a.stopped;
      LoopDeliveries(host, t, init, s);
      AttemptDelivers(host, t, f, s);
      DeliveredAppend(prev.log, a.log);
      DeliveriesSnoc(host, t, files, s, Delivered(prev.log));
    }
  }

  /** The index step of `LoopDeliveries`: one more file, one more delivery. */
  lemma DeliveriesSnoc(host: Host, t: Target, files: seq<string>, s: Settings, before: seq<Action>)
    requires files != [] && Render(host, t, files[|files| - 1], s).Some?
    requires var init := files[..|files| - 1];
             |before| == |init| &&
             forall i :: 0 <= i < |init| ==>
               Render(host, t, init[i], s).Some? && before[i] == Delivery(host, t, init[i], s)
    ensures var d := before + [Delivery(host, t, files[|files| - 1], s)];
            forall i :: 0 <= i < |files| ==>
              Render(host, t, files[i], s).Some? && d[i] == Delivery(host, t, files[i], s)
  {
    var init := files[..|files| - 1];
    assert forall i :: 0 <= i < |init| ==> files[i] == init[i];
  }

  /** On the console, the terminal mode is requested once per file, not once per run. */
  lemma {:induction false} ConsoleModePerFile(host: Host, files: seq<string>, s: Settings)
    requires s.toConsole
    requires !FileLoop(host, Ansi, files, s).stopped
    ensures Count(FileLoop(host, Ansi, files, s).log, EnableAnsi) == |files|
  {
    if files != [] {
      var init := files[..|files| - 1];
      FileLoopSnoc(host, Ansi, files, s);
      ConsoleModePerFile(host, init, s);
      CountAppend(FileLoop(host, Ansi, init, s).log, Attempt(host, Ansi, files[|files| - 1], s).log, EnableAnsi);
    }
  }

  // ---- the outputs loop ----

  /** The outputs loop read from the front: the first kind, then the rest unless it ended the run. */
  lemma OutputsCons(host: Host, o: string, rest: seq<string>, files: seq<string>, s: Settings)
    ensures RunOutputs(host, [o] + rest, files, s) ==
      var k := RunKind(host, o, files, s);
      if k.stopped then k else Trace(k.log + RunOutputs(host, rest, files, s).log, RunOutputs(host, rest, files, s).stopped)
  {
    assert Kinds(host, [o] + rest, files, s) == [RunKind(host, o, files, s)] + Kinds(host, rest, files, s);
    ChainCons(RunKind(host, o, files, s), Kinds(host, rest, files, s));
  }

  /** A chain read from the front: the first step, then the rest unless the first stopped. */
  lemma {:induction false} ChainCons(first: Trace, rest: seq<Trace>)
    ensures Chain([first] + rest) ==
      if first.stopped then first else Trace(first.log + Chain(rest).log, Chain(rest).stopped)
  {
    var all := [first] + rest;
    if rest == [] {
      assert all[..0] == [] && all[0] == first;
      assert [] + first.log == first.log && first.log + [] == first.log;
    } else {
      var init := rest[..|rest| - 1];
      var x := rest[|rest| - 1];
      assert all[..|all| - 1] == [first] + init && all[|all| - 1] == x;
      ChainCons(first, init);
      var r := Chain(init);
      if !first.stopped && !r.stopped {
        assert (first.log + r.log) + x.log == first.log + (r.log + x.log);
      }
    }
  }

  /** Whatever fails in them, html, bbcode, latex and unknown kinds never keep later kinds from running. */
  lemma ContainedKindsContinue(host: Host, o: string, rest: seq<string>, files: seq<string>, s: Settings)
    requires KindOf(o) != RtfKind && KindOf(o) != TerminalKind
    ensures RunOutputs(host, [o] + rest, files, s) ==
      Trace(RunKind(host, o, files, s).log + RunOutputs(host, rest, files, s).log, RunOutputs(host, rest, files, s).stopped)
  {
    OutputsCons(host, o, rest, files, s);
  }

  /** A kind whose failure escapes ends the run: no later kind is dispatched. */
  lemma StoppingOutputEndsRun(host: Host, outputs: seq<string>, files: seq<string>, s: Settings, k: nat)
    requires k < |outputs|
    requires !RunOutputs(host, outputs[..k], files, s).stopped
    requires RunKind(host, outputs[k], files, s).stopped
    ensures RunOutputs(host, outputs, files, s) ==
      Trace(RunOutputs(host, outputs[..k], files, s).log + RunKind(host, outputs[k], files, s).log, true)
  {
    var steps := Kinds(host, outputs, files, s);
    KindsTake(host, outputs, files, s, k);
    ChainStep(steps, k);
    ChainSticks(steps, k + 1);
  }

  lemma KindReports(host: Host, o: string, files: seq<string>, s: Settings, x: string)
    requires KindOf(x) == Unrecognised
    ensures Count(RunKind(host, o, files, s).log, ReportUnknown(x)) == if o == x then 1 else 0
  {
    var l := FileLoop(host, Html, files, s);
    if KindOf(o) == HtmlKind && l.stopped {
      CountAppend(l.log, [ReportFailure], ReportUnknown(x));
    }
  }

  /** A completed run completed every kind before the last. */
  lemma RunOutputsCompleted(host: Host, outputs: seq<string>, files: seq<string>, s: Settings)
    requires outputs != []
    requires !RunOutputs(host, outputs, files, s).stopped
    ensures !RunOutputs(host, outputs[..|outputs| - 1], files, s).stopped
    ensures RunOutputs(host, outputs, files, s).log ==
      RunOutputs(host, outputs[..|outputs| - 1], files, s).log + RunKind(host, outputs[|outputs| - 1], files, s).log
  {
    RunOutputsSnoc(host, outputs, files, s);
  }

  /** Each unknown kind is reported once per time it is dispatched. */
  lemma {:induction false} UnknownReports(host: Host, outputs: seq<string>, files: seq<string>, s: Settings, x: string)
    requires KindOf(x) == Unrecognised
    requires !RunOutputs(host, outputs, files, s).stopped
    ensures Count(RunOutputs(host, outputs, files, s).log, ReportUnknown(x)) == Count(outputs, x)
  {
    if outputs != [] {
      var init := outputs[..|outputs| - 1];
      var o := outputs[|outputs| - 1];
      RunOutputsCompleted(host, outputs, files, s);
      var prev, k := RunOutputs(host, init, files, s).log, RunKind(host, o, files, s).log;
      UnknownReports(host, init, files, s, x);
      KindReports(host, o, files, s, x);
      ReportsStep(prev, k, init, o, x);
      assert outputs == init + [o];
    }
  }

  /** Reports and requests stay in step when one more kind is dispatched. */
  lemma ReportsStep(prev: seq<Action>, k: seq<Action>, init: seq<string>, o: string, x: string)
    requires Count(prev, ReportUnknown(x)) == Count(init, x)
    requires Count(k, ReportUnknown(x)) == if o == x then 1 else 0
    ensures Count(prev + k, ReportUnknown(x)) == Count(init + [o], x)
  {
    CountAppend(prev, k, ReportUnknown(x));
    var one := [o];
    assert one[1..] == [];
    CountAppend(init, one, x);
  }

  /** A requested unknown kind, however often requested, gets one diagnostic in a run that completes. */
  lemma UnknownOutputReportedOnce(args: seq<string>, host: Host, x: string)
    requires Files(args) != [] && !ContainsAny(Opts(args), HelpFlags)
    requires x in Values(Opts(args), "output") && KindOf(x) == Unrecognised
    requires !Outcome(args, host).stopped
    ensures Count(Outcome(args, host).log, ReportUnknown(x)) == 1
  {
    var opts := Opts(args);
    var outs := Outputs(opts);
    assert ValuesOrDefault(opts, "output", "html") == Values(opts, "output");
    CountNoDuplicates(outs, x);
    UnknownReports(host, outs, Files(args), SettingsOf(opts), x);
  }

  /** Repeated outputs are dispatched once, in the order first requested. */
  lemma OutputsExample()
    ensures Outputs(["output=html", "output=rtf", "output=html"]) == ["html", "rtf"]
  {
    ValuesExample();
    DistinctExample();
  }

  lemma ValuesExample()
    ensures Values(["output=html", "output=rtf", "output=html"], "output") == ["html", "rtf", "html"]
  {
    var h, r := "output=html", "output=rtf";
    assert Matches(h, "output") && ValueOf(h, "output") == "html" by {
      assert "output" + "=" == h[..7];
    }
    assert Matches(r, "output") && ValueOf(r, "output") == "rtf" by {
      assert "output" + "=" == r[..7];
    }
    var opts := [h, r, h];
    var last: seq<string> := [h];
    assert Values(last, "output") == ["html"] by {
      assert last[1..] == [];
    }
    assert Values([r, h], "output") == ["rtf", "html"] by {
      assert [r, h][1..] == [h];
    }
    assert opts[1..] == [r, h];
  }

  lemma DistinctExample()
    ensures Distinct(["html", "rtf", "html"]) == ["html", "rtf"]
  {
    var h, r := "html", "rtf";
    assert h[0] != r[0];
    DistinctRepeat(h, r);
  }

  /** A repeat of an earlier element is dropped. */
  lemma DistinctRepeat(a: string, b: string)
    requires a != b
    ensures Distinct([a, b, a]) == [a, b]
  {
    var none: seq<string> := [];
    DistinctSnoc(none, a);
    assert none + [a] == [a];
    DistinctSnoc([a], b);
    assert [a] + [b] == [a, b];
    DistinctSnoc([a, b], a);
    assert [a, b] + [a] == [a, b, a];
  }
}
