/**
 * The command-line action (src/index.ts): the optional build, the choice of
 * the target to launch and the exit status of the launcher.
 *
 * `detectMatchingScripts` and `detectFrameworkCommand` are not part of this
 * model; they are the inputs `matching` and `framework`, functions of the run
 * mode for the manifest at hand. The build target is an input too.
 */
module Cli {
  import opened Wrappers
  import opened Effects
  import opened Detector
  import opened Manager
  import opened Executor

  /** `DetectedCommand`: a manifest script, or a literal command line. */
  datatype Target = Target(isScript: bool, value: string)

  /** The command-line flags. */
  datatype Options = Options(build: bool, prod: bool)

  /** The selection prompt's answer: the index of the chosen entry, a dismissed prompt, or a thrown error. */
  datatype Answer = Picked(index: nat) | Dismissed | Failed

  /** The outcome of target selection. */
  datatype Selection = Selected(target: Target) | Cancelled | NotFound | SelectFailed

  /** The script argument is truthy. */
  predicate Given(scriptArg: Option<string>) {
    scriptArg.Some? && scriptArg.value != ""
  }

  function Mode(prod: bool): (m: RunMode)
    ensures m == Prod <==> prod
    ensures m != Build
  {
    if prod then Prod else Dev
  }

  /**
   * The target chosen by lines 31-61: the argument, else the only match, else
   * the prompt's pick among several matches, else the framework command.
   */
  function SelectTarget(scriptArg: Option<string>, prod: bool, matching: RunMode -> seq<string>,
                        framework: RunMode -> Option<Target>, answer: Answer): (s: Selection)
    requires answer.Picked? ==> answer.index < |matching(Mode(prod))|
    ensures Given(scriptArg) ==> s == Selected(Target(true, scriptArg.value))
    ensures !Given(scriptArg) && |matching(Mode(prod))| == 1 ==> s == Selected(Target(true, matching(Mode(prod))[0]))
    ensures s.Selected? ==>
              (Given(scriptArg) && s.target == Target(true, scriptArg.value))
              || (s.target.isScript && s.target.value in matching(Mode(prod)))
              || (!Given(scriptArg) && matching(Mode(prod)) == [] && framework(Mode(prod)) == Some(s.target))
    ensures s.Cancelled? || s.SelectFailed? ==> !Given(scriptArg) && |matching(Mode(prod))| > 1
    ensures s.SelectFailed? <==> !Given(scriptArg) && |matching(Mode(prod))| > 1 && answer.Failed?
    ensures s.NotFound? <==> !Given(scriptArg) && matching(Mode(prod)) == [] && framework(Mode(prod)).None?
    ensures !Given(scriptArg) && |matching(Mode(prod))| > 1 ==>
              s == match answer
                   case Failed => SelectFailed
                   case Dismissed => Cancelled
                   case Picked(i) =>
                     if matching(Mode(prod))[i] == "" then Cancelled else Selected(Target(true, matching(Mode(prod))[i]))
    ensures !Given(scriptArg) && matching(Mode(prod)) == [] && framework(Mode(prod)).Some? ==>
              s == Selected(framework(Mode(prod)).value)
  {
    if Given(scriptArg) then Selected(Target(true, scriptArg.value))
    else
      var matches := matching(Mode(prod));
      if |matches| == 1 then Selected(Target(true, matches[0]))
      else if |matches| > 1 then
        match answer
        case Failed => SelectFailed
        case Dismissed => Cancelled
        case Picked(i) => if matches[i] == "" then Cancelled else Selected(Target(true, matches[i]))
      else
        match framework(Mode(prod))
        case None => NotFound
        case Some(t) => Selected(t)
  }

  /** The selection prompt, shown only without an argument and with several matches, offering exactly those. */
  function SelectionPrompt(scriptArg: Option<string>, prod: bool, matching: RunMode -> seq<string>): (p: seq<Effect>)
    ensures |p| <= 1 && Spawns(p) == 0
    ensures p != [] <==> !Given(scriptArg) && |matching(Mode(prod))| > 1
    ensures p != [] ==> p[0] == ChooseScript(matching(Mode(prod)))
  {
    if !Given(scriptArg) && |matching(Mode(prod))| > 1 then [ChooseScript(matching(Mode(prod)))] else []
  }

  /** The build child, run only with `--build` and a build target. */
  function BuildInvocation(manager: string, build: bool, buildTarget: Option<Target>): (b: Option<Invocation>)
    ensures b.Some? <==> build && buildTarget.Some?
    ensures b.Some? ==> b.value == Command(manager, buildTarget.value.value, buildTarget.value.isScript)
  {
    if build && buildTarget.Some? then Some(Command(manager, buildTarget.value.value, buildTarget.value.isScript)) else None
  }

  /** How the launcher ends once a selection is made (the build, if any, having succeeded). */
  function SelectionOutcome(s: Selection, mainSucceeds: bool): (o: Outcome)
    ensures o == Returned <==> s.Selected? && mainSucceeds
    ensures o == Exited(0) <==> s.Cancelled?
    ensures o != Returned && o != Exited(0) ==> o == Exited(1)
  {
    match s
    case Selected(_) => if mainSucceeds then Returned else Exited(1)
    case Cancelled => Exited(0)
    case NotFound => Exited(1)
    case SelectFailed => Exited(1)
  }

  /**
   * The `.action` callback. The manager comes from the lockfiles; the build
   * target, the two detector functions, the prompt's answer and the success
   * of each child are inputs. A failing child makes `execute` exit with
   * status 1, a thrown error is caught and exits with status 1.
   */
  method Action(scriptArg: Option<string>, options: Options, files: set<string>, buildTarget: Option<Target>,
                matching: RunMode -> seq<string>, framework: RunMode -> Option<Target>, answer: Answer,
                buildSucceeds: bool, mainSucceeds: bool)
    returns (outcome: Outcome, trace: seq<Effect>)
    requires answer.Picked? ==> answer.index < |matching(Mode(options.prod))|
    ensures var build := BuildInvocation(DetectManager(files).Name(), options.build, buildTarget);
            build.Some? && !buildSucceeds ==> outcome == Exited(1) && trace == [Spawn(build.value)]
    ensures var manager := DetectManager(files).Name();
            var build := BuildInvocation(manager, options.build, buildTarget);
            var s := SelectTarget(scriptArg, options.prod, matching, framework, answer);
            build.None? || buildSucceeds ==>
              outcome == SelectionOutcome(s, mainSucceeds)
              && trace == (if build.Some? then [Spawn(build.value)] else [])
                          + (SelectionPrompt(scriptArg, options.prod, matching)
                             + (if s.Selected? then [Spawn(Command(manager, s.target.value, s.target.isScript))] else []))
    ensures Prompts(trace) <= 1 && Spawns(trace) <= 2
  {
    var manager := DetectManager(files).Name();
    var built: seq<Effect> := [];
    if options.build && buildTarget.Some? {
      var build := Execute(manager, buildTarget.value.value, buildTarget.value.isScript, buildSucceeds);
      built := [Spawn(build.invocation)];
      assert BuildInvocation(manager, options.build, buildTarget) == Some(build.invocation);
      if build.outcome != Returned {
        return build.outcome, built;
      }
    } else {
      assert BuildInvocation(manager, options.build, buildTarget).None?;
    }
    var launched;
    outcome, launched := Launch(manager, scriptArg, options.prod, matching, framework, answer, mainSucceeds);
    trace := built + launched;
    CountsAppend(built, launched);
  }

  /**
   * Lines 30-70: choose the target, then run it. Each early `process.exit`
   * ends the launcher with the status given.
   */
  method Launch(manager: string, scriptArg: Option<string>, prod: bool, matching: RunMode -> seq<string>,
                framework: RunMode -> Option<Target>, answer: Answer, mainSucceeds: bool)
    returns (outcome: Outcome, trace: seq<Effect>)
    requires answer.Picked? ==> answer.index < |matching(Mode(prod))|
    ensures var s := SelectTarget(scriptArg, prod, matching, framework, answer);
            outcome == SelectionOutcome(s, mainSucceeds)
            && trace == SelectionPrompt(scriptArg, prod, matching)
                        + (if s.Selected? then [Spawn(Command(manager, s.target.value, s.target.isScript))] else [])
    ensures Prompts(trace) <= 1 && Spawns(trace) <= 1
  {
    ghost var s := SelectTarget(scriptArg, prod, matching, framework, answer);
    ghost var prompt := SelectionPrompt(scriptArg, prod, matching);
    trace := [];
    var target: Option<Target> := None;
    if Given(scriptArg) {
      target := Some(Target(true, scriptArg.value));
      assert s == Selected(target.value) && prompt == [];
    } else {
      var mode := if prod then Prod else Dev;
      assert mode == Mode(prod);
      var matches := matching(mode);
      if |matches| == 1 {
        target := Some(Target(true, matches[0]));
        assert s == Selected(target.value) && prompt == [];
      } else if |matches| > 1 {
        trace := [ChooseScript(matches)];
        assert prompt == trace;
        match answer
        case Failed =>
          assert s == SelectFailed;
          return Exited(1), trace;
        case Dismissed =>
          assert s == Cancelled;
          return Exited(0), trace;
        case Picked(i) =>
          if matches[i] == "" {
            assert s == Cancelled;
            return Exited(0), trace;
          }
          target := Some(Target(true, matches[i]));
          assert s == Selected(target.value);
      } else {
        target := framework(mode);
        assert prompt == [];
        assert target.None? ==> s == NotFound;
        assert target.Some? ==> s == Selected(target.value);
      }
    }
    if target.None? {
      return Exited(1), trace;
    }
    var main := Execute(manager, target.value.value, target.value.isScript, mainSucceeds);
    CountsAppend(trace, [Spawn(main.invocation)]);
    trace := trace + [Spawn(main.invocation)];
    outcome := main.outcome;
  }
}
