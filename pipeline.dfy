/**
 * The pre-flight pipeline (src/pipeline/index.ts): the dependency, env and
 * port checks in that order, an exception from any of them ending the run
 * with `shouldContinue = false`, and the port to use instead of the one the
 * script names. The port check catches every error itself, so only the
 * dependency and env steps can end the run.
 */
module Pipeline {
  import opened Wrappers
  import opened Effects
  import opened Dependencies
  import opened Env
  import opened Port
  import Text

  /** `PipelineContext`; `hasManifest` says whether `pkg` was given. */
  datatype Context = Context(manager: string, script: Option<string>, hasManifest: bool)

  /** `PipelineResult`. */
  datatype PipelineResult = PipelineResult(shouldContinue: bool, modifiedPort: Option<nat>)

  /** Everything the checks learn from outside: file system, answers, probes and child outcomes. */
  datatype World = World(
    modules: NodeModules, confirmInstall: Confirmation, installSucceeds: bool,
    files: set<string>, confirmCopy: Confirmation, copySucceeds: bool,
    firstProbe: Probe, choice: Choice, recheck: Probe)

  /** Step 1, run only when a manifest was given. */
  function DependencyStep(ctx: Context, w: World): (s: Step)
    ensures !ctx.hasManifest ==> s == Step([], false)
    ensures s.threw <==> ctx.hasManifest
                         && (w.modules.Unlistable?
                             || (NeedsInstall(w.modules)
                                 && (w.confirmInstall.ConfirmFailed? || (w.confirmInstall.Accepted? && !w.installSucceeds))))
  {
    if ctx.hasManifest then EnsureDependencies(ctx.manager, w.modules, w.confirmInstall, w.installSucceeds)
    else Step([], false)
  }

  /** Step 2: it throws only when its prompt does. */
  function EnvCheck(w: World): (s: EnvStep)
    ensures s.threw ==> w.confirmCopy.ConfirmFailed?
  {
    EnsureEnvFile(w.files, w.confirmCopy, w.copySucceeds)
  }

  /** The port step 3 checks: a truthy script naming a truthy (non-zero) port. */
  function DetectedPort(script: Option<string>): (p: Option<nat>)
    ensures p.Some? ==> p.value != 0 && script.Some? && ExtractPortFromScript(script.value) == p
    ensures p.None? <==> script.None? || script.value == "" || ExtractPortFromScript(script.value) in {None, Some(0)}
  {
    if script.None? || script.value == "" then None
    else
      match ExtractPortFromScript(script.value)
      case None => None
      case Some(port) => if port == 0 then None else Some(port)
  }

  /** Step 3: the availability check of the detected port, when there is one. */
  function PortStep(ctx: Context, w: World): Option<PortCheck> {
    match DetectedPort(ctx.script)
    case None => None
    case Some(port) => Some(CheckPortAvailability(port, w.firstProbe, w.choice, w.recheck))
  }

  function PortTrace(ctx: Context, w: World): seq<Effect> {
    match PortStep(ctx, w)
    case None => []
    case Some(check) => check.trace
  }

  /**
   * `runPipeline(context)`. A step that throws ends the run: no later step
   * runs and no port is reported.
   */
  method RunPipeline(ctx: Context, w: World) returns (r: PipelineResult, trace: seq<Effect>)
    ensures r.shouldContinue <==> !DependencyStep(ctx, w).threw && !EnvCheck(w).threw
    ensures DependencyStep(ctx, w).threw ==> trace == DependencyStep(ctx, w).trace
    ensures !DependencyStep(ctx, w).threw && EnvCheck(w).threw ==> trace == DependencyStep(ctx, w).trace + EnvCheck(w).trace
    ensures r.shouldContinue ==> trace == DependencyStep(ctx, w).trace + EnvCheck(w).trace + PortTrace(ctx, w)
    ensures !r.shouldContinue ==> r.modifiedPort.None?
    ensures r.modifiedPort.Some? <==>
              r.shouldContinue && PortStep(ctx, w).Some? && PortStep(ctx, w).value.port != DetectedPort(ctx.script).value
    ensures r.modifiedPort.Some? ==>
              r.modifiedPort.value != DetectedPort(ctx.script).value
              && w.firstProbe.Detected? && r.modifiedPort.value == w.firstProbe.port
  {
    var deps := DependencyStep(ctx, w);
    trace := deps.trace;
    if deps.threw {
      return PipelineResult(false, None), trace;
    }
    var env := EnvCheck(w);
    trace := trace + env.trace;
    if env.threw {
      return PipelineResult(false, None), trace;
    }
    var modifiedPort: Option<nat> := None;
    if ctx.script.Some? && ctx.script.value != "" {
      var detected := ExtractPortFromScript(ctx.script.value);
      if detected.Some? && detected.value != 0 {
        var available := CheckPortAvailability(detected.value, w.firstProbe, w.choice, w.recheck);
        assert PortStep(ctx, w) == Some(available);
        trace := trace + available.trace;
        if available.port != detected.value {
          modifiedPort := Some(available.port);
        }
      } else {
        assert PortStep(ctx, w).None?;
      }
    } else {
      assert PortStep(ctx, w).None?;
    }
    r := PipelineResult(true, modifiedPort);
  }

  /** `runMinimalPipeline(context)`: the dependency and env steps only; the script is never looked at. */
  method RunMinimalPipeline(ctx: Context, w: World) returns (r: PipelineResult, trace: seq<Effect>)
    ensures r.modifiedPort.None?
    ensures r.shouldContinue <==> !DependencyStep(ctx, w).threw && !EnvCheck(w).threw
    ensures trace == DependencyStep(ctx, w).trace + (if DependencyStep(ctx, w).threw then [] else EnvCheck(w).trace)
    ensures forall k :: 0 <= k < |trace| ==> !trace[k].ProbePort? && !trace[k].ChoosePortAction? && !trace[k].FreePort?
  {
    var deps := DependencyStep(ctx, w);
    trace := deps.trace;
    if deps.threw {
      return PipelineResult(false, None), trace;
    }
    var env := EnvCheck(w);
    trace := trace + env.trace;
    r := PipelineResult(!env.threw, None);
  }

  /** A script that names port 0 skips the availability check: 0 is falsy. */
  lemma ZeroPortIsNotChecked(manager: string, hasManifest: bool, w: World)
    ensures PortStep(Context(manager, Some("--port 0"), hasManifest), w).None?
  {
    RenderedPortIsExtracted(0);
    assert "--port " + Text.NatToString(0) == "--port 0";
  }
}
