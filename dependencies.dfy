/**
 * The dependency check (src/checkers/dependencies.ts): whether to offer
 * `<manager> install`, and what a failed install does. The existence check
 * and the listing of `node_modules`, the confirmation and the outcome of the
 * install are inputs.
 */
module Dependencies {
  import opened Effects

  /**
   * What the existence check and the listing of `node_modules` found;
   * `Unlistable` is a `readdirSync` that throws (for instance when
   * `node_modules` is a regular file).
   */
  datatype NodeModules = Missing | Present(entries: nat) | Unlistable

  /** The effects of one call, and whether it ended by throwing. */
  datatype Step = Step(trace: seq<Effect>, threw: bool)

  /** A missing and an empty `node_modules` both call for an install. */
  predicate NeedsInstall(modules: NodeModules) {
    modules.Missing? || (modules.Present? && modules.entries == 0)
  }

  /** The child an accepted install spawns. */
  function InstallInvocation(manager: string): (inv: Invocation)
    ensures inv.program == manager && inv.args == ["install"] && !inv.preferLocal
  {
    Invocation(manager, ["install"], false)
  }

  /**
   * `ensureDependencies(manager)`. Both the missing and the empty case ask
   * once, run the install on a yes and rethrow its failure; they differ only
   * in the warning they log. An error of the listing or of the prompt
   * propagates.
   */
  function EnsureDependencies(manager: string, modules: NodeModules, confirm: Confirmation, installSucceeds: bool): (s: Step)
    ensures modules.Present? && modules.entries > 0 ==> s == Step([], false)
    ensures modules.Unlistable? ==> s == Step([], true)
    ensures s.threw <==> modules.Unlistable?
                         || (NeedsInstall(modules) && (confirm.ConfirmFailed? || (confirm.Accepted? && !installSucceeds)))
    ensures Prompts(s.trace) == (if NeedsInstall(modules) then 1 else 0)
    ensures Spawns(s.trace) == (if NeedsInstall(modules) && confirm.Accepted? then 1 else 0)
    ensures |s.trace| > 0 ==> s.trace[0] == ConfirmInstall(manager)
    ensures forall k :: 0 <= k < |s.trace| ==> s.trace[k] == ConfirmInstall(manager) || s.trace[k] == Spawn(InstallInvocation(manager))
  {
    match modules
    case Missing => Offer(manager, confirm, installSucceeds)
    case Present(entries) =>
      if entries == 0 then Offer(manager, confirm, installSucceeds) else Step([], false)
    case Unlistable => Step([], true)
  }

  /** The prompt and, on a yes, the install; a failed install is rethrown. */
  function Offer(manager: string, confirm: Confirmation, installSucceeds: bool): (s: Step)
    ensures s.trace == [ConfirmInstall(manager)] + (if confirm.Accepted? then [Spawn(InstallInvocation(manager))] else [])
    ensures s.threw <==> confirm.ConfirmFailed? || (confirm.Accepted? && !installSucceeds)
  {
    match confirm
    case Accepted => Step([ConfirmInstall(manager), Spawn(InstallInvocation(manager))], !installSucceeds)
    case Declined => Step([ConfirmInstall(manager)], false)
    case ConfirmFailed => Step([ConfirmInstall(manager)], true)
  }

  /** A declined install never throws and spawns nothing, whatever the state of a listable `node_modules`. */
  lemma DecliningNeverThrows(manager: string, modules: NodeModules, installSucceeds: bool)
    requires !modules.Unlistable?
    ensures !EnsureDependencies(manager, modules, Declined, installSucceeds).threw
    ensures Spawns(EnsureDependencies(manager, modules, Declined, installSucceeds).trace) == 0
  {
  }

  /** A missing and an empty `node_modules` are handled alike. */
  lemma MissingIsLikeEmpty(manager: string, confirm: Confirmation, installSucceeds: bool)
    ensures EnsureDependencies(manager, Missing, confirm, installSucceeds)
         == EnsureDependencies(manager, Present(0), confirm, installSucceeds)
  {
  }
}
