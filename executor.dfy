/**
 * Command execution (src/core/executor.ts): the argument vector of the child
 * and what a failing child does to the launcher.
 */
module Executor {
  import opened Text
  import opened Effects

  /**
   * The child `execute(manager, command, isScript)` spawns. A script runs as
   * `<manager> run <command>`; a literal command is split on single spaces
   * into program and arguments and may resolve to a local binary.
   */
  function Command(manager: string, command: string, isScript: bool): (inv: Invocation)
    ensures isScript ==> inv.program == manager && inv.args == ["run", command] && !inv.preferLocal
    ensures !isScript ==> inv.preferLocal && Join([inv.program] + inv.args, ' ') == command
    ensures !isScript ==> ' ' !in inv.program && forall k :: 0 <= k < |inv.args| ==> ' ' !in inv.args[k]
  {
    if isScript then Invocation(manager, ["run", command], false)
    else
      var parts := Split(command, ' ');
      JoinSplit(command, ' ');
      assert parts == [parts[0]] + parts[1..];
      Invocation(parts[0], parts[1..], true)
  }

  /**
   * A literal command has exactly one decomposition into space-free pieces
   * that joins back to it, and that is the one executed.
   */
  lemma LiteralIsTheOnlyDecomposition(manager: string, command: string, program: string, args: seq<string>)
    requires ' ' !in program && forall k :: 0 <= k < |args| ==> ' ' !in args[k]
    ensures Join([program] + args, ' ') == command <==> Command(manager, command, false) == Invocation(program, args, true)
  {
    var parts := [program] + args;
    if Join(parts, ' ') == command {
      SplitJoin(parts, ' ');
      assert parts[1..] == args;
    }
  }

  /** Splitting is on one space, not on runs of whitespace: two spaces give an empty argument. */
  lemma ConsecutiveSpacesGiveEmptyArgument()
    ensures Command("npm", "next  dev", false) == Invocation("next", ["", "dev"], true)
  {
    assert "next  dev" == "next" + ([' '] + " dev");
    SplitPrefix("next", " dev", ' ');
    assert " dev" == "" + ([' '] + "dev");
    SplitPrefix("", "dev", ' ');
    SplitPiece("dev", ' ');
    assert Split("next  dev", ' ') == ["next", "", "dev"];
  }

  /** How `execute` ends: it returns, or the launcher exits with the given status. */
  datatype Outcome = Returned | Exited(status: nat)

  datatype Execution = Execution(invocation: Invocation, outcome: Outcome)

  /** `execute` with the child's success as an input: a failure of any kind ends the launcher with status 1. */
  function Execute(manager: string, command: string, isScript: bool, childSucceeded: bool): (e: Execution)
    ensures e.invocation == Command(manager, command, isScript)
    ensures e.outcome == Returned <==> childSucceeded
    ensures e.outcome != Returned ==> e.outcome == Exited(1)
  {
    Execution(Command(manager, command, isScript), if childSucceeded then Returned else Exited(1))
  }
}
