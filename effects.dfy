/**
 * The observable effects of a run, in the order they happen: child processes,
 * interactive prompts, port probes, attempts to free a port and file copies.
 * Console output is not recorded.
 */
module Effects {

  /** A child process: program, argument vector, and whether binaries in `node_modules/.bin` are preferred. */
  datatype Invocation = Invocation(program: string, args: seq<string>, preferLocal: bool)

  datatype Effect =
    | Spawn(invocation: Invocation)
    | ConfirmInstall(manager: string)                   // "Would you like to run '<manager> install'?"
    | ConfirmCopy(example: string)                      // "Create .env from <example>?"
    | ChoosePortAction(port: nat, alternative: nat)     // use the alternative / kill / continue
    | ChooseScript(choices: seq<string>)                // "Multiple scripts found. Which one ...?"
    | ProbePort(port: nat)
    | FreePort(port: nat)
    | CopyFile(source: string, target: string)

  /** The answer to a yes/no prompt; `ConfirmFailed` is an error thrown by the prompt itself. */
  datatype Confirmation = Accepted | Declined | ConfirmFailed

  predicate IsPrompt(e: Effect) {
    e.ConfirmInstall? || e.ConfirmCopy? || e.ChoosePortAction? || e.ChooseScript?
  }

  function Prompts(trace: seq<Effect>): (n: nat)
    ensures n <= |trace|
    ensures n == 0 <==> forall k :: 0 <= k < |trace| ==> !IsPrompt(trace[k])
  {
    if |trace| == 0 then 0
    else (if IsPrompt(trace[0]) then 1 else 0) + Prompts(trace[1..])
  }

  function Spawns(trace: seq<Effect>): (n: nat)
    ensures n <= |trace|
    ensures n == 0 <==> forall k :: 0 <= k < |trace| ==> !trace[k].Spawn?
  {
    if |trace| == 0 then 0
    else (if trace[0].Spawn? then 1 else 0) + Spawns(trace[1..])
  }

  /** Counts over a concatenation add up. */
  lemma {:induction false} CountsAppend(a: seq<Effect>, b: seq<Effect>)
    ensures Prompts(a + b) == Prompts(a) + Prompts(b)
    ensures Spawns(a + b) == Spawns(a) + Spawns(b)
  {
    if |a| > 0 {
      assert (a + b)[1..] == a[1..] + b;
      CountsAppend(a[1..], b);
    } else {
      assert a + b == b;
    }
  }
}
