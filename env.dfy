/**
 * The environment file check (src/checkers/env.ts): when `.env` is missing,
 * offer to copy it from the first example file that exists. The files at the
 * project root, the confirmation and the outcome of the copy are inputs; the
 * files after the call are part of the result.
 */
module Env {
  import opened Wrappers
  import opened Effects
  import Search

  /** Example files in the order they are looked for. */
  const ExampleFiles: seq<string> := [".env.example", ".env.template", "env.example"]

  /** `examplePaths.find(ex => fs.existsSync(ex.path))`. */
  function ChooseExample(files: set<string>): (r: Option<string>)
    ensures r.Some? ==> r.value in ExampleFiles && r.value in files
    ensures r.None? <==> forall k :: 0 <= k < |ExampleFiles| ==> ExampleFiles[k] !in files
  {
    match Search.FirstIn(ExampleFiles, files)
    case None => None
    case Some(i) => Some(ExampleFiles[i])
  }

  /** `.env.example` is preferred to `.env.template`, and both to `env.example`. */
  lemma ExampleOrder(files: set<string>)
    ensures ChooseExample(files) == Some(".env.example") <==> ".env.example" in files
    ensures ChooseExample(files) == Some(".env.template") <==> ".env.template" in files && ".env.example" !in files
    ensures ChooseExample(files) == Some("env.example")
            <==> "env.example" in files && ".env.template" !in files && ".env.example" !in files
  {
    var r := Search.FirstIn(ExampleFiles, files);
    assert r.Some? ==> r.value == 0 || ExampleFiles[0] !in files;
    assert r.Some? ==> r.value <= 1 || ExampleFiles[1] !in files;
    assert r.None? ==> ExampleFiles[0] !in files && ExampleFiles[1] !in files && ExampleFiles[2] !in files;
  }

  /** The effects of one call, the files at the project root afterwards, and whether the call threw. */
  datatype EnvStep = EnvStep(trace: seq<Effect>, files: set<string>, threw: bool)

  /**
   * `ensureEnvFile()`. The copy is attempted only on a yes; a failed copy is
   * logged and leaves the files as they were. Only an error of the prompt
   * itself propagates.
   */
  function EnsureEnvFile(files: set<string>, confirm: Confirmation, copySucceeds: bool): (s: EnvStep)
    ensures ".env" in files ==> s == EnvStep([], files, false)
    ensures ChooseExample(files).None? ==> s == EnvStep([], files, false)
    ensures ".env" !in files && ChooseExample(files).Some? ==>
              s.trace == [ConfirmCopy(ChooseExample(files).value)]
                         + (if confirm.Accepted? then [CopyFile(ChooseExample(files).value, ".env")] else [])
    ensures s.threw <==> ".env" !in files && ChooseExample(files).Some? && confirm.ConfirmFailed?
    ensures s.files == files || s.files == files + {".env"}
    ensures ".env" in s.files <==> ".env" in files || (ChooseExample(files).Some? && confirm.Accepted? && copySucceeds)
    ensures Prompts(s.trace) == (if ".env" !in files && ChooseExample(files).Some? then 1 else 0)
    ensures !confirm.Accepted? ==> s.files == files
  {
    if ".env" in files then EnvStep([], files, false)
    else
      match ChooseExample(files)
      case None => EnvStep([], files, false)
      case Some(example) =>
        match confirm
        case Declined => EnvStep([ConfirmCopy(example)], files, false)
        case ConfirmFailed => EnvStep([ConfirmCopy(example)], files, true)
        case Accepted =>
          var trace := [ConfirmCopy(example), CopyFile(example, ".env")];
          assert Prompts(trace) == 1 by {
            assert trace[1..][1..] == [];
          }
          EnvStep(trace, if copySucceeds then files + {".env"} else files, false)
  }

  /** Once `.env` exists the check is quiet: running it again changes nothing and asks nothing. */
  lemma SecondRunIsQuiet(files: set<string>, confirm: Confirmation, copySucceeds: bool,
                         confirm2: Confirmation, copySucceeds2: bool)
    requires ".env" in EnsureEnvFile(files, confirm, copySucceeds).files
    ensures var after := EnsureEnvFile(files, confirm, copySucceeds).files;
            EnsureEnvFile(after, confirm2, copySucceeds2) == EnvStep([], after, false)
  {
  }
}
