/**
 * Script detection (src/core/detector.ts): the first name of the mode's
 * priority list whose manifest script is present with a non-empty command.
 */
module Detector {
  import opened Wrappers
  import Search

  datatype RunMode = Dev | Build | Prod

  /** Candidate script names per mode, highest priority first. */
  function Priorities(mode: RunMode): seq<string> {
    match mode
    case Dev => ["dev", "start", "serve", "watch", "server"]
    case Build => ["build", "compile", "package", "dist"]
    case Prod => ["start", "run", "serve"]
  }

  /** `scripts[key]` is truthy: the key is present and its command is not the empty string. */
  predicate Truthy(scripts: map<string, string>, key: string) {
    key in scripts && scripts[key] != ""
  }

  function TruthyKeys(scripts: map<string, string>): (keys: set<string>)
    ensures forall k :: k in keys <==> Truthy(scripts, k)
  {
    set k | k in scripts && scripts[k] != ""
  }

  /** `pkg.scripts || {}`: an absent `scripts` field is an empty mapping. */
  function ScriptsOf(scripts: Option<map<string, string>>): map<string, string> {
    match scripts
    case None => map[]
    case Some(m) => m
  }

  /** `detectScript(mode, pkg)` where `scripts` is `pkg.scripts`; `None` is `null`. */
  function DetectScript(mode: RunMode, scripts: Option<map<string, string>>): (r: Option<string>)
    ensures r.Some? ==> exists i :: 0 <= i < |Priorities(mode)| && Priorities(mode)[i] == r.value
                          && Truthy(ScriptsOf(scripts), r.value)
                          && forall j :: 0 <= j < i ==> !Truthy(ScriptsOf(scripts), Priorities(mode)[j])
    ensures r.None? <==> forall k :: k in Priorities(mode) ==> !Truthy(ScriptsOf(scripts), k)
  {
    var candidates := Priorities(mode);
    match Search.FirstIn(candidates, TruthyKeys(ScriptsOf(scripts)))
    case None => None
    case Some(i) => Some(candidates[i])
  }

  /** A detected script is a candidate of the mode and names a non-empty manifest command. */
  lemma DetectedIsTruthyCandidate(mode: RunMode, scripts: Option<map<string, string>>)
    requires DetectScript(mode, scripts).Some?
    ensures DetectScript(mode, scripts).value in Priorities(mode)
    ensures scripts.Some? && DetectScript(mode, scripts).value in scripts.value
    ensures scripts.value[DetectScript(mode, scripts).value] != ""
  {
  }

  /** Without a `scripts` field nothing is detected. */
  lemma NoScriptsNoResult(mode: RunMode)
    ensures DetectScript(mode, None) == None
  {
  }

  /** Manifest entries outside the mode's candidate list never change the result. */
  lemma {:induction false} OnlyCandidatesMatter(mode: RunMode, a: map<string, string>, b: map<string, string>)
    requires forall k :: k in Priorities(mode) ==> (Truthy(a, k) <==> Truthy(b, k))
    ensures DetectScript(mode, Some(a)) == DetectScript(mode, Some(b))
  {
    var candidates := Priorities(mode);
    forall j | 0 <= j < |candidates|
      ensures candidates[j] in TruthyKeys(a) <==> candidates[j] in TruthyKeys(b)
    {
      assert candidates[j] in candidates;
    }
    Search.FirstInCongruent(candidates, TruthyKeys(a), TruthyKeys(b));
  }

  /** A non-empty `dev` script wins in dev mode, whatever else the manifest holds. */
  lemma DevWinsInDevMode(scripts: map<string, string>)
    requires Truthy(scripts, "dev")
    ensures DetectScript(Dev, Some(scripts)) == Some("dev")
  {
    assert Priorities(Dev)[0] == "dev";
  }

  /** An empty command does not count as present: a script `dev: ""` falls through to `start`. */
  lemma EmptyCommandIsSkipped(start: string)
    requires start != ""
    ensures DetectScript(Dev, Some(map["dev" := "", "start" := start])) == Some("start")
  {
    var s := map["dev" := "", "start" := start];
    assert !Truthy(s, "dev") && Truthy(s, "start");
    assert Priorities(Dev)[1] == "start";
  }

  /** The three examples of the detector's test file. */
  lemma DetectorExamples()
    ensures DetectScript(Dev, Some(map["dev" := "vite", "build" := "vite build"])) == Some("dev")
    ensures DetectScript(Dev, Some(map["dev" := "vite", "start" := "node server.js"])) == Some("dev")
    ensures DetectScript(Build, Some(map["compile" := "tsc"])) == Some("compile")
  {
    DevWinsInDevMode(map["dev" := "vite", "build" := "vite build"]);
    DevWinsInDevMode(map["dev" := "vite", "start" := "node server.js"]);
    var c := map["compile" := "tsc"];
    assert !Truthy(c, "build") && Truthy(c, "compile");
    assert Priorities(Build)[1] == "compile";
  }
}
