/**
 * User configuration lookup (src/utils/config.ts). Reading and parsing a file
 * is the oracle `load`: `load(f)` is the parsed contents of file `f`, or
 * `None` when `JSON.parse` throws.
 */
module Config {
  import opened Wrappers
  import Search

  const ConfigFiles: seq<string> := [".unirunrc", ".unirunrc.json"]

  /** The loop of `readConfig` over `candidates`: load the first one that exists, and stop there. */
  function ReadFirst<C>(candidates: seq<string>, files: set<string>, load: string -> Option<C>): (r: Option<C>)
    ensures r == match Search.FirstIn(candidates, files)
                 case None => None
                 case Some(i) => load(candidates[i])
  {
    if |candidates| == 0 then None
    else if candidates[0] in files then load(candidates[0])
    else ReadFirst(candidates[1..], files, load)
  }

  /**
   * `readConfig`; `None` is `null`. `.unirunrc` is consulted first: when it
   * exists it alone decides, a parse failure giving `None` without a look at
   * `.unirunrc.json`, which is read only when `.unirunrc` does not exist.
   */
  function ReadConfig<C>(files: set<string>, load: string -> Option<C>): (r: Option<C>)
    ensures ".unirunrc" in files ==> r == load(".unirunrc")
    ensures ".unirunrc" !in files && ".unirunrc.json" in files ==> r == load(".unirunrc.json")
    ensures ".unirunrc" !in files && ".unirunrc.json" !in files ==> r == None
  {
    ReadFirst(ConfigFiles, files, load)
  }

  /** A result always comes from loading one of the config files. */
  lemma ResultIsLoaded<C>(files: set<string>, load: string -> Option<C>)
    requires ReadConfig(files, load).Some?
    ensures exists f :: f in ConfigFiles && f in files && load(f) == ReadConfig(files, load)
  {
    var i := Search.FirstIn(ConfigFiles, files).value;
    assert ConfigFiles[i] in ConfigFiles;
  }
}
