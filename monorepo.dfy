/** Monorepo tool from the marker file at the project root (src/core/monorepo.ts). */
module Monorepo {
  import opened Wrappers
  import Search

  datatype MonorepoTool = Turbo | Nx

  const Markers: seq<string> := ["turbo.json", "nx.json"]
  const MarkerTools: seq<MonorepoTool> := [Turbo, Nx]

  /** `detectMonorepo`, given the set of files that exist at the project root; `None` is `null`. */
  function DetectMonorepo(files: set<string>): (t: Option<MonorepoTool>)
    ensures t == Some(Turbo) <==> "turbo.json" in files
    ensures t == Some(Nx) <==> "nx.json" in files && "turbo.json" !in files
    ensures t == None <==> "turbo.json" !in files && "nx.json" !in files
  {
    if "turbo.json" in files then Some(Turbo)
    else if "nx.json" in files then Some(Nx)
    else None
  }

  /** The detected tool is the one of the first existing marker. */
  lemma DetectMonorepoIsFirstMarker(files: set<string>)
    ensures DetectMonorepo(files) == match Search.FirstIn(Markers, files)
                                     case None => None
                                     case Some(i) => Some(MarkerTools[i])
  {
    var r := Search.FirstIn(Markers, files);
    assert r.Some? ==> r.value == 0 || Markers[0] !in files;
  }
}
