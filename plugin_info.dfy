/** The records the manifest is made of. A string or version that .NET
    leaves null is None. References are one level deep: a ReferenceInfo has
    no references of its own, and being a datatype it is copied by value, as
    the source's struct is. */
module PluginData {
  import opened Common
  import opened Versions

  /** ReferenceInfo: an assembly that travels with a plugin. */
  datatype ReferenceInfo = ReferenceInfo(
    name: Option<string>,
    path: Option<string>,
    description: Option<string>,
    version: Option<Version>)

  /** PluginInfo: one plugin and the assemblies it references. */
  datatype PluginInfo = PluginInfo(
    name: Option<string>,
    path: Option<string>,
    description: Option<string>,
    version: Option<Version>,
    references: seq<ReferenceInfo>)

  /** new PluginInfo(): every field unset, the reference array empty. */
  function NewPluginInfo(): (p: PluginInfo)
    ensures p.name.None? && p.path.None? && p.description.None? && p.version.None?
    ensures p.references == []
  {
    PluginInfo(None, None, None, None, [])
  }

  /** default(ReferenceInfo): every field unset. */
  function NewReferenceInfo(): (r: ReferenceInfo)
    ensures r.name.None? && r.path.None? && r.description.None? && r.version.None?
  {
    ReferenceInfo(None, None, None, None)
  }

  /** The file name a manifest entry gets when it names no Path. */
  function DefaultPath(name: string): (path: string)
    ensures |path| == |name| + 4 && path[..|name|] == name && path[|name|..] == ".dll"
  {
    name + ".dll"
  }
}
