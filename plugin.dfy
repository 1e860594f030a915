/** The provider plugin itself: the copy of the manifest it rebuilds from the
    plugins the host has loaded, the unique file name that copy gets, its
    answer to being unloaded, and the argument check of ResolveAssembly. */
module Provider {
  import opened Common
  import opened Paths
  import opened Versions
  import opened PluginData
  import opened Codec
  import opened FileSystem
  import opened Reconcile

  // ---- GetUniqueFileName ----

  /** The name tried at an index: the file name itself at 0, and
      "<name>(<index>)<extension>" above it. */
  function Candidate(fileName: string, index: nat): (name: string)
    ensures index > 0 ==> |name| > |NatToString(index)|
  {
    if index > 0 then GetFileNameWithoutExtension(fileName) + "(" + NatToString(index) + ")" + GetExtension(fileName)
    else fileName
  }

  /** The length of the longest path in a set of paths. */
  ghost function MaxLength(paths: set<string>): (m: nat)
    ensures forall p :: p in paths ==> |p| <= m
  {
    if paths == {} then 0
    else
      var p :| p in paths;
      var rest := MaxLength(paths - {p});
      if |p| > rest then |p| else rest
  }

  /** Path.Combine never makes a non-empty name shorter. */
  lemma CombineLength(dir: string, name: string)
    requires name != []
    ensures |Combine(dir, name)| >= |name|
  {
  }

  /** Above 10^(longest path), every candidate is longer than any existing
      path, so the search below always ends. */
  lemma CandidateFree(files: Files, path: string, fileName: string, index: nat)
    requires index >= Pow10(MaxLength(files.Keys))
    ensures !FileExists(files, Combine(path, Candidate(fileName, index)))
  {
    var m := MaxLength(files.Keys);
    NatToStringLength(index, m);
    CombineLength(path, Candidate(fileName, index));
  }

  /** A candidate that names a file lies below that bound. */
  lemma TakenBelowBound(files: Files, path: string, fileName: string, index: nat)
    requires FileExists(files, Combine(path, Candidate(fileName, index)))
    ensures index < Pow10(MaxLength(files.Keys))
  {
    if index >= Pow10(MaxLength(files.Keys)) {
      CandidateFree(files, path, fileName, index);
    }
  }

  /** Plugin.GetUniqueFileName(path, fileName, index): the first candidate from
      index on that names no file in the folder. */
  function GetUniqueFileName(files: Files, path: string, fileName: string, index: nat): (name: string)
    ensures exists k: nat :: index <= k && name == Candidate(fileName, k) && IsFirstFree(files, path, fileName, index, k)
    decreases if index < Pow10(MaxLength(files.Keys)) then Pow10(MaxLength(files.Keys)) - index else 0
  {
    var file := Candidate(fileName, index);
    if FileExists(files, Combine(path, file)) then
      TakenBelowBound(files, path, fileName, index);
      var name := GetUniqueFileName(files, path, fileName, index + 1);
      ghost var k: nat :| index + 1 <= k && name == Candidate(fileName, k)
                         && IsFirstFree(files, path, fileName, index + 1, k);
      FirstFreeExtend(files, path, fileName, index, k);
      name
    else
      assert IsFirstFree(files, path, fileName, index, index);
      file
  }

  /** k is the first index from start whose candidate names no file. */
  ghost predicate IsFirstFree(files: Files, path: string, fileName: string, start: nat, k: nat) {
    && !FileExists(files, Combine(path, Candidate(fileName, k)))
    && forall i: nat :: start <= i < k ==> FileExists(files, Combine(path, Candidate(fileName, i)))
  }

  lemma FirstFreeExtend(files: Files, path: string, fileName: string, start: nat, k: nat)
    requires FileExists(files, Combine(path, Candidate(fileName, start)))
    requires IsFirstFree(files, path, fileName, start + 1, k)
    ensures IsFirstFree(files, path, fileName, start, k)
  {
  }

  /** The name found never names an existing file, and every candidate
      skipped before it does. */
  lemma {:induction false} UniqueFileNameIsFree(files: Files, path: string, fileName: string, index: nat)
    ensures !FileExists(files, Combine(path, GetUniqueFileName(files, path, fileName, index)))
  {
    var name := GetUniqueFileName(files, path, fileName, index);
    var k: nat :| index <= k && name == Candidate(fileName, k) && IsFirstFree(files, path, fileName, index, k);
  }

  /** When the file name itself is free, it is the answer. */
  lemma UniqueFileNameKeepsFreeName(files: Files, path: string, fileName: string)
    requires !FileExists(files, Combine(path, fileName))
    ensures GetUniqueFileName(files, path, fileName, 0) == fileName
  {
    var name := GetUniqueFileName(files, path, fileName, 0);
    var k: nat :| name == Candidate(fileName, k) && IsFirstFree(files, path, fileName, 0, k);
    if k > 0 {
      assert false;
    }
  }

  // ---- RebuildXmlFile ----

  /** What the host reports of a loaded plugin (IPluginDescription). */
  datatype HostPlugin = HostPlugin(name: Option<string>, version: Option<Version>, description: Option<string>)

  /** The manifest entry made of a loaded plugin: no Path, no references. */
  function Describe(h: HostPlugin): (p: PluginInfo)
    ensures p.name == h.name && p.version == h.version && p.description == h.description
    ensures p.path.None? && p.references == []
  {
    NewPluginInfo().(name := h.name, version := h.version, description := h.description)
  }

  function DescribeAll(host: seq<HostPlugin>): (ps: seq<PluginInfo>)
    ensures |ps| == |host| && forall i :: 0 <= i < |host| ==> ps[i] == Describe(host[i])
  {
    seq(|host|, i requires 0 <= i < |host| => Describe(host[i]))
  }

  /** The manifest of the first plugin folder and the name its rebuilt copy gets. */
  function FolderManifest(folder: string): string {
    Combine(folder, XmlFileName)
  }

  function RebuiltPath(files: Files, folder: string): string {
    Combine(folder, GetUniqueFileName(files, folder, XmlFileName, 0))
  }

  /** The update path the copy is written with: the present manifest's, or
      the empty string when the folder has none. */
  function KeptUpdatePath(info: Option<UpdateInfo>): string {
    if info.None? then [] else info.value.updatePath
  }

  /** Plugin.RebuildXmlFile as a function of the file system: read the
      folder's manifest, describe the loaded plugins, and save them, under
      the manifest's update path, to a file of the folder that does not exist
      yet. XDocument.Save into a folder the process may not write fails. */
  function Rebuild(files: Files, denied: set<string>, folder: string, host: seq<HostPlugin>, outside: Outside): (r: Result<Files>)
  {
    match ReadManifest(files, outside, FolderManifest(folder))
    case Err(err) => Err(err)
    case Ok(info) =>
      match Encode(KeptUpdatePath(info), DescribeAll(host))
      case Err(err) => Err(err)
      case Ok(None) => Ok(files)
      case Ok(Some(root)) =>
        var target := RebuiltPath(files, folder);
        if target in denied then Err(UnauthorizedAccess)
        else Ok(files[target := FileEntry(Document(root), false)])
  }

  /** The rebuilt file is new: nothing present before is changed or removed. */
  lemma RebuildKeepsExisting(files: Files, denied: set<string>, folder: string, host: seq<HostPlugin>, outside: Outside)
    requires Rebuild(files, denied, folder, host, outside).Ok?
    ensures var after := Rebuild(files, denied, folder, host, outside).value;
      forall p :: p in files ==> p in after && after[p] == files[p]
  {
    var target := RebuiltPath(files, folder);
    UniqueFileNameIsFree(files, folder, XmlFileName, 0);
    assert target != [] by {
      CombineLength(folder, GetUniqueFileName(files, folder, XmlFileName, 0));
      var k: nat :| GetUniqueFileName(files, folder, XmlFileName, 0) == Candidate(XmlFileName, k)
                    && IsFirstFree(files, folder, XmlFileName, 0, k);
    }
  }

  /** A folder without a manifest has no update path to keep, so the copy is
      refused with the ArgumentNullException of SavePlugins. */
  lemma RebuildWithoutManifestFails(files: Files, denied: set<string>, folder: string, host: seq<HostPlugin>, outside: Outside)
    requires !FileExists(files, FolderManifest(folder)) && !outside.isAbsoluteUri(FolderManifest(folder))
    ensures Rebuild(files, denied, folder, host, outside) == Err(ArgumentNull("updatePath"))
  {
  }

  /** With a manifest present and every loaded plugin fully described, the
      rebuilt file holds a document that reads back as the manifest's update
      path and the loaded plugins in host order, each with its default Path. */
  lemma RebuildRoundTrip(files: Files, denied: set<string>, folder: string, host: seq<HostPlugin>, outside: Outside)
    requires ReadManifest(files, outside, FolderManifest(folder)).Ok?
    requires ReadManifest(files, outside, FolderManifest(folder)).value.Some?
    requires host != [] && forall i :: 0 <= i < |host| ==> Saveable(Describe(host[i]))
    requires RebuiltPath(files, folder) !in denied
    ensures Rebuild(files, denied, folder, host, outside).Ok?
    ensures var after := Rebuild(files, denied, folder, host, outside).value;
      var target := RebuiltPath(files, folder);
      var updatePath := ReadManifest(files, outside, FolderManifest(folder)).value.value.updatePath;
      && target in after && after[target].content.Document?
      && Decode(after[target].content.root) == Ok((updatePath, ExpandPlugins(DescribeAll(host))))
  {
    var info := ReadManifest(files, outside, FolderManifest(folder)).value.value;
    assert info.updatePath != [] by {
      ResolvedUpdatePathNonEmpty(files, outside, FolderManifest(folder));
    }
    SaveLoadRoundTrip(info.updatePath, DescribeAll(host));
  }

  /** A manifest that loads names a path ending in ".xml". */
  lemma ResolvedUpdatePathNonEmpty(files: Files, outside: Outside, path: string)
    requires ReadManifest(files, outside, path).Ok? && ReadManifest(files, outside, path).value.Some?
    ensures ReadManifest(files, outside, path).value.value.updatePath != []
  {
    var info := ReadManifest(files, outside, path).value.value;
    assert EndsWithIgnoreCase(info.updatePath, ".xml");
  }

  /** RebuildXmlFile: the host's plugins are described into an array, in
      host order, before the copy is saved. */
  method RebuildXmlFile(files: Files, denied: set<string>, folder: string, host: seq<HostPlugin>, outside: Outside)
    returns (r: Result<Files>)
    ensures r == Rebuild(files, denied, folder, host, outside)
  {
    var info := ReadManifest(files, outside, FolderManifest(folder));
    if info.Err? {
      return Err(info.error);
    }
    var plugins := DescribeHost(host);
    var fileName := GetUniqueFileName(files, folder, XmlFileName, 0);
    var downloadPath := if info.value.None? then "" else info.value.value.updatePath;
    var saved := Codec.SavePlugins(downloadPath, plugins[..]);
    match saved
    case Err(err) => return Err(err);
    case Ok(None) => return Ok(files);
    case Ok(Some(root)) =>
      var target := Combine(folder, fileName);
      if target in denied {
        return Err(UnauthorizedAccess);
      }
      return Ok(files[target := FileEntry(Document(root), false)]);
  }

  /** The array of descriptions, one per loaded plugin, in host order. */
  method DescribeHost(host: seq<HostPlugin>) returns (plugins: array<PluginInfo>)
    ensures fresh(plugins) && plugins[..] == DescribeAll(host)
  {
    plugins := new PluginInfo[|host|];
    var index := 0;
    while index < |host|
      invariant 0 <= index <= |host|
      invariant forall j :: 0 <= j < index ==> plugins[j] == Describe(host[j])
    {
      plugins[index] := NewPluginInfo().(name := host[index].name, version := host[index].version,
                                         description := host[index].description);
      index := index + 1;
    }
  }

  // ---- OnDisconnection ----

  /** SAL.Flatbed.DisconnectMode: the two modes the provider accepts, and any other value. */
  datatype DisconnectMode = FlatbedClosed | HostShutdown | Other(code: int)

  /** The provider can be unloaded only when the host closes or shuts down. */
  function OnDisconnection(mode: DisconnectMode): (unloaded: bool)
    ensures unloaded <==> !mode.Other?
  {
    match mode
    case FlatbedClosed => true
    case HostShutdown => true
    case Other(_) => false
  }

  // ---- ResolveAssembly ----

  /** The argument check of ResolveAssembly: a null or empty assembly name is
      an ArgumentNullException; any other name goes on to the search. */
  function CheckAssemblyName(assemblyName: Option<string>): (r: Result<string>)
    ensures r.Err? <==> assemblyName.None? || assemblyName.value == []
    ensures r.Err? ==> r.error == ArgumentNull("assemblyName")
    ensures r.Ok? ==> assemblyName == Some(r.value) && r.value != []
  {
    if assemblyName.None? || assemblyName.value == [] then Err(ArgumentNull("assemblyName"))
    else Ok(assemblyName.value)
  }
}
