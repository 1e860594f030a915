/** The decisions and effects of UpdateBll as functions of the loader's state
    (its fallback flag and the file system): whether an update is available,
    which local files the removal pass deletes, which source plugins the
    add pass downloads, and the commit of the source manifest. */
module Reconcile {
  import opened Common
  import opened Paths
  import opened Versions
  import opened Xml
  import opened PluginData
  import opened Codec
  import opened FileSystem
  import opened Loader

  /** What lies beyond the local file system: which strings are absolute
      URIs, what XDocument.Load reads from a URL, what a BinaryWebRequest
      returns (None for a WebException), the Last-Modified header of a URL
      (or the WebException of the request), and File.GetLastWriteTime. */
  datatype Outside = Outside(
    isAbsoluteUri: string -> bool,
    document: string -> Result<Element>,
    fetch: string -> Option<seq<byte>>,
    lastModified: string -> Result<int>,
    writeTime: string -> int)

  // ---- manifests on disk ----

  /** Path.Combine(CurrentPath, Constant.XmlFileName). */
  function ManifestPath(fallback: bool, setting: Setting): (path: string)
    ensures path != [] && GetFileName(path) == XmlFileName
  {
    assert IsBaseName(XmlFileName) by {
      forall i | 0 <= i < |XmlFileName| ensures !IsBoundary(XmlFileName[i]) { }
    }
    CombineFileName(CurrentDir(fallback, setting), XmlFileName);
    Combine(CurrentDir(fallback, setting), XmlFileName)
  }

  /** File.Exists answered by the file system, URI syntax by the outside. */
  function FileEnv(files: Files, outside: Outside): Env {
    Env(p => FileExists(files, p), outside.isAbsoluteUri)
  }

  /** XDocument.Load(path): a local file, or a URL read through the outside. */
  function DocumentAt(files: Files, outside: Outside, path: string): Result<Element> {
    if FileExists(files, path) then
      match files[path].content
      case Document(root) => Ok(root)
      case Bytes(_) => Err(MalformedDocument)
    else outside.document(path)
  }

  /** UpdateInfo.LoadPlugins(path) against the file system and the network. */
  function ReadManifest(files: Files, outside: Outside, path: string): Result<Option<UpdateInfo>> {
    Load(path, FileEnv(files, outside), DocumentAt(files, outside, path))
  }

  /** Every plugin and reference names a file. */
  predicate HasPaths(p: PluginInfo) {
    p.path.Some? && forall j :: 0 <= j < |p.references| ==> p.references[j].path.Some?
  }

  predicate AllHavePaths(ps: seq<PluginInfo>) {
    forall i :: 0 <= i < |ps| ==> HasPaths(ps[i])
  }

  lemma AllHavePathsTail(ps: seq<PluginInfo>)
    requires ps != [] && AllHavePaths(ps)
    ensures HasPaths(ps[0]) && AllHavePaths(ps[1..])
  {
    forall i | 0 <= i < |ps[1..]| ensures HasPaths(ps[1..][i]) { assert ps[1..][i] == ps[i + 1]; }
  }

  /** A decoded plugin names a file, and so does each of its references. */
  lemma DecodedPluginHasPaths(e: Element)
    requires DecodePlugin(e).Ok?
    ensures HasPaths(DecodePlugin(e).value)
  {
    var refs := DecodeAll(Elements(e.children, "Assembly"), DecodeReference).value;
    forall j | 0 <= j < |refs| ensures refs[j].path.Some? {
      assert DecodeReference(Elements(e.children, "Assembly")[j]) == Ok(refs[j]);
    }
  }

  lemma DecodedHasPaths(root: Element)
    requires Decode(root).Ok?
    ensures AllHavePaths(Decode(root).value.1)
  {
    var es := Elements(root.children, "Plugin");
    var plugins := Decode(root).value.1;
    assert DecodeAll(es, DecodePlugin) == Ok(plugins);
    forall i | 0 <= i < |plugins| ensures HasPaths(plugins[i]) {
      assert DecodePlugin(es[i]) == Ok(plugins[i]);
      DecodedPluginHasPaths(es[i]);
    }
  }

  /** A loaded manifest names a file for every entry, defaulted when the Path attribute is absent. */
  lemma ReadManifestHasPaths(files: Files, outside: Outside, path: string)
    requires ReadManifest(files, outside, path).Ok? && ReadManifest(files, outside, path).value.Some?
    ensures AllHavePaths(ReadManifest(files, outside, path).value.value.plugins)
  {
    var root := DocumentAt(files, outside, path).value;
    var decoded := Decode(root);
    assert decoded.Ok?;
    DecodedHasPaths(root);
    assert ReadManifest(files, outside, path).value.value.plugins == decoded.value.1;
  }

  /** Every entry has a version. */
  predicate AllHaveVersions(ps: seq<PluginInfo>) {
    forall i :: 0 <= i < |ps| ==> ps[i].version.Some?
  }

  /** A loaded manifest has a version for every entry: a missing Version
      attribute raises, so the comparison of versions never sees null. */
  lemma ReadManifestHasVersions(files: Files, outside: Outside, path: string)
    requires ReadManifest(files, outside, path).Ok? && ReadManifest(files, outside, path).value.Some?
    ensures AllHaveVersions(ReadManifest(files, outside, path).value.value.plugins)
  {
    var root := DocumentAt(files, outside, path).value;
    var es := Elements(root.children, "Plugin");
    var plugins := Decode(root).value.1;
    assert ReadManifest(files, outside, path).value.value.plugins == plugins;
    assert DecodeAll(es, DecodePlugin) == Ok(plugins);
    forall i | 0 <= i < |plugins| ensures plugins[i].version.Some? {
      assert DecodePlugin(es[i]) == Ok(plugins[i]);
    }
  }

  // ---- UpdateAvailable ----

  /** Exists(path): the file's base name is in the current folder. */
  predicate Present(fallback: bool, files: Files, setting: Setting, path: string) {
    FileExists(files, Combine(CurrentDir(fallback, setting), GetFileName(path)))
  }

  /** The plugin's file and every reference file of it are present. */
  predicate PluginPresent(fallback: bool, files: Files, setting: Setting, p: PluginInfo)
    requires HasPaths(p)
  {
    && Present(fallback, files, setting, p.path.value)
    && forall j :: 0 <= j < |p.references| ==> Present(fallback, files, setting, p.references[j].path.value)
  }

  /** Every plugin file and every reference file of the list is present. */
  predicate AllPresent(fallback: bool, files: Files, setting: Setting, plugins: seq<PluginInfo>)
    requires AllHavePaths(plugins)
  {
    forall i :: 0 <= i < |plugins| ==> PluginPresent(fallback, files, setting, plugins[i])
  }

  /** IsNewVersion for the update location `source`. */
  function NewVersion(fallback: bool, files: Files, setting: Setting, source: string, outside: Outside): (r: Result<bool>)
    ensures !FileExists(files, ManifestPath(fallback, setting)) ==> r == Ok(source != [])
    ensures FileExists(files, ManifestPath(fallback, setting)) && outside.isAbsoluteUri(source) ==>
      (match outside.lastModified(source)
       case Ok(t) => r == Ok(t > outside.writeTime(ManifestPath(fallback, setting)))
       case Err(e) => r == Err(e))
    ensures FileExists(files, ManifestPath(fallback, setting)) && !outside.isAbsoluteUri(source)
      ==> r == (if FileExists(files, source)
                then Ok(outside.writeTime(source) > outside.writeTime(ManifestPath(fallback, setting)))
                else Err(NotSupported))
  {
    var local := ManifestPath(fallback, setting);
    if FileExists(files, local) then
      if outside.isAbsoluteUri(source) then
        match outside.lastModified(source)
        case Err(e) => Err(e)
        case Ok(t) => Ok(t > outside.writeTime(local))
      else if FileExists(files, source) then Ok(outside.writeTime(source) > outside.writeTime(local))
      else Err(NotSupported)
    else Ok(source != [])
  }

  /** UpdateAvailable: no local manifest means no update; a missing file means
      an update without asking the source; otherwise the source decides. */
  function Available(fallback: bool, files: Files, setting: Setting, local: Option<UpdateInfo>, outside: Outside): (r: Result<bool>)
    requires local.Some? ==> AllHavePaths(local.value.plugins)
    ensures local.None? ==> r == Ok(false)
    ensures local.Some? && !AllPresent(fallback, files, setting, local.value.plugins) ==> r == Ok(true)
    ensures local.Some? && AllPresent(fallback, files, setting, local.value.plugins)
      ==> r == NewVersion(fallback, files, setting, local.value.updatePath, outside)
  {
    if local.None? then Ok(false)
    else if !AllPresent(fallback, files, setting, local.value.plugins) then Ok(true)
    else NewVersion(fallback, files, setting, local.value.updatePath, outside)
  }

  /** With a file missing the answer does not depend on anything outside the machine. */
  lemma AvailableWithoutSource(fallback: bool, files: Files, setting: Setting, local: UpdateInfo, a: Outside, b: Outside)
    requires AllHavePaths(local.plugins) && !AllPresent(fallback, files, setting, local.plugins)
    ensures Available(fallback, files, setting, Some(local), a) == Available(fallback, files, setting, Some(local), b) == Ok(true)
  {
  }

  /** An update is reported only when a local manifest was loaded. */
  lemma AvailableNeedsManifest(fallback: bool, files: Files, setting: Setting, local: Option<UpdateInfo>, outside: Outside)
    requires local.Some? ==> AllHavePaths(local.value.plugins)
    requires Available(fallback, files, setting, local, outside) == Ok(true)
    ensures local.Some?
    ensures !AllPresent(fallback, files, setting, local.value.plugins)
         || NewVersion(fallback, files, setting, local.value.updatePath, outside) == Ok(true)
  {
  }

  // ---- removal pass ----

  /** The plugin's file followed by its references' files. */
  function PluginFiles(p: PluginInfo): (paths: seq<string>)
    requires HasPaths(p)
    ensures |paths| == 1 + |p.references| && paths[0] == p.path.value
    ensures forall j :: 0 <= j < |p.references| ==> paths[j + 1] == p.references[j].path.value
  {
    [p.path.value] + seq(|p.references|, j requires 0 <= j < |p.references| => p.references[j].path.value)
  }

  /** Some plugin of the list has this name. */
  predicate Named(name: Option<string>, plugins: seq<PluginInfo>) {
    exists i :: 0 <= i < |plugins| && plugins[i].name == name
  }

  /** The files the removal pass deletes, in order: those of every local
      plugin no source plugin shares a name with. */
  function RemovalTargets(locals: seq<PluginInfo>, sources: seq<PluginInfo>): seq<string>
    requires AllHavePaths(locals)
  {
    if locals == [] then []
    else (if Named(locals[0].name, sources) then [] else PluginFiles(locals[0]))
         + RemovalTargets(locals[1..], sources)
  }

  /** A file is a removal target iff it belongs to a local plugin whose name the source lacks. */
  lemma {:induction false} RemovalTargetsExact(locals: seq<PluginInfo>, sources: seq<PluginInfo>, t: string)
    requires AllHavePaths(locals)
    ensures t in RemovalTargets(locals, sources)
        <==> exists i :: 0 <= i < |locals| && !Named(locals[i].name, sources) && t in PluginFiles(locals[i])
  {
    if locals != [] {
      AllHavePathsTail(locals);
      RemovalTargetsExact(locals[1..], sources, t);
      if t in RemovalTargets(locals, sources) && !(t in RemovalTargets(locals[1..], sources)) {
        assert !Named(locals[0].name, sources) && t in PluginFiles(locals[0]);
      }
      if exists i :: 0 <= i < |locals| && !Named(locals[i].name, sources) && t in PluginFiles(locals[i]) {
        var i :| 0 <= i < |locals| && !Named(locals[i].name, sources) && t in PluginFiles(locals[i]);
        if i > 0 {
          assert locals[1..][i - 1] == locals[i];
        }
      }
    }
  }

  /** DeleteFile on each name in turn; each failure is swallowed on its own. */
  function DeleteEach(fallback: bool, files: Files, setting: Setting, names: seq<string>): (r: Step)
    ensures r.error.None?
    decreases |names|
  {
    if names == [] then Step(fallback, files, None)
    else
      var s := Perform(fallback, files, setting, GetFileName(names[0]), Delete);
      DeleteEach(s.fallback, s.files, setting, names[1..])
  }

  /** Deleting touches nothing but the named files and their markers, in either folder. */
  lemma {:induction false} DeleteEachFrame(fallback: bool, files: Files, setting: Setting, names: seq<string>, p: string)
    requires forall k :: 0 <= k < |names| ==> p !in Touched(setting, GetFileName(names[k]))
    ensures var r := DeleteEach(fallback, files, setting, names);
      (p in r.files <==> p in files) && (p in files ==> r.files[p] == files[p])
    decreases |names|
  {
    if names != [] {
      var s := Perform(fallback, files, setting, GetFileName(names[0]), Delete);
      PerformFrame(fallback, files, setting, GetFileName(names[0]), Delete);
      DeleteEachFrame(s.fallback, s.files, setting, names[1..], p);
    }
  }

  // ---- add pass ----

  /** The local plugin has the source's name and its file is in the current folder. */
  predicate Matches(l: PluginInfo, name: Option<string>, fallback: bool, files: Files, setting: Setting) {
    l.name == name && l.path.Some? && Present(fallback, files, setting, l.path.value)
  }

  /** Index k holds the first match of the list. */
  predicate IsFirstMatch(k: nat, name: Option<string>, locals: seq<PluginInfo>, fallback: bool, files: Files, setting: Setting)
    requires AllHavePaths(locals)
  {
    && k < |locals| && Matches(locals[k], name, fallback, files, setting)
    && forall i :: 0 <= i < k ==> !Matches(locals[i], name, fallback, files, setting)
  }

  /** The first local plugin from index k on with the source's name and a file in the current folder. */
  function FirstMatchFrom(name: Option<string>, locals: seq<PluginInfo>, k: nat,
                          fallback: bool, files: Files, setting: Setting): (r: Option<nat>)
    requires k <= |locals|
    ensures r.Some? ==> k <= r.value < |locals| && Matches(locals[r.value], name, fallback, files, setting)
    ensures r.Some? ==> forall i :: k <= i < r.value ==> !Matches(locals[i], name, fallback, files, setting)
    ensures r.None? ==> forall i :: k <= i < |locals| ==> !Matches(locals[i], name, fallback, files, setting)
    decreases |locals| - k
  {
    if k == |locals| then None
    else if Matches(locals[k], name, fallback, files, setting) then Some(k)
    else FirstMatchFrom(name, locals, k + 1, fallback, files, setting)
  }

  function FirstMatch(name: Option<string>, locals: seq<PluginInfo>, fallback: bool, files: Files, setting: Setting): (r: Option<nat>)
    requires AllHavePaths(locals)
    ensures r.Some? ==> IsFirstMatch(r.value, name, locals, fallback, files, setting)
    ensures r.None? ==> forall i :: 0 <= i < |locals| ==> !Matches(locals[i], name, fallback, files, setting)
  {
    FirstMatchFrom(name, locals, 0, fallback, files, setting)
  }

  /** The add pass downloads a source plugin when no local plugin of its name
      has its file, or the first one that has is older. */
  predicate NeedsDownload(source: PluginInfo, locals: seq<PluginInfo>, fallback: bool, files: Files, setting: Setting)
    requires AllHavePaths(locals)
  {
    match FirstMatch(source.name, locals, fallback, files, setting)
    case None => true
    case Some(k) => OptionLess(locals[k].version, source.version)
  }

  /** NeedsDownload, stated over the local list directly. */
  lemma NeedsDownloadIff(source: PluginInfo, locals: seq<PluginInfo>, fallback: bool, files: Files, setting: Setting)
    requires AllHavePaths(locals)
    ensures NeedsDownload(source, locals, fallback, files, setting) <==>
      || (forall i :: 0 <= i < |locals| ==> !Matches(locals[i], source.name, fallback, files, setting))
      || (exists k: nat :: IsFirstMatch(k, source.name, locals, fallback, files, setting)
                      && OptionLess(locals[k].version, source.version))
  {
    var m := FirstMatch(source.name, locals, fallback, files, setting);
    if m.Some? {
      var k := m.value;
      if exists k': nat :: IsFirstMatch(k', source.name, locals, fallback, files, setting)
                      && OptionLess(locals[k'].version, source.version) {
        var k': nat :| IsFirstMatch(k', source.name, locals, fallback, files, setting)
                  && OptionLess(locals[k'].version, source.version);
        assert !(k < k') by { assert Matches(locals[k], source.name, fallback, files, setting); }
        assert !(k' < k) by { assert Matches(locals[k'], source.name, fallback, files, setting); }
      }
    }
  }

  /** A local copy as new as the source's, or newer, is not downloaded again. */
  lemma NotOlderIsKept(source: PluginInfo, locals: seq<PluginInfo>, k: nat, fallback: bool, files: Files, setting: Setting)
    requires AllHavePaths(locals)
    requires FirstMatch(source.name, locals, fallback, files, setting) == Some(k)
    requires locals[k].version == source.version || OptionLess(source.version, locals[k].version)
    ensures !NeedsDownload(source, locals, fallback, files, setting)
  {
    var a, b := locals[k].version, source.version;
    if a.Some? && b.Some? {
      VersionOrder(a.value, b.value);
    }
  }

  /** BinaryWebRequest then SaveFile for each path in turn; a WebException
      abandons the rest silently, an exception of SaveFile escapes. */
  function FetchEach(fallback: bool, files: Files, setting: Setting, base: string, paths: seq<string>,
                     fetch: string -> Option<seq<byte>>): Step
    decreases |paths|
  {
    if paths == [] then Step(fallback, files, None)
    else match fetch(base + paths[0])
      case None => Step(fallback, files, None)
      case Some(bytes) =>
        var s := Perform(fallback, files, setting, GetFileName(paths[0]), WriteAllBytes(bytes));
        if s.error.Some? then s else FetchEach(s.fallback, s.files, setting, base, paths[1..], fetch)
  }

  /** CopyFile for each path in turn; the first exception escapes. */
  function CopyEach(fallback: bool, files: Files, setting: Setting, base: string, paths: seq<string>): Step
    decreases |paths|
  {
    if paths == [] then Step(fallback, files, None)
    else
      var name := GetFileName(paths[0]);
      var s := Perform(fallback, files, setting, name, CopyFrom(Combine(base, name)));
      if s.error.Some? then s else CopyEach(s.fallback, s.files, setting, base, paths[1..])
  }

  /** DownloadPlugin: from a URL base the files are fetched, otherwise copied. */
  function Download(fallback: bool, files: Files, setting: Setting, downloadPath: string,
                    info: PluginInfo, outside: Outside): Step
    requires HasPaths(info)
  {
    if outside.isAbsoluteUri(downloadPath) then
      FetchEach(fallback, files, setting, downloadPath, PluginFiles(info), outside.fetch)
    else CopyEach(fallback, files, setting, downloadPath, PluginFiles(info))
  }

  /** Once a fetch fails, none of the later files is fetched or saved. */
  lemma {:induction false} FetchStopsAtFailure(fallback: bool, files: Files, setting: Setting, base: string,
                                               paths: seq<string>, fetch: string -> Option<seq<byte>>, k: nat)
    requires k < |paths| && fetch(base + paths[k]).None?
    ensures FetchEach(fallback, files, setting, base, paths, fetch)
         == FetchEach(fallback, files, setting, base, paths[..k], fetch)
    decreases |paths|
  {
    if k > 0 {
      assert paths[..k][0] == paths[0];
      assert paths[..k][1..] == paths[1..][..k - 1];
      match fetch(base + paths[0])
      case None =>
      case Some(bytes) =>
        var s := Perform(fallback, files, setting, GetFileName(paths[0]), WriteAllBytes(bytes));
        if s.error.None? {
          FetchStopsAtFailure(s.fallback, s.files, setting, base, paths[1..], fetch, k - 1);
        }
    }
  }

  /** The exceptions a file operation can let escape. */
  predicate IsFileError(e: Error) {
    e.UnauthorizedAccess? || e.FileBusy? || e.FileMissing? || e.InvalidPath?
  }

  lemma {:induction false} PerformErrors(fallback: bool, files: Files, setting: Setting, fileName: string, action: IOAction)
    ensures var r := Perform(fallback, files, setting, fileName, action);
      r.error.Some? ==> IsFileError(r.error.value)
    decreases (if fallback then 0 else 1),
              (if FileExists(files, Combine(CurrentDir(fallback, setting), fileName)) then 1 else 0)
  {
    var path := Combine(CurrentDir(fallback, setting), fileName);
    var a := Apply(action, path, files, setting.denied);
    if a.outcome == Denied && !fallback {
      PerformErrors(true, files, setting, fileName, action);
    } else if a.outcome == Busy && FileExists(files, path) {
      var marker := Marker(path);
      var cleared := DeleteIfExists(files, marker, setting.denied);
      if cleared.Ok? {
        var moved := Move(cleared.value, path, marker, setting.denied);
        if moved.Ok? {
          PerformErrors(fallback, moved.value, setting, fileName, action);
        }
      }
    }
  }

  /** Downloading from a URL never lets a WebException escape: only file errors do. */
  lemma {:induction false} FetchErrors(fallback: bool, files: Files, setting: Setting, base: string,
                                       paths: seq<string>, fetch: string -> Option<seq<byte>>)
    ensures var r := FetchEach(fallback, files, setting, base, paths, fetch);
      r.error.Some? ==> IsFileError(r.error.value)
    decreases |paths|
  {
    if paths != [] && fetch(base + paths[0]).Some? {
      var s := Perform(fallback, files, setting, GetFileName(paths[0]), WriteAllBytes(fetch(base + paths[0]).value));
      PerformErrors(fallback, files, setting, GetFileName(paths[0]), WriteAllBytes(fetch(base + paths[0]).value));
      if s.error.None? {
        FetchErrors(s.fallback, s.files, setting, base, paths[1..], fetch);
      }
    }
  }

  /** The add pass, source plugin by source plugin; a download's exception ends it. */
  function AddPass(fallback: bool, files: Files, setting: Setting, sources: seq<PluginInfo>,
                   locals: seq<PluginInfo>, downloadPath: string, outside: Outside): Step
    requires AllHavePaths(sources) && AllHavePaths(locals)
    decreases |sources|
  {
    if sources == [] then Step(fallback, files, None)
    else
      AllHavePathsTail(sources);
      if NeedsDownload(sources[0], locals, fallback, files, setting) then
        var d := Download(fallback, files, setting, downloadPath, sources[0], outside);
        if d.error.Some? then d
        else AddPass(d.fallback, d.files, setting, sources[1..], locals, downloadPath, outside)
      else AddPass(fallback, files, setting, sources[1..], locals, downloadPath, outside)
  }

  // ---- commit ----

  /** UpdateBll.SavePlugins(updatePath, plugins): the manifest of the current
      folder is replaced by the encoded list; nothing is written for an empty
      list, and XDocument.Save fails on a denied or locked file. */
  function Commit(fallback: bool, files: Files, setting: Setting, updatePath: string, plugins: seq<PluginInfo>): (r: Step)
    ensures r.fallback == fallback
    ensures r.error.None? ==> Encode(updatePath, plugins).Ok?
    ensures r.error.None? && Encode(updatePath, plugins).value.Some? ==>
      var path := ManifestPath(fallback, setting);
      r.files == files[path := FileEntry(Document(Encode(updatePath, plugins).value.value), false)]
    ensures Encode(updatePath, plugins) == Ok(None) ==> r == Step(fallback, files, None)
  {
    match Encode(updatePath, plugins)
    case Err(e) => Step(fallback, files, Some(e))
    case Ok(None) => Step(fallback, files, None)
    case Ok(Some(root)) =>
      var path := ManifestPath(fallback, setting);
      if path in setting.denied then Step(fallback, files, Some(UnauthorizedAccess))
      else if path in files && files[path].locked then Step(fallback, files, Some(FileBusy))
      else Step(fallback, files[path := FileEntry(Document(root), false)], None)
  }

  /** After a successful commit of a complete list, reading the manifest back
      gives what the UpdateInfo constructor makes of the update path and the
      list with its paths expanded. */
  lemma CommitThenRead(fallback: bool, files: Files, setting: Setting, updatePath: string,
                       plugins: seq<PluginInfo>, outside: Outside)
    requires updatePath != [] && plugins != []
    requires forall i :: 0 <= i < |plugins| ==> Saveable(plugins[i])
    requires Commit(fallback, files, setting, updatePath, plugins).error.None?
    ensures var r := Commit(fallback, files, setting, updatePath, plugins);
      var read := ReadManifest(r.files, outside, ManifestPath(fallback, setting));
      match Resolve(updatePath, Some(ExpandPlugins(plugins)), FileEnv(r.files, outside))
      case Ok(info) => read == Ok(Some(info))
      case Err(err) => read == Err(err)
  {
    var r := Commit(fallback, files, setting, updatePath, plugins);
    var path := ManifestPath(fallback, setting);
    LoadAfterSave(path, FileEnv(r.files, outside), updatePath, plugins);
    assert FileExists(r.files, path);
    assert DocumentAt(r.files, outside, path) == Ok(Encode(updatePath, plugins).value.value);
  }

  // ---- UpdatePlugins ----

  /** The three passes against a source manifest: delete what it dropped,
      download what is new or newer, and commit it unless a download failed. */
  function Reconcile(fallback: bool, files: Files, setting: Setting, locals: seq<PluginInfo>,
                     source: UpdateInfo, outside: Outside): Step
    requires AllHavePaths(locals) && AllHavePaths(source.plugins)
  {
    var removed := DeleteEach(fallback, files, setting, RemovalTargets(locals, source.plugins));
    var added := AddPass(removed.fallback, removed.files, setting, source.plugins, locals,
                         source.downloadPath, outside);
    if added.error.Some? then added
    else Commit(added.fallback, added.files, setting, source.updatePath, source.plugins)
  }

  /** UpdatePlugins: nothing without a local manifest; otherwise read the
      source manifest and reconcile the local folder with it. */
  function Update(fallback: bool, files: Files, setting: Setting, local: Option<UpdateInfo>, outside: Outside): Step
    requires local.Some? ==> AllHavePaths(local.value.plugins)
  {
    if local.None? then Step(fallback, files, None)
    else match ReadManifest(files, outside, local.value.updatePath)
      case Err(e) => Step(fallback, files, Some(e))
      case Ok(None) => Step(fallback, files, Some(NullReference))
      case Ok(Some(source)) =>
        ReadManifestHasPaths(files, outside, local.value.updatePath);
        Reconcile(fallback, files, setting, local.value.plugins, source, outside)
  }

  /** A reconciliation that raised nothing leaves the source manifest, encoded, as the local one. */
  lemma ReconcileCommits(fallback: bool, files: Files, setting: Setting, locals: seq<PluginInfo>,
                         source: UpdateInfo, outside: Outside)
    requires AllHavePaths(locals) && AllHavePaths(source.plugins)
    requires EndsWithIgnoreCase(source.updatePath, ".xml")
    requires Reconcile(fallback, files, setting, locals, source, outside).error.None?
    ensures var r := Reconcile(fallback, files, setting, locals, source, outside);
      && Encode(source.updatePath, source.plugins).Ok?
      && (source.plugins != [] ==>
            && ManifestPath(r.fallback, setting) in r.files
            && r.files[ManifestPath(r.fallback, setting)]
               == FileEntry(Document(Encode(source.updatePath, source.plugins).value.value), false))
  {
    assert source.updatePath != [];
  }

  /** With a local manifest, an update that read its source manifest is a reconciliation with it. */
  lemma UpdateReconciles(fallback: bool, files: Files, setting: Setting, local: UpdateInfo, outside: Outside)
    requires AllHavePaths(local.plugins)
    requires Update(fallback, files, setting, Some(local), outside).error.None?
    ensures var read := ReadManifest(files, outside, local.updatePath);
      && read.Ok? && read.value.Some?
      && AllHavePaths(read.value.value.plugins)
      && EndsWithIgnoreCase(read.value.value.updatePath, ".xml")
      && Update(fallback, files, setting, Some(local), outside)
         == Reconcile(fallback, files, setting, local.plugins, read.value.value, outside)
  {
    ReadManifestHasPaths(files, outside, local.updatePath);
  }
}
