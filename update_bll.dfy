/** UpdateBll: the local manifest of the plugin folder and the passes that
    bring the folder in line with the source manifest, written as the
    source's loops over the loader and proved against the Reconcile
    functions. */
module Sync {
  import opened Common
  import opened Paths
  import opened Versions
  import opened PluginData
  import opened Codec
  import opened FileSystem
  import opened Loader
  import opened Reconcile

  class UpdateBll {
    const loader: PluginLoader
    /** _local: the manifest read from the plugin folder when the object was made. */
    const local: Option<UpdateInfo>

    /** Every entry of the local manifest names its file. */
    predicate Valid() {
      local.Some? ==> AllHavePaths(local.value.plugins)
    }

    constructor(loader: PluginLoader, local: Option<UpdateInfo>)
      requires local.Some? ==> AllHavePaths(local.value.plugins)
      ensures this.loader == loader && this.local == local && Valid()
    {
      this.loader := loader;
      this.local := local;
    }

    /** new UpdateBll(loader): reads the manifest of the loader's current
        folder; a manifest that fails to load makes the constructor throw. */
    static method Open(loader: PluginLoader, outside: Outside) returns (r: Result<UpdateBll>)
      ensures var m := ReadManifest(loader.files, outside, ManifestPath(loader.isTempPathUsed, loader.setting));
        && (r.Err? <==> m.Err?)
        && (r.Err? ==> r.error == m.error)
        && (r.Ok? ==> fresh(r.value) && r.value.loader == loader && r.value.local == m.value && r.value.Valid())
    {
      var path := Combine(loader.CurrentPath(), XmlFileName);
      var m := Codec.LoadPlugins(path, FileEnv(loader.files, outside), DocumentAt(loader.files, outside, path));
      if m.Err? {
        return Err(m.error);
      }
      if m.value.Some? {
        ReadManifestHasPaths(loader.files, outside, path);
      }
      var bll := new UpdateBll(loader, m.value);
      return Ok(bll);
    }

    /** CheckLocalPlugins: every plugin file and reference file of the local manifest exists. */
    method CheckLocalPlugins() returns (ok: bool)
      requires Valid() && local.Some?
      ensures ok == AllPresent(loader.isTempPathUsed, loader.files, loader.setting, local.value.plugins)
    {
      var plugins := local.value.plugins;
      var fallback, files, setting := loader.isTempPathUsed, loader.files, loader.setting;
      var i := 0;
      while i < |plugins|
        invariant 0 <= i <= |plugins|
        invariant forall k :: 0 <= k < i ==> PluginPresent(fallback, files, setting, plugins[k])
      {
        var found := IsPluginPresent(plugins[i]);
        if !found {
          return false;
        }
        PresentExtend(fallback, files, setting, plugins, i);
        i := i + 1;
      }
      return true;
    }

    /** One plugin of CheckLocalPlugins: its own file, then each reference's file. */
    method IsPluginPresent(info: PluginInfo) returns (ok: bool)
      requires HasPaths(info)
      ensures ok == PluginPresent(loader.isTempPathUsed, loader.files, loader.setting, info)
    {
      var fallback, files := loader.isTempPathUsed, loader.files;
      if !loader.Exists(info.path.value) {
        return false;
      }
      var j := 0;
      while j < |info.references|
        invariant 0 <= j <= |info.references|
        invariant forall m :: 0 <= m < j ==> Present(fallback, files, loader.setting, info.references[m].path.value)
      {
        if !loader.Exists(info.references[j].path.value) {
          return false;
        }
        j := j + 1;
      }
      return true;
    }

    /** UpdateAvailable; IsNewVersion is the NewVersion decision. */
    method UpdateAvailable(outside: Outside) returns (r: Result<bool>)
      requires Valid()
      ensures r == Available(loader.isTempPathUsed, loader.files, loader.setting, local, outside)
    {
      if local.None? {
        return Ok(false);
      }
      var all := CheckLocalPlugins();
      if !all {
        return Ok(true);
      }
      return NewVersion(loader.isTempPathUsed, loader.files, loader.setting, local.value.updatePath, outside);
    }

    /** The inner search of the removal pass: does a source plugin have this name? */
    static method IsNamed(name: Option<string>, sources: seq<PluginInfo>) returns (found: bool)
      ensures found == Named(name, sources)
    {
      var j := 0;
      while j < |sources|
        invariant 0 <= j <= |sources|
        invariant forall k :: 0 <= k < j ==> sources[k].name != name
      {
        if name == sources[j].name {
          return true;
        }
        j := j + 1;
      }
      return false;
    }

    /** Deletes a plugin's file, then its references' files; each failure is ignored. */
    method DeletePluginFiles(info: PluginInfo)
      requires HasPaths(info)
      modifies loader
      ensures Step(loader.isTempPathUsed, loader.files, None)
           == DeleteEach(old(loader.isTempPathUsed), old(loader.files), loader.setting, PluginFiles(info))
    {
      var paths := PluginFiles(info);
      ghost var target := DeleteEach(loader.isTempPathUsed, loader.files, loader.setting, paths);
      var k := 0;
      while k < |paths|
        invariant 0 <= k <= |paths|
        invariant target == DeleteEach(loader.isTempPathUsed, loader.files, loader.setting, paths[k..])
      {
        SliceHead(paths, k);
        DeleteOne(paths[k], paths[k + 1..]);
        k := k + 1;
      }
    }

    /** One file of the removal: DeleteFile inside a catch-all. */
    method DeleteOne(path: string, ghost rest: seq<string>)
      modifies loader
      ensures DeleteEach(old(loader.isTempPathUsed), old(loader.files), loader.setting, [path] + rest)
           == DeleteEach(loader.isTempPathUsed, loader.files, loader.setting, rest)
    {
      assert ([path] + rest)[0] == path && ([path] + rest)[1..] == rest;
      var _ := loader.DeleteFile(path);
    }

    /** The removal pass: the files of every local plugin whose name the source
        lacks are deleted, and every failure is ignored on its own. */
    method RemoveObsolete(locals: seq<PluginInfo>, sources: seq<PluginInfo>)
      requires AllHavePaths(locals)
      modifies loader
      ensures Step(loader.isTempPathUsed, loader.files, None)
           == DeleteEach(old(loader.isTempPathUsed), old(loader.files), loader.setting, RemovalTargets(locals, sources))
    {
      ghost var target := DeleteEach(loader.isTempPathUsed, loader.files, loader.setting, RemovalTargets(locals, sources));
      var i := 0;
      while i < |locals|
        invariant 0 <= i <= |locals|
        invariant AllHavePaths(locals[i..])
        invariant DeleteEach(loader.isTempPathUsed, loader.files, loader.setting, RemovalTargets(locals[i..], sources)) == target
      {
        var info := locals[i];
        assert locals[i..][0] == info && locals[i..][1..] == locals[i + 1..];
        var found := IsNamed(info.name, sources);
        AllHavePathsTail(locals[i..]);
        if found {
          assert RemovalTargets(locals[i..], sources) == [] + RemovalTargets(locals[i + 1..], sources);
          assert [] + RemovalTargets(locals[i + 1..], sources) == RemovalTargets(locals[i + 1..], sources);
        } else {
          assert RemovalTargets(locals[i..], sources) == PluginFiles(info) + RemovalTargets(locals[i + 1..], sources);
          ghost var before := Step(loader.isTempPathUsed, loader.files, None);
          DeleteEachAppend(before.fallback, before.files, loader.setting, PluginFiles(info), RemovalTargets(locals[i + 1..], sources));
          DeletePluginFiles(info);
        }
        i := i + 1;
      }
    }

    /** DownloadPlugin from a URL base: the plugin's file, then each
        reference's file, requested and saved in turn. */
    method FetchPlugin(downloadPath: string, info: PluginInfo, outside: Outside) returns (error: Option<Error>)
      requires HasPaths(info)
      modifies loader
      ensures Step(loader.isTempPathUsed, loader.files, error)
           == FetchEach(old(loader.isTempPathUsed), old(loader.files), loader.setting, downloadPath, PluginFiles(info), outside.fetch)
    {
      var paths := PluginFiles(info);
      ghost var target := FetchEach(loader.isTempPathUsed, loader.files, loader.setting, downloadPath, paths, outside.fetch);
      var k := 0;
      while k < |paths|
        invariant 0 <= k <= |paths|
        invariant target == FetchEach(loader.isTempPathUsed, loader.files, loader.setting, downloadPath, paths[k..], outside.fetch)
      {
        SliceHead(paths, k);
        var done;
        done, error := FetchFile(downloadPath, paths[k], paths[k + 1..], outside);
        if done {
          return;
        }
        k := k + 1;
      }
      return None;
    }

    /** One file of the URL download: a failed request ends the download
        quietly, a failed save ends it with the save's exception. */
    method FetchFile(downloadPath: string, path: string, ghost rest: seq<string>, outside: Outside)
      returns (done: bool, error: Option<Error>)
      modifies loader
      ensures !done ==> error.None?
      ensures FetchEach(old(loader.isTempPathUsed), old(loader.files), loader.setting, downloadPath, [path] + rest, outside.fetch)
           == if done then Step(loader.isTempPathUsed, loader.files, error)
              else FetchEach(loader.isTempPathUsed, loader.files, loader.setting, downloadPath, rest, outside.fetch)
    {
      assert ([path] + rest)[0] == path && ([path] + rest)[1..] == rest;
      var bytes := outside.fetch(downloadPath + path);
      if bytes.None? {
        return true, None;
      }
      error := loader.SaveFile(path, bytes.value);
      done := error.Some?;
    }

    /** DownloadPlugin from a folder: the plugin's file, then each
        reference's file, copied in turn. */
    method CopyPlugin(downloadPath: string, info: PluginInfo) returns (error: Option<Error>)
      requires HasPaths(info)
      modifies loader
      ensures Step(loader.isTempPathUsed, loader.files, error)
           == CopyEach(old(loader.isTempPathUsed), old(loader.files), loader.setting, downloadPath, PluginFiles(info))
    {
      var paths := PluginFiles(info);
      ghost var target := CopyEach(loader.isTempPathUsed, loader.files, loader.setting, downloadPath, paths);
      var k := 0;
      while k < |paths|
        invariant 0 <= k <= |paths|
        invariant target == CopyEach(loader.isTempPathUsed, loader.files, loader.setting, downloadPath, paths[k..])
      {
        SliceHead(paths, k);
        error := CopyOne(downloadPath, paths[k], paths[k + 1..]);
        if error.Some? {
          return;
        }
        k := k + 1;
      }
      return None;
    }

    /** One file of the folder download; its exception ends the download. */
    method CopyOne(downloadPath: string, path: string, ghost rest: seq<string>) returns (error: Option<Error>)
      modifies loader
      ensures CopyEach(old(loader.isTempPathUsed), old(loader.files), loader.setting, downloadPath, [path] + rest)
           == if error.Some? then Step(loader.isTempPathUsed, loader.files, error)
              else CopyEach(loader.isTempPathUsed, loader.files, loader.setting, downloadPath, rest)
    {
      assert ([path] + rest)[0] == path && ([path] + rest)[1..] == rest;
      error := loader.CopyFile(downloadPath, path);
    }

    /** DownloadPlugin(downloadPath, info). */
    method DownloadPlugin(downloadPath: string, info: PluginInfo, outside: Outside) returns (error: Option<Error>)
      requires HasPaths(info)
      modifies loader
      ensures Step(loader.isTempPathUsed, loader.files, error)
           == Download(old(loader.isTempPathUsed), old(loader.files), loader.setting, downloadPath, info, outside)
    {
      if outside.isAbsoluteUri(downloadPath) {
        error := FetchPlugin(downloadPath, info, outside);
      } else {
        error := CopyPlugin(downloadPath, info);
      }
    }

    /** The inner search of the add pass: the first local plugin of that name whose file exists. */
    method FindLocal(name: Option<string>, locals: seq<PluginInfo>) returns (found: Option<nat>)
      requires AllHavePaths(locals)
      ensures found == FirstMatch(name, locals, loader.isTempPathUsed, loader.files, loader.setting)
    {
      var fallback, files, setting := loader.isTempPathUsed, loader.files, loader.setting;
      var j := 0;
      while j < |locals|
        invariant 0 <= j <= |locals|
        invariant forall k :: 0 <= k < j ==> !Matches(locals[k], name, fallback, files, setting)
      {
        if locals[j].name == name && loader.Exists(locals[j].path.value) {
          FirstMatchUnique(name, locals, j, fallback, files, setting);
          return Some(j);
        }
        NoMatchExtend(name, locals, j, fallback, files, setting);
        j := j + 1;
      }
      return None;
    }

    /** The add pass: each source plugin is downloaded when NeedsDownload holds
        at that moment; the first exception of a download ends the pass. */
    method AddPlugins(sources: seq<PluginInfo>, locals: seq<PluginInfo>, downloadPath: string, outside: Outside)
      returns (error: Option<Error>)
      requires AllHavePaths(sources) && AllHavePaths(locals)
      modifies loader
      ensures Step(loader.isTempPathUsed, loader.files, error)
           == AddPass(old(loader.isTempPathUsed), old(loader.files), loader.setting, sources, locals, downloadPath, outside)
    {
      ghost var target := AddPass(loader.isTempPathUsed, loader.files, loader.setting, sources, locals, downloadPath, outside);
      var i := 0;
      while i < |sources|
        invariant 0 <= i <= |sources|
        invariant AllHavePaths(sources[i..])
        invariant AddPass(loader.isTempPathUsed, loader.files, loader.setting, sources[i..], locals, downloadPath, outside) == target
      {
        SliceHead(sources, i);
        AllHavePathsTail(sources[i..]);
        error := AddPlugin(sources[i], locals, downloadPath, outside, sources[i + 1..]);
        if error.Some? {
          return;
        }
        i := i + 1;
      }
      return None;
    }

    /** One source plugin of the add pass: downloaded when no local plugin of
        its name has its file, or when that plugin's version is older. */
    method AddPlugin(info: PluginInfo, locals: seq<PluginInfo>, downloadPath: string, outside: Outside,
                     ghost rest: seq<PluginInfo>)
      returns (error: Option<Error>)
      requires AllHavePaths([info] + rest) && AllHavePaths(rest) && AllHavePaths(locals)
      modifies loader
      ensures AddPass(old(loader.isTempPathUsed), old(loader.files), loader.setting, [info] + rest, locals, downloadPath, outside)
           == if error.Some? then Step(loader.isTempPathUsed, loader.files, error)
              else AddPass(loader.isTempPathUsed, loader.files, loader.setting, rest, locals, downloadPath, outside)
    {
      assert ([info] + rest)[0] == info && ([info] + rest)[1..] == rest;
      var local := FindLocal(info.name, locals);
      var download := local.None? || OptionLess(locals[local.value].version, info.version);
      assert download == NeedsDownload(info, locals, loader.isTempPathUsed, loader.files, loader.setting);
      if download {
        error := DownloadPlugin(downloadPath, info, outside);
      } else {
        error := None;
      }
    }

    /** SavePlugins(updatePath, plugins): writes the manifest of the current folder. */
    method SavePlugins(updatePath: string, plugins: seq<PluginInfo>) returns (error: Option<Error>)
      modifies loader
      ensures Step(loader.isTempPathUsed, loader.files, error)
           == Commit(old(loader.isTempPathUsed), old(loader.files), loader.setting, updatePath, plugins)
    {
      var document := Codec.SavePlugins(updatePath, plugins);
      match document
      case Err(e) => return Some(e);
      case Ok(None) => return None;
      case Ok(Some(root)) =>
        CommitWrites(loader.isTempPathUsed, loader.files, loader.setting, updatePath, plugins, root);
        error := SaveDocument(root);
    }

    /** XDocument.Save of a manifest to the current folder; it fails on a
        denied or locked file. */
    method SaveDocument(root: Xml.Element) returns (error: Option<Error>)
      modifies loader
      ensures var path := Combine(CurrentDir(old(loader.isTempPathUsed), loader.setting), XmlFileName);
        Step(loader.isTempPathUsed, loader.files, error)
          == if path in loader.setting.denied then Step(old(loader.isTempPathUsed), old(loader.files), Some(UnauthorizedAccess))
             else if path in old(loader.files) && old(loader.files)[path].locked
             then Step(old(loader.isTempPathUsed), old(loader.files), Some(FileBusy))
             else Step(old(loader.isTempPathUsed), old(loader.files)[path := FileEntry(Document(root), false)], None)
    {
      var path := Combine(loader.CurrentPath(), XmlFileName);
      if path in loader.setting.denied {
        return Some(UnauthorizedAccess);
      }
      if path in loader.files && loader.files[path].locked {
        return Some(FileBusy);
      }
      loader.files := loader.files[path := FileEntry(Document(root), false)];
      return None;
    }

    /** UpdatePlugins. */
    method UpdatePlugins(outside: Outside) returns (error: Option<Error>)
      requires Valid()
      modifies loader
      ensures Step(loader.isTempPathUsed, loader.files, error)
           == Update(old(loader.isTempPathUsed), old(loader.files), loader.setting, local, outside)
    {
      if local.None? {
        return None;
      }
      var updatePath := local.value.updatePath;
      var read := Codec.LoadPlugins(updatePath, FileEnv(loader.files, outside), DocumentAt(loader.files, outside, updatePath));
      if read.Err? {
        return Some(read.error);
      }
      if read.value.None? {
        return Some(NullReference);
      }
      var source := read.value.value;
      ReadManifestHasPaths(loader.files, outside, updatePath);
      RemoveObsolete(local.value.plugins, source.plugins);
      error := AddPlugins(source.plugins, local.value.plugins, source.downloadPath, outside);
      if error.Some? {
        return;
      }
      error := SavePlugins(source.updatePath, source.plugins);
    }
  }

  /** Deleting a list of files is deleting its first part, then the rest. */
  lemma {:induction false} DeleteEachAppend(fallback: bool, files: Files, setting: Setting, a: seq<string>, b: seq<string>)
    ensures var first := DeleteEach(fallback, files, setting, a);
      DeleteEach(fallback, files, setting, a + b) == DeleteEach(first.fallback, first.files, setting, b)
    decreases |a|
  {
    if a == [] {
      assert a + b == b;
    } else {
      assert (a + b)[0] == a[0] && (a + b)[1..] == a[1..] + b;
      var s := Perform(fallback, files, setting, GetFileName(a[0]), Delete);
      DeleteEachAppend(s.fallback, s.files, setting, a[1..], b);
    }
  }

  /** What Commit does once the list has encoded to a document. */
  lemma CommitWrites(fallback: bool, files: Files, setting: Setting, updatePath: string,
                     plugins: seq<PluginInfo>, root: Xml.Element)
    requires Encode(updatePath, plugins) == Ok(Some(root))
    ensures var path := Combine(CurrentDir(fallback, setting), XmlFileName);
      Commit(fallback, files, setting, updatePath, plugins)
        == if path in setting.denied then Step(fallback, files, Some(UnauthorizedAccess))
           else if path in files && files[path].locked then Step(fallback, files, Some(FileBusy))
           else Step(fallback, files[path := FileEntry(Document(root), false)], None)
  {
  }

  /** A suffix of a list is its first item followed by the rest. */
  lemma SliceHead<T>(s: seq<T>, i: nat)
    requires i < |s|
    ensures s[i..] == [s[i]] + s[i + 1..]
  {
  }

  /** The plugins checked so far, and one more. */
  lemma PresentExtend(fallback: bool, files: Files, setting: Setting, plugins: seq<PluginInfo>, i: nat)
    requires AllHavePaths(plugins) && i < |plugins|
    requires forall k :: 0 <= k < i ==> PluginPresent(fallback, files, setting, plugins[k])
    requires PluginPresent(fallback, files, setting, plugins[i])
    ensures forall k :: 0 <= k < i + 1 ==> PluginPresent(fallback, files, setting, plugins[k])
  {
  }

  /** The plugins passed over so far, and one more. */
  lemma NoMatchExtend(name: Option<string>, locals: seq<PluginInfo>, j: nat,
                      fallback: bool, files: Files, setting: Setting)
    requires AllHavePaths(locals) && j < |locals|
    requires forall k :: 0 <= k < j ==> !Matches(locals[k], name, fallback, files, setting)
    requires !Matches(locals[j], name, fallback, files, setting)
    ensures forall k :: 0 <= k < j + 1 ==> !Matches(locals[k], name, fallback, files, setting)
  {
  }

  /** Two first matches of the same list are the same index. */
  lemma FirstMatchUnique(name: Option<string>, locals: seq<PluginInfo>, j: nat,
                         fallback: bool, files: Files, setting: Setting)
    requires AllHavePaths(locals) && IsFirstMatch(j, name, locals, fallback, files, setting)
    ensures FirstMatch(name, locals, fallback, files, setting) == Some(j)
  {
    var m := FirstMatch(name, locals, fallback, files, setting);
    assert Matches(locals[j], name, fallback, files, setting);
    if m.Some? {
      var k := m.value;
      assert Matches(locals[k], name, fallback, files, setting);
      assert !(k < j) && !(j < k);
    }
  }
}
