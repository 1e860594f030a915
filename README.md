# Plugin.NetworkPluginProvider in Dafny

A model of the network plugin provider: a plugin that keeps a local folder
of plugin assemblies in step with a manifest (`Plugins.xml`) published on a
web server or a file share, and proofs about that model.

The model covers four parts of the provider.

- **The manifest and its codec** (`UpdateInfo`, `PluginInfo`, `ReferenceInfo`):
  - the constructor that resolves an update location into the manifest path
    and the download base;
  - `LoadPlugins`, from document to records;
  - `SavePlugins`, from records to document.

  The XML document is an abstract element tree. `System.Version` is a list
  of 2 to 4 components.
- **The synchronisation engine** (`UpdateBll`):
  - the `UpdateAvailable` decision with `CheckLocalPlugins` and `IsNewVersion`;
  - the removal pass and the add/upgrade pass of `UpdatePlugins`;
  - the URL and folder branches of `DownloadPlugin`;
  - the commit of the source manifest by `SavePlugins`.

  Each is written as the source's loops over the loader and proved equal to
  a function of the loader's state (module `Reconcile`). The properties of
  the operations are proved about those functions.
- **The resilient loader** (`PluginLoaderBase`, `PluginLoader`):
  - a class holding the fallback flag `IsTempPathUsed` and the local file
    system;
  - the ACL fold `HasPermissionOnDir`;
  - `PerformIOAction` with its three recoveries: ignore a missing source,
    switch once to the fallback folder on a denial, and move a file in use
    to its `_` marker name and retry;
  - `DeleteFile`, `SaveFile` and `CopyFile`, which first reduce the name to
    its base name.

  The retry after a move has no counter in the source. It terminates in the
  model because each of the model's file actions is atomic: either the
  fallback flag goes from false to true, or the target goes from present to
  absent.
- **Helpers of the `Plugin` class**:
  - `GetUniqueFileName`, whose termination rests on the file system being
    finite;
  - `RebuildXmlFile`, modelled as a function of the file system plus the
    array-filling loop;
  - the `OnDisconnection` rule;
  - the argument check of `ResolveAssembly`.

The modules, in dependency order:

| module | contents |
|---|---|
| `Common` | the nullable value `Option` and the exception outcome `Result` |
| `Paths` | the `System.String` and `System.IO.Path` calls the provider relies on |
| `Versions` | `System.Version` |
| `Xml` | the element tree |
| `PluginData` | the records |
| `Codec` | `UpdateInfo` |
| `FileSystem` | files and atomic actions |
| `Loader` | `PluginLoaderBase` and `PluginLoader` |
| `Reconcile` | the decisions and effects of `UpdateBll` as functions |
| `Sync` | the `UpdateBll` class |
| `Provider` | `Plugin` |

Everything outside the machine is a parameter of type `Outside`:
- URI syntax;
- documents read from URLs;
- bytes fetched by `BinaryWebRequest`;
- the `Last-Modified` header;
- file write times.

An exception from `CopyFile` (folder downloads) or
from `SaveFile` (URL downloads) escapes `UpdatePlugins` before `SavePlugins`
runs, so nothing is committed. Only a `WebException` is swallowed, and it
skips the remaining files of that plugin (UpdateBll.cs:71-86, 141-172).

## Model

| member | source | states |
|---|---|---|
| PluginData.NewPluginInfo | Plugin.NetworkPluginProvider/Data/PluginInfo.cs:6-22 | a fresh plugin record has every field unset and an empty, non-null reference list |
| PluginData.NewReferenceInfo | Plugin.NetworkPluginProvider/Data/PluginInfo.cs:25-38 | a default reference record has every field unset and no references of its own |
| PluginData.DefaultPath | Plugin.NetworkPluginProvider/Data/UpdateInfo.cs:79-81 | the default file of an entry is its name followed by ".dll" |
| Paths.GetFileNameAfterBoundary | Plugin.NetworkPluginProvider/Data/PluginLoader.cs:18 | Path.GetFileName returns the part after the last separator or volume colon |
| Paths.CombineFileName | Plugin.NetworkPluginProvider/Data/PluginLoaderBase.cs:81-82 | a base name combined with any folder is read back by GetFileName, and the combined path is non-empty |
| Paths.ReplaceAbsent | Plugin.NetworkPluginProvider/Data/UpdateInfo.cs:30 | String.Replace changes nothing when the pattern does not occur |
| Paths.ReplaceSplit | Plugin.NetworkPluginProvider/Data/UpdateInfo.cs:30 | String.Replace works on the two halves independently when the first ends in a character the pattern lacks |
| Paths.ParseNatToString | Plugin.NetworkPluginProvider/Data/UpdateInfo.cs:144 | the decimal text of a number reads back as that number |
| Paths.NatToStringLength | Plugin.NetworkPluginProvider/Plugin.cs:157 | a number of at least 10^k prints with more than k digits |
| Versions.VersionOrder | Plugin.NetworkPluginProvider/Data/UpdateBll.cs:78 | the version `<` is irreflexive and asymmetric, and of two different versions exactly one is the lesser |
| Versions.VersionTransitive | Plugin.NetworkPluginProvider/Data/UpdateBll.cs:78 | the version `<` is transitive |
| Versions.ExtensionIsGreater | Plugin.NetworkPluginProvider/Data/UpdateBll.cs:78 | a version that adds components ranks above the shorter one, because an undefined component ranks below every defined one |
| Versions.SplitJoin | Plugin.NetworkPluginProvider/Data/UpdateInfo.cs:77 | splitting dot-joined, dot-free parts at '.' returns the parts |
| Versions.ParseFormat | Plugin.NetworkPluginProvider/Data/UpdateInfo.cs:144 | a version written with ToString parses back to the same version |
| Xml.Elements | Plugin.NetworkPluginProvider/Data/UpdateInfo.cs:68 | Elements(name) keeps exactly the children of that name: every one it returns has the name and every child with the name is returned |
| Xml.ElementsAppend | Plugin.NetworkPluginProvider/Data/UpdateInfo.cs:68 | selection keeps document order: the selection from a + b is the selection from a followed by that from b |
| Codec.Resolve | Plugin.NetworkPluginProvider/Data/UpdateInfo.cs:23-47 | null plugins raise ArgumentNullException; a constructed value keeps the plugins, and its update path ends in ".xml" |
| Codec.ResolveXmlLocation | Plugin.NetworkPluginProvider/Data/UpdateInfo.cs:27-30 | an ".xml" location (any case) is kept; the download base is its folder part with every occurrence of the file name removed, and exactly the folder part when the name does not occur in it |
| Codec.ResolveRemovesEveryOccurrence | Plugin.NetworkPluginProvider/Data/UpdateInfo.cs:30 | "a.xml\a.xml" downloads from "\", showing that the replacement is global |
| Codec.ResolveFolderLocation | Plugin.NetworkPluginProvider/Data/UpdateInfo.cs:31-46 | a trailing separator is kept; an existing file gets '\'; an absolute URI gets '/'; anything else raises NotSupportedException; the manifest is XmlFileName in that folder |
| Codec.ResolveFolderShape | Plugin.NetworkPluginProvider/Data/UpdateInfo.cs:31-46 | every folder-form result downloads from a folder that ends in a separator and extends the location, and its manifest lies in that folder |
| Codec.ResolveUpdatePathStable | Plugin.NetworkPluginProvider/Data/UpdateInfo.cs:27-29 | resolving a resolved update path again keeps it |
| Codec.ResolveBareUrl | Plugin.NetworkPluginProvider/Data/UpdateInfo.cs:39-45 | "http://host/dir" resolves to "http://host/dir/Plugins.xml" with download base "http://host/dir/" |
| Codec.DecodeFields | Plugin.NetworkPluginProvider/Data/UpdateInfo.cs:71-84 | missing Name, then missing Version, raise InvalidOperationException; otherwise Path defaults to Name + ".dll" and Description is kept only when present |
| Codec.DecodeAll | Plugin.NetworkPluginProvider/Data/UpdateInfo.cs:68-110 | entries decode in document order and the first failing entry's exception is the one raised |
| Codec.DecodeAllFailsAt | Plugin.NetworkPluginProvider/Data/UpdateInfo.cs:68-110 | decoding stops at the first failing entry with that entry's exception |
| Codec.Decode | Plugin.NetworkPluginProvider/Data/UpdateInfo.cs:63-68 | a root without Path raises InvalidOperationException; otherwise the result keeps Path and one record per Plugin child |
| Codec.Load | Plugin.NetworkPluginProvider/Data/UpdateInfo.cs:52-112 | null exactly when the path is neither an existing file nor an absolute URL; a missing root Path raises; a loaded manifest is the constructor applied to the decoded Path and list |
| Codec.LoadRejectsMissingField | Plugin.NetworkPluginProvider/Data/UpdateInfo.cs:71-93 | a Plugin element, or an Assembly element of an otherwise valid plugin, without Name or Version makes loading raise InvalidOperationException |
| Codec.LoadPlugins | Plugin.NetworkPluginProvider/Data/UpdateInfo.cs:52-112 | the loops that fill the lists compute Load |
| Codec.LoadPluginElements | Plugin.NetworkPluginProvider/Data/UpdateInfo.cs:68-110 | the outer loop decodes the Plugin elements in order, stopping at the first failure |
| Codec.LoadReferences | Plugin.NetworkPluginProvider/Data/UpdateInfo.cs:86-107 | the inner loop decodes the Assembly elements in order, stopping at the first failure |
| Codec.EncodeEntry | Plugin.NetworkPluginProvider/Data/UpdateInfo.cs:132-146 | an empty Name, then a null Version, then a null Description raise; Path is written exactly when it is set and differs from the default |
| Codec.EncodeAll | Plugin.NetworkPluginProvider/Data/UpdateInfo.cs:130-170 | entries encode in order and the first failing entry's exception is the one raised |
| Codec.Encode | Plugin.NetworkPluginProvider/Data/UpdateInfo.cs:118-128 | an empty update path raises even for an empty list; an empty list writes nothing; a written root carries only Path and one child per plugin |
| Codec.SavePlugins | Plugin.NetworkPluginProvider/Data/UpdateInfo.cs:118-171 | the loops that build the document compute Encode |
| Codec.FieldsRoundTrip | Plugin.NetworkPluginProvider/Data/UpdateInfo.cs:133-146 | one written entry reads back with its name, version and description, and its Path default-expanded |
| Codec.ReferencesRoundTrip | Plugin.NetworkPluginProvider/Data/UpdateInfo.cs:148-168 | saveable references encode, and the written Assembly elements decode back to them in order |
| Codec.PluginRoundTrip | Plugin.NetworkPluginProvider/Data/UpdateInfo.cs:130-169 | a saveable plugin reads back with its fields and references, Paths default-expanded |
| Codec.SaveLoadRoundTrip | Plugin.NetworkPluginProvider/Data/UpdateInfo.cs:118-171 | saving a non-empty list under a non-empty path and decoding gives back the path and the list in order, with Paths expanded |
| Codec.LoadAfterSave | Plugin.NetworkPluginProvider/Data/UpdateInfo.cs:52-111 | loading a saved file gives what the constructor makes of the saved update path and the expanded list |
| FileSystem.Apply | Plugin.NetworkPluginProvider/Data/PluginLoader.cs:16-38 | a delete, write or copy attempt either completes on its path alone or changes nothing; a denial only on a denied path; a missing source only for a copy |
| FileSystem.ApplyEffect | Plugin.NetworkPluginProvider/Data/PluginLoader.cs:16-38 | a completed delete leaves no file, a completed write leaves the bytes, and a completed copy leaves the source's content |
| Loader.HasPermissionOnDir | Plugin.NetworkPluginProvider/Data/PluginLoaderBase.cs:88-127 | the four-flag loop is true iff some rule allows full Write and none denies it, and some rule allows Delete and none denies it; a null ACL gives false |
| Loader.HasPermissionOrderFree | Plugin.NetworkPluginProvider/Data/PluginLoaderBase.cs:108-124 | the answer does not depend on the order of the rules |
| Loader.DenyOverrides | Plugin.NetworkPluginProvider/Data/PluginLoaderBase.cs:110-126 | one rule denying full Write or Delete withholds the permission |
| Loader.Marker | Plugin.NetworkPluginProvider/Data/PluginLoaderBase.cs:157 | the marker name is the path with its last character replaced by '_' |
| Loader.DeleteIfExists | Plugin.NetworkPluginProvider/Data/PluginLoaderBase.cs:158-159 | an earlier marker is removed and nothing else changes; it can fail only when the marker exists |
| Loader.Move | Plugin.NetworkPluginProvider/Data/PluginLoaderBase.cs:161 | a move takes the file, lock and all, to the marker name and changes nothing else |
| Loader.PerformKeepsFallback | Plugin.NetworkPluginProvider/Data/PluginLoaderBase.cs:145-152 | the fallback flag never returns to false |
| Loader.PerformSwitchesOnlyOnDenial | Plugin.NetworkPluginProvider/Data/PluginLoaderBase.cs:145-150 | the loader switches to the fallback folder only when the plugin folder denied the target |
| Loader.PerformFrame | Plugin.NetworkPluginProvider/Data/PluginLoaderBase.cs:136-166 | only the target and its marker, in either folder, can change |
| Loader.PerformEffect | Plugin.NetworkPluginProvider/Data/PluginLoaderBase.cs:136-166 | when nothing escapes, the folder it ended in has no file after a delete, the bytes after a write, and the source content after a copy of an existing source |
| Loader.WriteFallsBack | Plugin.NetworkPluginProvider/Data/PluginLoaderBase.cs:145-150 | a write denied in the plugin folder lands in the fallback folder and the loader stays there |
| Loader.WriteRenamesFileInUse | Plugin.NetworkPluginProvider/Data/PluginLoaderBase.cs:153-162 | a write over a locked file moves the old file to its marker and writes the new bytes |
| Loader.BusyWithoutTargetEscapes | Plugin.NetworkPluginProvider/Data/PluginLoaderBase.cs:153-164 | an IOException on a target that does not exist escapes and changes nothing |
| Loader.WriteReplacesEarlierMarker | Plugin.NetworkPluginProvider/Data/PluginLoaderBase.cs:155-162 | a write over a locked file first deletes an unlocked marker left by an earlier update, then moves the old file to the marker and writes the new bytes |
| Loader.PerformNotFoundSwallowed | Plugin.NetworkPluginProvider/Data/PluginLoaderBase.cs:141-144 | a copy whose source is missing is logged and changes neither the folder nor the files |
| Loader.PerformDeniedInFallbackEscapes | Plugin.NetworkPluginProvider/Data/PluginLoaderBase.cs:145-152 | a denial in the fallback folder escapes as UnauthorizedAccessException, the loader in the fallback folder and nothing changed |
| Loader.EmptyNameSwitchesToFallback | Plugin.NetworkPluginProvider/Data/PluginLoaderBase.cs:136-152 | a delete or write with an empty base name targets the plugin folder itself, which is refused: the loader switches to the fallback folder and the refusal there escapes |
| Loader.Filter | Plugin.NetworkPluginProvider/Data/PluginLoaderBase.cs:131-133 | the filter keeps exactly the accepted paths |
| Loader.PluginLoader.constructor | Plugin.NetworkPluginProvider/Data/PluginLoaderBase.cs:65-72 | it starts in fallback mode iff the fallback folder exists and the plugin folder fails the permission check; both folder paths are refused as file targets |
| Loader.PluginLoader.CurrentPath | Plugin.NetworkPluginProvider/Data/PluginLoaderBase.cs:63 | the current folder is the fallback folder when the flag is set and the plugin folder otherwise |
| Loader.PluginLoader.Exists | Plugin.NetworkPluginProvider/Data/PluginLoaderBase.cs:79-83 | true exactly when a file with the base name is in the current folder under a non-empty path |
| Loader.PluginLoader.ExistsByBaseName | Plugin.NetworkPluginProvider/Data/PluginLoaderBase.cs:81-82 | only the base name counts: two names with the same base name give the same answer |
| Loader.PluginLoader.GetFiles | Plugin.NetworkPluginProvider/Data/PluginLoaderBase.cs:129-134 | the result is exactly the accepted files of the current folder, in listing order |
| Loader.PluginLoader.PerformIOAction | Plugin.NetworkPluginProvider/Data/PluginLoaderBase.cs:136-166 | the new flag, files and escaping exception are those of Perform, the recovery rules |
| Loader.PluginLoader.DeleteFile | Plugin.NetworkPluginProvider/Data/PluginLoader.cs:16-20 | it acts on the base name; when nothing escapes, the file is gone from the current folder |
| Loader.PluginLoader.SaveFile | Plugin.NetworkPluginProvider/Data/PluginLoader.cs:25-29 | it acts on the base name; when nothing escapes, the file holds exactly the bytes |
| Loader.PluginLoader.CopyFile | Plugin.NetworkPluginProvider/Data/PluginLoader.cs:34-38 | it copies downloadPath plus the base name over the current file of that base name, which then holds the source's content |
| Reconcile.ManifestPath | Plugin.NetworkPluginProvider/Data/UpdateBll.cs:109 | the local manifest path is non-empty and names XmlFileName |
| Reconcile.ReadManifestHasPaths | Plugin.NetworkPluginProvider/Data/UpdateInfo.cs:79-101 | every entry of a loaded manifest names a file |
| Reconcile.ReadManifestHasVersions | Plugin.NetworkPluginProvider/Data/UpdateInfo.cs:73-77 | every entry of a loaded manifest has a version, so the version comparison of the update never sees null |
| Reconcile.NewVersion | Plugin.NetworkPluginProvider/Data/UpdateBll.cs:106-136 | without a local manifest the answer is whether the source path is non-empty; for a URL it is Last-Modified later than the local time, or the request's exception; for an existing file, a later write time; anything else raises NotSupportedException |
| Reconcile.Available | Plugin.NetworkPluginProvider/Data/UpdateBll.cs:22-25 | false without a local manifest; true when a recorded file is missing; otherwise IsNewVersion |
| Reconcile.AvailableWithoutSource | Plugin.NetworkPluginProvider/Data/UpdateBll.cs:24 | with a file missing, the answer is true whatever lies outside the machine |
| Reconcile.AvailableNeedsManifest | Plugin.NetworkPluginProvider/Data/UpdateBll.cs:24 | an update is reported only with a local manifest, and only when a file is missing or the source is newer |
| Reconcile.PluginFiles | Plugin.NetworkPluginProvider/Data/UpdateBll.cs:61-67 | a plugin's files are its own path followed by its references' paths, in order |
| Reconcile.RemovalTargetsExact | Plugin.NetworkPluginProvider/Data/UpdateBll.cs:48-69 | a file is deleted by the removal pass iff it belongs to a local plugin whose name no source plugin has |
| Reconcile.DeleteEach | Plugin.NetworkPluginProvider/Data/UpdateBll.cs:59-67 | every deletion failure is swallowed on its own, so no exception escapes |
| Reconcile.DeleteEachFrame | Plugin.NetworkPluginProvider/Data/UpdateBll.cs:57-68 | deleting touches nothing but the named files and their markers |
| Reconcile.FirstMatchFrom | Plugin.NetworkPluginProvider/Data/UpdateBll.cs:74-81 | the result is the first local plugin from k on with the name and a present file, or none |
| Reconcile.FirstMatch | Plugin.NetworkPluginProvider/Data/UpdateBll.cs:74-81 | the result is the first local plugin with the name and a present file, or none |
| Reconcile.NeedsDownloadIff | Plugin.NetworkPluginProvider/Data/UpdateBll.cs:71-84 | a source plugin is downloaded iff no local plugin of its name has its file, or the first one that has is strictly older |
| Reconcile.NotOlderIsKept | Plugin.NetworkPluginProvider/Data/UpdateBll.cs:78 | an equal or newer first local match is not downloaded again |
| Reconcile.FetchStopsAtFailure | Plugin.NetworkPluginProvider/Data/UpdateBll.cs:145-164 | once a request fails, no later file of that plugin is fetched or saved |
| Reconcile.PerformErrors | Plugin.NetworkPluginProvider/Data/PluginLoaderBase.cs:136-166 | a file operation lets only file exceptions escape |
| Reconcile.FetchErrors | Plugin.NetworkPluginProvider/Data/UpdateBll.cs:161-164 | a URL download never lets a WebException escape |
| Reconcile.Commit | Plugin.NetworkPluginProvider/Data/UpdateBll.cs:174-181 | the commit keeps the fallback flag and writes the encoded list as the current folder's manifest; an empty list writes nothing |
| Reconcile.CommitThenRead | Plugin.NetworkPluginProvider/Data/UpdateBll.cs:174-181 | reading the committed manifest back gives the constructor's result for the update path and the expanded list |
| Reconcile.ReconcileCommits | Plugin.NetworkPluginProvider/Data/UpdateBll.cs:86 | a pass that raised nothing leaves the source manifest, encoded, as the local one |
| Reconcile.UpdateReconciles | Plugin.NetworkPluginProvider/Data/UpdateBll.cs:42-87 | an update that raised nothing read the source manifest and reconciled the folder with it |
| Sync.UpdateBll.constructor | Plugin.NetworkPluginProvider/Data/UpdateBll.cs:35-39 | the object keeps its loader and local manifest |
| Sync.UpdateBll.Open | Plugin.NetworkPluginProvider/Data/UpdateBll.cs:35-39 | the local manifest is what loading the current folder's XmlFileName gives, and a failed load raises |
| Sync.UpdateBll.CheckLocalPlugins | Plugin.NetworkPluginProvider/Data/UpdateBll.cs:91-102 | true iff every plugin file and every reference file of the local manifest exists in the current folder |
| Sync.UpdateBll.IsPluginPresent | Plugin.NetworkPluginProvider/Data/UpdateBll.cs:95-99 | true iff the plugin's file and each of its reference files exist |
| Sync.UpdateBll.UpdateAvailable | Plugin.NetworkPluginProvider/Data/UpdateBll.cs:22-25 | the property computes Available |
| Sync.UpdateBll.IsNamed | Plugin.NetworkPluginProvider/Data/UpdateBll.cs:50-56 | the inner search is true iff some source plugin has the name |
| Sync.UpdateBll.DeletePluginFiles | Plugin.NetworkPluginProvider/Data/UpdateBll.cs:59-67 | deletes the plugin's file, then each reference's file, swallowing each failure |
| Sync.UpdateBll.DeleteOne | Plugin.NetworkPluginProvider/Data/UpdateBll.cs:59-62 | one guarded deletion advances the deletion sequence by one file |
| Sync.UpdateBll.RemoveObsolete | Plugin.NetworkPluginProvider/Data/UpdateBll.cs:48-69 | the removal pass deletes exactly the removal targets, in order |
| Sync.UpdateBll.FetchPlugin | Plugin.NetworkPluginProvider/Data/UpdateBll.cs:143-164 | the URL branch fetches and saves the files in order, stops quietly at a failed request, and lets a save's exception escape |
| Sync.UpdateBll.FetchFile | Plugin.NetworkPluginProvider/Data/UpdateBll.cs:147-151 | one request and save either continues the download or ends it, quietly or with the save's exception |
| Sync.UpdateBll.CopyPlugin | Plugin.NetworkPluginProvider/Data/UpdateBll.cs:165-171 | the folder branch copies the files in order and the first exception escapes |
| Sync.UpdateBll.CopyOne | Plugin.NetworkPluginProvider/Data/UpdateBll.cs:167 | one copy continues the download or ends it with its exception |
| Sync.UpdateBll.DownloadPlugin | Plugin.NetworkPluginProvider/Data/UpdateBll.cs:141-172 | a URL base fetches and any other base copies |
| Sync.UpdateBll.FindLocal | Plugin.NetworkPluginProvider/Data/UpdateBll.cs:73-81 | the inner search finds the first local plugin of that name whose file exists |
| Sync.UpdateBll.AddPlugins | Plugin.NetworkPluginProvider/Data/UpdateBll.cs:71-84 | the add pass downloads each source plugin that needs it, in order, and the first exception ends it |
| Sync.UpdateBll.AddPlugin | Plugin.NetworkPluginProvider/Data/UpdateBll.cs:72-83 | one source plugin is downloaded exactly when NeedsDownload holds at that moment |
| Sync.UpdateBll.SavePlugins | Plugin.NetworkPluginProvider/Data/UpdateBll.cs:174-181 | the manifest of the current folder becomes the encoded list |
| Sync.UpdateBll.SaveDocument | Plugin.NetworkPluginProvider/Data/UpdateInfo.cs:171 | XDocument.Save writes the document unless the path is denied or the file is locked |
| Sync.UpdateBll.UpdatePlugins | Plugin.NetworkPluginProvider/Data/UpdateBll.cs:42-87 | the new flag, files and escaping exception are those of Update: nothing without a local manifest, otherwise remove, add, then commit |
| Sync.DeleteEachAppend | Plugin.NetworkPluginProvider/Data/UpdateBll.cs:48-69 | deleting a concatenated list is deleting the first part and then the rest |
| Sync.CommitWrites | Plugin.NetworkPluginProvider/Data/UpdateBll.cs:180-181 | once encoded, the commit writes the current folder's manifest unless it is denied or locked |
| Sync.FirstMatchUnique | Plugin.NetworkPluginProvider/Data/UpdateBll.cs:74-80 | the search's break lands on the first match |
| Provider.Candidate | Plugin.NetworkPluginProvider/Plugin.cs:156-158 | above index 0 the candidate is stem(index)extension and is longer than the index's digits |
| Provider.CandidateFree | Plugin.NetworkPluginProvider/Plugin.cs:160-162 | beyond a bound set by the longest existing path, no candidate exists, so the search ends |
| Provider.GetUniqueFileName | Plugin.NetworkPluginProvider/Plugin.cs:154-163 | the result is the candidate at the first index, from the start index on, that names no file |
| Provider.UniqueFileNameIsFree | Plugin.NetworkPluginProvider/Plugin.cs:160-162 | the result never names an existing file |
| Provider.UniqueFileNameKeepsFreeName | Plugin.NetworkPluginProvider/Plugin.cs:156-162 | at index 0 a free file name is returned unchanged |
| Provider.Describe | Plugin.NetworkPluginProvider/Plugin.cs:51 | an entry copies the loaded plugin's Name, Version and Description and has no Path and no references |
| Provider.DescribeAll | Plugin.NetworkPluginProvider/Plugin.cs:48-51 | one entry per loaded plugin, in host order |
| Provider.DescribeHost | Plugin.NetworkPluginProvider/Plugin.cs:48-51 | the index++ loop fills a new array with exactly those entries |
| Provider.RebuildXmlFile | Plugin.NetworkPluginProvider/Plugin.cs:44-57 | the method computes Rebuild |
| Provider.RebuildKeepsExisting | Plugin.NetworkPluginProvider/Plugin.cs:53-56 | the rebuilt copy never overwrites or removes an existing file |
| Provider.RebuildWithoutManifestFails | Plugin.NetworkPluginProvider/Plugin.cs:55-56 | without a manifest the empty update path is rejected with ArgumentNullException |
| Provider.RebuildRoundTrip | Plugin.NetworkPluginProvider/Plugin.cs:44-57 | with a manifest, the copy decodes to the manifest's update path and the loaded plugins in host order, Paths defaulted |
| Provider.ResolvedUpdatePathNonEmpty | Plugin.NetworkPluginProvider/Data/UpdateInfo.cs:27-46 | a manifest that loads has a non-empty update path |
| Provider.OnDisconnection | Plugin.NetworkPluginProvider/Plugin.cs:65-76 | the provider agrees to unload iff the host closes or shuts down |
| Provider.CheckAssemblyName | Plugin.NetworkPluginProvider/Plugin.cs:89-90 | a null or empty name raises ArgumentNullException naming assemblyName; any other name passes unchanged |

## Left out

- `BinaryWebRequest`, `HttpWebRequest` and proxy credentials are not modelled. A download is an abstract fetch that gives bytes or fails with a WebException. The `Last-Modified` lookup is an abstract result. File write times are abstract integers.
- XML text parsing and writing by `XDocument` are not modelled. A document is an element tree. A file holding something other than a manifest fails to load as a malformed document.
- `System.Version` parsing accepts only digits, so signs and whitespace, which .NET tolerates, are not modelled.
- Case folding in the ".xml" suffix test covers ASCII only, not the invariant culture's full rules.
- `Uri.IsWellFormedUriString` and `File.Exists` of paths outside the file map are parameters.
- ACL retrieval by `GetAccessControl` is not modelled. The constructor receives the rule list or null.
- `ApplicationName`, `GetTempPath` and the lazy creation of the fallback folder are not modelled. The fallback folder is a constant path.
- Folders are not entities: the file system is a map from full paths to files. A folder's own path is a refused target, which is how .NET treats a delete or write of a folder as a file.
- Loader.PluginLoader.CopyFile: with an empty base name the source is the download folder itself; the model treats it as a missing source, which is logged and ignored, while .NET refuses to copy a folder.
- `GetFiles` receives the folder listing as a parameter. The listing is eager rather than the source's lazy enumeration.
- Tracing (`TraceSource`) is not modelled, because it never changes control flow.
- Assembly loading is not modelled: `UpdateBll.LoadPlugins`, the search loop of `ResolveAssembly` and `FindPluginI` are reflection and host calls.
- `OnConnection`, `FilePluginArgs` and the lazy `Settings` and `Trace` properties are not modelled. `RebuildXmlFile` receives the first plugin folder as a parameter.
- `PluginSettings.cs` and `AssemblyInfo.cs` hold no logic.
- Concurrency is not modelled: the source assumes one pass per folder.
- Null constructor arguments are not modelled: a null plugin, loader or host.
- A null update path string is not modelled: paths are non-null strings, and only emptiness is checked.
- `Constant.XmlFileName` is not part of this model. It is assumed to be "Plugins.xml".
- The `_lastModified` field of `UpdateBll` is not kept: it is written by `IsNewVersion` and never read.
- Version `<` on a null operand follows .NET Core and .NET 5 and later, where null ranks below every version; on .NET Framework a null left operand raises ArgumentNullException. The case cannot arise: the comparison (UpdateBll.cs:78) only sees versions of loaded manifests, which always have one (`Reconcile.ReadManifestHasVersions`).
- Provider.GetUniqueFileName: the index is unbounded and does not model Int32 overflow, which would need more than 2^31 files of the same name.
- Provider.RebuildXmlFile: modelled on values, so it returns the new file map rather than writing in place. The manifest copy is written straight into the map under the unique name, because `UpdateInfo.SavePlugins` writes with `XDocument.Save`, not through the loader.
- Sync.UpdateBll.SaveDocument: `XDocument.Save` is modelled as an atomic write that fails on a denied or locked path, without the loader's recovery. This matches the source, which saves the manifest directly.
- Sync.UpdateBll.constructor: takes the already-loaded local manifest; `Sync.UpdateBll.Open` models the loading constructor.
