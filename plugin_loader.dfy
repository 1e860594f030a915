/** PluginLoaderBase and PluginLoader: the folder plugins are stored in, the
    write-permission probe that picks it, and the resilient file operation
    that falls back to a per-user folder when the plugin folder is read-only
    and renames a file that is in use out of the way. */
module Loader {
  import opened Common
  import opened Paths
  import opened FileSystem

  // ---- directory permissions ----

  datatype ControlType = Allow | Deny

  /** A FileSystemAccessRule: its rights mask and whether it allows or denies them. */
  datatype AccessRule = AccessRule(rights: bv32, control: ControlType)

  /** FileSystemRights.Write = WriteData | AppendData | WriteExtendedAttributes | WriteAttributes. */
  const WriteRights: bv32 := 0x116
  /** FileSystemRights.Delete. */
  const DeleteRights: bv32 := 0x10000

  predicate Covers(rule: AccessRule, rights: bv32) {
    rule.rights & rights == rights
  }

  predicate SomeRule(rules: seq<AccessRule>, rights: bv32, control: ControlType) {
    exists r :: r in rules && Covers(r, rights) && r.control == control
  }

  /** The directory grants write and delete: some rule allows each in full and
      no rule denies either in full. A missing ACL grants nothing. */
  predicate HasPermission(acl: Option<seq<AccessRule>>) {
    && acl.Some?
    && SomeRule(acl.value, WriteRights, Allow) && !SomeRule(acl.value, WriteRights, Deny)
    && SomeRule(acl.value, DeleteRights, Allow) && !SomeRule(acl.value, DeleteRights, Deny)
  }

  /** The order of the rules does not matter. */
  lemma HasPermissionOrderFree(a: seq<AccessRule>, b: seq<AccessRule>)
    requires multiset(a) == multiset(b)
    ensures HasPermission(Some(a)) == HasPermission(Some(b))
  {
    forall r ensures r in a <==> r in b {
      assert r in a <==> r in multiset(a);
      assert r in b <==> r in multiset(b);
    }
  }

  /** One rule denying write or delete in full withholds the permission, whatever else the ACL says. */
  lemma DenyOverrides(acl: seq<AccessRule>, i: nat)
    requires i < |acl| && acl[i].control == Deny
    requires Covers(acl[i], WriteRights) || Covers(acl[i], DeleteRights)
    ensures !HasPermission(Some(acl))
  {
    assert acl[i] in acl;
  }

  /** SomeRule over a prefix grows by one rule at a time. */
  lemma SomeRuleStep(rules: seq<AccessRule>, i: nat, rights: bv32, control: ControlType)
    requires i < |rules|
    ensures SomeRule(rules[..i + 1], rights, control)
        <==> SomeRule(rules[..i], rights, control) || (Covers(rules[i], rights) && rules[i].control == control)
  {
    assert rules[..i + 1] == rules[..i] + [rules[i]];
    if SomeRule(rules[..i + 1], rights, control) {
      var r :| r in rules[..i + 1] && Covers(r, rights) && r.control == control;
      if r != rules[i] { assert r in rules[..i]; }
    }
    if SomeRule(rules[..i], rights, control) {
      var r :| r in rules[..i] && Covers(r, rights) && r.control == control;
      assert r in rules[..i + 1];
    }
    if Covers(rules[i], rights) && rules[i].control == control {
      assert rules[i] in rules[..i + 1];
    }
  }

  /** PluginLoaderBase.HasPermissionOnDir, once the ACL has been read. */
  method HasPermissionOnDir(acl: Option<seq<AccessRule>>) returns (ok: bool)
    ensures ok == HasPermission(acl)
  {
    if acl.None? {
      return false;
    }
    var rules := acl.value;
    var writeAllow, writeDeny, deleteAllow, deleteDeny := false, false, false, false;
    var i := 0;
    while i < |rules|
      invariant 0 <= i <= |rules|
      invariant writeAllow == SomeRule(rules[..i], WriteRights, Allow)
      invariant writeDeny == SomeRule(rules[..i], WriteRights, Deny)
      invariant deleteAllow == SomeRule(rules[..i], DeleteRights, Allow)
      invariant deleteDeny == SomeRule(rules[..i], DeleteRights, Deny)
    {
      var rule := rules[i];
      SomeRuleStep(rules, i, WriteRights, Allow);
      SomeRuleStep(rules, i, WriteRights, Deny);
      SomeRuleStep(rules, i, DeleteRights, Allow);
      SomeRuleStep(rules, i, DeleteRights, Deny);
      if rule.rights & WriteRights == WriteRights {
        if rule.control == Allow {
          writeAllow := true;
        } else {
          writeDeny := true;
        }
      }
      if rule.rights & DeleteRights == DeleteRights {
        if rule.control == Allow {
          deleteAllow := true;
        } else {
          deleteDeny := true;
        }
      }
      i := i + 1;
    }
    assert rules[..|rules|] == rules;
    ok := (writeAllow && !writeDeny) && (deleteAllow && !deleteDeny);
  }

  // ---- the resilient file operation ----

  /** What the loader cannot change: the plugin folder, the per-user fallback
      folder, and the paths this process may not write. */
  datatype Setting = Setting(localPath: string, tempPath: string, denied: set<string>)

  function CurrentDir(fallback: bool, setting: Setting): string {
    if fallback then setting.tempPath else setting.localPath
  }

  /** filePath.Remove(filePath.Length - 1) + "_": where a file in use is moved to. */
  function Marker(path: string): (m: string)
    requires path != []
    ensures |m| == |path| && m[..|m| - 1] == path[..|path| - 1] && m[|m| - 1] == '_'
  {
    path[..|path| - 1] + "_"
  }

  /** File.Delete(path) when File.Exists(path). */
  function DeleteIfExists(files: Files, path: string, denied: set<string>): (r: Result<Files>)
    ensures r.Ok? ==> !FileExists(r.value, path)
    ensures r.Ok? ==> forall p :: p != path ==> (p in r.value <==> p in files)
    ensures r.Ok? ==> forall p :: p != path && p in files ==> r.value[p] == files[p]
    ensures r.Err? ==> FileExists(files, path)
  {
    if !FileExists(files, path) then Ok(files)
    else
      var a := Apply(Delete, path, files, denied);
      match a.outcome
      case Completed => Ok(a.files)
      case Denied => Err(UnauthorizedAccess)
      case _ => Err(FileBusy)
  }

  /** File.Move(source, target); a locked file may be renamed. */
  function Move(files: Files, source: string, target: string, denied: set<string>): (r: Result<Files>)
    ensures r.Ok? ==> source != target && source in files
    ensures r.Ok? ==> source !in r.value && target in r.value && r.value[target] == files[source]
    ensures r.Ok? ==> forall p :: p != source && p != target ==> (p in r.value <==> p in files)
    ensures r.Ok? ==> forall p :: p != source && p != target && p in files ==> r.value[p] == files[p]
  {
    if !FileExists(files, source) then Err(FileMissing)
    else if source in denied || target in denied then Err(UnauthorizedAccess)
    else if FileExists(files, target) || target == [] then Err(FileBusy)
    else Ok((files - {source})[target := files[source]])
  }

  /** The loader's state after an operation, and the exception it let escape. */
  datatype Step = Step(fallback: bool, files: Files, error: Option<Error>)

  /** PerformIOAction on the state (fallback, files): run the action on
      CurrentPath\fileName. A missing source is logged and ignored. A denial
      in the plugin folder switches to the fallback folder for good and runs
      the action again; a denial there escapes. A file in use is moved to its
      marker name (replacing an older marker) and the action runs again; when
      the target does not exist the IOException escapes, and so does any
      exception of the delete or the move. */
  function Perform(fallback: bool, files: Files, setting: Setting, fileName: string, action: IOAction): (r: Step)
    decreases (if fallback then 0 else 1),
              (if FileExists(files, Combine(CurrentDir(fallback, setting), fileName)) then 1 else 0)
  {
    var path := Combine(CurrentDir(fallback, setting), fileName);
    var a := Apply(action, path, files, setting.denied);
    match a.outcome
    case Completed => Step(fallback, a.files, None)
    case NotFound => Step(fallback, files, None)
    case Rejected => Step(fallback, files, Some(InvalidPath))
    case Denied =>
      if !fallback then Perform(true, files, setting, fileName, action)
      else Step(fallback, files, Some(UnauthorizedAccess))
    case Busy =>
      if !FileExists(files, path) then Step(fallback, files, Some(FileBusy))
      else
        var marker := Marker(path);
        match DeleteIfExists(files, marker, setting.denied)
        case Err(e) => Step(fallback, files, Some(e))
        case Ok(cleared) =>
          match Move(cleared, path, marker, setting.denied)
          case Err(e) => Step(fallback, cleared, Some(e))
          case Ok(moved) => Perform(fallback, moved, setting, fileName, action)
  }

  /** The paths an operation on fileName may change: the target in either
      folder and the marker beside it. */
  function Touched(setting: Setting, fileName: string): set<string> {
    var local := Combine(setting.localPath, fileName);
    var temp := Combine(setting.tempPath, fileName);
    {local, temp}
      + (if local != [] then {Marker(local)} else {})
      + (if temp != [] then {Marker(temp)} else {})
  }

  /** Once in the fallback folder the loader never returns to the plugin folder. */
  lemma {:induction false} PerformKeepsFallback(fallback: bool, files: Files, setting: Setting, fileName: string, action: IOAction)
    requires fallback
    ensures Perform(fallback, files, setting, fileName, action).fallback
    decreases if FileExists(files, Combine(CurrentDir(fallback, setting), fileName)) then 1 else 0
  {
    var path := Combine(CurrentDir(fallback, setting), fileName);
    var a := Apply(action, path, files, setting.denied);
    if a.outcome == Busy && FileExists(files, path) {
      var marker := Marker(path);
      var cleared := DeleteIfExists(files, marker, setting.denied);
      if cleared.Ok? {
        var moved := Move(cleared.value, path, marker, setting.denied);
        if moved.Ok? {
          PerformKeepsFallback(fallback, moved.value, setting, fileName, action);
        }
      }
    }
  }

  /** The loader switches to the fallback folder only when the plugin folder refused the target. */
  lemma {:induction false} PerformSwitchesOnlyOnDenial(files: Files, setting: Setting, fileName: string, action: IOAction)
    requires Perform(false, files, setting, fileName, action).fallback
    ensures Combine(setting.localPath, fileName) in setting.denied
    decreases if FileExists(files, Combine(setting.localPath, fileName)) then 1 else 0
  {
    var path := Combine(CurrentDir(false, setting), fileName);
    var a := Apply(action, path, files, setting.denied);
    if a.outcome == Busy && FileExists(files, path) {
      var marker := Marker(path);
      var cleared := DeleteIfExists(files, marker, setting.denied);
      if cleared.Ok? {
        var moved := Move(cleared.value, path, marker, setting.denied);
        if moved.Ok? {
          PerformSwitchesOnlyOnDenial(moved.value, setting, fileName, action);
        }
      }
    }
  }

  ghost predicate SameOutside(before: Files, after: Files, keep: set<string>) {
    && (forall p :: p !in keep ==> (p in after <==> p in before))
    && (forall p :: p !in keep && p in before ==> after[p] == before[p])
  }

  /** Only the target and its marker, in either folder, can change. */
  lemma {:induction false} PerformFrame(fallback: bool, files: Files, setting: Setting, fileName: string, action: IOAction)
    ensures SameOutside(files, Perform(fallback, files, setting, fileName, action).files, Touched(setting, fileName))
    decreases (if fallback then 0 else 1),
              (if FileExists(files, Combine(CurrentDir(fallback, setting), fileName)) then 1 else 0)
  {
    var path := Combine(CurrentDir(fallback, setting), fileName);
    var a := Apply(action, path, files, setting.denied);
    var keep := Touched(setting, fileName);
    assert path in keep;
    if a.outcome == Denied && !fallback {
      PerformFrame(true, files, setting, fileName, action);
    } else if a.outcome == Busy && FileExists(files, path) {
      var marker := Marker(path);
      assert marker in keep;
      var cleared := DeleteIfExists(files, marker, setting.denied);
      if cleared.Ok? {
        var moved := Move(cleared.value, path, marker, setting.denied);
        if moved.Ok? {
          PerformFrame(fallback, moved.value, setting, fileName, action);
          assert SameOutside(files, moved.value, keep);
        }
      }
    }
  }

  /** What an operation that raised nothing leaves in the folder it ended in:
      no file after a delete, the bytes after a write, and the source's content
      after a copy whose source exists and is not one of the touched paths. */
  lemma {:induction false} PerformEffect(fallback: bool, files: Files, setting: Setting, fileName: string, action: IOAction)
    requires Perform(fallback, files, setting, fileName, action).error.None?
    requires action.CopyFrom? ==> action.source !in Touched(setting, fileName)
    ensures var r := Perform(fallback, files, setting, fileName, action);
      var path := Combine(CurrentDir(r.fallback, setting), fileName);
      match action
      case Delete => path !in r.files
      case WriteAllBytes(bytes) => FileExists(r.files, path) && r.files[path] == FileEntry(Bytes(bytes), false)
      case CopyFrom(source) =>
        FileExists(files, source) ==> FileExists(r.files, path) && r.files[path] == FileEntry(files[source].content, false)
    decreases (if fallback then 0 else 1),
              (if FileExists(files, Combine(CurrentDir(fallback, setting), fileName)) then 1 else 0)
  {
    var path := Combine(CurrentDir(fallback, setting), fileName);
    var a := Apply(action, path, files, setting.denied);
    match a.outcome
    case Completed =>
      ApplyEffect(action, path, files, setting.denied);
    case NotFound =>
    case Rejected =>
    case Denied =>
      PerformEffect(true, files, setting, fileName, action);
    case Busy =>
      var marker := Marker(path);
      var cleared := DeleteIfExists(files, marker, setting.denied);
      var moved := Move(cleared.value, path, marker, setting.denied);
      assert marker in Touched(setting, fileName);
      PerformEffect(fallback, moved.value, setting, fileName, action);
  }

  /** A write to a read-only plugin folder lands in the fallback folder, and the loader stays there. */
  lemma WriteFallsBack(files: Files, setting: Setting, fileName: string, bytes: seq<byte>)
    requires Combine(setting.localPath, fileName) != [] && Combine(setting.tempPath, fileName) != []
    requires Combine(setting.localPath, fileName) in setting.denied
    requires Combine(setting.tempPath, fileName) !in setting.denied
    requires var t := Combine(setting.tempPath, fileName); t in files ==> !files[t].locked
    ensures Perform(false, files, setting, fileName, WriteAllBytes(bytes))
         == Step(true, files[Combine(setting.tempPath, fileName) := FileEntry(Bytes(bytes), false)], None)
  {
  }

  /** A write to a file in use moves the old file to its marker name, which
      keeps it (and its lock) for the running process, and writes the new one. */
  lemma WriteRenamesFileInUse(files: Files, setting: Setting, fileName: string, bytes: seq<byte>)
    requires var p := Combine(setting.localPath, fileName);
      && FileExists(files, p) && files[p].locked && p[|p| - 1] != '_'
      && p !in setting.denied && Marker(p) !in setting.denied && Marker(p) !in files
    ensures var p := Combine(setting.localPath, fileName);
      Perform(false, files, setting, fileName, WriteAllBytes(bytes))
        == Step(false, files[Marker(p) := files[p]][p := FileEntry(Bytes(bytes), false)], None)
  {
    var p := Combine(setting.localPath, fileName);
    var m := Marker(p);
    assert m != p by { assert m[|m| - 1] != p[|p| - 1]; }
    var moved := (files - {p})[m := files[p]];
    assert Move(files, p, m, setting.denied) == Ok(moved);
    assert moved[p := FileEntry(Bytes(bytes), false)] == files[m := files[p]][p := FileEntry(Bytes(bytes), false)];
  }

  /** A write to a file in use replaces a marker left by an earlier update:
      the old marker is deleted, then the file is moved to the marker name. */
  lemma WriteReplacesEarlierMarker(files: Files, setting: Setting, fileName: string, bytes: seq<byte>)
    requires var p := Combine(setting.localPath, fileName);
      && FileExists(files, p) && files[p].locked && p[|p| - 1] != '_'
      && p !in setting.denied && Marker(p) !in setting.denied
      && Marker(p) in files && !files[Marker(p)].locked
    ensures var p := Combine(setting.localPath, fileName);
      Perform(false, files, setting, fileName, WriteAllBytes(bytes))
        == Step(false, files[Marker(p) := files[p]][p := FileEntry(Bytes(bytes), false)], None)
  {
    var p := Combine(setting.localPath, fileName);
    var m := Marker(p);
    assert m != p by { assert m[|m| - 1] != p[|p| - 1]; }
    var cleared := files - {m};
    assert DeleteIfExists(files, m, setting.denied) == Ok(cleared);
    var moved := (cleared - {p})[m := files[p]];
    assert Move(cleared, p, m, setting.denied) == Ok(moved);
    assert moved[p := FileEntry(Bytes(bytes), false)] == files[m := files[p]][p := FileEntry(Bytes(bytes), false)];
  }

  /** A copy whose source is missing logs and changes nothing, in either folder. */
  lemma PerformNotFoundSwallowed(fallback: bool, files: Files, setting: Setting, fileName: string, source: string)
    requires source != [] && source !in files
    requires Combine(CurrentDir(fallback, setting), fileName) != []
    ensures Perform(fallback, files, setting, fileName, CopyFrom(source)) == Step(fallback, files, None)
  {
  }

  /** A denial in the fallback folder is not recovered from: the loader ends
      in the fallback folder with nothing changed and the
      UnauthorizedAccessException escapes. */
  lemma PerformDeniedInFallbackEscapes(fallback: bool, files: Files, setting: Setting, fileName: string, action: IOAction)
    requires Combine(CurrentDir(fallback, setting), fileName) != []
    requires Combine(CurrentDir(fallback, setting), fileName) in setting.denied
    requires Combine(setting.tempPath, fileName) != [] && Combine(setting.tempPath, fileName) in setting.denied
    requires action.CopyFrom? ==> FileExists(files, action.source) && !files[action.source].locked
    ensures Perform(fallback, files, setting, fileName, action) == Step(true, files, Some(UnauthorizedAccess))
  {
  }

  /** Both folders are among the paths refused as files. */
  predicate FoldersRefused(setting: Setting) {
    setting.localPath in setting.denied && setting.tempPath in setting.denied
  }

  /** An empty base name names the plugin folder itself: deleting or writing
      it is refused, the loader switches to the fallback folder, and the
      refusal there escapes (an empty fallback path is rejected instead). */
  lemma EmptyNameSwitchesToFallback(files: Files, setting: Setting, action: IOAction)
    requires FoldersRefused(setting) && setting.localPath != []
    requires action.Delete? || action.WriteAllBytes?
    ensures Perform(false, files, setting, [], action)
         == Step(true, files, Some(if setting.tempPath == [] then InvalidPath else UnauthorizedAccess))
  {
  }

  /** An IOException on a target that does not exist is not recovered from. */
  lemma BusyWithoutTargetEscapes(fallback: bool, files: Files, setting: Setting, fileName: string, source: string)
    requires FileExists(files, source) && files[source].locked
    requires Combine(CurrentDir(fallback, setting), fileName) != []
    requires Combine(CurrentDir(fallback, setting), fileName) !in files
    ensures Perform(fallback, files, setting, fileName, CopyFrom(source)) == Step(fallback, files, Some(FileBusy))
  {
  }

  /** The first-level elements of `s` that `accept` keeps, in order. */
  function Filter(s: seq<string>, accept: string -> bool): (r: seq<string>)
    ensures |r| <= |s|
    ensures forall x :: x in r <==> x in s && accept(x)
  {
    if s == [] then []
    else if accept(s[0]) then [s[0]] + Filter(s[1..], accept)
    else Filter(s[1..], accept)
  }

  /** A path naming a file directly inside dir. */
  predicate InFolder(path: string, dir: string) {
    GetFileName(path) != [] && Combine(dir, GetFileName(path)) == path
  }

  /** PluginLoaderBase and PluginLoader. */
  class PluginLoader {
    const setting: Setting
    /** IsTempPathUsed. */
    var isTempPathUsed: bool
    /** The local file system. */
    var files: Files

    /** The plugin folder is replaced by the fallback folder from the start
        when the fallback folder exists and the plugin folder's ACL does not
        grant write and delete; the ACL is only read in that case. A folder
        is not a file, so both folder paths are refused as targets. */
    constructor(localPath: string, tempPath: string, denied: set<string>, files: Files,
                tempDirExists: bool, acl: Option<seq<AccessRule>>)
      ensures setting == Setting(localPath, tempPath, denied + {localPath, tempPath}) && this.files == files
      ensures FoldersRefused(setting)
      ensures isTempPathUsed <==> tempDirExists && !HasPermission(acl)
    {
      var used := false;
      if tempDirExists {
        var ok := HasPermissionOnDir(acl);
        used := !ok;
      }
      setting := Setting(localPath, tempPath, denied + {localPath, tempPath});
      this.files := files;
      isTempPathUsed := used;
    }

    /** The folder plugins are currently read from and written to. */
    function CurrentPath(): (dir: string)
      reads this
      ensures isTempPathUsed ==> dir == setting.tempPath
      ensures !isTempPathUsed ==> dir == setting.localPath
    {
      CurrentDir(isTempPathUsed, setting)
    }

    /** Only the base name of fileName counts: a file of that name in the current folder. */
    predicate Exists(fileName: string)
      reads this
      ensures Exists(fileName) ==> Combine(CurrentPath(), GetFileName(fileName)) in files
      ensures var path := Combine(CurrentPath(), GetFileName(fileName));
        path != [] && path in files ==> Exists(fileName)
    {
      FileExists(files, Combine(CurrentPath(), GetFileName(fileName)))
    }

    /** Two names with the same base name are the same file to the loader. */
    lemma ExistsByBaseName(a: string, b: string)
      requires GetFileName(a) == GetFileName(b)
      ensures Exists(a) == Exists(b)
    {
    }

    /** The files of the current folder that the filter accepts, in listing order. */
    method GetFiles(listing: seq<string>, accept: string -> bool) returns (r: seq<string>)
      requires forall p :: p in listing <==> p in files && InFolder(p, CurrentPath())
      ensures r == Filter(listing, accept)
      ensures forall p :: p in r <==> p in files && InFolder(p, CurrentPath()) && accept(p)
    {
      r := [];
      var i := 0;
      while i < |listing|
        invariant 0 <= i <= |listing|
        invariant r + Filter(listing[i..], accept) == Filter(listing, accept)
      {
        assert listing[i..][1..] == listing[i + 1..];
        if accept(listing[i]) {
          r := r + [listing[i]];
        }
        i := i + 1;
      }
    }

    method PerformIOAction(fileName: string, action: IOAction) returns (error: Option<Error>)
      modifies this
      ensures Step(isTempPathUsed, files, error) == Perform(old(isTempPathUsed), old(files), setting, fileName, action)
      decreases (if isTempPathUsed then 0 else 1),
                (if FileExists(files, Combine(CurrentPath(), fileName)) then 1 else 0)
    {
      var path := Combine(CurrentPath(), fileName);
      var a := Apply(action, path, files, setting.denied);
      match a.outcome
      case Completed =>
        files := a.files;
        error := None;
      case NotFound =>
        error := None;
      case Rejected =>
        error := Some(InvalidPath);
      case Denied =>
        if !isTempPathUsed {
          isTempPathUsed := true;
          error := PerformIOAction(fileName, action);
        } else {
          error := Some(UnauthorizedAccess);
        }
      case Busy =>
        if FileExists(files, path) {
          var marker := Marker(path);
          var cleared := DeleteIfExists(files, marker, setting.denied);
          if cleared.Err? {
            error := Some(cleared.error);
          } else {
            files := cleared.value;
            var moved := Move(files, path, marker, setting.denied);
            if moved.Err? {
              error := Some(moved.error);
            } else {
              files := moved.value;
              error := PerformIOAction(fileName, action);
            }
          }
        } else {
          error := Some(FileBusy);
        }
    }

    /** Deletes the file of that base name; when nothing escapes, it is gone. */
    method DeleteFile(fileName: string) returns (error: Option<Error>)
      modifies this
      ensures Step(isTempPathUsed, files, error)
           == Perform(old(isTempPathUsed), old(files), setting, GetFileName(fileName), Delete)
      ensures error.None? ==> !Exists(fileName)
    {
      error := PerformIOAction(GetFileName(fileName), Delete);
      if error.None? {
        PerformEffect(old(isTempPathUsed), old(files), setting, GetFileName(fileName), Delete);
      }
    }

    /** Writes the bytes under that base name; when nothing escapes, the file holds them. */
    method SaveFile(fileName: string, bytes: seq<byte>) returns (error: Option<Error>)
      modifies this
      ensures Step(isTempPathUsed, files, error)
           == Perform(old(isTempPathUsed), old(files), setting, GetFileName(fileName), WriteAllBytes(bytes))
      ensures error.None? ==>
        (Exists(fileName) && files[Combine(CurrentPath(), GetFileName(fileName))] == FileEntry(Bytes(bytes), false))
    {
      error := PerformIOAction(GetFileName(fileName), WriteAllBytes(bytes));
      if error.None? {
        PerformEffect(old(isTempPathUsed), old(files), setting, GetFileName(fileName), WriteAllBytes(bytes));
      }
    }

    /** Copies downloadPath\name over the file of that base name. */
    method CopyFile(downloadPath: string, fileName: string) returns (error: Option<Error>)
      modifies this
      ensures var source := Combine(downloadPath, GetFileName(fileName));
        Step(isTempPathUsed, files, error)
          == Perform(old(isTempPathUsed), old(files), setting, GetFileName(fileName), CopyFrom(source))
      ensures var source := Combine(downloadPath, GetFileName(fileName));
        (error.None? && FileExists(old(files), source) && source !in Touched(setting, GetFileName(fileName))) ==>
        (Exists(fileName) && files[Combine(CurrentPath(), GetFileName(fileName))] == FileEntry(old(files)[source].content, false))
    {
      var source := Combine(downloadPath, GetFileName(fileName));
      error := PerformIOAction(GetFileName(fileName), CopyFrom(source));
      if error.None? && FileExists(old(files), source) && source !in Touched(setting, GetFileName(fileName)) {
        PerformEffect(old(isTempPathUsed), old(files), setting, GetFileName(fileName), CopyFrom(source));
      }
    }
  }
}
