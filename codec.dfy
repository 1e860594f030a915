/** UpdateInfo: the manifest's update location, the download base derived
    from it, and the plugin list; the constructor that resolves the location
    and the two halves of the codec between the model and the document. */
module Codec {
  import opened Common
  import opened Paths
  import opened Versions
  import opened Xml
  import opened PluginData

  /** Constant.XmlFileName, the name of the manifest file in a plugin folder. */
  const XmlFileName: string := "Plugins.xml"

  datatype UpdateInfo = UpdateInfo(updatePath: string, downloadPath: string, plugins: seq<PluginInfo>)

  /** The two questions the codec asks outside itself: File.Exists(path) and
      Uri.IsWellFormedUriString(path, UriKind.Absolute). */
  datatype Env = Env(fileExists: string -> bool, isAbsoluteUri: string -> bool)

  // ---- constructor: resolving the update location ----

  lemma XmlFileNameIsXml()
    ensures EndsWithIgnoreCase(XmlFileName, ".xml")
  {
    var s := XmlFileName;
    assert s[7] == '.' && s[8] == 'x' && s[9] == 'm' && s[10] == 'l';
  }

  lemma EndsWithIgnoreCaseAppend(s: string, t: string, suffix: string)
    requires EndsWithIgnoreCase(t, suffix)
    ensures EndsWithIgnoreCase(s + t, suffix)
  {
    forall i | 0 <= i < |suffix|
      ensures ToUpperAscii((s + t)[|s + t| - |suffix| + i]) == ToUpperAscii(suffix[i])
    {
      assert (s + t)[|s + t| - |suffix| + i] == t[|t| - |suffix| + i];
    }
  }

  /** A location ending in ".xml" ends in a non-empty file name. */
  lemma XmlLocationHasFileName(location: string)
    requires EndsWithIgnoreCase(location, ".xml")
    ensures GetFileName(location) != []
  {
    assert ToUpperAscii(location[|location| - 1]) == ToUpperAscii(".xml"[3]);
    assert !IsBoundary(location[|location| - 1]);
  }

  /** new UpdateInfo(location, plugins). */
  function Resolve(location: string, plugins: Option<seq<PluginInfo>>, env: Env): (r: Result<UpdateInfo>)
    ensures plugins.None? ==> r == Err(ArgumentNull("plugins"))
    ensures r.Ok? ==> plugins == Some(r.value.plugins)
    ensures r.Ok? ==> EndsWithIgnoreCase(r.value.updatePath, ".xml")
  {
    if plugins.None? then Err(ArgumentNull("plugins"))
    else if EndsWithIgnoreCase(location, ".xml") then
      XmlLocationHasFileName(location);
      Ok(UpdateInfo(location, ReplaceAll(location, GetFileName(location), ""), plugins.value))
    else
      var folder :=
        if EndsWith(location, "/") || EndsWith(location, "\\") then Some(location)
        else if env.fileExists(location) then Some(location + "\\")
        else if env.isAbsoluteUri(location) then Some(location + "/")
        else None;
      if folder.None? then Err(NotSupported)
      else
        XmlFileNameIsXml();
        EndsWithIgnoreCaseAppend(folder.value, XmlFileName, ".xml");
        Ok(UpdateInfo(folder.value + XmlFileName, folder.value, plugins.value))
  }

  /** A location naming the .xml file is kept; the download base is its
      directory part with EVERY occurrence of the file name removed, which is
      the directory part itself when the file name does not occur in it. */
  lemma ResolveXmlLocation(location: string, plugins: seq<PluginInfo>, env: Env)
    requires EndsWithIgnoreCase(location, ".xml")
    ensures Resolve(location, Some(plugins), env).Ok?
    ensures Resolve(location, Some(plugins), env).value.updatePath == location
    ensures GetFileName(location) != []
    ensures Resolve(location, Some(plugins), env).value.downloadPath
         == ReplaceAll(DirectoryPart(location), GetFileName(location), "")
    ensures (forall i: nat :: !OccursAt(DirectoryPart(location), GetFileName(location), i))
         ==> Resolve(location, Some(plugins), env).value.downloadPath == DirectoryPart(location)
  {
    XmlLocationHasFileName(location);
    var dir, name := DirectoryPart(location), GetFileName(location);
    ReplaceWhole(name, "");
    if dir == [] {
      assert location == name;
    } else {
      forall i | 0 <= i < |name| ensures name[i] != dir[|dir| - 1] {
        assert !IsBoundary(name[i]);
      }
      ReplaceSplit(dir, name, name, "");
      assert ReplaceAll(dir, name, "") + [] == ReplaceAll(dir, name, "");
    }
    if forall i: nat :: !OccursAt(dir, name, i) {
      ReplaceAbsent(dir, name, "");
    }
  }

  /** Because the replacement is global, a directory that repeats the file
      name loses it too: "a.xml\a.xml" downloads from "\" and not "a.xml\". */
  lemma ResolveRemovesEveryOccurrence(plugins: seq<PluginInfo>, env: Env)
    ensures Resolve("a.xml\\a.xml", Some(plugins), env).Ok?
    ensures Resolve("a.xml\\a.xml", Some(plugins), env).value.downloadPath == "\\"
  {
    RepeatedNameIsXml();
    ReplaceRepeatedName();
  }

  lemma RepeatedNameIsXml()
    ensures EndsWithIgnoreCase("a.xml\\a.xml", ".xml")
    ensures GetFileName("a.xml\\a.xml") == "a.xml"
  {
    var location := "a.xml\\a.xml";
    assert location[7] == '.' && location[8] == 'x' && location[9] == 'm' && location[10] == 'l';
    GetFileNameAfterBoundary("a.xml\\", "a.xml");
    assert location == "a.xml\\" + "a.xml";
  }

  lemma ReplaceRepeatedName()
    ensures ReplaceAll("a.xml\\a.xml", "a.xml", "") == "\\"
  {
    ReplaceWhole("a.xml", "");
    ReplaceSplit("a.xml\\", "a.xml", "a.xml", "");
    assert "a.xml\\a.xml" == "a.xml\\" + "a.xml";
    assert OccursAt("a.xml\\", "a.xml", 0);
    ReplaceAtMatch("a.xml\\", "a.xml", "");
    assert "a.xml\\"[5..] == "\\";
    assert ReplaceAll("\\", "a.xml", "") == "\\";
  }

  /** A location that is not an .xml file becomes a folder: its manifest is
      XmlFileName inside it and files download from the folder itself. A
      trailing separator is kept, a bare existing file path gets '\', a bare
      absolute URI gets '/', and anything else is not supported. */
  lemma ResolveFolderLocation(location: string, plugins: seq<PluginInfo>, env: Env)
    requires !EndsWithIgnoreCase(location, ".xml")
    ensures var r := Resolve(location, Some(plugins), env);
      && (EndsWith(location, "/") || EndsWith(location, "\\") ==>
            r == Ok(UpdateInfo(location + XmlFileName, location, plugins)))
      && (!EndsWith(location, "/") && !EndsWith(location, "\\") ==>
            r == if env.fileExists(location) then Ok(UpdateInfo(location + "\\" + XmlFileName, location + "\\", plugins))
                 else if env.isAbsoluteUri(location) then Ok(UpdateInfo(location + "/" + XmlFileName, location + "/", plugins))
                 else Err(NotSupported))
  {
  }

  /** Every folder-form result downloads from a folder ending in a separator
      whose manifest is XmlFileName in that folder. */
  lemma ResolveFolderShape(location: string, plugins: seq<PluginInfo>, env: Env)
    requires !EndsWithIgnoreCase(location, ".xml")
    requires Resolve(location, Some(plugins), env).Ok?
    ensures var info := Resolve(location, Some(plugins), env).value;
      && info.updatePath == info.downloadPath + XmlFileName
      && (EndsWith(info.downloadPath, "/") || EndsWith(info.downloadPath, "\\"))
      && location <= info.downloadPath
  {
  }

  /** Resolution is idempotent on the update path: resolving an UpdatePath again keeps it. */
  lemma ResolveUpdatePathStable(location: string, plugins: seq<PluginInfo>, env: Env, env': Env)
    requires Resolve(location, Some(plugins), env).Ok?
    ensures var up := Resolve(location, Some(plugins), env).value.updatePath;
      Resolve(up, Some(plugins), env').Ok? && Resolve(up, Some(plugins), env').value.updatePath == up
  {
  }

  /** The example of a bare URL: "http://host/dir" downloads from "http://host/dir/". */
  lemma ResolveBareUrl(plugins: seq<PluginInfo>, env: Env)
    requires !env.fileExists("http://host/dir") && env.isAbsoluteUri("http://host/dir")
    ensures Resolve("http://host/dir", Some(plugins), env)
         == Ok(UpdateInfo("http://host/dir/" + XmlFileName, "http://host/dir/", plugins))
  {
    var location := "http://host/dir";
    assert !EndsWithIgnoreCase(location, ".xml") by {
      assert ToUpperAscii(location[|location| - 1]) != ToUpperAscii(".xml"[3]);
    }
    assert !EndsWith(location, "/") && !EndsWith(location, "\\") by {
      assert location[|location| - 1] == 'r';
    }
    assert location + "/" == "http://host/dir/";
  }

  // ---- LoadPlugins: document to model ----

  /** The four attributes an entry carries. */
  datatype Fields = Fields(name: string, path: string, description: Option<string>, version: Version)

  /** The attributes of a Plugin or Assembly element: Name and Version are
      required, Path defaults to Name + ".dll", Description is kept only when
      present. */
  function DecodeFields(e: Element): (r: Result<Fields>)
    ensures !("Name" in e.attributes) ==> r == Err(InvalidOperation("Name"))
    ensures "Name" in e.attributes && !("Version" in e.attributes) ==> r == Err(InvalidOperation("Version"))
    ensures r.Ok? ==> && r.value.name == e.attributes["Name"]
                      && Parse(e.attributes["Version"]) == Some(r.value.version)
                      && r.value.path == (if "Path" in e.attributes then e.attributes["Path"]
                                          else DefaultPath(r.value.name))
                      && r.value.description == Attribute(e, "Description")
  {
    var name := Attribute(e, "Name");
    var version := Attribute(e, "Version");
    if name.None? then Err(InvalidOperation("Name"))
    else if version.None? then Err(InvalidOperation("Version"))
    else match Parse(version.value)
      case None => Err(MalformedVersion)
      case Some(v) =>
        var path := Attribute(e, "Path");
        Ok(Fields(name.value, if path.None? then DefaultPath(name.value) else path.value,
                  Attribute(e, "Description"), v))
  }

  function DecodeReference(e: Element): Result<ReferenceInfo> {
    match DecodeFields(e)
    case Err(err) => Err(err)
    case Ok(f) => Ok(ReferenceInfo(Some(f.name), Some(f.path), f.description, Some(f.version)))
  }

  function DecodePlugin(e: Element): Result<PluginInfo> {
    match DecodeFields(e)
    case Err(err) => Err(err)
    case Ok(f) =>
      match DecodeAll(Elements(e.children, "Assembly"), DecodeReference)
      case Err(err) => Err(err)
      case Ok(refs) => Ok(PluginInfo(Some(f.name), Some(f.path), f.description, Some(f.version), refs))
  }

  /** Decoding a list in document order: the first element that fails decides the exception. */
  function DecodeAll<T>(es: seq<Element>, decode: Element -> Result<T>): (r: Result<seq<T>>)
    ensures r.Ok? ==> |r.value| == |es| && forall i :: 0 <= i < |es| ==> decode(es[i]) == Ok(r.value[i])
    ensures r.Err? ==> exists k :: 0 <= k < |es| && decode(es[k]) == Err(r.error)
                                 && forall j :: 0 <= j < k ==> decode(es[j]).Ok?
    ensures (forall i :: 0 <= i < |es| ==> decode(es[i]).Ok?) ==> r.Ok?
    decreases |es|
  {
    if es == [] then Ok([])
    else
      var init := es[..|es| - 1];
      match DecodeAll(init, decode)
      case Err(err) =>
        assert forall j :: 0 <= j < |init| ==> init[j] == es[j];
        Err(err)
      case Ok(xs) =>
        match decode(es[|es| - 1])
        case Err(err) =>
          assert forall j :: 0 <= j < |init| ==> init[j] == es[j];
          Err(err)
        case Ok(x) =>
          assert forall j :: 0 <= j < |init| ==> init[j] == es[j];
          Ok(xs + [x])
  }

  /** Decoding stops at the first element that fails, with that element's exception. */
  lemma DecodeAllFailsAt<T>(es: seq<Element>, i: nat, decode: Element -> Result<T>)
    requires i < |es| && DecodeAll(es[..i], decode).Ok? && decode(es[i]).Err?
    ensures DecodeAll(es, decode) == Err(decode(es[i]).error)
  {
    forall j | 0 <= j < i ensures decode(es[j]).Ok? {
      assert es[..i][j] == es[j];
    }
    var r := DecodeAll(es, decode);
    var k :| 0 <= k < |es| && decode(es[k]) == Err(r.error) && forall j :: 0 <= j < k ==> decode(es[j]).Ok?;
    assert k == i;
  }

  lemma DecodeAllExtend<T>(es: seq<Element>, i: nat, decode: Element -> Result<T>, xs: seq<T>, x: T)
    requires i < |es| && DecodeAll(es[..i], decode) == Ok(xs) && decode(es[i]) == Ok(x)
    ensures DecodeAll(es[..i + 1], decode) == Ok(xs + [x])
  {
    assert es[..i + 1][..i] == es[..i];
  }

  /** A list whose every element decodes is decoded element by element. */
  lemma {:induction false} DecodeAllOk<T>(es: seq<Element>, decode: Element -> Result<T>, ys: seq<T>)
    requires |ys| == |es| && forall i :: 0 <= i < |es| ==> decode(es[i]) == Ok(ys[i])
    ensures DecodeAll(es, decode) == Ok(ys)
    decreases |es|
  {
    if es != [] {
      var n := |es| - 1;
      DecodeAllOk(es[..n], decode, ys[..n]);
      assert ys[..n] + [ys[n]] == ys;
    }
  }

  /** The document's root: Path is required, then every Plugin child in order. */
  function Decode(root: Element): (r: Result<(string, seq<PluginInfo>)>)
    ensures !("Path" in root.attributes) ==> r == Err(InvalidOperation("Path"))
    ensures r.Ok? ==> r.value.0 == root.attributes["Path"]
    ensures r.Ok? ==> |r.value.1| == |Elements(root.children, "Plugin")|
  {
    match Attribute(root, "Path")
    case None => Err(InvalidOperation("Path"))
    case Some(updatePath) =>
      match DecodeAll(Elements(root.children, "Plugin"), DecodePlugin)
      case Err(err) => Err(err)
      case Ok(plugins) => Ok((updatePath, plugins))
  }

  /** UpdateInfo.LoadPlugins(xmlFilePath), given what XDocument.Load(xmlFilePath) yields. */
  function Load(xmlFilePath: string, env: Env, document: Result<Element>): (r: Result<Option<UpdateInfo>>)
    ensures !env.fileExists(xmlFilePath) && !env.isAbsoluteUri(xmlFilePath) ==> r == Ok(None)
    ensures r == Ok(None) ==> !env.fileExists(xmlFilePath) && !env.isAbsoluteUri(xmlFilePath)
    ensures ((env.fileExists(xmlFilePath) || env.isAbsoluteUri(xmlFilePath)) && document.Ok?
             && !("Path" in document.value.attributes)) ==> r == Err(InvalidOperation("Path"))
    ensures r.Ok? && r.value.Some? ==>
      && document.Ok? && Decode(document.value).Ok?
      && Resolve(Decode(document.value).value.0, Some(Decode(document.value).value.1), env) == Ok(r.value.value)
  {
    if !env.fileExists(xmlFilePath) && !env.isAbsoluteUri(xmlFilePath) then Ok(None)
    else match document
      case Err(err) => Err(err)
      case Ok(root) =>
        match Decode(root)
        case Err(err) => Err(err)
        case Ok((updatePath, plugins)) =>
          match Resolve(updatePath, Some(plugins), env)
          case Err(err) => Err(err)
          case Ok(info) => Ok(Some(info))
  }

  /** A Plugin element without Name or Version, or an Assembly element of an
      otherwise valid plugin without them, makes loading fail. */
  lemma LoadRejectsMissingField(root: Element, i: nat, j: nat)
    requires "Path" in root.attributes
    requires i < |Elements(root.children, "Plugin")|
    requires var es := Elements(root.children, "Plugin");
      DecodeAll(es[..i], DecodePlugin).Ok? &&
      (|| !("Name" in es[i].attributes) || !("Version" in es[i].attributes)
       || (&& DecodeFields(es[i]).Ok?
           && j < |Elements(es[i].children, "Assembly")|
           && var refs := Elements(es[i].children, "Assembly");
              DecodeAll(refs[..j], DecodeReference).Ok?
              && (!("Name" in refs[j].attributes) || !("Version" in refs[j].attributes))))
    ensures Decode(root).Err?
    ensures Decode(root).error.InvalidOperation?
  {
    var es := Elements(root.children, "Plugin");
    if DecodeFields(es[i]).Ok? && "Name" in es[i].attributes && "Version" in es[i].attributes {
      DecodeAllFailsAt(Elements(es[i].children, "Assembly"), j, DecodeReference);
    }
    DecodeAllFailsAt(es, i, DecodePlugin);
  }

  /** LoadPlugins: the same decoding, written as the source's loops. */
  method LoadPlugins(xmlFilePath: string, env: Env, document: Result<Element>) returns (r: Result<Option<UpdateInfo>>)
    ensures r == Load(xmlFilePath, env, document)
  {
    var isFile := env.fileExists(xmlFilePath);
    var isUrl := env.isAbsoluteUri(xmlFilePath);
    if !isFile && !isUrl {
      return Ok(None);
    }
    if document.Err? {
      return Err(document.error);
    }
    var root := document.value;
    var pathAttr := Attribute(root, "Path");
    if pathAttr.None? {
      return Err(InvalidOperation("Path"));
    }
    var plugins := LoadPluginElements(Elements(root.children, "Plugin"));
    if plugins.Err? {
      return Err(plugins.error);
    }
    var info := Resolve(pathAttr.value, Some(plugins.value), env);
    if info.Err? {
      return Err(info.error);
    }
    return Ok(Some(info.value));
  }

  /** The outer loop of LoadPlugins: the Plugin elements of the root, in order. */
  method LoadPluginElements(elements: seq<Element>) returns (r: Result<seq<PluginInfo>>)
    ensures r == DecodeAll(elements, DecodePlugin)
  {
    var plugins: seq<PluginInfo> := [];
    var i := 0;
    while i < |elements|
      invariant 0 <= i <= |elements|
      invariant DecodeAll(elements[..i], DecodePlugin) == Ok(plugins)
    {
      var element := elements[i];
      var fields := DecodeFields(element);
      if fields.Err? {
        DecodeAllFailsAt(elements, i, DecodePlugin);
        return Err(fields.error);
      }
      var references := LoadReferences(Elements(element.children, "Assembly"));
      if references.Err? {
        DecodeAllFailsAt(elements, i, DecodePlugin);
        return Err(references.error);
      }
      var f := fields.value;
      var item := PluginInfo(Some(f.name), Some(f.path), f.description, Some(f.version), references.value);
      DecodeAllExtend(elements, i, DecodePlugin, plugins, item);
      plugins := plugins + [item];
      i := i + 1;
    }
    assert elements[..i] == elements;
    return Ok(plugins);
  }

  /** The inner loop of LoadPlugins: the Assembly elements of one plugin. */
  method LoadReferences(assemblies: seq<Element>) returns (r: Result<seq<ReferenceInfo>>)
    ensures r == DecodeAll(assemblies, DecodeReference)
  {
    var references: seq<ReferenceInfo> := [];
    var j := 0;
    while j < |assemblies|
      invariant 0 <= j <= |assemblies|
      invariant DecodeAll(assemblies[..j], DecodeReference) == Ok(references)
    {
      var refItem := DecodeReference(assemblies[j]);
      if refItem.Err? {
        DecodeAllFailsAt(assemblies, j, DecodeReference);
        return Err(refItem.error);
      }
      DecodeAllExtend(assemblies, j, DecodeReference, references, refItem.value);
      references := references + [refItem.value];
      j := j + 1;
    }
    assert assemblies[..j] == assemblies;
    return Ok(references);
  }

  // ---- SavePlugins: model to document ----

  /** Path is written only when it is set and differs from the default. */
  predicate OmitsPath(name: string, path: Option<string>) {
    path.None? || path.value == [] || path.value == DefaultPath(name)
  }

  function EntryAttributes(name: string, path: Option<string>, version: Version, description: string): map<string, string> {
    var attrs := map["Name" := name, "Version" := Format(version), "Description" := description];
    if OmitsPath(name, path) then attrs else attrs["Path" := path.value]
  }

  /** One entry's element, checked in the source's order: an empty Name, then
      a null Version, then a null Description (which XAttribute rejects). */
  function EncodeEntry(tag: string, name: Option<string>, path: Option<string>, version: Option<Version>,
                       description: Option<string>, children: seq<Element>): (r: Result<Element>)
    ensures (name.None? || name.value == []) ==> r == Err(InvalidOperation("Name"))
    ensures r.Ok? ==> name.Some? && version.Some? && description.Some?
    ensures r.Ok? ==> (&& "Name" in r.value.attributes && r.value.attributes["Name"] == name.value
                       && "Version" in r.value.attributes && r.value.attributes["Version"] == Format(version.value)
                       && "Description" in r.value.attributes && r.value.attributes["Description"] == description.value
                       && ("Path" in r.value.attributes <==> !OmitsPath(name.value, path)))
  {
    if name.None? || name.value == [] then Err(InvalidOperation("Name"))
    else if version.None? then Err(InvalidOperation("Version"))
    else if description.None? then Err(ArgumentNull("value"))
    else Ok(Element(tag, EntryAttributes(name.value, path, version.value, description.value), children))
  }

  function EncodeReference(r: ReferenceInfo): Result<Element> {
    EncodeEntry("Assembly", r.name, r.path, r.version, r.description, [])
  }

  /** The plugin's own attributes are checked before its references. */
  function EncodePlugin(p: PluginInfo): Result<Element> {
    match EncodeEntry("Plugin", p.name, p.path, p.version, p.description, [])
    case Err(err) => Err(err)
    case Ok(e) =>
      match EncodeAll(p.references, EncodeReference)
      case Err(err) => Err(err)
      case Ok(children) => Ok(e.(children := children))
  }

  /** Encoding a list in order: the first item that fails decides the exception. */
  function EncodeAll<T>(xs: seq<T>, encode: T -> Result<Element>): (r: Result<seq<Element>>)
    ensures r.Ok? ==> |r.value| == |xs| && forall i :: 0 <= i < |xs| ==> encode(xs[i]) == Ok(r.value[i])
    ensures r.Err? ==> exists k :: 0 <= k < |xs| && encode(xs[k]) == Err(r.error)
                                 && forall j :: 0 <= j < k ==> encode(xs[j]).Ok?
    ensures (forall i :: 0 <= i < |xs| ==> encode(xs[i]).Ok?) ==> r.Ok?
    decreases |xs|
  {
    if xs == [] then Ok([])
    else
      var init := xs[..|xs| - 1];
      match EncodeAll(init, encode)
      case Err(err) =>
        assert forall j :: 0 <= j < |init| ==> init[j] == xs[j];
        Err(err)
      case Ok(es) =>
        match encode(xs[|xs| - 1])
        case Err(err) =>
          assert forall j :: 0 <= j < |init| ==> init[j] == xs[j];
          Err(err)
        case Ok(e) =>
          assert forall j :: 0 <= j < |init| ==> init[j] == xs[j];
          Ok(es + [e])
  }

  lemma {:induction false} EncodeAllOk<T>(xs: seq<T>, encode: T -> Result<Element>, es: seq<Element>)
    requires |es| == |xs| && forall i :: 0 <= i < |xs| ==> encode(xs[i]) == Ok(es[i])
    ensures EncodeAll(xs, encode) == Ok(es)
    decreases |xs|
  {
    if xs != [] {
      var n := |xs| - 1;
      EncodeAllOk(xs[..n], encode, es[..n]);
      assert es[..n] + [es[n]] == es;
    }
  }

  lemma EncodeAllFailsAt<T>(xs: seq<T>, i: nat, encode: T -> Result<Element>)
    requires i < |xs| && EncodeAll(xs[..i], encode).Ok? && encode(xs[i]).Err?
    ensures EncodeAll(xs, encode) == Err(encode(xs[i]).error)
  {
    forall j | 0 <= j < i ensures encode(xs[j]).Ok? {
      assert xs[..i][j] == xs[j];
    }
    var r := EncodeAll(xs, encode);
    var k :| 0 <= k < |xs| && encode(xs[k]) == Err(r.error) && forall j :: 0 <= j < k ==> encode(xs[j]).Ok?;
    assert k == i;
  }

  lemma EncodeAllExtend<T>(xs: seq<T>, i: nat, encode: T -> Result<Element>, es: seq<Element>, e: Element)
    requires i < |xs| && EncodeAll(xs[..i], encode) == Ok(es) && encode(xs[i]) == Ok(e)
    ensures EncodeAll(xs[..i + 1], encode) == Ok(es + [e])
  {
    assert xs[..i + 1][..i] == xs[..i];
  }

  /** UpdateInfo.SavePlugins: Ok(None) writes nothing, Ok(Some(root)) writes root. */
  function Encode(updatePath: string, plugins: seq<PluginInfo>): (r: Result<Option<Element>>)
    ensures updatePath == [] ==> r == Err(ArgumentNull("updatePath"))
    ensures updatePath != [] && plugins == [] ==> r == Ok(None)
    ensures r.Ok? && r.value.Some? ==> && r.value.value.attributes == map["Path" := updatePath]
                                       && |r.value.value.children| == |plugins|
  {
    if updatePath == [] then Err(ArgumentNull("updatePath"))
    else if plugins == [] then Ok(None)
    else match EncodeAll(plugins, EncodePlugin)
      case Err(err) => Err(err)
      case Ok(elements) => Ok(Some(Element("Plugins", map["Path" := updatePath], elements)))
  }

  /** SavePlugins: the same encoding, written as the source's loops. */
  method SavePlugins(updatePath: string, plugins: seq<PluginInfo>) returns (r: Result<Option<Element>>)
    ensures r == Encode(updatePath, plugins)
  {
    if updatePath == [] {
      return Err(ArgumentNull("updatePath"));
    }
    if |plugins| == 0 {
      return Ok(None);
    }
    var elements: seq<Element> := [];
    var i := 0;
    while i < |plugins|
      invariant 0 <= i <= |plugins|
      invariant EncodeAll(plugins[..i], EncodePlugin) == Ok(elements)
    {
      var plugin := plugins[i];
      var element := EncodeEntry("Plugin", plugin.name, plugin.path, plugin.version, plugin.description, []);
      if element.Err? {
        EncodeAllFailsAt(plugins, i, EncodePlugin);
        return Err(element.error);
      }
      var children: seq<Element> := [];
      var j := 0;
      while j < |plugin.references|
        invariant 0 <= j <= |plugin.references|
        invariant EncodeAll(plugin.references[..j], EncodeReference) == Ok(children)
      {
        var refElement := EncodeReference(plugin.references[j]);
        if refElement.Err? {
          EncodeAllFailsAt(plugin.references, j, EncodeReference);
          EncodeAllFailsAt(plugins, i, EncodePlugin);
          return Err(refElement.error);
        }
        EncodeAllExtend(plugin.references, j, EncodeReference, children, refElement.value);
        children := children + [refElement.value];
        j := j + 1;
      }
      assert plugin.references[..j] == plugin.references;
      var done := element.value.(children := children);
      EncodeAllExtend(plugins, i, EncodePlugin, elements, done);
      elements := elements + [done];
      i := i + 1;
    }
    assert plugins[..i] == plugins;
    return Ok(Some(Element("Plugins", map["Path" := updatePath], elements)));
  }

  // ---- round trip ----

  /** What SavePlugins accepts: a non-empty Name, a Version and a Description on every entry. */
  predicate SaveableReference(r: ReferenceInfo) {
    r.name.Some? && r.name.value != [] && r.version.Some? && r.description.Some?
  }

  predicate Saveable(p: PluginInfo) {
    && p.name.Some? && p.name.value != [] && p.version.Some? && p.description.Some?
    && forall j :: 0 <= j < |p.references| ==> SaveableReference(p.references[j])
  }

  /** The Path an entry has once loaded: its own, or the default when unset or empty. */
  function EffectivePath(name: string, path: Option<string>): string {
    if path.None? || path.value == [] then DefaultPath(name) else path.value
  }

  function ExpandReference(r: ReferenceInfo): ReferenceInfo
    requires SaveableReference(r)
  {
    r.(path := Some(EffectivePath(r.name.value, r.path)))
  }

  function ExpandReferences(rs: seq<ReferenceInfo>): (r: seq<ReferenceInfo>)
    requires forall j :: 0 <= j < |rs| ==> SaveableReference(rs[j])
    ensures |r| == |rs| && forall j :: 0 <= j < |rs| ==> r[j] == ExpandReference(rs[j])
  {
    seq(|rs|, j requires 0 <= j < |rs| => ExpandReference(rs[j]))
  }

  function ExpandPlugin(p: PluginInfo): PluginInfo
    requires Saveable(p)
  {
    p.(path := Some(EffectivePath(p.name.value, p.path)), references := ExpandReferences(p.references))
  }

  function ExpandPlugins(ps: seq<PluginInfo>): (r: seq<PluginInfo>)
    requires forall i :: 0 <= i < |ps| ==> Saveable(ps[i])
    ensures |r| == |ps| && forall i :: 0 <= i < |ps| ==> r[i] == ExpandPlugin(ps[i])
  {
    seq(|ps|, i requires 0 <= i < |ps| => ExpandPlugin(ps[i]))
  }

  /** One entry's attributes come back as they were written, Path default-expanded. */
  lemma FieldsRoundTrip(tag: string, name: string, path: Option<string>, version: Version,
                        description: string, children: seq<Element>)
    requires name != []
    ensures DecodeFields(Element(tag, EntryAttributes(name, path, version, description), children))
         == Ok(Fields(name, EffectivePath(name, path), Some(description), version))
  {
    ParseFormat(version);
  }

  lemma ReferencesRoundTrip(rs: seq<ReferenceInfo>)
    requires forall j :: 0 <= j < |rs| ==> SaveableReference(rs[j])
    ensures EncodeAll(rs, EncodeReference).Ok?
    ensures var es := EncodeAll(rs, EncodeReference).value;
      Elements(es, "Assembly") == es && DecodeAll(es, DecodeReference) == Ok(ExpandReferences(rs))
  {
    var es := seq(|rs|, j requires 0 <= j < |rs| => EncodeReference(rs[j]).value);
    forall j | 0 <= j < |rs|
      ensures EncodeReference(rs[j]) == Ok(es[j]) && es[j].name == "Assembly"
      ensures DecodeReference(es[j]) == Ok(ExpandReference(rs[j]))
    {
      var r := rs[j];
      FieldsRoundTrip("Assembly", r.name.value, r.path, r.version.value, r.description.value, []);
    }
    EncodeAllOk(rs, EncodeReference, es);
    DecodeAllOk(es, DecodeReference, ExpandReferences(rs));
  }

  lemma PluginsRoundTrip(ps: seq<PluginInfo>)
    requires forall i :: 0 <= i < |ps| ==> Saveable(ps[i])
    ensures EncodeAll(ps, EncodePlugin).Ok?
    ensures var es := EncodeAll(ps, EncodePlugin).value;
      Elements(es, "Plugin") == es && DecodeAll(es, DecodePlugin) == Ok(ExpandPlugins(ps))
  {
    var es := EncodedPlugins(ps);
    EncodeAllOk(ps, EncodePlugin, es);
    DecodeAllOk(es, DecodePlugin, ExpandPlugins(ps));
  }

  /** The elements the plugins encode to, one by one. */
  lemma EncodedPlugins(ps: seq<PluginInfo>) returns (es: seq<Element>)
    requires forall i :: 0 <= i < |ps| ==> Saveable(ps[i])
    ensures |es| == |ps|
    ensures forall i :: 0 <= i < |ps| ==> && EncodePlugin(ps[i]) == Ok(es[i]) && es[i].name == "Plugin"
                                          && DecodePlugin(es[i]) == Ok(ExpandPlugin(ps[i]))
  {
    forall i | 0 <= i < |ps|
      ensures EncodePlugin(ps[i]).Ok? && EncodePlugin(ps[i]).value.name == "Plugin"
      ensures DecodePlugin(EncodePlugin(ps[i]).value) == Ok(ExpandPlugin(ps[i]))
    {
      PluginRoundTrip(ps[i]);
    }
    es := seq(|ps|, i requires 0 <= i < |ps| && EncodePlugin(ps[i]).Ok? => EncodePlugin(ps[i]).value);
  }

  lemma PluginRoundTrip(p: PluginInfo)
    requires Saveable(p)
    ensures EncodePlugin(p).Ok? && EncodePlugin(p).value.name == "Plugin"
    ensures DecodePlugin(EncodePlugin(p).value) == Ok(ExpandPlugin(p))
  {
    ReferencesRoundTrip(p.references);
    var children := EncodeAll(p.references, EncodeReference).value;
    FieldsRoundTrip("Plugin", p.name.value, p.path, p.version.value, p.description.value, children);
    var e := EncodePlugin(p).value;
    assert e == Element("Plugin", EntryAttributes(p.name.value, p.path, p.version.value, p.description.value), children);
  }

  /** Saving a non-empty list under a non-empty update path and decoding the
      written document gives back the update path and the list, in order, with
      names, versions, descriptions and references kept and Path expanded. */
  lemma SaveLoadRoundTrip(updatePath: string, plugins: seq<PluginInfo>)
    requires updatePath != [] && plugins != []
    requires forall i :: 0 <= i < |plugins| ==> Saveable(plugins[i])
    ensures Encode(updatePath, plugins).Ok? && Encode(updatePath, plugins).value.Some?
    ensures Decode(Encode(updatePath, plugins).value.value) == Ok((updatePath, ExpandPlugins(plugins)))
  {
    PluginsRoundTrip(plugins);
    var es := EncodeAll(plugins, EncodePlugin).value;
    assert Encode(updatePath, plugins) == Ok(Some(Element("Plugins", map["Path" := updatePath], es)));
    DecodeRoot(updatePath, es, ExpandPlugins(plugins));
  }

  /** A root carrying Path and only Plugin children that all decode. */
  lemma DecodeRoot(updatePath: string, es: seq<Element>, plugins: seq<PluginInfo>)
    requires Elements(es, "Plugin") == es && DecodeAll(es, DecodePlugin) == Ok(plugins)
    ensures Decode(Element("Plugins", map["Path" := updatePath], es)) == Ok((updatePath, plugins))
  {
    var root := Element("Plugins", map["Path" := updatePath], es);
    assert Attribute(root, "Path") == Some(updatePath);
  }

  /** Loading the saved file gives what the constructor makes of the saved update path and the expanded list. */
  lemma LoadAfterSave(xmlFilePath: string, env: Env, updatePath: string, plugins: seq<PluginInfo>)
    requires env.fileExists(xmlFilePath)
    requires updatePath != [] && plugins != []
    requires forall i :: 0 <= i < |plugins| ==> Saveable(plugins[i])
    ensures Encode(updatePath, plugins).Ok? && Encode(updatePath, plugins).value.Some?
    ensures var loaded := Load(xmlFilePath, env, Ok(Encode(updatePath, plugins).value.value));
      match Resolve(updatePath, Some(ExpandPlugins(plugins)), env)
      case Ok(info) => loaded == Ok(Some(info))
      case Err(err) => loaded == Err(err)
  {
    SaveLoadRoundTrip(updatePath, plugins);
  }
}
