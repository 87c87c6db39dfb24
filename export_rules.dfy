/**
  The export rules of the package exporter, on values.

  Each package is seen through a `PackageRecord`: its file name, its members' stored attributes,
  and its custom export directory. The export button first runs a fixed sequence of checks
  (`Validate`); an FBX export then duplicates, exports and deletes one mesh per package
  (`FbxPackagesCalls`), and a JSON export writes one scene document (`JsonExportFile`).
*/
module ExportRules {
  import opened Common
  import opened Vectors
  import opened Transforms
  import opened IteratedRemoval

  /** What the export reads from one package. */
  datatype PackageRecord = PackageRecord(fileName: string, members: seq<Attributes>, customPathEnabled: bool,
                                         customDirectory: string)

  /** The three conditions the user is warned about and may continue past. */
  datatype Warning = EmptyPackages | EmptyNames | NoRoot

  /** How the checks end: silently, on a blocking error, on a cancelled warning, or by exporting. */
  datatype Outcome =
    | Disabled
    | BadPackageDirectory(index: nat)
    | MissingFileName
    | BadDirectory
    | DuplicateNames
    | Cancelled(warning: Warning)
    | Proceed

  function FileNames(records: seq<PackageRecord>): (r: seq<string>)
    ensures |r| == |records|
    ensures forall k :: 0 <= k < |records| ==> r[k] == records[k].fileName
  {
    seq(|records|, k requires 0 <= k < |records| => records[k].fileName)
  }

  /** The package exports to its own directory, and that directory does not exist. */
  predicate BadCustomDirectory(r: PackageRecord, isDir: string -> bool) {
    r.customPathEnabled && !isDir(r.customDirectory)
  }

  /** The first package, in list order, whose custom directory does not exist. */
  function FirstBadDirectory(records: seq<PackageRecord>, isDir: string -> bool): (k: Option<nat>)
    ensures k.Some? ==> k.value < |records| && BadCustomDirectory(records[k.value], isDir)
    ensures k.Some? ==> forall i :: 0 <= i < k.value ==> !BadCustomDirectory(records[i], isDir)
    ensures k.None? ==> forall i :: 0 <= i < |records| ==> !BadCustomDirectory(records[i], isDir)
  {
    if records == [] then None
    else if BadCustomDirectory(records[0], isDir) then Some(0)
    else match FirstBadDirectory(records[1..], isDir)
      case None => None
      case Some(k) => Some(k + 1)
  }

  predicate HasEmptyPackage(records: seq<PackageRecord>) {
    exists k :: 0 <= k < |records| && records[k].members == []
  }

  predicate HasUnnamedPackage(records: seq<PackageRecord>) {
    exists k :: 0 <= k < |records| && records[k].fileName == ""
  }

  /**
    The checks of the export button, in order. `fileName` and `directory` are the global
    settings, `hasRoot` says whether a root transform is set, `isDir` is the host's directory
    test and `confirm` the user's answer to a warning (true for Continue).
  */
  function Validate(fbx: bool, json: bool, records: seq<PackageRecord>, fileName: string, directory: string,
                    hasRoot: bool, isDir: string -> bool, confirm: Warning -> bool): Outcome
  {
    if !fbx && !json then Disabled
    else if FirstBadDirectory(records, isDir).Some? then BadPackageDirectory(FirstBadDirectory(records, isDir).value)
    else if fileName == "" then MissingFileName
    else if !isDir(directory) then BadDirectory
    else if !Distinct(FileNames(records)) then DuplicateNames
    else if HasEmptyPackage(records) && !confirm(EmptyPackages) then Cancelled(EmptyPackages)
    else if HasUnnamedPackage(records) && !confirm(EmptyNames) then Cancelled(EmptyNames)
    else if json && !hasRoot && !confirm(NoRoot) then Cancelled(NoRoot)
    else Proceed
  }

  /**
    The export goes ahead exactly when an export is enabled, every custom directory in use and
    the global directory exist, the global file name is set, the package names are distinct and
    the user continued past every warning that applied.
  */
  lemma ProceedIff(fbx: bool, json: bool, records: seq<PackageRecord>, fileName: string, directory: string,
                   hasRoot: bool, isDir: string -> bool, confirm: Warning -> bool)
    ensures Validate(fbx, json, records, fileName, directory, hasRoot, isDir, confirm) == Proceed
      <==> ((fbx || json)
            && (forall k :: 0 <= k < |records| && records[k].customPathEnabled ==> isDir(records[k].customDirectory))
            && fileName != "" && isDir(directory)
            && (forall i, j :: 0 <= i < j < |records| ==> records[i].fileName != records[j].fileName)
            && (HasEmptyPackage(records) ==> confirm(EmptyPackages))
            && (HasUnnamedPackage(records) ==> confirm(EmptyNames))
            && (json && !hasRoot ==> confirm(NoRoot)))
  {
    var bad := FirstBadDirectory(records, isDir);
    if bad.Some? {
      assert records[bad.value].customPathEnabled && !isDir(records[bad.value].customDirectory);
    }
    if !Distinct(FileNames(records)) {
      var i, j :| 0 <= i < j < |records| && FileNames(records)[i] == FileNames(records)[j];
      assert records[i].fileName == records[j].fileName;
    }
  }

  /**
    Two unnamed packages have the same (empty) name, so the duplicate-name error stops the
    export before the empty-name warning: every outcome past the blocking errors comes from a
    list with at most one unnamed package.
  */
  lemma AtMostOneUnnamed(fbx: bool, json: bool, records: seq<PackageRecord>, fileName: string, directory: string,
                         hasRoot: bool, isDir: string -> bool, confirm: Warning -> bool, i: nat, j: nat)
    requires i < j < |records| && records[i].fileName == "" && records[j].fileName == ""
    ensures Validate(fbx, json, records, fileName, directory, hasRoot, isDir, confirm)
            in {Disabled, MissingFileName, BadDirectory, DuplicateNames}
         || Validate(fbx, json, records, fileName, directory, hasRoot, isDir, confirm).BadPackageDirectory?
  {
    assert FileNames(records)[i] == FileNames(records)[j];
  }

  /** `len(names) != len(set(names))` is the test for a repeated name. */
  lemma {:induction false} CardinalityDistinct(s: seq<string>)
    ensures |set x | x in s| <= |s|
    ensures |set x | x in s| == |s| <==> Distinct(s)
  {
    if s != [] {
      var rest := s[1..];
      CardinalityDistinct(rest);
      SetOfCons(s);
      DistinctCons(s);
    }
  }

  lemma SetOfCons(s: seq<string>)
    requires s != []
    ensures (set x | x in s) == {s[0]} + (set x | x in s[1..])
  {
    assert s == [s[0]] + s[1..];
  }

  lemma DistinctCons(s: seq<string>)
    requires s != []
    ensures Distinct(s) <==> s[0] !in s[1..] && Distinct(s[1..])
  {
    var rest := s[1..];
    assert forall k :: 0 <= k < |rest| ==> rest[k] == s[k + 1];
    if s[0] in rest {
      var k :| 0 <= k < |rest| && rest[k] == s[0];
      assert s[0] == s[k + 1];
    }
  }

  /* ---------------- Paths ---------------- */

  /** The directory a package exports to: its own when enabled, the global one otherwise. */
  function TargetDirectory(r: PackageRecord, directory: string): string {
    if r.customPathEnabled then r.customDirectory else directory
  }

  function JoinPath(directory: string, name: string): string {
    directory + "/" + name
  }

  function FbxPath(directory: string, name: string): string {
    JoinPath(directory, name) + ".fbx"
  }

  function JsonPath(directory: string, name: string): string {
    JoinPath(directory, name) + ".json"
  }

  /** The text after the last `/` of a path (all of it when there is none). */
  function LastSegment(t: string): (r: string)
    ensures '/' !in r
  {
    if t == [] then []
    else if t[|t| - 1] == '/' then []
    else LastSegment(t[..|t| - 1]) + [t[|t| - 1]]
  }

  /** A name with no `/` in it is the last segment of a path it is joined to. */
  lemma {:induction false} LastSegmentOfJoin(d: string, n: string)
    requires '/' !in n
    ensures LastSegment(JoinPath(d, n)) == n
    decreases |n|
  {
    var t := JoinPath(d, n);
    if n != [] {
      var n' := n[..|n| - 1];
      assert t[..|t| - 1] == JoinPath(d, n');
      assert n == n' + [n[|n| - 1]];
      LastSegmentOfJoin(d, n');
    }
  }

  lemma JoinPathNames(d1: string, n1: string, d2: string, n2: string)
    requires '/' !in n1 && '/' !in n2
    requires JoinPath(d1, n1) == JoinPath(d2, n2)
    ensures n1 == n2
  {
    LastSegmentOfJoin(d1, n1);
    LastSegmentOfJoin(d2, n2);
  }

  lemma FbxPathNames(d1: string, n1: string, d2: string, n2: string)
    requires '/' !in n1 && '/' !in n2
    requires FbxPath(d1, n1) == FbxPath(d2, n2)
    ensures n1 == n2
  {
    var a, b := FbxPath(d1, n1), FbxPath(d2, n2);
    assert JoinPath(d1, n1) == a[..|a| - 4] && JoinPath(d2, n2) == b[..|b| - 4];
    JoinPathNames(d1, n1, d2, n2);
  }

  /**
    Once the checks let an export through, no two packages write the same FBX file or get the
    same `path` in the scene document: their names are distinct and a sanitized name holds no
    `/`.
  */
  lemma ProceedPathsDistinct(fbx: bool, json: bool, records: seq<PackageRecord>, fileName: string, directory: string,
                             hasRoot: bool, isDir: string -> bool, confirm: Warning -> bool, i: nat, j: nat)
    requires Validate(fbx, json, records, fileName, directory, hasRoot, isDir, confirm) == Proceed
    requires forall k :: 0 <= k < |records| ==> '/' !in records[k].fileName
    requires i < j < |records|
    ensures FbxPath(TargetDirectory(records[i], directory), records[i].fileName)
         != FbxPath(TargetDirectory(records[j], directory), records[j].fileName)
    ensures JoinPath(TargetDirectory(records[i], directory), records[i].fileName)
         != JoinPath(TargetDirectory(records[j], directory), records[j].fileName)
  {
    ProceedIff(fbx, json, records, fileName, directory, hasRoot, isDir, confirm);
    var di, dj := TargetDirectory(records[i], directory), TargetDirectory(records[j], directory);
    if FbxPath(di, records[i].fileName) == FbxPath(dj, records[j].fileName) {
      FbxPathNames(di, records[i].fileName, dj, records[j].fileName);
    }
    if JoinPath(di, records[i].fileName) == JoinPath(dj, records[j].fileName) {
      JoinPathNames(di, records[i].fileName, dj, records[j].fileName);
    }
  }

  /* ---------------- FBX ---------------- */

  /** The host commands of an FBX export. */
  datatype FbxCall =
    | SetProperty(property: string, value: int)
    | Duplicate(source: string)
    | ExportSelected(path: string)
    | DeleteDuplicate(source: string)

  /**
    One package's commands: an empty package is skipped; otherwise its first member is
    duplicated (and the duplicate reset and selected), and only then is an unnamed package
    skipped, before the duplicate is exported and deleted.
  */
  function FbxPackageCalls(r: PackageRecord, directory: string): seq<FbxCall> {
    if r.members == [] then []
    else
      var source := r.members[0].name;
      [Duplicate(source)]
      + (if r.fileName == "" then [] else [ExportSelected(FbxPath(TargetDirectory(r, directory), r.fileName)), DeleteDuplicate(source)])
  }

  function FbxPackagesCalls(records: seq<PackageRecord>, directory: string): seq<FbxCall> {
    if records == [] then [] else FbxPackageCalls(records[0], directory) + FbxPackagesCalls(records[1..], directory)
  }

  /** One package's commands with the name check moved before the duplication. */
  function FbxPackageCallsFixed(r: PackageRecord, directory: string): seq<FbxCall> {
    if r.members == [] || r.fileName == "" then []
    else [Duplicate(r.members[0].name), ExportSelected(FbxPath(TargetDirectory(r, directory), r.fileName)),
          DeleteDuplicate(r.members[0].name)]
  }

  function FbxPackagesCallsFixed(records: seq<PackageRecord>, directory: string): seq<FbxCall> {
    if records == [] then [] else FbxPackageCallsFixed(records[0], directory) + FbxPackagesCallsFixed(records[1..], directory)
  }

  /** The duplicates in the scene after the commands run, by the mesh they copy. */
  function SceneAfter(scene: multiset<string>, calls: seq<FbxCall>): multiset<string>
    decreases |calls|
  {
    if calls == [] then scene
    else
      var next := match calls[0]
        case Duplicate(s) => scene + multiset{s}
        case DeleteDuplicate(s) => scene - multiset{s}
        case _ => scene;
      SceneAfter(next, calls[1..])
  }

  /** The files written, in order. */
  function Exports(calls: seq<FbxCall>): seq<string> {
    if calls == [] then []
    else (if calls[0].ExportSelected? then [calls[0].path] else []) + Exports(calls[1..])
  }

  lemma {:induction false} SceneAfterAppend(scene: multiset<string>, a: seq<FbxCall>, b: seq<FbxCall>)
    ensures SceneAfter(scene, a + b) == SceneAfter(SceneAfter(scene, a), b)
    decreases |a|
  {
    if a != [] {
      TailOfAppend(a, b);
      var next := match a[0]
        case Duplicate(s) => scene + multiset{s}
        case DeleteDuplicate(s) => scene - multiset{s}
        case _ => scene;
      SceneAfterAppend(next, a[1..], b);
    } else {
      AppendEmpty(b);
    }
  }

  lemma {:induction false} ExportsAppend(a: seq<FbxCall>, b: seq<FbxCall>)
    ensures Exports(a + b) == Exports(a) + Exports(b)
  {
    if a == [] {
      AppendEmpty(b);
    } else {
      TailOfAppend(a, b);
      ExportsAppend(a[1..], b);
      AppendAssoc(if a[0].ExportSelected? then [a[0].path] else [], Exports(a[1..]), Exports(b));
    }
  }

  /** The meshes whose duplicates an export leaves behind: one per non-empty unnamed package. */
  function Stranded(records: seq<PackageRecord>): multiset<string> {
    if records == [] then multiset{}
    else (if records[0].members != [] && records[0].fileName == "" then multiset{records[0].members[0].name}
          else multiset{})
         + Stranded(records[1..])
  }

  /** A package is written out when it has members and a file name. */
  predicate Kept(r: PackageRecord) {
    r.members != [] && r.fileName != ""
  }

  /** The FBX files of the kept packages, in list order. */
  function KeptFbxPaths(records: seq<PackageRecord>, directory: string): seq<string> {
    if records == [] then []
    else (if Kept(records[0]) then [FbxPath(TargetDirectory(records[0], directory), records[0].fileName)] else [])
         + KeptFbxPaths(records[1..], directory)
  }

  /** A package that is written out duplicates, exports and deletes: the scene is as before. */
  lemma ExportRoundTrip(scene: multiset<string>, source: string, path: string)
    ensures SceneAfter(scene, [Duplicate(source), ExportSelected(path), DeleteDuplicate(source)]) == scene
    ensures Exports([Duplicate(source), ExportSelected(path), DeleteDuplicate(source)]) == [path]
  {
    var calls := [Duplicate(source), ExportSelected(path), DeleteDuplicate(source)];
    var grown := scene + multiset{source};
    assert calls[1..] == [ExportSelected(path), DeleteDuplicate(source)] && calls[2..] == [DeleteDuplicate(source)];
    assert SceneAfter(scene, calls) == SceneAfter(grown, calls[1..]) == SceneAfter(grown, calls[2..]);
    assert SceneAfter(grown, calls[2..]) == SceneAfter(grown - multiset{source}, []);
    assert grown - multiset{source} == scene;
    assert Exports(calls) == Exports(calls[1..]) == [path] + Exports(calls[2..]);
  }

  /** What one package's commands, as written, do to the scene and which file they write. */
  lemma PackageEffect(scene: multiset<string>, r: PackageRecord, directory: string)
    ensures SceneAfter(scene, FbxPackageCalls(r, directory))
         == scene + (if r.members != [] && r.fileName == "" then multiset{r.members[0].name} else multiset{})
    ensures Exports(FbxPackageCalls(r, directory))
         == if Kept(r) then [FbxPath(TargetDirectory(r, directory), r.fileName)] else []
  {
    if Kept(r) {
      ExportRoundTrip(scene, r.members[0].name, FbxPath(TargetDirectory(r, directory), r.fileName));
    } else if r.members != [] {
      var calls := FbxPackageCalls(r, directory);
      assert calls[1..] == [];
    }
  }

  /** The same for the corrected commands. */
  lemma PackageEffectFixed(scene: multiset<string>, r: PackageRecord, directory: string)
    ensures SceneAfter(scene, FbxPackageCallsFixed(r, directory)) == scene
    ensures Exports(FbxPackageCallsFixed(r, directory))
         == if Kept(r) then [FbxPath(TargetDirectory(r, directory), r.fileName)] else []
  {
    if Kept(r) {
      ExportRoundTrip(scene, r.members[0].name, FbxPath(TargetDirectory(r, directory), r.fileName));
    }
  }

  /**
    As written, the duplicate of an unnamed package's first member stays in the scene: the
    export adds exactly one leftover duplicate per non-empty unnamed package.
  */
  lemma {:induction false} FbxLeavesDuplicates(scene: multiset<string>, records: seq<PackageRecord>, directory: string)
    ensures SceneAfter(scene, FbxPackagesCalls(records, directory)) == scene + Stranded(records)
    decreases |records|
  {
    if records != [] {
      var first := FbxPackageCalls(records[0], directory);
      SceneAfterAppend(scene, first, FbxPackagesCalls(records[1..], directory));
      PackageEffect(scene, records[0], directory);
      FbxLeavesDuplicates(SceneAfter(scene, first), records[1..], directory);
    }
  }

  /** A concrete case: one unnamed package with a member leaves one duplicate of that member. */
  lemma FbxLeakExample(m: Attributes, directory: string)
    ensures SceneAfter(multiset{}, FbxPackagesCalls([PackageRecord("", [m], false, "")], directory)) == multiset{m.name}
  {
    var records := [PackageRecord("", [m], false, "")];
    FbxLeavesDuplicates(multiset{}, records, directory);
    assert Stranded(records[1..]) == multiset{};
  }

  /** As written, the files exported are those of the kept packages, in order. */
  lemma {:induction false} FbxExportsKept(records: seq<PackageRecord>, directory: string)
    ensures Exports(FbxPackagesCalls(records, directory)) == KeptFbxPaths(records, directory)
  {
    if records != [] {
      ExportsAppend(FbxPackageCalls(records[0], directory), FbxPackagesCalls(records[1..], directory));
      PackageEffect(multiset{}, records[0], directory);
      FbxExportsKept(records[1..], directory);
    }
  }

  /** With the name check first, the scene is left as it was. */
  lemma {:induction false} FbxFixedRestoresScene(scene: multiset<string>, records: seq<PackageRecord>, directory: string)
    ensures SceneAfter(scene, FbxPackagesCallsFixed(records, directory)) == scene
    decreases |records|
  {
    if records != [] {
      var first := FbxPackageCallsFixed(records[0], directory);
      SceneAfterAppend(scene, first, FbxPackagesCallsFixed(records[1..], directory));
      PackageEffectFixed(scene, records[0], directory);
      FbxFixedRestoresScene(scene, records[1..], directory);
    }
  }

  /** And it writes the same files as the export as written. */
  lemma {:induction false} FbxFixedExportsKept(records: seq<PackageRecord>, directory: string)
    ensures Exports(FbxPackagesCallsFixed(records, directory)) == KeptFbxPaths(records, directory)
  {
    if records != [] {
      ExportsAppend(FbxPackageCallsFixed(records[0], directory), FbxPackagesCallsFixed(records[1..], directory));
      PackageEffectFixed(multiset{}, records[0], directory);
      FbxFixedExportsKept(records[1..], directory);
    }
  }

  /** The package commands never set an FBX property: all properties are sent before them. */
  lemma {:induction false} NoPropertiesAmongPackageCalls(records: seq<PackageRecord>, directory: string)
    ensures forall c :: c in FbxPackagesCalls(records, directory) ==> !c.SetProperty?
  {
    if records != [] {
      NoPropertiesAmongPackageCalls(records[1..], directory);
    }
  }

  /* ---------------- JSON ---------------- */

  /** One package's entry in the scene document. */
  datatype PackageDoc = PackageDoc(fileName: string, transforms: seq<Attributes>, path: string)

  /** The scene document: the root's attributes (when there is a root) and the packages. */
  datatype SceneDoc = SceneDoc(rootTransform: Option<Attributes>, packages: seq<PackageDoc>)

  datatype JsonFile = JsonFile(path: string, scene: SceneDoc)

  /** Every member made relative to the root, in order. */
  function RelativeAll(members: seq<Attributes>, root: Attributes): (r: seq<Attributes>)
    requires NonZero(root.scale)
    ensures |r| == |members|
    ensures forall k :: 0 <= k < |members| ==> r[k] == RelativeTo(members[k], root)
  {
    seq(|members|, k requires 0 <= k < |members| => RelativeTo(members[k], root))
  }

  /** A package's entry: its name, its members relative to the root, and its path without extension. */
  function DocFor(r: PackageRecord, root: Attributes, directory: string): PackageDoc
    requires NonZero(root.scale)
  {
    PackageDoc(r.fileName, RelativeAll(r.members, root), JoinPath(TargetDirectory(r, directory), r.fileName))
  }

  /** The entries of the packages with members and a file name, in list order. */
  function JsonDocs(records: seq<PackageRecord>, root: Attributes, directory: string): (r: seq<PackageDoc>)
    requires NonZero(root.scale)
    ensures |r| == |Filter(records, Kept)|
  {
    if records == [] then []
    else (if Kept(records[0]) then [DocFor(records[0], root, directory)] else []) + JsonDocs(records[1..], root, directory)
  }

  /** The document an export writes, and where: `<directory>/<fileName>.json`. */
  function JsonExportFile(records: seq<PackageRecord>, root: Attributes, fileName: string, directory: string): JsonFile
    requires NonZero(root.scale)
  {
    JsonFile(JsonPath(directory, fileName), SceneDoc(Some(root), JsonDocs(records, root, directory)))
  }

  /** The attributes of a root that changes nothing. */
  const NoRootAttributes: Attributes := Attributes("", Origin, Origin, Unit)

  /**
    The document a JSON export without a root evidently means to write: no root entry and the
    members' attributes as they are.
  */
  function JsonExportFileFixed(records: seq<PackageRecord>, root: Option<Attributes>, fileName: string, directory: string): JsonFile
    requires root.Some? ==> NonZero(root.value.scale)
  {
    if root.Some? then JsonExportFile(records, root.value, fileName, directory)
    else JsonFile(JsonPath(directory, fileName), SceneDoc(None, JsonDocs(records, NoRootAttributes, directory)))
  }

  /**
    The entries are those of the kept packages, in order: entry `j` belongs to the `j`-th
    package that has members and a file name.
  */
  lemma {:induction false} JsonDocsKept(records: seq<PackageRecord>, root: Attributes, directory: string)
    requires NonZero(root.scale)
    ensures var kept := Filter(records, Kept);
      |JsonDocs(records, root, directory)| == |kept|
      && forall j :: 0 <= j < |kept| ==> JsonDocs(records, root, directory)[j] == DocFor(kept[j], root, directory)
  {
    if records != [] {
      JsonDocsKept(records[1..], root, directory);
      FilterCons(records, Kept);
    }
  }

  /**
    Placing each exported transform back under the root gives the member's attributes:
    entry `j` of the document reproduces the `j`-th kept package exactly.
  */
  lemma JsonRoundTrip(records: seq<PackageRecord>, root: Attributes, directory: string, j: nat, i: nat)
    requires NonZero(root.scale)
    requires j < |Filter(records, Kept)| && i < |Filter(records, Kept)[j].members|
    ensures var doc := JsonDocs(records, root, directory)[j];
      var r := Filter(records, Kept)[j];
      && doc.fileName == r.fileName && r.fileName != "" && |doc.transforms| == |r.members|
      && PlaceUnder(doc.transforms[i], root) == r.members[i]
      && doc.path == JoinPath(TargetDirectory(r, directory), r.fileName)
  {
    JsonDocsKept(records, root, directory);
    var r := Filter(records, Kept)[j];
    FilterMembership(records, Kept, r);
    PlaceRelative(r.members[i], root);
  }

  /** Without a root, the corrected export writes every member's attributes unchanged. */
  lemma JsonWithoutRoot(records: seq<PackageRecord>, fileName: string, directory: string, j: nat)
    requires j < |Filter(records, Kept)|
    ensures var f := JsonExportFileFixed(records, None, fileName, directory);
      f.scene.rootTransform == None && |f.scene.packages| == |Filter(records, Kept)|
      && f.scene.packages[j].transforms == Filter(records, Kept)[j].members
  {
    JsonDocsKept(records, NoRootAttributes, directory);
    var r := Filter(records, Kept)[j];
    forall i | 0 <= i < |r.members|
      ensures RelativeTo(r.members[i], NoRootAttributes) == r.members[i]
    {
      RelativeToIdentity(r.members[i], NoRootAttributes);
    }
  }
}
