/**
  The export settings pane and the export button.

  The settings hold the two export switches, the root transform, the global file name and
  directory, and the FBX check boxes. The export button reads every package of the package
  manager: it runs the checks of `ExportRules.Validate`, then the FBX export (host commands)
  and the JSON export (one document, written after making every exported member relative to
  the root in place).
*/
module Exporter {
  import opened Common
  import opened Vectors
  import opened Transforms
  import opened UiHelpers
  import opened Packages
  import opened PackageManager
  import opened ExportRules
  import opened FbxSettings

  /** What the export reads from a package. */
  function RecordOf(p: Package): (r: PackageRecord)
    requires p.Valid()
    reads p, p.nameField, p.dirField, p.ItemArrays()
    ensures r.fileName == p.FileName() && r.members == AttrsOf(p.items)
    ensures r.customPathEnabled == p.customPathEnabled && r.customDirectory == p.dirField.directory
  {
    PackageRecord(p.FileName(), AttrsOf(p.items), p.customPathEnabled, p.dirField.directory)
  }

  /** Everything the records of `ps` depend on. */
  function Footprint(ps: seq<Package>): set<object>
    reads ps
  {
    (set k | 0 <= k < |ps| :: ps[k] as object) + (set k | 0 <= k < |ps| :: ps[k].nameField as object)
    + (set k | 0 <= k < |ps| :: ps[k].dirField as object)
    + (set k, o | 0 <= k < |ps| && o in ps[k].ItemArrays() :: o as object)
  }

  /** The records of the packages, in list order. */
  function Records(ps: seq<Package>): (r: seq<PackageRecord>)
    requires forall k :: 0 <= k < |ps| ==> ps[k].Valid()
    reads ps, Footprint(ps)
    ensures |r| == |ps|
    ensures forall k :: 0 <= k < |ps| ==> r[k] == RecordOf(ps[k])
  {
    seq(|ps|, k requires 0 <= k < |ps| && ps[k].Valid() reads Footprint(ps) => RecordOf(ps[k]))
  }

  /**
    No two packages, and no package and the root, share an attribute list: every transform is
    created with lists of its own.
  */
  predicate Separated(ps: seq<Package>, root: Option<Transform>)
    reads set p | p in ps
  {
    PackagesSeparate(ps) && RootApart(ps, root)
  }

  /** The root shares no attribute list with a member of any package. */
  predicate RootApart(ps: seq<Package>, root: Option<Transform>)
    reads set p | p in ps
  {
    root.Some? ==> forall i :: 0 <= i < |ps| ==> root.value.Repr() !! ps[i].ItemArrays()
  }

  class Settings {
    var fbxEnabled: bool
    var jsonEnabled: bool
    var root: Option<Transform>
    /** The read-only field that shows the root's name. */
    var rootLabel: string
    const fileName: FileNameField
    const dirField: DirectoryField
    const fbxSettings: FbxSettingsLayout

    /** A root holds valid lists, with no rotation and unit scale. */
    predicate Valid()
      reads this, if root.Some? then root.value.Repr() else {}
    {
      fbxSettings.Valid()
      && (root.Some? ==> root.value.Valid() && root.value.Attrs().rotate == Origin && root.value.Attrs().scale == Unit)
    }

    /** Both exports switched on, no root, empty file name and directory, default FBX settings. */
    constructor ()
      ensures Valid() && fbxEnabled && jsonEnabled && root.None? && rootLabel == "No root transform set"
      ensures fileName.text == "" && dirField.directory == ""
    {
      fbxEnabled := true;
      jsonEnabled := true;
      root := None;
      rootLabel := "No root transform set";
      fileName := new FileNameField();
      dirField := new DirectoryField();
      fbxSettings := new FbxSettingsLayout();
    }

    /**
      The root button. Unless exactly one transform is selected nothing changes; otherwise a
      new transform of the selected object becomes the root, with its position kept and its
      rotation and scale reset, and the label shows its name.
    */
    method SetRootToSelected(selection: seq<string>, scene: Scene) returns (ok: bool)
      requires Valid()
      requires forall k :: 0 <= k < |selection| ==> IsLiveTransform(scene, selection[k])
      modifies this
      ensures Valid()
      ensures ok == (|selection| == 1)
      ensures !ok ==> root == old(root) && rootLabel == old(rootLabel)
      ensures ok ==> root.Some? && fresh(root.value.Repr()) && rootLabel == selection[0]
      ensures ok ==> IsLiveTransform(scene, selection[0]) && root.value.Attrs()
                     == Attributes(selection[0], Snapshot(selection[0], scene[selection[0]]).translate, Origin, Unit)
      ensures fbxEnabled == old(fbxEnabled) && jsonEnabled == old(jsonEnabled)
    {
      if |selection| != 1 {
        return false;
      }
      var t := new Transform(selection[0], scene);
      Store(t.rotate, Origin);
      Store(t.scale, Unit);
      root := Some(t);
      rootLabel := selection[0];
      return true;
    }
  }

  /**
    The loop of the export button's checks, over the packages in list order: it stops at the
    first package whose custom directory does not exist, and otherwise collects the names and
    whether any package is empty or unnamed.
  */
  method ScanPackages(ps: seq<Package>, ghost records: seq<PackageRecord>, isDir: string -> bool)
    returns (bad: Option<nat>, names: seq<string>, hasEmptyNames: bool, hasEmptyPackages: bool)
    requires forall k :: 0 <= k < |ps| ==> ps[k].Valid()
    requires |records| == |ps| && forall k :: 0 <= k < |ps| ==> records[k] == RecordOf(ps[k])
    ensures bad == FirstBadDirectory(records, isDir)
    ensures bad.None? ==> names == FileNames(records)
    ensures bad.None? ==> hasEmptyNames == HasUnnamedPackage(records)
    ensures bad.None? ==> hasEmptyPackages == HasEmptyPackage(records)
  {
    names, hasEmptyNames, hasEmptyPackages := [], false, false;
    for k := 0 to |ps|
      invariant Scanned(records[..k], names, hasEmptyNames, hasEmptyPackages, isDir)
    {
      var pack := ps[k];
      ghost var record := records[k];
      assert record == RecordOf(pack);
      ScannedStep(records, k, names, hasEmptyNames, hasEmptyPackages, isDir);
      var name := pack.FileName();
      assert name == record.fileName && (|pack.items| <= 0 <==> record.members == []);
      assert BadCustomDirectory(record, isDir) <==> pack.customPathEnabled && !isDir(pack.dirField.directory);
      if name == "" {
        hasEmptyNames := true;
      }
      if |pack.items| <= 0 {
        hasEmptyPackages := true;
      }
      if pack.customPathEnabled && !isDir(pack.dirField.directory) {
        return Some(k), names, hasEmptyNames, hasEmptyPackages;
      }
      names := names + [name];
    }
    assert records[..|ps|] == records;
    return None, names, hasEmptyNames, hasEmptyPackages;
  }

  /** What the scan has gathered after the packages `records`, none of which had a bad directory. */
  ghost predicate Scanned(records: seq<PackageRecord>, names: seq<string>, hasEmptyNames: bool,
                          hasEmptyPackages: bool, isDir: string -> bool)
  {
    && FirstBadDirectory(records, isDir).None?
    && names == FileNames(records)
    && hasEmptyNames == HasUnnamedPackage(records)
    && hasEmptyPackages == HasEmptyPackage(records)
  }

  /** One more package: either its directory is the first bad one, or the scan extends. */
  lemma ScannedStep(records: seq<PackageRecord>, k: nat, names: seq<string>, hasEmptyNames: bool,
                    hasEmptyPackages: bool, isDir: string -> bool)
    requires k < |records| && Scanned(records[..k], names, hasEmptyNames, hasEmptyPackages, isDir)
    ensures BadCustomDirectory(records[k], isDir) ==> FirstBadDirectory(records, isDir) == Some(k)
    ensures !BadCustomDirectory(records[k], isDir) ==>
      Scanned(records[..k + 1], names + [records[k].fileName], hasEmptyNames || records[k].fileName == "",
              hasEmptyPackages || records[k].members == [], isDir)
  {
    if BadCustomDirectory(records[k], isDir) {
      FirstBadAt(records, k, isDir);
    } else {
      TakeStep(records, k);
      RecordsSnoc(records[..k], records[k], isDir);
    }
  }

  /** A bad directory after only good ones is the first bad one. */
  lemma FirstBadAt(records: seq<PackageRecord>, k: nat, isDir: string -> bool)
    requires k < |records| && BadCustomDirectory(records[k], isDir)
    requires FirstBadDirectory(records[..k], isDir).None?
    ensures FirstBadDirectory(records, isDir) == Some(k)
  {
    var prev := records[..k];
    assert forall i :: 0 <= i < k ==> prev[i] == records[i];
    assert forall i :: 0 <= i < k ==> !BadCustomDirectory(records[i], isDir);
    var first := FirstBadDirectory(records, isDir);
    assert first.Some?;
    assert !(first.value < k) && !(k < first.value);
  }

  /** The scan's facts about a list grown by one package. */
  lemma RecordsSnoc(prev: seq<PackageRecord>, r: PackageRecord, isDir: string -> bool)
    ensures FirstBadDirectory(prev, isDir).None? && !BadCustomDirectory(r, isDir) ==>
              FirstBadDirectory(prev + [r], isDir).None?
    ensures FileNames(prev + [r]) == FileNames(prev) + [r.fileName]
    ensures HasUnnamedPackage(prev + [r]) == (HasUnnamedPackage(prev) || r.fileName == "")
    ensures HasEmptyPackage(prev + [r]) == (HasEmptyPackage(prev) || r.members == [])
  {
    var all := prev + [r];
    assert forall i :: 0 <= i < |prev| ==> all[i] == prev[i];
    assert all[|prev|] == r;
    if FirstBadDirectory(prev, isDir).None? && !BadCustomDirectory(r, isDir) {
      assert forall i :: 0 <= i < |all| ==> !BadCustomDirectory(all[i], isDir);
    }
    UnnamedSnoc(prev, r);
    EmptySnoc(prev, r);
  }

  /** A list grown by one package has an unnamed package when the old list had one or the new package is unnamed. */
  lemma UnnamedSnoc(prev: seq<PackageRecord>, r: PackageRecord)
    ensures HasUnnamedPackage(prev + [r]) == (HasUnnamedPackage(prev) || r.fileName == "")
  {
    var all := prev + [r];
    if HasUnnamedPackage(all) {
      var i :| 0 <= i < |all| && all[i].fileName == "";
      assert i < |prev| ==> prev[i].fileName == "";
    }
    if HasUnnamedPackage(prev) {
      var i :| 0 <= i < |prev| && prev[i].fileName == "";
      assert all[i].fileName == "";
    }
    assert all[|prev|] == r;
  }

  /** A list grown by one package has an empty package when the old list had one or the new package is empty. */
  lemma EmptySnoc(prev: seq<PackageRecord>, r: PackageRecord)
    ensures HasEmptyPackage(prev + [r]) == (HasEmptyPackage(prev) || r.members == [])
  {
    var all := prev + [r];
    if HasEmptyPackage(all) {
      var i :| 0 <= i < |all| && all[i].members == [];
      assert i < |prev| ==> prev[i].members == [];
    }
    if HasEmptyPackage(prev) {
      var i :| 0 <= i < |prev| && prev[i].members == [];
      assert all[i].members == [];
    }
    assert all[|prev|] == r;
  }

  /** The export button's checks, in the order `Validate` gives them. */
  method CheckExport(settings: Settings, ps: seq<Package>, ghost records: seq<PackageRecord>,
                     isDir: string -> bool, confirm: Warning -> bool)
    returns (outcome: Outcome)
    requires forall k :: 0 <= k < |ps| ==> ps[k].Valid()
    requires records == Records(ps)
    ensures outcome == Validate(settings.fbxEnabled, settings.jsonEnabled, records, settings.fileName.text,
                                settings.dirField.directory, settings.root.Some?, isDir, confirm)
    ensures Records(ps) == records
  {
    if !settings.fbxEnabled && !settings.jsonEnabled {
      return Disabled;
    }
    var bad, names, hasEmptyNames, hasEmptyPackages := ScanPackages(ps, records, isDir);
    assert forall k :: 0 <= k < |ps| ==> records[k] == RecordOf(ps[k]);
    if bad.Some? {
      return BadPackageDirectory(bad.value);
    }
    if settings.fileName.text == "" {
      return MissingFileName;
    }
    if !isDir(settings.dirField.directory) {
      return BadDirectory;
    }
    CardinalityDistinct(names);
    if |set x | x in names| != |names| {
      return DuplicateNames;
    }
    if hasEmptyPackages && !confirm(EmptyPackages) {
      return Cancelled(EmptyPackages);
    }
    if hasEmptyNames && !confirm(EmptyNames) {
      return Cancelled(EmptyNames);
    }
    if settings.jsonEnabled && settings.root.None? && !confirm(NoRoot) {
      return Cancelled(NoRoot);
    }
    return Proceed;
  }

  /** One package's FBX commands, as the export loop issues them. */
  method PackageFbxCalls(pack: Package, directory: string) returns (calls: seq<FbxCall>)
    requires pack.Valid()
    ensures calls == FbxPackageCalls(RecordOf(pack), directory)
  {
    var name := pack.FileName();
    if |pack.items| <= 0 {
      return [];
    }
    var source := pack.items[0].name;
    calls := [Duplicate(source)];
    if name == "" {
      return calls;
    }
    var target := if pack.customPathEnabled then pack.dirField.directory else directory;
    calls := calls + [ExportSelected(FbxPath(target, name)), DeleteDuplicate(source)];
  }

  /**
    The FBX export: every FBX property first, then for each package with members a duplicate
    of its first member, which is exported to `<directory>/<fileName>.fbx` and deleted when
    the package has a name, and left in the scene when it has none.
  */
  method ExportFbx(settings: Settings, ps: seq<Package>, ghost records: seq<PackageRecord>) returns (calls: seq<FbxCall>)
    requires settings.Valid()
    requires forall k :: 0 <= k < |ps| ==> ps[k].Valid()
    requires records == Records(ps)
    ensures calls == PropertyCalls(settings.fbxSettings.Values())
                     + FbxPackagesCalls(records, settings.dirField.directory)
    ensures forall i, j :: 0 <= i < j < |calls| && calls[i].ExportSelected? ==> !calls[j].SetProperty?
    ensures Records(ps) == records
  {
    var directory := settings.dirField.directory;
    var properties := settings.fbxSettings.SendProperties();
    var packageCalls := ExportPackagesFbx(ps, records, directory);
    calls := properties + packageCalls;
    PropertiesBeforeExports(settings.fbxSettings.Values(), records, directory);
    assert forall k :: 0 <= k < |ps| ==> records[k] == RecordOf(ps[k]);
  }

  /** The loop of the FBX export over the packages, in list order. */
  method ExportPackagesFbx(ps: seq<Package>, ghost records: seq<PackageRecord>, directory: string)
    returns (packageCalls: seq<FbxCall>)
    requires forall k :: 0 <= k < |ps| ==> ps[k].Valid()
    requires |records| == |ps| && forall k :: 0 <= k < |ps| ==> records[k] == RecordOf(ps[k])
    ensures packageCalls == FbxPackagesCalls(records, directory)
  {
    packageCalls := [];
    for k := 0 to |ps|
      invariant packageCalls == FbxPackagesCalls(records[..k], directory)
    {
      var c := PackageFbxCalls(ps[k], directory);
      FbxPackagesCallsSnoc(records, k, directory);
      packageCalls := packageCalls + c;
    }
    assert records[..|ps|] == records;
  }

  /** No property command follows an export command in the plan that sends properties first. */
  lemma PropertiesBeforeExports(values: seq<bool>, records: seq<PackageRecord>, directory: string)
    requires |values| == |Properties|
    ensures var calls := PropertyCalls(values) + FbxPackagesCalls(records, directory);
      forall i, j :: 0 <= i < j < |calls| && calls[i].ExportSelected? ==> !calls[j].SetProperty?
  {
    NoPropertiesAmongPackageCalls(records, directory);
    SettingsThenExports(PropertyCalls(values), FbxPackagesCalls(records, directory));
  }

  /** Property commands followed by commands that set no property: no property follows an export. */
  lemma SettingsThenExports(properties: seq<FbxCall>, packageCalls: seq<FbxCall>)
    requires forall k :: 0 <= k < |properties| ==> properties[k].SetProperty?
    requires forall c :: c in packageCalls ==> !c.SetProperty?
    ensures var calls := properties + packageCalls;
      forall i, j :: 0 <= i < j < |calls| && calls[i].ExportSelected? ==> !calls[j].SetProperty?
  {
    var calls := properties + packageCalls;
    forall i, j | 0 <= i < j < |calls| && calls[i].ExportSelected?
      ensures !calls[j].SetProperty?
    {
      if i < |properties| {
        assert false;
      } else {
        assert calls[j] == packageCalls[j - |properties|];
        assert packageCalls[j - |properties|] in packageCalls;
      }
    }
  }

  /** The commands for the first `k + 1` packages are those for the first `k`, then the next package's. */
  lemma FbxPackagesCallsSnoc(records: seq<PackageRecord>, k: nat, directory: string)
    requires k < |records|
    ensures FbxPackagesCalls(records[..k + 1], directory)
         == FbxPackagesCalls(records[..k], directory) + FbxPackageCalls(records[k], directory)
  {
    FbxPackagesCallsAppend(records[..k], [records[k]], directory);
    TakeStep(records, k);
    assert [records[k]][1..] == [];
    AppendEmpty(FbxPackageCalls(records[k], directory));
  }

  lemma {:induction false} FbxPackagesCallsAppend(a: seq<PackageRecord>, b: seq<PackageRecord>, directory: string)
    ensures FbxPackagesCalls(a + b, directory) == FbxPackagesCalls(a, directory) + FbxPackagesCalls(b, directory)
  {
    if a == [] {
      AppendEmpty(b);
      AppendEmpty(FbxPackagesCalls(b, directory));
    } else {
      TailOfAppend(a, b);
      FbxPackagesCallsAppend(a[1..], b, directory);
      AppendAssoc(FbxPackageCalls(a[0], directory), FbxPackagesCalls(a[1..], directory), FbxPackagesCalls(b, directory));
    }
  }

  lemma {:induction false} JsonDocsAppend(a: seq<PackageRecord>, b: seq<PackageRecord>, root: Attributes, directory: string)
    requires NonZero(root.scale)
    ensures JsonDocs(a + b, root, directory) == JsonDocs(a, root, directory) + JsonDocs(b, root, directory)
  {
    if a == [] {
      AppendEmpty(b);
      AppendEmpty(JsonDocs(b, root, directory));
    } else {
      TailOfAppend(a, b);
      JsonDocsAppend(a[1..], b, root, directory);
      AppendAssoc(if Kept(a[0]) then [DocFor(a[0], root, directory)] else [], JsonDocs(a[1..], root, directory),
                  JsonDocs(b, root, directory));
    }
  }

  /** `getRelativeAttributes` on one member: the other members keep their attributes. */
  method RelativeMember(p: Package, at: nat, root: Transform) returns (r: Attributes)
    requires p.Valid() && at < |p.items| && root.Valid() && NonZero(root.Attrs().scale)
    requires root.Repr() !! p.ItemArrays()
    modifies p.items[at].Repr()
    ensures root.Attrs() == old(root.Attrs())
    ensures r == RelativeTo(old(AttrsOf(p.items))[at], root.Attrs())
    ensures AttrsOf(p.items) == old(AttrsOf(p.items))[at := r]
  {
    ghost var attrs := AttrsOf(p.items);
    assert p.items[at].Repr() <= p.ItemArrays();
    r := p.items[at].GetRelativeAttributes(root);
    forall i | 0 <= i < |p.items| && i != at
      ensures p.items[i].Attrs() == attrs[i]
    {
      assert Separate(p.items[at], p.items[i]);
    }
  }

  /**
    One package's `transforms` list: every member made relative to the root, in order, each
    member's own lists overwritten with the relative values.
  */
  method RelativeMembers(p: Package, root: Transform) returns (transforms: seq<Attributes>)
    requires p.Valid() && root.Valid() && NonZero(root.Attrs().scale)
    requires root.Repr() !! p.ItemArrays()
    modifies p.ItemArrays()
    ensures transforms == RelativeAll(old(AttrsOf(p.items)), root.Attrs())
    ensures AttrsOf(p.items) == transforms
  {
    ghost var before, rootAttrs := AttrsOf(p.items), root.Attrs();
    ghost var relative := RelativeAll(before, rootAttrs);
    transforms := [];
    for k := 0 to |p.items|
      invariant root.Attrs() == rootAttrs
      invariant transforms == relative[..k]
      invariant AttrsOf(p.items) == transforms + before[k..]
    {
      assert p.items[k].Repr() <= p.ItemArrays();
      var r := RelativeMember(p, k, root);
      SpliceStep(transforms, before, r);
      TakeStep(relative, k);
      transforms := transforms + [r];
    }
    TakeAll(relative);
    AppendEmpty(transforms);
  }

  /** Overwriting the first unprocessed entry moves it to the processed part. */
  lemma SpliceStep<T>(done: seq<T>, rest: seq<T>, x: T)
    requires |done| < |rest|
    ensures (done + rest[|done|..])[|done| := x] == (done + [x]) + rest[|done| + 1..]
  {
  }

  /** Every attribute list held by a member of one of the packages. */
  function MemberArrays(ps: seq<Package>): set<array<real>>
    reads ps
  {
    set k, o | 0 <= k < |ps| && o in ps[k].ItemArrays() :: o
  }

  /**
    One package's turn in the JSON export: a package without members or without a file name is
    left out and left alone; otherwise its members are made relative to the root in place and
    its entry is produced.
  */
  method PackageJsonDocs(pack: Package, ghost record: PackageRecord, root: Transform, directory: string)
    returns (docs: seq<PackageDoc>)
    requires pack.Valid() && record == RecordOf(pack)
    requires root.Valid() && NonZero(root.Attrs().scale) && root.Repr() !! pack.ItemArrays()
    modifies pack.ItemArrays()
    ensures docs == if Kept(record) then [DocFor(record, root.Attrs(), directory)] else []
    ensures AttrsOf(pack.items) == if Kept(record) then RelativeAll(record.members, root.Attrs()) else record.members
  {
    var fileName := pack.FileName();
    if |pack.items| <= 0 || fileName == "" {
      return [];
    }
    var transforms := RelativeMembers(pack, root);
    var filePath := JoinPath(directory, fileName);
    if pack.customPathEnabled {
      filePath := JoinPath(pack.dirField.directory, fileName);
    }
    docs := [PackageDoc(fileName, transforms, filePath)];
  }

  /**
    The JSON export: one document at `<directory>/<fileName>.json` holding the root's attributes
    and, for every package with members and a file name, its members relative to the root,
    which also overwrites those members' own attributes. Without a root the export fails before
    anything is written or changed.
  */
  method ExportJson(settings: Settings, ps: seq<Package>, ghost records: seq<PackageRecord>)
    returns (file: Option<JsonFile>)
    requires settings.Valid()
    requires forall k :: 0 <= k < |ps| ==> ps[k].Valid()
    requires records == Records(ps)
    requires Separated(ps, settings.root)
    modifies MemberArrays(ps)
    ensures settings.fbxSettings.Values() == old(settings.fbxSettings.Values())
    ensures file.Some? <==> settings.root.Some?
    ensures settings.root.Some? ==>
      file == Some(JsonExportFile(records, settings.root.value.Attrs(), settings.fileName.text, settings.dirField.directory))
    ensures forall k :: 0 <= k < |ps| ==>
      (ps[k].Valid() && AttrsOf(ps[k].items)
       == if settings.root.Some? && Kept(records[k]) then RelativeAll(records[k].members, settings.root.value.Attrs())
          else records[k].members)
  {
    if settings.root.None? {
      // `getRelativeAttributes(None)` fails on the first member of the first exported package,
      // and `rootTransform.attributes` fails after the loop: nothing is written or changed.
      assert forall k :: 0 <= k < |ps| ==> records[k] == RecordOf(ps[k]);
      return None;
    }
    var rootTransform := settings.root.value;
    var directory := settings.dirField.directory;
    var fullPath := JsonPath(directory, settings.fileName.text);
    var packageData := ExportPackagesJson(ps, records, rootTransform, directory);
    file := Some(JsonFile(fullPath, SceneDoc(Some(rootTransform.Attrs()), packageData)));
  }

  /** The loop of the JSON export over the packages, in list order. */
  method ExportPackagesJson(ps: seq<Package>, ghost records: seq<PackageRecord>, root: Transform, directory: string)
    returns (packageData: seq<PackageDoc>)
    requires forall k :: 0 <= k < |ps| ==> ps[k].Valid()
    requires records == Records(ps)
    requires root.Valid() && NonZero(root.Attrs().scale) && Separated(ps, Some(root))
    modifies MemberArrays(ps)
    ensures root.Attrs() == old(root.Attrs())
    ensures packageData == JsonDocs(records, root.Attrs(), directory)
    ensures forall k :: 0 <= k < |ps| ==>
      (ps[k].Valid() && AttrsOf(ps[k].items) == Exported(records[k], true, root.Attrs()))
  {
    ghost var rootAttrs := root.Attrs();
    packageData := [];
    for k := 0 to |ps|
      invariant packageData == JsonDocs(records[..k], rootAttrs, directory)
      invariant root.Attrs() == rootAttrs
      invariant forall i :: 0 <= i < |ps| ==> ps[i].Valid() && AttrsOf(ps[i].items) == Exported(records[i], i < k, rootAttrs)
    {
      assert records[k] == RecordOf(ps[k]);
      var docs := ExportPackageJson(ps, k, records[k], root, directory);
      JsonDocsSnoc(records, k, rootAttrs, directory);
      packageData := packageData + docs;
    }
    assert records[..|ps|] == records;
  }

  /** `PackageJsonDocs` on the `k`-th package, which leaves every other package's members alone. */
  method ExportPackageJson(ps: seq<Package>, k: nat, ghost record: PackageRecord, root: Transform, directory: string)
    returns (docs: seq<PackageDoc>)
    requires k < |ps| && forall i :: 0 <= i < |ps| ==> ps[i].Valid()
    requires record == RecordOf(ps[k]) && Separated(ps, Some(root))
    requires root.Valid() && NonZero(root.Attrs().scale)
    modifies ps[k].ItemArrays()
    ensures root.Attrs() == old(root.Attrs())
    ensures docs == if Kept(record) then [DocFor(record, root.Attrs(), directory)] else []
    ensures AttrsOf(ps[k].items) == if Kept(record) then RelativeAll(record.members, root.Attrs()) else record.members
    ensures forall i :: 0 <= i < |ps| && i != k ==> ps[i].Valid() && AttrsOf(ps[i].items) == old(AttrsOf(ps[i].items))
  {
    docs := PackageJsonDocs(ps[k], record, root, directory);
    forall i | 0 <= i < |ps| && i != k
      ensures AttrsOf(ps[i].items) == old(AttrsOf(ps[i].items))
    {
      assert ps[i].ItemArrays() !! ps[k].ItemArrays();
      ArraysKept(ps[i].items);
    }
  }

  /** A package's members after its turn in the JSON export (`done`) or before it. */
  ghost function Exported(record: PackageRecord, done: bool, root: Attributes): seq<Attributes>
    requires NonZero(root.scale)
  {
    if done && Kept(record) then RelativeAll(record.members, root) else record.members
  }

  /** The entries for the first `k + 1` packages are those for the first `k`, then the next package's. */
  lemma JsonDocsSnoc(records: seq<PackageRecord>, k: nat, root: Attributes, directory: string)
    requires k < |records| && NonZero(root.scale)
    ensures JsonDocs(records[..k + 1], root, directory)
         == JsonDocs(records[..k], root, directory) + (if Kept(records[k]) then [DocFor(records[k], root, directory)] else [])
  {
    JsonDocsAppend(records[..k], [records[k]], root, directory);
    TakeStep(records, k);
    assert [records[k]][1..] == [];
    AppendEmpty(if Kept(records[k]) then [DocFor(records[k], root, directory)] else []);
  }

  /**
    The export button: the checks of `CheckExport`; when they pass, the FBX export if it is
    switched on, then the JSON export if it is switched on. When a check stops the export,
    nothing is sent, written or changed.
  */
  method Export(settings: Settings, registry: Registry, ghost records: seq<PackageRecord>,
                isDir: string -> bool, confirm: Warning -> bool)
    returns (outcome: Outcome, calls: seq<FbxCall>, file: Option<JsonFile>)
    requires settings.Valid() && registry.Valid()
    requires records == Records(registry.packages)
    requires RootApart(registry.packages, settings.root)
    modifies MemberArrays(registry.packages)
    ensures outcome == Validate(settings.fbxEnabled, settings.jsonEnabled, records, settings.fileName.text,
                                settings.dirField.directory, settings.root.Some?, isDir, confirm)
    ensures calls == if outcome == Proceed && settings.fbxEnabled
      then PropertyCalls(settings.fbxSettings.Values()) + FbxPackagesCalls(records, settings.dirField.directory)
      else []
    ensures file.Some? <==> outcome == Proceed && settings.jsonEnabled && settings.root.Some?
    ensures file.Some? ==>
      file == Some(JsonExportFile(records, settings.root.value.Attrs(), settings.fileName.text, settings.dirField.directory))
    ensures forall k :: 0 <= k < |records| ==>
      (registry.packages[k].Valid() && AttrsOf(registry.packages[k].items)
       == if file.Some? && Kept(records[k]) then RelativeAll(records[k].members, settings.root.value.Attrs())
          else records[k].members)
  {
    var ps := registry.packages;
    forall k | 0 <= k < |ps|
      ensures ps[k].Valid()
    {
      assert ps[k] in ps;
    }
    outcome := CheckExport(settings, ps, records, isDir, confirm);
    if outcome != Proceed {
      return outcome, [], None;
    }
    calls, file := RunExports(settings, ps, records);
  }

  /** The exports that run once every check has passed: FBX first, then JSON. */
  method RunExports(settings: Settings, ps: seq<Package>, ghost records: seq<PackageRecord>)
    returns (calls: seq<FbxCall>, file: Option<JsonFile>)
    requires settings.Valid() && forall k :: 0 <= k < |ps| ==> ps[k].Valid()
    requires records == Records(ps) && Separated(ps, settings.root)
    modifies MemberArrays(ps)
    ensures calls == if settings.fbxEnabled
      then PropertyCalls(settings.fbxSettings.Values()) + FbxPackagesCalls(records, settings.dirField.directory)
      else []
    ensures file.Some? <==> settings.jsonEnabled && settings.root.Some?
    ensures file.Some? ==>
      file == Some(JsonExportFile(records, settings.root.value.Attrs(), settings.fileName.text, settings.dirField.directory))
    ensures forall k :: 0 <= k < |ps| ==>
      (ps[k].Valid() && AttrsOf(ps[k].items)
       == if file.Some? && Kept(records[k]) then RelativeAll(records[k].members, settings.root.value.Attrs())
          else records[k].members)
  {
    calls, file := [], None;
    if settings.fbxEnabled {
      calls := ExportFbx(settings, ps, records);
    }
    if settings.jsonEnabled {
      file := ExportJson(settings, ps, records);
    } else {
      assert forall k :: 0 <= k < |ps| ==> records[k] == RecordOf(ps[k]);
    }
  }
}
