# Maya scene exporter, modelled in Dafny

This project models the scripts of a Maya plugin collection. The model is written and proved in Dafny.

- **Package exporter** (`PackageExport/`): the user groups scene transforms into *packages*, one mesh per package with every transform that instances it. An optional *root transform* is set. The export button writes one FBX file per package (a duplicate of the first member, reset and exported) and one JSON scene document, which lists every member's translate, rotate and scale relative to the root. Packages can also be generated automatically by clustering similar shapes.
- **Clone manager** (`thyme.py`): a list of *clones* (transforms), an optional root, and a CSV export of the root and the clones.
- **Stand-alone FBX exporter** (`beef.py`, and its older version `scripts/beef.py`): a list of export entries, each a set of objects and a file name, written one FBX file per entry.
- **Component tools** (`salt.py`, and its older version `scripts/salt.py`): `separateComponentString`, which splits a component string such as `pCube1.f[2:5]` into object name, component type and indices, and the edge-perimeter tool built on it.

The host application (the Maya scene, dialogs, the FBX plug-in) is not modelled as code. It enters as parameters: a `Scene` map from node names to their attributes, a directory test `isDir`, the user's answer to a warning `confirm`, the shape comparison `similar`, the progress bar's cancellation poll `cancel`, and the parent lookup `parentOf`. Host commands that change the scene or write files are results: lists of `FbxCall` or `Command` values, a `JsonFile` or a `CsvFile`. State the scripts mutate in place is kept in classes:

| class | fields |
|---|---|
| `Transforms.Transform` | three `array<real>` attribute lists |
| `Packages.Package` | the member list |
| `PackageManager.Registry` | the package list and the current package |
| `Exporter.Settings` | the root and the export switches |
| `Thyme.CloneManager` | the clones, the root and the shown list |
| `Beef.ExportsList` | the export entries |
| `UiHelpers.FileNameField`, `UiHelpers.DirectoryField` | the text they keep |

Each loop of the source that the model covers is a method, proved against a specification function, and the lemmas prove what those functions promise.

Modules, one per file:

| module | file | models |
|---|---|---|
| `Common` | `common.dfy` | options, decimal digits, sequence helpers |
| `UiHelpers` | `ui_helpers.dfy` | `getModifiers`, the file-name and directory fields |
| `Vectors` | `vectors.dfy` | three-component values, the scene, in-place subtract and divide |
| `Transforms` | `transforms.dfy` | the package exporter's `transform` |
| `Membership` | `membership.dfy` | add and delete by name |
| `IteratedRemoval` | `iter_removal.dfy` | removing from a list while iterating over it |
| `Packages` | `packages.dfy` | a package and the package editor's buttons |
| `PackageManager` | `registry.dfy` | the package manager and automatic generation |
| `Clustering` | `clustering.dfy` | the similarity clustering of automatic generation |
| `ExportRules` | `export_rules.dfy` | the export checks, the FBX command plan, the JSON document |
| `FbxSettings` | `fbx_settings.dfy` | the seven FBX check boxes |
| `Exporter` | `exporter.dfy` | the settings pane and the export button |
| `Thyme` | `thyme.dfy` | the clone manager |
| `Beef` | `beef.dfy` | the stand-alone FBX exporter |
| `ScriptsBeef` | `scripts_beef.dfy` | its older export loop |
| `ComponentStrings` | `component_strings.dfy` | the component-string pattern and index parsing |
| `Salt` | `salt.dfy` | `separateComponentString` and the edge-perimeter tool |
| `ScriptsSalt` | `scripts_salt.dfy` | the flattening `separateComponentString` |

## Model

| member | source | states |
|---|---|---|
| Common.FirstIndex | PackageExport/MainWindow.py:745-746 | `list.index` finds a position holding the value, and no earlier position holds it |
| Common.ParseNatToString | salt.py:30-36 | `int()` of a printed index gives the index back |
| Common.NatToStringInjective | salt.py:85 | distinct indices print as distinct texts, so distinct edge names |
| UiHelpers.Strip | PackageExport/UIHelpers.py:47 | the filtered text holds no forbidden character and is no longer than the input |
| UiHelpers.StripAppend | PackageExport/UIHelpers.py:47 | filtering works character by character: it distributes over concatenation |
| UiHelpers.StripIdentity | PackageExport/UIHelpers.py:56 | the filter changes a text exactly when the text holds a forbidden character |
| UiHelpers.StripIdempotent | PackageExport/UIHelpers.py:56 | filtering twice is filtering once |
| UiHelpers.StripMembership | PackageExport/UIHelpers.py:56 | a character survives exactly when it is allowed and occurs in the input |
| UiHelpers.StripNested | PackageExport/UIHelpers.py:238 | filtering by a smaller set and then a larger one is filtering by the larger one |
| UiHelpers.DirectoryThenFileName | PackageExport/UIHelpers.py:238 | the directory filter and then the file-name filter equal the file-name filter alone |
| UiHelpers.ModifiersDecode | PackageExport/UIHelpers.py:3-20 | decoding a mask gives back exactly the held keys, ignoring bit 2 and the bits above 16 |
| UiHelpers.ModifiersOrdered | PackageExport/UIHelpers.py:8-20 | keys are reported in the order Shift, Ctrl, Alt, Win, none twice |
| UiHelpers.SelectModeFor | PackageExport/MainWindow.py:208-227 | without modifiers the selection is replaced; Shift+Ctrl adds, Shift toggles, Ctrl deselects, each as an if-and-only-if on the held keys |
| UiHelpers.FileNameField.constructor | PackageExport/UIHelpers.py:34-39 | a new field holds the empty text |
| UiHelpers.FileNameField.SetName | PackageExport/UIHelpers.py:41-49 | the stored text is the value with the forbidden characters deleted |
| UiHelpers.FileNameField.ChangeCommand | PackageExport/UIHelpers.py:52-58 | the stored text is the typed text filtered, and holds no forbidden character |
| UiHelpers.DirectoryField.constructor | PackageExport/UIHelpers.py:212-233 | a new field holds the empty directory |
| UiHelpers.DirectoryField.ChangeCommand | PackageExport/UIHelpers.py:235-242 | the stored directory is the typed text filtered, and holds none of `*?"<>\|` |
| UiHelpers.DirectoryField.Browse | PackageExport/UIHelpers.py:244-258 | a chosen folder is stored verbatim; a dismissed dialog changes nothing |
| Vectors.Store | PackageExport/MainWindow.py:328-333 | the list reads back as the stored triple |
| Vectors.SubtractInPlace | PackageExport/MainWindow.py:287-294 | the list holds the difference of the old values, even when both lists are the same list |
| Vectors.DivideInPlace | PackageExport/MainWindow.py:296-298 | the list holds the quotient of the old values, even when both lists are the same list |
| Transforms.Snapshot | PackageExport/MainWindow.py:322-333 | rotate and scale are the scene's; the stored translate minus the rotate pivot is the scene's translate |
| Transforms.RelativeTo | PackageExport/MainWindow.py:279-306 | the relative record keeps the name |
| Transforms.PlaceRelative | PackageExport/MainWindow.py:279-306 | placing a relative record back under its root gives the absolute attributes |
| Transforms.RelativePlace | PackageExport/MainWindow.py:279-306 | making a placed record relative gives the record back |
| Transforms.RelativeToIdentity | PackageExport/MainWindow.py:279-306 | a root at the origin with no rotation and unit scale changes nothing |
| Transforms.RelativeTwice | PackageExport/MainWindow.py:279-306 | repeating the operation subtracts (divides by) the root twice |
| Transforms.RepeatedRelativeDiffers | PackageExport/MainWindow.py:279-306 | a root away from the origin moves the record again on each repetition: the operation is not idempotent |
| Transforms.Transform.constructor | PackageExport/MainWindow.py:271-277 | a new transform holds the scene's snapshot in three fresh lists |
| Transforms.Transform.Update | PackageExport/MainWindow.py:308-335 | the result says whether a live transform has that name; if so the attributes are refreshed, otherwise they are unchanged |
| Transforms.Transform.GetRelativeAttributes | PackageExport/MainWindow.py:279-306 | the result is the old attributes relative to the other's, and the transform's own lists now hold it |
| Membership.AddNamesPrefix | PackageExport/MainWindow.py:744-749 | adding never moves or drops a name already present |
| Membership.AddNamesMembers | PackageExport/MainWindow.py:744-749 | afterwards a name is present exactly when it was, or it was selected and not excluded |
| Membership.AddNamesDistinct | PackageExport/MainWindow.py:744-749 | adding keeps the names distinct |
| Membership.WithoutMembers | PackageExport/MainWindow.py:730-731 | a name survives deletion exactly when it was present and not deleted |
| Membership.RemoveFirst | PackageExport/MainWindow.py:731 | `list.remove` shortens the list by one |
| Membership.RemoveFirstAt | PackageExport/MainWindow.py:731 | `list.remove` deletes the element at the first position holding the value |
| Membership.RemoveFirstDistinct | PackageExport/MainWindow.py:731 | on distinct names, `remove` removes the name altogether |
| Membership.DeleteNamesSpec | PackageExport/MainWindow.py:722-733 | deletion succeeds exactly when every selected name is present and none is selected twice, and then leaves the other names in order |
| IteratedRemoval.RefreshPass | PackageExport/MainWindow.py:716-718 | the pass only removes elements |
| IteratedRemoval.Filter | PackageExport/MainWindow.py:716-718 | the filter is never longer than the list |
| IteratedRemoval.FilterMembership | PackageExport/MainWindow.py:716-718 | the filter keeps exactly the elements that satisfy the test |
| IteratedRemoval.PassRemovesOnlyFailing | PackageExport/MainWindow.py:716-718 | the pass never removes an element that passes the test |
| IteratedRemoval.FailingSurvivorsWereSkipped | PackageExport/MainWindow.py:716-718 | a failing element that survives is one the iterator stepped over |
| IteratedRemoval.PassAllKept | PackageExport/MainWindow.py:716-718 | with nothing to remove, the list is unchanged |
| IteratedRemoval.PassSingleFailure | PackageExport/MainWindow.py:716-718 | with one failing element, exactly that element is removed |
| IteratedRemoval.PassIsFilterWithoutAdjacentFailures | PackageExport/MainWindow.py:716-718 | without two failing elements in a row, the pass equals the filter |
| IteratedRemoval.AdjacentFailureSurvives | PackageExport/MainWindow.py:716-718 | of two failing elements in a row the second survives, where the filter keeps neither |
| IteratedRemoval.PassStateEnd | PackageExport/MainWindow.py:716-718 | the loop's state at its end is the pass's result and its skipped elements |
| Packages.Names | PackageExport/MainWindow.py:759 | the list shows each member's name in order |
| Packages.IndexOfName | PackageExport/MainWindow.py:343-346 | `items.index(name)` compares by name: the first member of that name |
| Packages.NamesRemoveFirst | PackageExport/MainWindow.py:731 | `items.remove(name)` on members follows `remove` on the names |
| Packages.AttrsOf | PackageExport/MainWindow.py:301-306 | one record per member, in order, with the members' names |
| Packages.AddMember | PackageExport/MainWindow.py:745-749 | one add keeps the names, or appends the new name |
| Packages.AddMembersNames | PackageExport/MainWindow.py:744-749 | the names after adding follow the name-level add |
| Packages.AddMemberEffect | PackageExport/MainWindow.py:745-749 | on members with distinct names, one add refreshes only the member of that name, or appends it with the scene's attributes; names stay distinct |
| Packages.AddMembersEffect | PackageExport/MainWindow.py:744-749 | on members with distinct names, selected members hold the scene's attributes, others are unchanged and keep their places, new members come last with selected names |
| Packages.ProgressEnd | PackageExport/MainWindow.py:716-718 | at the end of the refresh loop, members not stepped over are live and refreshed, stepped-over members keep their old attributes |
| Packages.Package.constructor | PackageExport/MainWindow.py:140-186 | a new package is empty, unnamed, with the custom directory off |
| Packages.Package.ToggleCustomPath | PackageExport/MainWindow.py:188-205 | the custom-directory switch flips; the members are unchanged |
| Packages.Package.RefreshMember | PackageExport/MainWindow.py:746 | `update()` of one member: only that member's attributes change, and only when it is live |
| Packages.Package.AddName | PackageExport/MainWindow.py:745-749 | one turn of the add loop changes the attributes as `AddMember` says and only appends new objects |
| Packages.Package.Append | PackageExport/MainWindow.py:749 | `items.append(transform(n))`: one fresh member with the scene's snapshot at the end |
| Packages.Package.Populate | PackageExport/MainWindow.py:96-98 | the members are the given transforms in order, one per entry even where a transform repeats, each refreshed and holding new lists, and the package is named after the first |
| Packages.Package.AddSelection | PackageExport/MainWindow.py:736-755 | the members' attributes become `AddMembers` of the old ones; old members keep their places |
| Packages.Package.RefreshAll | PackageExport/MainWindow.py:713-719 | the members are the remove-while-iterating pass over the old ones; each member is refreshed unless stepped over |
| Packages.Package.RefreshStep | PackageExport/MainWindow.py:717-718 | one turn: a live member is refreshed in place; a gone member is removed and the rest move down |
| Packages.Package.RemoveMember | PackageExport/MainWindow.py:731 | the member at the position leaves; the others keep their order and attributes |
| Packages.DeleteItems | PackageExport/MainWindow.py:730-731 | each selected name removes the first member of that name, and a missing name stops the deletion with the earlier removals kept; the result is never longer and holds only old members |
| Packages.DeleteItemsNames | PackageExport/MainWindow.py:730-731 | on member names, `DeleteItems` is the name-level `DeleteNames`, flag included |
| Packages.Package.DeleteSelection | PackageExport/MainWindow.py:722-733 | no selection changes nothing; otherwise the members are `DeleteItems` of the old ones (which member object goes, and the survivors' order), so the names follow `DeleteNames` and failure is reported where a name is missing |
| PackageManager.Parents | PackageExport/MainWindow.py:96 | the transform above each shape, in order |
| PackageManager.SharedParentRepeats | PackageExport/MainWindow.py:96-97 | two shapes of one group under one transform give two members of the same name |
| PackageManager.RoundWithin | PackageExport/MainWindow.py:65-93 | a round's group and its leftover list are drawn from the shapes it started with |
| PackageManager.RoundDistinct | PackageExport/MainWindow.py:65-93 | over distinct shapes, a round's group and its leftover list are distinct |
| PackageManager.Registry.constructor | PackageExport/MainWindow.py:603 | the manager starts with one new empty package, which is current |
| PackageManager.Registry.AddPackage | PackageExport/MainWindow.py:642-651 | a new empty package is appended; the current package stays |
| PackageManager.Registry.SetCurrentPackage | PackageExport/MainWindow.py:606-621 | the given package becomes current; the list is unchanged |
| PackageManager.Registry.RemovePackage | PackageExport/MainWindow.py:624-640 | an unlisted package raises and changes nothing; otherwise it leaves, and the first remaining (or a new) package becomes current |
| PackageManager.Registry.AddSelection | PackageExport/MainWindow.py:736-755 | the current package's attributes become `AddMembers` of the old ones and its old members keep their places; every other package keeps its members and their attributes; the packages stay apart |
| PackageManager.Registry.RefreshAll | PackageExport/MainWindow.py:713-719 | the current package's members are the remove-while-iterating pass; members not stepped over hold the scene's attributes, stepped-over members keep theirs; every other package keeps its members and their attributes |
| PackageManager.Registry.DeleteSelection | PackageExport/MainWindow.py:722-733 | no selection changes nothing; otherwise the current members are `DeleteItems` of the old ones, the names follow `DeleteNames`, failure is reported where a name is missing, and the remaining members are old members with their attributes as they were; no other package changes |
| PackageManager.Registry.GenerateRound | PackageExport/MainWindow.py:64-98 | one round adds one package, which becomes current, holding one new member per shape of the round's group (a transform above two shapes twice) and named after the first; the packages stay apart |
| PackageManager.Registry.AutoGenerate | PackageExport/MainWindow.py:33-101 | no shape list raises with nothing changed; otherwise one package per group of `Rounds` is appended and the first package is opened |
| PackageManager.Registry.GeneratePackages | PackageExport/MainWindow.py:58-98 | the generator loop appends one package per group, each generated from its group |
| Clustering.Split | PackageExport/MainWindow.py:68-93 | an uncancelled round leaves fewer shapes than it started with |
| Clustering.ScanLength | PackageExport/MainWindow.py:75-79 | the scan examines shapes until the first poll that cancels |
| Clustering.SplitParts | PackageExport/MainWindow.py:68-93 | the group is the last shape, then exactly the shapes similar to it; the rest are the others, with nothing lost or added |
| Clustering.RoundParts | PackageExport/MainWindow.py:68-93 | cancelled or not, a round's group is seeded and it and the leftovers partition the list |
| Clustering.RoundUncancelled | PackageExport/MainWindow.py:75-93 | a round no poll cancels is the uncancelled split |
| Clustering.ClustersPartition | PackageExport/MainWindow.py:58-98 | the clusters take every shape as often as it occurs |
| Clustering.ClustersSeeded | PackageExport/MainWindow.py:68-93 | each cluster is its seed followed by shapes similar to it |
| Clustering.FirstCluster | PackageExport/MainWindow.py:68-93 | the first cluster's seed is the last shape; later clusters hold exactly the shapes not similar to it |
| Clustering.LeftBehindNotSimilar | PackageExport/MainWindow.py:82-93 | a shape in a later cluster is not similar to an earlier cluster's seed |
| Clustering.RoundsUncancelled | PackageExport/MainWindow.py:58-63 | without cancellation and with one round per shape, generation yields the clusters |
| Clustering.RoundsSeeded | PackageExport/MainWindow.py:58-98 | whatever the cancellation polls answer, every group is seeded |
| Clustering.ScanForSimilar | PackageExport/MainWindow.py:74-93 | the scan pops the similar shapes and leaves the others, over the prefix it examined before cancellation |
| Clustering.ScanTurn | PackageExport/MainWindow.py:82-93 | slot `i` holds the next shape; popping it or stepping past keeps the scan's state |
| Clustering.NextRound | PackageExport/MainWindow.py:68-93 | a round pops the seed and scans the rest, as `Round` says |
| Clustering.FilterSplit | PackageExport/MainWindow.py:85-93 | the similar and the dissimilar shapes between them are the list |
| Clustering.FilterDistinct | PackageExport/MainWindow.py:85-93 | a filter of distinct shapes is distinct |
| ExportRules.FileNames | PackageExport/MainWindow.py:942-958 | the names list has each package's name, in order |
| ExportRules.FirstBadDirectory | PackageExport/MainWindow.py:951-957 | the first package whose custom directory is missing, or none |
| ExportRules.ProceedIff | PackageExport/MainWindow.py:925-1004 | the export proceeds exactly when an export is on, every directory in use exists, the file name is set, package names are distinct and every applicable warning was continued |
| ExportRules.AtMostOneUnnamed | PackageExport/MainWindow.py:970-995 | two unnamed packages stop the export at the duplicate-name error, before the empty-name warning |
| ExportRules.CardinalityDistinct | PackageExport/MainWindow.py:971 | `len(names) != len(set(names))` holds exactly when a name repeats |
| ExportRules.LastSegment | PackageExport/MainWindow.py:1040-1042 | the last segment of a path holds no `/` |
| ExportRules.LastSegmentOfJoin | PackageExport/MainWindow.py:1078-1080 | a name without `/` is the last segment of the path it is joined to |
| ExportRules.FbxPathNames | PackageExport/MainWindow.py:1040-1042 | equal FBX paths of names without `/` mean equal names |
| ExportRules.ProceedPathsDistinct | PackageExport/MainWindow.py:970-973 | once the checks pass, no two packages write the same FBX file or get the same JSON path |
| ExportRules.ExportRoundTrip | PackageExport/MainWindow.py:1029-1049 | duplicate, export and delete leave the scene as it was and write one file |
| ExportRules.PackageEffect | PackageExport/MainWindow.py:1020-1049 | as written, a non-empty unnamed package leaves its duplicate behind; a kept package writes its file |
| ExportRules.PackageEffectFixed | PackageExport/MainWindow.py:1020-1049 | with the name check first, no package changes the scene, and the files are the same |
| ExportRules.FbxLeavesDuplicates | PackageExport/MainWindow.py:1020-1049 | as written, the export leaves one duplicate per non-empty unnamed package |
| ExportRules.FbxLeakExample | PackageExport/MainWindow.py:1029-1037 | one unnamed package with one member leaves one duplicate of it |
| ExportRules.FbxExportsKept | PackageExport/MainWindow.py:1020-1049 | the files written are those of the packages with members and a name, in list order |
| ExportRules.FbxFixedRestoresScene | PackageExport/MainWindow.py:1020-1049 | the corrected export leaves the scene as it was |
| ExportRules.FbxFixedExportsKept | PackageExport/MainWindow.py:1020-1049 | the corrected export writes the same files |
| ExportRules.NoPropertiesAmongPackageCalls | PackageExport/MainWindow.py:1015-1049 | the package loop never sets an FBX property |
| ExportRules.RelativeAll | PackageExport/MainWindow.py:1075-1076 | every member relative to the root, in order |
| ExportRules.JsonDocs | PackageExport/MainWindow.py:1063-1086 | one entry per package with members and a name |
| ExportRules.JsonDocsKept | PackageExport/MainWindow.py:1063-1086 | entry `j` belongs to the `j`-th package with members and a name |
| ExportRules.JsonRoundTrip | PackageExport/MainWindow.py:1063-1091 | placing each exported transform back under the root gives the member's attributes; names and paths match |
| ExportRules.JsonWithoutRoot | PackageExport/MainWindow.py:996-1004 | the corrected export without a root writes the members' attributes unchanged and no root |
| FbxSettings.PropertyValue | PackageExport/MainWindow.py:523 | `int(value)` is 1 for a ticked box and 0 otherwise |
| FbxSettings.PropertyCalls | PackageExport/MainWindow.py:545-550 | one property command per box, in box order, with the box's value |
| FbxSettings.DefaultValuesSent | PackageExport/MainWindow.py:534-541 | the values first sent are 1, 1, 0, 0, 0, 1, 1 |
| FbxSettings.FbxCheckbox.constructor | PackageExport/MainWindow.py:503-513 | the box holds its property and default value |
| FbxSettings.FbxCheckbox.OnUIChanged | PackageExport/MainWindow.py:516-517 | the box's value becomes its new state |
| FbxSettings.FbxSettingsLayout.Values | PackageExport/MainWindow.py:549-550 | the boxes' values, in order |
| FbxSettings.FbxSettingsLayout.constructor | PackageExport/MainWindow.py:529-543 | seven boxes bound to the seven properties, with the default values |
| FbxSettings.FbxSettingsLayout.SendProperties | PackageExport/MainWindow.py:545-550 | the commands sent are the property commands of the current values |
| Exporter.RecordOf | PackageExport/MainWindow.py:1020-1042 | the record holds the package's name, members' attributes and directory choice |
| Exporter.Records | PackageExport/MainWindow.py:1020 | one record per package, in list order |
| Exporter.Settings.constructor | PackageExport/MainWindow.py:352-460 | both exports on, no root, empty file name and directory |
| Exporter.Settings.SetRootToSelected | PackageExport/MainWindow.py:463-486 | with one selected transform it becomes the root, with its position kept and rotation and scale reset; otherwise nothing changes |
| Exporter.ScanPackages | PackageExport/MainWindow.py:941-957 | the scan stops at the first bad directory, and otherwise gathers the names and the empty and unnamed flags |
| Exporter.ScannedStep | PackageExport/MainWindow.py:942-957 | one more package either is the first bad directory or extends the scan |
| Exporter.UnnamedSnoc | PackageExport/MainWindow.py:945-947 | a list grown by one package has an unnamed package when the old list had one or the new package is unnamed |
| Exporter.EmptySnoc | PackageExport/MainWindow.py:948-950 | a list grown by one package has an empty package when the old list had one or the new package is empty |
| Exporter.CheckExport | PackageExport/MainWindow.py:925-1004 | the checks end with the outcome `Validate` gives |
| Exporter.PackageFbxCalls | PackageExport/MainWindow.py:1021-1049 | one package's commands, as the loop issues them |
| Exporter.ExportFbx | PackageExport/MainWindow.py:1013-1051 | properties first, then the package commands; no property follows an export |
| Exporter.ExportPackagesFbx | PackageExport/MainWindow.py:1021-1049 | the loop over the packages issues their commands in list order, as `FbxPackagesCalls` says |
| Exporter.PropertiesBeforeExports | PackageExport/MainWindow.py:1015-1046 | in the FBX plan no property command follows an export command |
| Exporter.SettingsThenExports | PackageExport/MainWindow.py:1015-1046 | property commands followed by commands that set none: no property follows an export |
| Exporter.RelativeMember | PackageExport/MainWindow.py:1076 | one member is made relative to the root in place; the other members and the root are unchanged |
| Exporter.RelativeMembers | PackageExport/MainWindow.py:1075-1076 | the package's list is its members relative to the root, now also stored in the members |
| Exporter.PackageJsonDocs | PackageExport/MainWindow.py:1064-1086 | a package without members or a name is left out and left alone; otherwise its entry is produced and its members made relative |
| Exporter.ExportJson | PackageExport/MainWindow.py:1053-1098 | a document exactly when there is a root, holding `JsonExportFile`; kept packages' members are overwritten with relative attributes, the rest untouched |
| Exporter.ExportPackagesJson | PackageExport/MainWindow.py:1063-1086 | the entries are `JsonDocs`; each package's members are as `Exported` says |
| Exporter.ExportPackageJson | PackageExport/MainWindow.py:1063-1086 | one package's turn leaves every other package's members alone |
| Exporter.Export | PackageExport/MainWindow.py:925-1011 | the outcome is `Validate`'s; commands and the document are produced only on `Proceed`, and otherwise nothing changes |
| Exporter.RunExports | PackageExport/MainWindow.py:1008-1011 | the FBX commands when FBX is on, then the document when JSON is on and there is a root |
| Thyme.PlaceRelative | thyme.py:75-94 | relative attributes placed back under the root give the clone's attributes |
| Thyme.SnapshotPlaced | thyme.py:96-109 | a snapshot made relative and placed back is what the scene holds |
| Thyme.Transform.constructor | thyme.py:71-73 | a new clone holds the scene's attributes |
| Thyme.Transform.Update | thyme.py:96-109 | the result says whether the transform is live; attributes are re-read only when live and forced |
| Thyme.Transform.GetRelativeAttributes | thyme.py:75-94 | the result is the old attributes relative to the other's, and the clone now holds them |
| Thyme.Names | thyme.py:311 | the clone names, in order |
| Thyme.FindClone | thyme.py:114-117 | `n in clones` and `clones.index(n)` compare by name: the first clone of that name, or none |
| Thyme.FindCloneFirst | thyme.py:297-298 | the found position is the first position of the name |
| Thyme.Entries | thyme.py:423-429 | the clones' names and attributes, in order |
| Thyme.AddClonesNames | thyme.py:293-303 | the names after adding follow `AddNames`, with the root's name excluded |
| Thyme.AddClonesEffect | thyme.py:285-307 | selected names other than the root's hold the scene's attributes, others are unchanged, places are kept, names stay distinct |
| Thyme.AddCloneEffect | thyme.py:293-303 | one add touches only the clone of that name, or appends it |
| Thyme.NameLeTotal | thyme.py:311 | any two names are ordered |
| Thyme.Insert | thyme.py:311 | insertion keeps the list sorted and adds the one name |
| Thyme.SortedNames | thyme.py:311 | `sorted` gives a sorted permutation of the names |
| Thyme.SortedNamesMembers | thyme.py:311 | the shown list holds exactly the clone names, as many as there are clones |
| Thyme.RowsOf | thyme.py:422-431 | one data row per transform, in order |
| Thyme.CsvRoundTrip | thyme.py:408-431 | the file reads back as the root followed by the clones |
| Thyme.CsvWithoutRoot | thyme.py:422-426 | without a root only the header is written |
| Thyme.CloneManager.constructor | thyme.py:13-17 | no clones, no root, nothing shown |
| Thyme.CloneManager.SetRootToSelected | thyme.py:173-187 | with one selected transform it becomes the root as the scene has it; otherwise nothing changes |
| Thyme.CloneManager.UpdateClonesList | thyme.py:309-311 | the list shows the clone names sorted; the clones keep their order |
| Thyme.CloneManager.RefreshClone | thyme.py:297-298 | `update()` of one clone: the others are untouched |
| Thyme.CloneManager.AddName | thyme.py:292-303 | one turn of the add loop changes the clones as `AddClone` says |
| Thyme.CloneManager.AddSelection | thyme.py:285-307 | the clones become `AddClones` of the old ones; an empty selection changes nothing |
| Thyme.CloneManager.RefreshAll | thyme.py:266-271 | the clones are the remove-while-iterating pass; each is refreshed unless stepped over, and the list is redrawn |
| Thyme.CloneManager.RefreshClones | thyme.py:267-270 | the loop's result, with each stepped-over clone keeping its old attributes |
| Thyme.CloneManager.RemoveClone | thyme.py:270 | the clone at the position leaves; the others keep their order |
| Thyme.CloneManager.DeleteSelection | thyme.py:273-283 | no selection changes nothing; otherwise the names follow `DeleteNames`, and the list is redrawn only on success |
| Thyme.CloneManager.ExportCsv | thyme.py:408-431 | the file at `<dir>/<name>.csv` holds the header, the root and the clones; it is incomplete without a root |
| Beef.CountLabelInjective | beef.py:107 | different entry counts give different label texts |
| Beef.ExportItem.constructor | beef.py:31-60 | a new entry is named after its first object |
| Beef.ExportItem.TextChanged | beef.py:77-78 | the typed text is stored as typed |
| Beef.SeparateEntries | beef.py:172-177 | one entry per selected object, named after it |
| Beef.ExportsList.Entries | beef.py:154 | the entries as values, in list order |
| Beef.ExportsList.constructor | beef.py:226-231 | an empty list |
| Beef.ExportsList.AddSelectedSeparate | beef.py:166-182 | one fresh entry per selected object is appended in order; an empty selection changes nothing |
| Beef.ExportsList.AddSelectedSingle | beef.py:184-198 | one fresh entry with the whole selection, named after its first object; an empty selection changes nothing |
| Beef.ExportsList.RemoveThis | beef.py:98-107 | a listed entry leaves the list at its first position; an unlisted one raises and changes nothing |
| Beef.RemoveThisLeavesOthers | beef.py:102-103 | a removed entry is gone and every other entry stays |
| Beef.Export | beef.py:147-164 | the commands are the properties, then for each entry a replacing select and, if named, a write |
| Beef.ItemCommandsWritten | beef.py:154-164 | the loop writes exactly the named entries' files, in order |
| Beef.TurnWritten | beef.py:155-164 | one turn writes the entry's file unless it is unnamed |
| Beef.ExportWritesNamedFiles | beef.py:147-164 | the export button writes the files of the named entries and no others |
| Beef.NamedFilesMembers | beef.py:156-160 | a file is written for an entry exactly when the entry has a name |
| Beef.NoNamelessFile | beef.py:156-158 | the nameless file `<dir>/.fbx` is never written |
| Beef.ExportSendsPropertiesFirst | beef.py:152-164 | the seven properties go first, in box order; nothing after them sets a property |
| Beef.NoPropertyInLoop | beef.py:154-164 | the loop sets no property |
| Beef.WriteFollowsSelect | beef.py:154-164 | each write follows a select that replaces the selection with the entry's objects |
| Beef.SeparateFiles | beef.py:166-182 | adding separately and exporting writes one file per selected object, in order |
| Beef.SingleFile | beef.py:184-198 | adding as one entry and exporting writes one file, named after the first object |
| Beef.TypedSeparatorNestsFile | beef.py:77-78 | a typed `/` puts the file in a sub-directory |
| ScriptsBeef.Export | scripts/beef.py:169-178 | the commands are, per entry, a replacing select and a write, with no properties |
| ScriptsBeef.AllFiles | scripts/beef.py:175 | one file per entry, in order |
| ScriptsBeef.ScriptWritesAll | scripts/beef.py:173-178 | this export writes one file per entry, named or not |
| ScriptsBeef.ScriptWriteFollowsSelect | scripts/beef.py:173-178 | each write follows a replacing select |
| ScriptsBeef.LoopsAgreeOnNamedEntries | scripts/beef.py:173-178 | where every entry is named, both loops issue the same commands |
| ScriptsBeef.NamelessEntryWritten | scripts/beef.py:173-178 | an unnamed entry is written to `<dir>/.fbx`, which the newer loop never writes |
| ComponentStrings.Span | salt.py:22 | the longest prefix without the stop character |
| ComponentStrings.GroupText | salt.py:26 | `match.group(g)` succeeds exactly for groups 0 to 2 |
| ComponentStrings.MatchWellFormed | salt.py:22 | the groups of a match are non-empty and free of their stop characters |
| ComponentStrings.MatchSound | salt.py:22 | a matching string starts with its groups printed as `name.type[indices` |
| ComponentStrings.MatchComplete | salt.py:22 | a printed well-formed triple reads back as itself |
| ComponentStrings.DigitRun | salt.py:30 | the longest prefix of ASCII digits |
| ComponentStrings.InclusiveRange | salt.py:35-38 | `range(a, b + 1)`: the numbers from `a` to `b` in order, none when `b < a` |
| ComponentStrings.InclusiveRangeMembers | salt.py:35-38 | the range holds exactly the numbers between its bounds |
| ComponentStrings.ParseSingle | salt.py:30-32 | a printed index reads back as that index |
| ComponentStrings.ParseRange | salt.py:30-36 | a printed range `a:b` reads back as that range |
| ComponentStrings.ParseNonDigit | salt.py:30-32 | indices not starting with a digit make `int()` raise |
| Salt.SeparateComponentString | salt.py:6-43 | the loop returns what `Separated` says |
| Salt.GroupPartsShape | salt.py:24-39 | one entry per requested group, in order, unless a group raises, and then the first raising group decides the error |
| Salt.SeparatedNoDot | salt.py:40-41 | a string without `.` gives `[""]` |
| Salt.SeparatedExample | salt.py:8-12 | `pCube1.e[8]` gives `pCube1`, `e` and `[8]` |
| Salt.SeparatedSingle | salt.py:22-33 | a printed component `name.type[n]` gives back name, type and `[n]` |
| Salt.SeparatedRange | salt.py:30-39 | group 3 of a printed range is every index of it |
| Salt.FacesToEdgePerimeter | salt.py:45-88 | the tool's loops produce what `Perimeter` says |
| Salt.ObjectNameFrom | salt.py:56 | the object name is group 1 of the first component |
| Salt.KindIsFace | salt.py:59 | the face test is group 2 being `f` |
| Salt.IndicesFrom | salt.py:73 | the indices of one edge string |
| Salt.CollectIndices | salt.py:66-73 | the internal indices, concatenated in order |
| Salt.CollectPerimeter | salt.py:77-85 | the nested loop's edges are `PerimeterEdges` |
| Salt.ExternalOf | salt.py:82-85 | one edge string's indices that are not internal |
| Salt.PerimeterIsExternal | salt.py:77-85 | the perimeter is the filter of all indices against the internal ones, in order |
| Salt.ExternalMembers | salt.py:82-85 | an edge is emitted exactly when it names a non-internal index |
| Salt.PerimeterNeedsOneObjectAndFace | salt.py:48-63 | the selection changes only for one object with a face selected |
| ScriptsSalt.Ints | scripts/salt.py:31-38 | indices as flat elements, in order |
| ScriptsSalt.SeparateComponentString | scripts/salt.py:5-42 | the loop returns what `Separated` says |
| ScriptsSalt.CountIndexGroups | scripts/salt.py:23-24 | at most as many group-3 requests as groups |
| ScriptsSalt.FlatLength | scripts/salt.py:23-38 | the result's length: one per text group plus, per group 3, the number of indices |
| ScriptsSalt.VariantsAgree | scripts/salt.py:5-42 | both versions raise alike, or this one returns the other's result flattened |
| ScriptsSalt.PartsAgree | scripts/salt.py:23-38 | the group loops of the two versions agree group by group |
| ScriptsSalt.RangeSpliced | scripts/salt.py:34-38 | a printed range with group 3 gives every index, spliced in |
| ScriptsSalt.OneIndexGroup | scripts/salt.py:29-38 | group 3 alone gives the match's indices |

## Left out

- The window layout, icons, colours, scroll lists and their redraws (`updateLayout`, `updateUI`, `deleteUI`) are left out. The shown lists are kept only where the source keeps them as data (the clone list and the export entries).
- Sync-select and the scene-selection callbacks of both editors are left out. They only mirror one selection into another.
- Host calls are parameters:
  - the scene map stands for `objExists`, `objectType` and `getAttr`;
  - the selection lists stand for `ls` and `getSelection`'s traversal, whose result the callers receive;
  - `isDir` stands for `os.path.isdir`;
  - `confirm` stands for `confirmDialog`;
  - `similar` stands for `polyCompare`;
  - `cancel` stands for the progress bar's cancellation query;
  - `parentOf` stands for `listRelatives`;
  - the two edge conversions stand for `polyListComponentConversion`.
- The progress bar's steps are left out; only its cancellation is modelled.
- Commands that write files or change the scene are results, not effects:
  - `FBXExport` and the older `cmds.file` export are both `ExportSelected`;
  - `duplicate`/`delete` are the duplicate bookkeeping of `ExportRules.SceneAfter`;
  - the dupe's reset of translate, rotate and scale is not recorded.
- The text of the JSON and CSV files (indentation, quoting, number formatting) is not modelled; the documents are values.
- Messages printed to the script editor are not modelled.
- Floats are `real`: rounding is not modelled.
- A scale with a zero component (a division by zero in the source) is excluded by the `NonZero` preconditions, and the raise it would cause is not modelled.
- `int()` accepts only ASCII digits here. Python's `\d` and `int()` also accept other Unicode digits, surrounding whitespace, signs and underscores; those inputs are not modelled.
- The pattern of `separateComponentString` is modelled character by character, not through a regular-expression engine.
- The default `groups = [1]` of both versions of `separateComponentString` (`salt.py` 6, `scripts/salt.py` 5) is not modelled: `Salt.SeparateComponentString` and `ScriptsSalt.SeparateComponentString` always take `groups`, as every call site passes it.
- Transforms.Transform.Update: the source assigns new lists to the transform, while the model overwrites the transform's own three arrays. So a list handed out earlier by `getRelativeAttributes` is not modelled as surviving a later refresh.
- Transforms.Transform.Update: the `force` parameter is always true at the package exporter's call sites and is left out there.
- Thyme.Transform.GetRelativeAttributes: the clone's attributes are a value field, so the sharing between the returned lists and the clone's own lists is not modelled (the values agree: both hold the relative attributes).
- Thyme's `getRelativeAttributes` is modelled but no operation of the script calls it: the CSV export writes the absolute attributes.
- The package exporter's `getSelection` (`MainWindow.py` 103-124) is left out: the selection reaches the model as a parameter.
- `package.select`, `selectThis` with modifiers and `onToggleUpdateUI` change only the host's selection or the UI; the mode they choose is `UiHelpers.SelectModeFor`.
- `userSetup.py`, `Menu.py` and the root `UIHelpers.py` are not part of this model.
- Exporter.Export: takes as a precondition (`RootApart`) that the root shares no attribute list with any member. Every transform is created with lists of its own, so the source always meets it, but no invariant spans the settings pane and the package manager.
- Packages.AddMembersEffect: the per-member effect of adding is proved for members with distinct names. A package that automatic generation filled can hold one transform twice; there `index` refreshes only the first of them, which `AddMembers` itself (and so `Packages.Package.AddSelection`) does state.
- Beef.ExportsList.RemoveThis: `deleteUI` runs before `remove` in the source, so an unlisted entry's controls are deleted before the error; the UI is not modelled.

## Findings

| source | as written | input that shows it | evidently intended | confidence | as-written member | corrected member |
|---|---|---|---|---|---|---|
| PackageExport/MainWindow.py:713-719 (and thyme.py:266-271) | members are removed from the list the `for` loop iterates, so the member after a removed one is never examined | two adjacent members whose transforms were both deleted: the second stays in the package | every member whose transform is gone is removed | high, not executed | IteratedRemoval.AdjacentFailureSurvives | IteratedRemoval.FilterMembership |
| PackageExport/MainWindow.py:1029-1037 | the first member is duplicated before the empty-name check, and the `continue` skips the delete | one non-empty package with an empty file name: a duplicate of its first member stays in the scene | the export leaves the scene as it was | high, not executed | ExportRules.FbxLeakExample | ExportRules.FbxFixedRestoresScene |
| PackageExport/MainWindow.py:996-1004, 1076, 1089 | after the user continues past the no-root warning, `getRelativeAttributes(None)` or `rootTransform.attributes` raises and no document is written | JSON export on, no root, user answers Continue | a document with no root entry and the members' attributes as they are | medium, not executed | Exporter.ExportJson | ExportRules.JsonWithoutRoot |
| scripts/beef.py:173-178 | the older export writes every entry, so an entry whose name was cleared is written to `<dir>/.fbx` | one entry with an empty file name | unnamed entries are skipped, as the newer `beef.py` does | medium, not executed | ScriptsBeef.NamelessEntryWritten | Beef.NoNamelessFile |
