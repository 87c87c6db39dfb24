/**
  The older exporter window of the scripts folder. Its export list, entries, add buttons and
  remove button behave as in `Beef`; its export button differs: it sends no FBX property and
  writes every entry, whatever its name, with the host's generic file export.
*/
module ScriptsBeef {
  import opened Common
  import opened UiHelpers
  import opened ExportRules
  import opened Beef

  /** The export loop of this version: select each entry's objects and write them, in list order. */
  function ScriptCommands(directory: string, es: seq<Entry>): seq<Command> {
    if es == [] then []
    else
      var e := es[|es| - 1];
      ScriptCommands(directory, es[..|es| - 1])
      + [SelectObjects(e.objects, Replace), Host(ExportSelected(FbxPath(directory, e.fileName)))]
  }

  /** The export button, with the window's globals as parameters. */
  method Export(exports: ExportsList, directory: string) returns (calls: seq<Command>)
    ensures calls == ScriptCommands(directory, exports.Entries())
  {
    calls := [];
    ghost var es := exports.Entries();
    for k := 0 to |exports.items|
      invariant calls == ScriptCommands(directory, es[..k])
    {
      var item := exports.items[k];
      assert es[..k + 1][..k] == es[..k] && es[k] == Entry(item.includedObjects, item.fileName);
      calls := calls + [SelectObjects(item.includedObjects, Replace)];
      calls := calls + [Host(ExportSelected(FbxPath(directory, item.fileName)))];
    }
    assert es[..|exports.items|] == es;
  }

  /** The file of every entry, named or not, in list order. */
  function AllFiles(directory: string, es: seq<Entry>): (r: seq<string>)
    ensures |r| == |es|
    ensures forall k :: 0 <= k < |es| ==> r[k] == FbxPath(directory, es[k].fileName)
  {
    seq(|es|, k requires 0 <= k < |es| => FbxPath(directory, es[k].fileName))
  }

  /** This export writes one file per entry, in list order, and nothing for an empty list. */
  lemma {:induction false} ScriptWritesAll(directory: string, es: seq<Entry>)
    ensures Written(ScriptCommands(directory, es)) == AllFiles(directory, es)
  {
    if es != [] {
      var e := es[|es| - 1];
      var turn := [SelectObjects(e.objects, Replace), Host(ExportSelected(FbxPath(directory, e.fileName)))];
      ScriptWritesAll(directory, es[..|es| - 1]);
      WrittenAppend(ScriptCommands(directory, es[..|es| - 1]), turn);
      var select := [SelectObjects(e.objects, Replace)];
      assert select[..0] == [] && Written(select) == [];
      assert turn[..|turn| - 1] == select;
      assert Written(turn) == [FbxPath(directory, e.fileName)];
      assert AllFiles(directory, es) == AllFiles(directory, es[..|es| - 1]) + [FbxPath(directory, e.fileName)];
    }
  }

  /** This export, too, writes each file right after selecting the objects of its entry. */
  lemma {:induction false} ScriptWriteFollowsSelect(directory: string, es: seq<Entry>)
    ensures HostAfterSelect(ScriptCommands(directory, es))
  {
    if es != [] {
      var e := es[|es| - 1];
      var prev := ScriptCommands(directory, es[..|es| - 1]);
      var turn := [SelectObjects(e.objects, Replace), Host(ExportSelected(FbxPath(directory, e.fileName)))];
      ScriptWriteFollowsSelect(directory, es[..|es| - 1]);
      var calls := prev + turn;
      assert ScriptCommands(directory, es) == calls;
      forall k | 0 <= k < |calls| && calls[k].Host?
        ensures 0 < k && calls[k - 1].SelectObjects? && calls[k - 1].mode == Replace
      {
        if k < |prev| {
          assert calls[k] == prev[k] && prev[k].Host?;
          assert 0 < k && calls[k - 1] == prev[k - 1];
        } else {
          assert k == |prev| + 1 && calls[k - 1] == turn[0];
        }
      }
    }
  }

  /**
    Where every entry has a name, the two export loops issue the same commands, so the two
    versions write the same files.
  */
  lemma {:induction false} LoopsAgreeOnNamedEntries(directory: string, es: seq<Entry>)
    requires forall k :: 0 <= k < |es| ==> es[k].fileName != ""
    ensures ScriptCommands(directory, es) == ItemCommands(directory, es)
  {
    if es != [] {
      LoopsAgreeOnNamedEntries(directory, es[..|es| - 1]);
    }
  }

  /**
    An entry whose name was cleared is still written, to the nameless file `<directory>/.fbx`,
    which the newer loop never writes.
  */
  lemma NamelessEntryWritten(directory: string, objects: seq<string>)
    ensures Written(ScriptCommands(directory, [Entry(objects, "")])) == [directory + "/.fbx"]
    ensures directory + "/.fbx" !in Written(ItemCommands(directory, [Entry(objects, "")]))
  {
    var es := [Entry(objects, "")];
    ScriptWritesAll(directory, es);
    ItemCommandsWritten(directory, es);
    NoNamelessFile(directory, es);
    assert FbxPath(directory, "") == directory + "/.fbx";
    assert AllFiles(directory, es) == [FbxPath(directory, "")];
  }
}
