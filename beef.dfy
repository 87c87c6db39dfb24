/**
  The stand-alone FBX exporter window: a list of export entries, each holding the objects it
  exports and the file name it is written under, the seven FBX check boxes of `FbxSettings`,
  and the export button, which sends the check boxes to the FBX exporter and then selects each
  entry's objects and writes them to `<directory>/<file name>.fbx`.
*/
module Beef {
  import opened Common
  import opened UiHelpers
  import opened ExportRules
  import opened FbxSettings

  /** What the window asks of the host, in order: an FBX command or a change of selection. */
  datatype Command =
    | Host(call: FbxCall)
    | SelectObjects(objects: seq<string>, mode: SelectMode)

  /** An export entry as a value: the objects it selects and the file name it is written under. */
  datatype Entry = Entry(objects: seq<string>, fileName: string)

  /** The text of the count label for `n` entries. */
  function CountLabel(n: nat): string {
    "Ready to export (" + NatToString(n) + ") files"
  }

  /** The label tells the number of entries: different counts read differently. */
  lemma CountLabelInjective(a: nat, b: nat)
    requires CountLabel(a) == CountLabel(b)
    ensures a == b
  {
    var p, q := "Ready to export (", ") files";
    var sa, sb := NatToString(a), NatToString(b);
    assert CountLabel(a) == p + sa + q && CountLabel(b) == p + sb + q;
    assert |sa| == |sb|;
    assert sa == CountLabel(a)[|p|..|p| + |sa|];
    assert sb == CountLabel(b)[|p|..|p| + |sb|];
    NatToStringInjective(a, b);
  }

  /* ---------------- entries and the list ---------------- */

  class ExportItem {
    const includedObjects: seq<string>
    var fileName: string

    /** A new entry is named after its first object; an empty list has no first object. */
    constructor (includedObjects: seq<string>)
      requires |includedObjects| > 0
      ensures this.includedObjects == includedObjects && fileName == includedObjects[0]
    {
      this.includedObjects := includedObjects;
      fileName := includedObjects[0];
    }

    /** The file-name field's change callback keeps the text as typed: nothing is stripped. */
    method TextChanged(text: string)
      modifies this
      ensures fileName == text
    {
      fileName := text;
    }

    function Value(): Entry
      reads this
    {
      Entry(includedObjects, fileName)
    }
  }

  /** One entry per selected object, each named after its object. */
  function SeparateEntries(selected: seq<string>): (r: seq<Entry>)
    ensures |r| == |selected|
    ensures forall k :: 0 <= k < |r| ==> r[k].objects == [selected[k]] && r[k].fileName == selected[k]
  {
    seq(|selected|, k requires 0 <= k < |selected| => Entry([selected[k]], selected[k]))
  }

  /**
    The export list with the layout that shows it and the count label above it. The layout's
    controls are the entries, in the same order, and the label shows how many there are.
  */
  class ExportsList {
    var items: seq<ExportItem>
    var controls: seq<ExportItem>
    var countLabel: string

    ghost predicate Valid()
      reads this
    {
      controls == items && Distinct(items) && countLabel == CountLabel(|items|)
    }

    /** The entries as values, in list order. */
    function Entries(): (r: seq<Entry>)
      reads this, set t | t in items
      ensures |r| == |items|
      ensures forall k :: 0 <= k < |items| ==> r[k] == items[k].Value()
    {
      seq(|items|, k requires 0 <= k < |items| reads this, set t | t in items => items[k].Value())
    }

    constructor ()
      ensures Valid() && items == []
    {
      items := [];
      controls := [];
      countLabel := CountLabel(0);
    }

    /**
      "Add Selection (separate)": one new entry per selected object, appended in selection
      order. An empty selection only prints a message.
    */
    method AddSelectedSeparate(selected: seq<string>)
      requires Valid()
      modifies this
      ensures Valid()
      ensures selected == [] ==> items == old(items)
      ensures |items| == old(|items|) + |selected| && items[..old(|items|)] == old(items)
      ensures forall k :: old(|items|) <= k < |items| ==> fresh(items[k])
      ensures Entries() == old(Entries()) + SeparateEntries(selected)
    {
      if |selected| <= 0 {
        return;
      }
      ghost var n := |items|;
      for k := 0 to |selected|
        invariant controls == items && Distinct(items)
        invariant |items| == n + k && items[..n] == old(items)
        invariant forall j :: n <= j < |items| ==> fresh(items[j])
        invariant Entries() == old(Entries()) + SeparateEntries(selected[..k])
      {
        var item := new ExportItem([selected[k]]);
        items := items + [item];
        controls := controls + [item];
        assert SeparateEntries(selected[..k + 1]) == SeparateEntries(selected[..k]) + [item.Value()];
      }
      assert selected[..|selected|] == selected;
      countLabel := CountLabel(|items|);
    }

    /**
      "Add Selection (single)": one new entry holding the whole selection, named after its
      first object. An empty selection only prints a message.
    */
    method AddSelectedSingle(selected: seq<string>)
      requires Valid()
      modifies this
      ensures Valid()
      ensures selected == [] ==> items == old(items)
      ensures selected != [] ==> |items| == old(|items|) + 1 && items[..old(|items|)] == old(items)
      ensures selected != [] ==> fresh(items[|items| - 1])
      ensures selected != [] ==> Entries() == old(Entries()) + [Entry(selected, selected[0])]
    {
      if |selected| <= 0 {
        return;
      }
      var item := new ExportItem(selected);
      items := items + [item];
      controls := controls + [item];
      countLabel := CountLabel(|items|);
    }

    /**
      An entry's "Remove from list" button: the entry leaves the list and the layout and the
      label is redrawn. `remove` of an entry that is not listed raises ValueError before
      anything changes (reported as `ok == false`).
    */
    method RemoveThis(item: ExportItem) returns (ok: bool)
      requires Valid()
      modifies this
      ensures Valid()
      ensures ok == (item in old(items))
      ensures !ok ==> items == old(items)
      ensures ok ==> items == old(items[..FirstIndex(items, item)] + items[FirstIndex(items, item) + 1..])
    {
      if item !in items {
        return false;
      }
      var at := FirstIndex(items, item);
      RemoveAtDistinct(items, at);
      items := items[..at] + items[at + 1..];
      controls := controls[..at] + controls[at + 1..];
      countLabel := CountLabel(|items|);
      return true;
    }
  }

  /**
    Removing the first occurrence of a listed entry from a list without repeats leaves every
    other entry, in order, and not that one.
  */
  lemma RemoveAtDistinct(items: seq<ExportItem>, at: nat)
    requires at < |items| && Distinct(items)
    ensures var r := items[..at] + items[at + 1..];
      && |r| == |items| - 1 && Distinct(r) && items[at] !in r
      && forall x :: x in r <==> x in items && x != items[at]
  {
    var r := items[..at] + items[at + 1..];
    assert forall k :: 0 <= k < |r| ==> r[k] == items[if k < at then k else k + 1];
    forall x | x in items && x != items[at] ensures x in r {
      var k :| 0 <= k < |items| && items[k] == x;
      assert x == r[if k < at then k else k - 1];
    }
  }

  /** A removed entry is gone for good: the list no longer holds it and holds all the others. */
  lemma RemoveThisLeavesOthers(items: seq<ExportItem>, item: ExportItem)
    requires item in items && Distinct(items)
    ensures var k := FirstIndex(items, item);
      var r := items[..k] + items[k + 1..];
      && |r| == |items| - 1 && item !in r
      && forall x :: x in r <==> x in items && x != item
  {
    RemoveAtDistinct(items, FirstIndex(items, item));
  }

  /* ---------------- the export button ---------------- */

  /** FBX commands as host commands. */
  function Hosts(calls: seq<FbxCall>): (r: seq<Command>)
    ensures |r| == |calls| && forall k :: 0 <= k < |r| ==> r[k] == Host(calls[k])
  {
    seq(|calls|, k requires 0 <= k < |calls| => Host(calls[k]))
  }

  /** An entry's turn of the export loop: select its objects, then write them unless it has no name. */
  function ItemTurn(directory: string, e: Entry): seq<Command> {
    [SelectObjects(e.objects, Replace)]
    + (if e.fileName == "" then [] else [Host(ExportSelected(FbxPath(directory, e.fileName)))])
  }

  /** The export loop over the entries, in list order. */
  function ItemCommands(directory: string, es: seq<Entry>): seq<Command> {
    if es == [] then [] else ItemCommands(directory, es[..|es| - 1]) + ItemTurn(directory, es[|es| - 1])
  }

  /** The export button: every check box's property first, then the loop. */
  function ExportCommands(values: seq<bool>, directory: string, es: seq<Entry>): seq<Command>
    requires |values| == |Properties|
  {
    Hosts(PropertyCalls(values)) + ItemCommands(directory, es)
  }

  /** The export button, with the window's globals as parameters. */
  method Export(exports: ExportsList, settings: FbxSettingsLayout, directory: string) returns (calls: seq<Command>)
    requires settings.Valid()
    ensures calls == ExportCommands(settings.Values(), directory, exports.Entries())
  {
    var props := settings.SendProperties();
    calls := Hosts(props);
    ghost var es := exports.Entries();
    for k := 0 to |exports.items|
      invariant calls == Hosts(props) + ItemCommands(directory, es[..k])
    {
      var item := exports.items[k];
      assert es[..k + 1][..k] == es[..k] && es[k] == Entry(item.includedObjects, item.fileName);
      calls := calls + [SelectObjects(item.includedObjects, Replace)];
      if item.fileName == "" {
        continue;
      }
      calls := calls + [Host(ExportSelected(FbxPath(directory, item.fileName)))];
    }
    assert es[..|exports.items|] == es;
  }

  /** The files a command list writes, in order. */
  function Written(calls: seq<Command>): seq<string> {
    if calls == [] then []
    else
      Written(calls[..|calls| - 1])
      + (var c := calls[|calls| - 1]; if c.Host? && c.call.ExportSelected? then [c.call.path] else [])
  }

  /** Writing distributes over concatenation. */
  lemma {:induction false} WrittenAppend(a: seq<Command>, b: seq<Command>)
    ensures Written(a + b) == Written(a) + Written(b)
    decreases |b|
  {
    if b == [] {
      assert a + b == a;
    } else {
      assert (a + b)[..|a + b| - 1] == a + b[..|b| - 1];
      WrittenAppend(a, b[..|b| - 1]);
    }
  }

  /** The files of the entries that have a name, in list order. */
  function NamedFiles(directory: string, es: seq<Entry>): seq<string> {
    if es == [] then []
    else
      var e := es[|es| - 1];
      NamedFiles(directory, es[..|es| - 1]) + (if e.fileName == "" then [] else [FbxPath(directory, e.fileName)])
  }

  /** The export loop writes exactly the named entries' files, in list order. */
  lemma {:induction false} ItemCommandsWritten(directory: string, es: seq<Entry>)
    ensures Written(ItemCommands(directory, es)) == NamedFiles(directory, es)
  {
    if es != [] {
      var e := es[|es| - 1];
      ItemCommandsWritten(directory, es[..|es| - 1]);
      WrittenAppend(ItemCommands(directory, es[..|es| - 1]), ItemTurn(directory, e));
      TurnWritten(directory, e);
    }
  }

  /** One turn writes the entry's file, unless the entry has no name. */
  lemma TurnWritten(directory: string, e: Entry)
    ensures Written(ItemTurn(directory, e)) == if e.fileName == "" then [] else [FbxPath(directory, e.fileName)]
  {
    var select := [SelectObjects(e.objects, Replace)];
    assert select[..0] == [];
    assert Written(select) == [];
    if e.fileName != "" {
      var turn := ItemTurn(directory, e);
      assert turn[..|turn| - 1] == select;
    } else {
      assert ItemTurn(directory, e) == select;
    }
  }

  /** Property commands write nothing. */
  lemma {:induction false} HostsWriteNothing(calls: seq<FbxCall>)
    requires forall k :: 0 <= k < |calls| ==> calls[k].SetProperty?
    ensures Written(Hosts(calls)) == []
  {
    if calls != [] {
      var init := calls[..|calls| - 1];
      assert forall k :: 0 <= k < |init| ==> init[k] == calls[k];
      HostsWriteNothing(init);
      var h := Hosts(calls);
      assert h[..|h| - 1] == Hosts(init);
      assert h[|h| - 1] == Host(calls[|calls| - 1]);
    }
  }

  /**
    The export button writes the file of every entry that has a name, in list order, and no
    other file; an entry whose name was cleared is skipped.
  */
  lemma ExportWritesNamedFiles(values: seq<bool>, directory: string, es: seq<Entry>)
    requires |values| == |Properties|
    ensures Written(ExportCommands(values, directory, es)) == NamedFiles(directory, es)
  {
    HostsWriteNothing(PropertyCalls(values));
    WrittenAppend(Hosts(PropertyCalls(values)), ItemCommands(directory, es));
    ItemCommandsWritten(directory, es);
  }

  /** A file is written for an entry exactly when the entry has a name. */
  lemma {:induction false} NamedFilesMembers(directory: string, es: seq<Entry>, p: string)
    ensures p in NamedFiles(directory, es)
        <==> exists k :: 0 <= k < |es| && es[k].fileName != "" && p == FbxPath(directory, es[k].fileName)
  {
    if es != [] {
      var init := es[..|es| - 1];
      NamedFilesMembers(directory, init, p);
      if exists k :: 0 <= k < |init| && init[k].fileName != "" && p == FbxPath(directory, init[k].fileName) {
        var k :| 0 <= k < |init| && init[k].fileName != "" && p == FbxPath(directory, init[k].fileName);
        assert es[k] == init[k];
      }
      if exists k :: 0 <= k < |es| && es[k].fileName != "" && p == FbxPath(directory, es[k].fileName) {
        var k :| 0 <= k < |es| && es[k].fileName != "" && p == FbxPath(directory, es[k].fileName);
        if k < |init| {
          assert init[k] == es[k];
        }
      }
    }
  }

  /** No entry is ever written to the nameless file `<directory>/.fbx`. */
  lemma NoNamelessFile(directory: string, es: seq<Entry>)
    ensures FbxPath(directory, "") !in NamedFiles(directory, es)
  {
    NamedFilesMembers(directory, es, FbxPath(directory, ""));
    forall k | 0 <= k < |es| && es[k].fileName != ""
      ensures FbxPath(directory, es[k].fileName) != FbxPath(directory, "")
    {
      assert |FbxPath(directory, es[k].fileName)| > |FbxPath(directory, "")|;
    }
  }

  /**
    The seven properties go out first, in check box order with the boxes' values, and nothing
    after them sets a property: every file is written with the settings already sent, even when
    the list is empty.
  */
  lemma ExportSendsPropertiesFirst(values: seq<bool>, directory: string, es: seq<Entry>)
    requires |values| == |Properties|
    ensures var calls := ExportCommands(values, directory, es);
      && |calls| >= |Properties|
      && (forall k :: 0 <= k < |Properties| ==>
            calls[k] == Host(SetProperty(Properties[k], PropertyValue(values[k]))))
      && (forall k :: |Properties| <= k < |calls| ==> !(calls[k].Host? && calls[k].call.SetProperty?))
  {
    NoPropertyInLoop(directory, es);
  }

  /** The export loop sets no property. */
  lemma {:induction false} NoPropertyInLoop(directory: string, es: seq<Entry>)
    ensures forall k :: 0 <= k < |ItemCommands(directory, es)| ==>
      var c := ItemCommands(directory, es)[k]; !(c.Host? && c.call.SetProperty?)
  {
    if es != [] {
      NoPropertyInLoop(directory, es[..|es| - 1]);
    }
  }

  /** Every host command comes right after a selection that replaces the current one. */
  predicate HostAfterSelect(calls: seq<Command>) {
    forall k :: 0 <= k < |calls| && calls[k].Host? ==>
      0 < k && calls[k - 1].SelectObjects? && calls[k - 1].mode == Replace
  }

  /**
    Each file is written right after the objects of its entry replace the selection, so an
    entry's file holds that entry's objects.
  */
  lemma {:induction false} WriteFollowsSelect(directory: string, es: seq<Entry>)
    ensures HostAfterSelect(ItemCommands(directory, es))
  {
    if es != [] {
      var prev := ItemCommands(directory, es[..|es| - 1]);
      var turn := ItemTurn(directory, es[|es| - 1]);
      WriteFollowsSelect(directory, es[..|es| - 1]);
      var calls := prev + turn;
      assert ItemCommands(directory, es) == calls;
      forall k | 0 <= k < |calls| && calls[k].Host?
        ensures 0 < k && calls[k - 1].SelectObjects? && calls[k - 1].mode == Replace
      {
        if k < |prev| {
          assert calls[k] == prev[k] && prev[k].Host?;
          assert 0 < k && calls[k - 1] == prev[k - 1];
        } else {
          assert calls[k] == turn[k - |prev|];
          assert k == |prev| + 1 && calls[k - 1] == turn[0];
        }
      }
    }
  }

  /**
    Adding a selection as separate entries and exporting writes one file per selected object,
    named after it, in selection order.
  */
  lemma SeparateFiles(directory: string, selected: seq<string>)
    requires forall k :: 0 <= k < |selected| ==> selected[k] != ""
    ensures NamedFiles(directory, SeparateEntries(selected))
         == seq(|selected|, k requires 0 <= k < |selected| => FbxPath(directory, selected[k]))
  {
    SeparateFilesPrefix(directory, selected, |selected|);
    assert selected[..|selected|] == selected;
  }

  lemma {:induction false} SeparateFilesPrefix(directory: string, selected: seq<string>, n: nat)
    requires n <= |selected| && forall k :: 0 <= k < |selected| ==> selected[k] != ""
    ensures NamedFiles(directory, SeparateEntries(selected[..n]))
         == seq(n, k requires 0 <= k < n => FbxPath(directory, selected[k]))
  {
    if n > 0 {
      SeparateFilesPrefix(directory, selected, n - 1);
      var es := SeparateEntries(selected[..n]);
      assert es[..n - 1] == SeparateEntries(selected[..n - 1]);
      assert es[n - 1] == Entry([selected[n - 1]], selected[n - 1]);
      var files := seq(n, k requires 0 <= k < n => FbxPath(directory, selected[k]));
      assert files == seq(n - 1, k requires 0 <= k < n - 1 => FbxPath(directory, selected[k])) + [FbxPath(directory, selected[n - 1])];
    }
  }

  /** Adding a selection as one entry and exporting writes one file, named after its first object. */
  lemma SingleFile(directory: string, selected: seq<string>)
    requires selected != [] && selected[0] != ""
    ensures NamedFiles(directory, [Entry(selected, selected[0])]) == [FbxPath(directory, selected[0])]
  {
    var es := [Entry(selected, selected[0])];
    assert es[..0] == [];
  }

  /**
    A name typed into the file-name field is used as typed: a `/` in it puts the file in a
    sub-directory of the export directory.
  */
  lemma TypedSeparatorNestsFile(directory: string, sub: string, name: string)
    ensures FbxPath(directory, sub + "/" + name) == FbxPath(directory + "/" + sub, name)
  {
  }
}
