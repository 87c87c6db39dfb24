/**
  The FBX settings section of the export settings: seven check boxes, each bound to one FBX
  exporter property, all sent to the exporter before any file is written.
*/
module FbxSettings {
  import opened Common
  import opened ExportRules

  /** The exporter properties of the seven check boxes, in the order they are laid out and sent. */
  const Properties: seq<string> := [
    "Export|IncludeGrp|Geometry|SmoothingGroups",
    "Export|IncludeGrp|Geometry|SmoothMesh",
    "Export|IncludeGrp|Geometry|expHardEdges",
    "Export|IncludeGrp|Geometry|Triangulate",
    "Export|IncludeGrp|Geometry|TangentsandBinormals",
    "Export|IncludeGrp|Animation|Deformation|Skins",
    "Export|IncludeGrp|Animation|Deformation|Shape"
  ]

  /** Smoothing groups, smooth mesh, split vertex normals, triangulate, tangents, skinning, blend shapes. */
  const Defaults: seq<bool> := [true, true, false, false, false, true, true]

  /** `int(value)` of a check box value. */
  function PropertyValue(b: bool): (v: int)
    ensures v == 0 || v == 1
    ensures v == 1 <==> b
  {
    if b then 1 else 0
  }

  /** The property commands for the given check box values, in check box order. */
  function PropertyCalls(values: seq<bool>): (r: seq<FbxCall>)
    requires |values| == |Properties|
    ensures |r| == |values|
    ensures forall k :: 0 <= k < |r| ==> r[k].SetProperty? && r[k].property == Properties[k]
    ensures forall k :: 0 <= k < |r| ==> r[k].value == PropertyValue(values[k])
  {
    seq(|values|, k requires 0 <= k < |values| => SetProperty(Properties[k], PropertyValue(values[k])))
  }

  /** With the check boxes as they start, the values sent are 1, 1, 0, 0, 0, 1, 1. */
  lemma DefaultValuesSent()
    ensures var calls := PropertyCalls(Defaults);
      [calls[0].value, calls[1].value, calls[2].value, calls[3].value, calls[4].value, calls[5].value, calls[6].value]
      == [1, 1, 0, 0, 0, 1, 1]
  {
  }

  class FbxCheckbox {
    const property: string
    var value: bool

    constructor (property: string, defaultValue: bool)
      ensures this.property == property && value == defaultValue
    {
      this.property := property;
      value := defaultValue;
    }

    /** The change callback: the box's new state becomes its value. */
    method OnUIChanged(checked: bool)
      modifies this
      ensures value == checked
    {
      value := checked;
    }
  }

  class FbxSettingsLayout {
    const checkboxes: seq<FbxCheckbox>

    /** Seven boxes bound to the seven properties, in order. */
    predicate Valid() {
      |checkboxes| == |Properties|
      && forall k :: 0 <= k < |checkboxes| ==> checkboxes[k].property == Properties[k]
    }

    /** The boxes' values, in order. */
    function Values(): (r: seq<bool>)
      reads set c | c in checkboxes
      ensures |r| == |checkboxes|
      ensures forall k :: 0 <= k < |r| ==> r[k] == checkboxes[k].value
    {
      seq(|checkboxes|, k requires 0 <= k < |checkboxes| reads set c | c in checkboxes => checkboxes[k].value)
    }

    constructor ()
      ensures Valid()
      ensures forall k :: 0 <= k < |checkboxes| ==> checkboxes[k].value == Defaults[k]
    {
      var smoothingGroups := new FbxCheckbox(Properties[0], Defaults[0]);
      var smoothMesh := new FbxCheckbox(Properties[1], Defaults[1]);
      var hardEdges := new FbxCheckbox(Properties[2], Defaults[2]);
      var triangulate := new FbxCheckbox(Properties[3], Defaults[3]);
      var tangents := new FbxCheckbox(Properties[4], Defaults[4]);
      var skins := new FbxCheckbox(Properties[5], Defaults[5]);
      var shapes := new FbxCheckbox(Properties[6], Defaults[6]);
      checkboxes := [smoothingGroups, smoothMesh, hardEdges, triangulate, tangents, skins, shapes];
    }

    /** Send every box's property with the box's current value, in box order. */
    method SendProperties() returns (calls: seq<FbxCall>)
      requires Valid()
      ensures calls == PropertyCalls(Values())
    {
      calls := [];
      for k := 0 to |checkboxes|
        invariant calls == PropertyCalls(Values())[..k]
      {
        var box := checkboxes[k];
        calls := calls + [SetProperty(box.property, PropertyValue(box.value))];
      }
    }
  }
}
