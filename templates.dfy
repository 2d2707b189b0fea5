/**
 * The region template store (js/template-manager.js): named lists of regions
 * kept as one JSON object in browser storage. Every operation reads the whole
 * object back (falling back to an empty one), changes it, and writes it again.
 * The storage slot is a field here; the JSON text, the prompt and confirm
 * dialogs, the clock and the file picker are parameters.
 */
module TemplateManager {
  import opened Wrappers
  import opened Text
  import opened RegionSelector

  /** The `regions` property of a stored template: an array of region records or anything else. */
  datatype RegionsField = Absent | RegionArray(items: seq<Region>) | NotArray

  datatype Template = Template(createdAt: Option<string>, regions: RegionsField)

  /** What the storage slot holds: nothing (or an empty string), text that does not parse, or an object. */
  datatype Stored = Empty | Unparseable | Holds(templates: map<string, Template>)

  /** A value of an imported JSON object, as far as the import loop can tell them apart. */
  datatype Imported = NullValue | ObjectValue(template: Template) | OtherValue

  /** `getTemplates`: the stored object, or `{}` when the slot is empty or does not parse. */
  function GetTemplates(s: Stored): (t: map<string, Template>)
    ensures !s.Holds? ==> t == map[]
    ensures s.Holds? ==> t == s.templates
  {
    match s
    case Holds(t) => t
    case _ => map[]
  }

  /** The record saved for a region: every field but `color`. */
  function Project(r: Region): Region {
    r.(color := None)
  }

  function Projected(rs: seq<Region>): (ps: seq<Region>)
    ensures |ps| == |rs|
    ensures forall i :: 0 <= i < |rs| ==> ps[i] == Project(rs[i])
  {
    seq(|rs|, i requires 0 <= i < |rs| => Project(rs[i]))
  }

  /**
   * Saving then loading gives back every region in order with its id, label,
   * coordinates and PSM; colours are reassigned from the palette by position.
   */
  lemma SaveLoadRoundTrip(rs: seq<Region>)
    ensures |Recolored(Projected(rs))| == |rs|
    ensures forall i :: 0 <= i < |rs| ==>
      Recolored(Projected(rs))[i].(color := rs[i].color) == rs[i]
    ensures forall i :: 0 <= i < |rs| ==>
      Recolored(Projected(rs))[i].color == Some(Colors[i % |Colors|])
  {
    var ps := Projected(rs);
    RecoloredSpec(ps);
    forall i | 0 <= i < |rs|
      ensures Recolored(ps)[i].(color := rs[i].color) == rs[i]
    {
      assert Recolored(ps)[i].(color := ps[i].color) == ps[i];
    }
  }

  /** The import loop accepts an entry whose value has a `regions` array. */
  predicate HasRegions(v: Imported) {
    v.ObjectValue? && v.template.regions.RegionArray?
  }

  /** Reading `.regions` of `null` throws, which abandons the whole import. */
  predicate Throws(entries: seq<(string, Imported)>) {
    exists i :: 0 <= i < |entries| && entries[i].1.NullValue?
  }

  /** One iteration of the import loop. */
  function Admit(t: map<string, Template>, e: (string, Imported)): map<string, Template> {
    if HasRegions(e.1) then t[e.0 := e.1.template] else t
  }

  /** The import loop over the entries, front to back. */
  function Merge(t: map<string, Template>, entries: seq<(string, Imported)>): map<string, Template>
    decreases |entries|
  {
    if entries == [] then t else Merge(Admit(t, entries[0]), entries[1..])
  }

  function CountAccepted(entries: seq<(string, Imported)>): (n: nat)
    ensures n <= |entries|
  {
    if entries == [] then 0
    else (if HasRegions(entries[0].1) then 1 else 0) + CountAccepted(entries[1..])
  }

  /**
   * The value a key has after an import, read from the back: the last accepted
   * entry with that key, or the value from before the import.
   */
  function LookupAfter(t: map<string, Template>, entries: seq<(string, Imported)>, k: string): Option<Template>
    decreases |entries|
  {
    if entries == [] then (if k in t then Some(t[k]) else None)
    else
      var e := entries[|entries| - 1];
      if HasRegions(e.1) && e.0 == k then Some(e.1.template)
      else LookupAfter(t, entries[..|entries| - 1], k)
  }

  lemma {:induction false} MergeSnoc(t: map<string, Template>, entries: seq<(string, Imported)>, e: (string, Imported))
    ensures Merge(t, entries + [e]) == Admit(Merge(t, entries), e)
    decreases |entries|
  {
    if entries == [] {
      assert [e][1..] == [];
    } else {
      assert (entries + [e])[1..] == entries[1..] + [e];
      MergeSnoc(Admit(t, entries[0]), entries[1..], e);
    }
  }

  /** An import overwrites exactly the keys of accepted entries, the last one winning, and keeps every other key. */
  lemma {:induction false} MergeLookup(t: map<string, Template>, entries: seq<(string, Imported)>, k: string)
    ensures k in Merge(t, entries) <==> LookupAfter(t, entries, k).Some?
    ensures k in Merge(t, entries) ==> Some(Merge(t, entries)[k]) == LookupAfter(t, entries, k)
    decreases |entries|
  {
    if entries != [] {
      var init := entries[..|entries| - 1];
      var e := entries[|entries| - 1];
      assert entries == init + [e];
      MergeSnoc(t, init, e);
      MergeLookup(t, init, k);
    }
  }

  /** Keys that no accepted entry names keep their value (or their absence). */
  lemma {:induction false} MergeKeepsOthers(t: map<string, Template>, entries: seq<(string, Imported)>, k: string)
    requires forall i :: 0 <= i < |entries| && HasRegions(entries[i].1) ==> entries[i].0 != k
    ensures k in Merge(t, entries) <==> k in t
    ensures k in t ==> Merge(t, entries)[k] == t[k]
    decreases |entries|
  {
    if entries != [] {
      MergeKeepsOthers(Admit(t, entries[0]), entries[1..], k);
    }
  }

  class Store {
    /** The `ocr_templates` storage slot. */
    var stored: Stored

    constructor (initial: Stored)
      ensures stored == initial
    {
      stored := initial;
    }

    /**
     * `saveTemplate`: `name` is the prompt's answer (`None` when cancelled),
     * `overwrite` the answer to the confirm dialog, `createdAt` the clock.
     */
    method Save(regions: seq<Region>, name: Option<string>, overwrite: bool, createdAt: string)
      modifies this
      ensures regions == [] || name == None || AllSpace(name.value) ==> stored == old(stored)
      ensures regions != [] && name.Some? && !AllSpace(name.value) ==>
        var key := Strip(name.value);
        var t := GetTemplates(old(stored));
        && key != []
        && (key in t && !overwrite ==> stored == old(stored))
        && (key !in t || overwrite ==>
              stored == Holds(t[key := Template(Some(createdAt), RegionArray(Projected(regions)))]))
    {
      if |regions| == 0 {
        return;
      }
      if name == None || Strip(name.value) == [] {
        return;
      }
      var key := Strip(name.value);
      var t := GetTemplates(stored);
      if key in t && !overwrite {
        return;
      }
      t := t[key := Template(Some(createdAt), RegionArray(Projected(regions)))];
      stored := Holds(t);
    }

    /**
     * `loadTemplate` with `name` selected: hands the stored regions to the
     * region list. No selection, an unknown name, or a `regions` value that is
     * not an array (which throws inside `setRegions`) changes nothing.
     */
    method Load(name: string, selector: Selector)
      requires selector.Valid()
      modifies selector
      ensures selector.Valid()
      ensures var t := GetTemplates(stored);
        if name != [] && name in t && t[name].regions.RegionArray? then
          && selector.regions == Recolored(t[name].regions.items)
          && selector.regionCounter == |t[name].regions.items|
        else
          selector.regions == old(selector.regions) && selector.regionCounter == old(selector.regionCounter)
      ensures selector.isDrawing == old(selector.isDrawing)
      ensures selector.startX == old(selector.startX) && selector.startY == old(selector.startY)
      ensures selector.currentX == old(selector.currentX) && selector.currentY == old(selector.currentY)
    {
      if name == [] {
        return;
      }
      var t := GetTemplates(stored);
      if name !in t {
        return;
      }
      match t[name].regions
      case RegionArray(items) =>
        selector.SetRegions(items);
      case _ =>
    }

    /** `deleteTemplate` with `name` selected and `confirmed` the dialog's answer. */
    method Delete(name: string, confirmed: bool)
      modifies this
      ensures name == [] || !confirmed ==> stored == old(stored)
      ensures name != [] && confirmed ==> stored == Holds(GetTemplates(old(stored)) - {name})
    {
      if name == [] || !confirmed {
        return;
      }
      var t := GetTemplates(stored);
      stored := Holds(t - {name});
    }

    /**
     * `importTemplate`: `file` holds the entries of the parsed JSON object, or
     * `None` when the file does not parse as one. Any failure leaves storage
     * as it was and reports no count.
     */
    method Import(file: Option<seq<(string, Imported)>>) returns (count: Option<nat>)
      modifies this
      ensures file == None || Throws(file.value) ==> count == None && stored == old(stored)
      ensures file.Some? && !Throws(file.value) ==>
        && count == Some(CountAccepted(file.value))
        && stored == Holds(Merge(GetTemplates(old(stored)), file.value))
    {
      if file == None {
        return None;
      }
      var entries := file.value;
      var t := GetTemplates(stored);
      var n := 0;
      var i := 0;
      while i < |entries|
        invariant 0 <= i <= |entries|
        invariant forall j :: 0 <= j < i ==> !entries[j].1.NullValue?
        invariant Merge(t, entries[i..]) == Merge(GetTemplates(stored), entries)
        invariant n + CountAccepted(entries[i..]) == CountAccepted(entries)
      {
        assert entries[i..][0] == entries[i] && entries[i..][1..] == entries[i + 1..];
        var (key, data) := entries[i];
        if data.NullValue? {
          return None;
        }
        if HasRegions(data) {
          t := t[key := data.template];
          n := n + 1;
        }
        i := i + 1;
      }
      assert entries[i..] == [];
      stored := Holds(t);
      count := Some(n);
    }
  }
}
