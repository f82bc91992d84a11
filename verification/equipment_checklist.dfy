/** The shelter equipment checklist (EquipmentChecklist.tsx): eight fixed
    items whose ticks are stored as a list of (id, checked) pairs, merged
    back over the defaults when loaded. Storage is left out: what was
    stored, once parsed, is an input. */
module EquipmentChecklist {
  import opened Wrappers

  datatype Item = Item(id: string, caption: string, checked: bool)

  /** A stored entry; `checked` is None when the entry lacks it. */
  datatype SavedItem = SavedItem(id: string, checked: Option<bool>)

  const DefaultItems: seq<Item> := [
    Item("water", "בקבוקי מים", false),
    Item("meds", "תרופות", false),
    Item("docs", "מסמכים חשובים", false),
    Item("phone", "טלפון טעון", false),
    Item("charger", "מטען", false),
    Item("flashlight", "פנס", false),
    Item("batteries", "סוללות", false),
    Item("firstaid", "ערכת עזרה ראשונה", false)
  ]

  /** The ids and captions of the defaults, in their order. */
  predicate ShapedLikeDefaults(items: seq<Item>) {
    && |items| == |DefaultItems|
    && forall i :: 0 <= i < |items| ==> items[i].id == DefaultItems[i].id && items[i].caption == DefaultItems[i].caption
  }

  /** No two defaults share an id. */
  lemma DefaultIdsDistinct()
    ensures forall i, j :: 0 <= i < j < |DefaultItems| ==> DefaultItems[i].id != DefaultItems[j].id
  {
  }

  /** `parsed.find((x) => x.id === id)`: the first entry with the id. */
  function FindSaved(saved: seq<SavedItem>, id: string): (r: Option<SavedItem>)
    ensures r.Some? ==> r.value in saved && r.value.id == id
    ensures r.None? <==> forall x :: x in saved ==> x.id != id
  {
    if saved == [] then None
    else if saved[0].id == id then Some(saved[0])
    else FindSaved(saved[1..], id)
  }

  /** The entry found is the first one with the id. */
  lemma {:induction false} FindSavedFirst(saved: seq<SavedItem>, k: nat)
    requires k < |saved|
    requires forall l :: 0 <= l < k ==> saved[l].id != saved[k].id
    ensures FindSaved(saved, saved[k].id) == Some(saved[k])
  {
    if k > 0 {
      FindSavedFirst(saved[1..], k - 1);
    }
  }

  /** The tick of a default after merging: the first stored entry's tick,
      else the default's. */
  function Merged(d: Item, saved: seq<SavedItem>): (r: Item)
    ensures r.id == d.id && r.caption == d.caption
  {
    var p := FindSaved(saved, d.id);
    d.(checked := if p.Some? && p.value.checked.Some? then p.value.checked.value else d.checked)
  }

  /** `loadItems`, given what was stored once parsed; None stands for
      nothing stored or a stored text that does not parse as a list. */
  function LoadItems(stored: Option<seq<SavedItem>>): (r: seq<Item>)
    ensures ShapedLikeDefaults(r)
    ensures stored.None? ==> r == DefaultItems
    ensures stored.Some? ==> forall i :: 0 <= i < |r| ==>
      var p := FindSaved(stored.value, DefaultItems[i].id);
      r[i].checked == (if p.Some? && p.value.checked.Some? then p.value.checked.value else false)
  {
    match stored
    case None => DefaultItems
    case Some(saved) => seq(|DefaultItems|, i requires 0 <= i < |DefaultItems| => Merged(DefaultItems[i], saved))
  }

  /** Stored entries whose ids are not among the defaults change nothing. */
  lemma {:induction false} ForeignEntriesIgnored(saved: seq<SavedItem>, extra: SavedItem)
    requires forall i :: 0 <= i < |DefaultItems| ==> extra.id != DefaultItems[i].id
    ensures LoadItems(Some(saved + [extra])) == LoadItems(Some(saved))
  {
    forall i | 0 <= i < |DefaultItems|
      ensures FindSaved(saved + [extra], DefaultItems[i].id) == FindSaved(saved, DefaultItems[i].id)
    {
      FindSavedSnoc(saved, extra, DefaultItems[i].id);
    }
  }

  /** Appending an entry with another id leaves the search as it was. */
  lemma {:induction false} FindSavedSnoc(saved: seq<SavedItem>, extra: SavedItem, id: string)
    requires extra.id != id
    ensures FindSaved(saved + [extra], id) == FindSaved(saved, id)
  {
    if saved != [] {
      assert (saved + [extra])[1..] == saved[1..] + [extra];
      FindSavedSnoc(saved[1..], extra, id);
    }
  }

  /** `toggle(id)`: the items with that id change their tick, nothing else
      changes. */
  function Toggle(items: seq<Item>, id: string): (r: seq<Item>)
    ensures |r| == |items|
    ensures forall i :: 0 <= i < |r| ==>
      && r[i].id == items[i].id && r[i].caption == items[i].caption
      && r[i].checked == (if items[i].id == id then !items[i].checked else items[i].checked)
  {
    seq(|items|, i requires 0 <= i < |items| =>
      if items[i].id == id then items[i].(checked := !items[i].checked) else items[i])
  }

  /** Toggling twice restores the list. */
  lemma ToggleTwice(items: seq<Item>, id: string)
    ensures Toggle(Toggle(items, id), id) == items
  {
    var r := Toggle(Toggle(items, id), id);
    assert forall i :: 0 <= i < |items| ==> r[i] == items[i];
  }

  /** `saveItems`: only the id and the tick of each item. */
  function SaveItems(items: seq<Item>): (r: seq<SavedItem>)
    ensures |r| == |items|
    ensures forall i :: 0 <= i < |r| ==> r[i] == SavedItem(items[i].id, Some(items[i].checked))
  {
    seq(|items|, i requires 0 <= i < |items| => SavedItem(items[i].id, Some(items[i].checked)))
  }

  /** Loading what was saved gives the list back, for any list with the
      defaults' ids and captions, such as every loaded or toggled list. */
  lemma LoadAfterSave(items: seq<Item>)
    requires ShapedLikeDefaults(items)
    ensures LoadItems(Some(SaveItems(items))) == items
  {
    DefaultIdsDistinct();
    var saved := SaveItems(items);
    var r := LoadItems(Some(saved));
    forall i | 0 <= i < |items|
      ensures r[i] == items[i]
    {
      FindSavedFirst(saved, i);
    }
  }

  /** `items.filter((i) => i.checked).length`. */
  function CheckedCount(items: seq<Item>): (n: nat)
    ensures n <= |items|
    ensures n == 0 <==> forall i :: 0 <= i < |items| ==> !items[i].checked
    ensures n == |items| <==> forall i :: 0 <= i < |items| ==> items[i].checked
  {
    if items == [] then 0
    else (if items[0].checked then 1 else 0) + CheckedCount(items[1..])
  }
}
