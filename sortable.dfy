/**
 * The sortable-masonry hook: a Muuri grid whose drag-and-drop order is
 * written, as photo numbers, into the `photo_order` field of the
 * `#gallery_changes` form, and which takes in newly patched items.
 */
module SortableMasonry {
  import opened Wrappers
  import opened JsString
  import MasonryGrid

  /** The length of the id prefix in front of a photo's number. */
  const IdPrefixLength := 11

  /** `s.slice(start)` for a non-negative `start`: what follows the first `start` characters, empty when `s` is shorter. */
  function SliceFrom(s: string, start: nat): (r: string)
    ensures start <= |s| ==> s[..start] + r == s
    ensures |r| == if start <= |s| then |s| - start else 0
  {
    if start <= |s| then s[start..] else ""
  }

  /** `parseInt(id.slice(11))` for each item, in grid order; `None` is `NaN`. */
  function PhotoOrder(ids: seq<string>): (r: seq<Option<int>>)
    ensures |r| == |ids|
  {
    seq(|ids|, k requires 0 <= k < |ids| => ParseInt(SliceFrom(ids[k], IdPrefixLength)))
  }

  /** Items whose ids are an 11-character prefix followed by a printed number give back those numbers. */
  lemma PhotoOrderOfNumberedIds(prefix: string, ids: seq<string>, ns: seq<nat>)
    requires |prefix| == IdPrefixLength
    requires |ids| == |ns| && forall k :: 0 <= k < |ids| ==> ids[k] == prefix + NatToDecimal(ns[k])
    ensures forall k :: 0 <= k < |ids| ==> PhotoOrder(ids)[k] == Some(ns[k])
  {
    forall k | 0 <= k < |ids|
      ensures PhotoOrder(ids)[k] == Some(ns[k])
    {
      assert SliceFrom(ids[k], IdPrefixLength) == NatToDecimal(ns[k]);
      ParseIntOfDecimal(ns[k]);
    }
  }

  /** An id too short to hold a number gives `NaN`. */
  lemma ShortIdIsNaN(id: string)
    requires |id| <= IdPrefixLength
    ensures PhotoOrder([id]) == [None]
  {
    assert SliceFrom(id, IdPrefixLength) == [];
  }

  /** `String(n)` for a number, `NaN` included. */
  function NumberText(n: Option<int>): string {
    match n
    case Some(i) => IntToDecimal(i)
    case None => "NaN"
  }

  /** `String(order)` for an array: its elements' texts joined by commas. */
  function OrderText(order: seq<Option<int>>): string {
    Join(seq(|order|, k requires 0 <= k < |order| => NumberText(order[k])), ",")
  }

  /** Reading the field back, comma by comma with `parseInt`, gives the order that was written. */
  lemma OrderTextRoundTrip(order: seq<Option<int>>)
    requires order != []
    ensures var parts := Split(OrderText(order), ',');
      |parts| == |order| && forall k :: 0 <= k < |order| ==> ParseInt(parts[k]) == order[k]
  {
    var texts := seq(|order|, k requires 0 <= k < |order| => NumberText(order[k]));
    forall k | 0 <= k < |order|
      ensures ',' !in texts[k] && ParseInt(texts[k]) == order[k]
    {
      NumberTextRoundTrip(order[k]);
    }
    SplitJoin(texts, ',');
  }

  lemma NumberTextRoundTrip(n: Option<int>)
    ensures ',' !in NumberText(n) && ParseInt(NumberText(n)) == n
  {
    match n
    case None =>
      ParseIntNaN("NaN");
    case Some(i) =>
      ParseIntOfIntDecimal(i);
      IntDecimalChars(i);
  }

  /** One mounted hook. */
  class Hook {
    /** The ids of the Muuri grid's items, in grid order. */
    var gridItems: seq<string>
    /** The ids of the `#muuri-grid .item` elements, in document order. */
    var domItems: seq<string>
    /** The values of the inputs under `#gallery_changes`, by name. */
    var fields: map<string, string>

    /** `mounted`: a Muuri grid over the items of `#muuri-grid`. */
    constructor Mounted(domItems: seq<string>, fields: map<string, string>)
      ensures gridItems == domItems && this.domItems == domItems && this.fields == fields
    {
      gridItems := domItems;
      this.domItems := domItems;
      this.fields := fields;
    }

    /** `set_change`: the named input takes the value only when it exists. */
    method SetChange(name: string, value: string)
      modifies this`fields
      ensures name in old(fields) ==> fields == old(fields)[name := value]
      ensures name !in old(fields) ==> fields == old(fields)
    {
      if name in fields {
        fields := fields[name := value];
      }
    }

    /** The `dragReleaseEnd` handler: the grid's order, as photo numbers, goes into `photo_order`. */
    method DragReleaseEnd()
      modifies this`fields
      ensures "photo_order" in old(fields) ==> fields == old(fields)["photo_order" := OrderText(PhotoOrder(gridItems))]
      ensures "photo_order" !in old(fields) ==> fields == old(fields)
    {
      var order := PhotoOrder(gridItems);
      SetChange("photo_order", OrderText(order));
    }

    /** `inject_new_items`: the document's items the grid does not hold yet are appended. */
    method InjectNewItems()
      modifies this`gridItems
      ensures gridItems == old(gridItems) + MasonryGrid.NewItems(old(gridItems), domItems)
    {
      var itemsToInject := MasonryGrid.NewItems(gridItems, domItems);
      gridItems := gridItems + itemsToInject;
    }

    /** `reconnected` does nothing. */
    method Reconnected()
      ensures gridItems == old(gridItems) && fields == old(fields)
    {
    }

    /** `updated`: new items are injected. */
    method Updated()
      modifies this`gridItems
      ensures gridItems == old(gridItems) + MasonryGrid.NewItems(old(gridItems), domItems)
    {
      InjectNewItems();
    }
  }

  /** A second update over the same document adds nothing: items are never added twice. */
  method UpdatedTwice(h: Hook)
    modifies h`gridItems
    ensures h.gridItems == old(h.gridItems) + MasonryGrid.NewItems(old(h.gridItems), h.domItems)
  {
    h.Updated();
    var once := h.gridItems;
    h.Updated();
    MasonryGrid.NothingNewAfterInject(old(h.gridItems), h.domItems);
    assert once + [] == once;
  }
}
