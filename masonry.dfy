/**
 * The masonry-grid hook: a Masonry layout of the gallery's `.item`
 * elements that takes in newly patched photos, and a scroll listener
 * that asks the server for the next page through a `pending` gate.
 */
module MasonryGrid {
  import opened Wrappers
  import opened JsString
  import opened Seqs

  /** The ids of `all` that are not among `existing`, in document order. */
  function NewItems(existing: seq<string>, all: seq<string>): (r: seq<string>)
    ensures IsSubsequence(r, all)
    ensures forall x :: x in r <==> x in all && x !in existing
  {
    var keep: string -> bool := x => x !in existing;
    FilterIsSubsequence(all, keep);
    Filter(all, keep)
  }

  /** Once the new items are added, the same document has nothing new left. */
  lemma NothingNewAfterInject(existing: seq<string>, all: seq<string>)
    ensures NewItems(existing + NewItems(existing, all), all) == []
  {
    var after := existing + NewItems(existing, all);
    var keep: string -> bool := x => x !in after;
    forall k | 0 <= k < |all|
      ensures !keep(all[k])
    {
      if all[k] !in existing {
        assert all[k] in NewItems(existing, all);
      }
    }
    FilterNone(all, keep);
  }

  /** A grid that already holds every item of the document takes in nothing. */
  lemma NothingNewInSelf(all: seq<string>)
    ensures NewItems(all, all) == []
  {
    var keep: string -> bool := x => x !in all;
    FilterNone(all, keep);
  }

  /** Adding the new items puts every item of the document in the grid and keeps what was there in front. */
  lemma InjectCoversDocument(existing: seq<string>, all: seq<string>)
    ensures var grown := existing + NewItems(existing, all);
      grown[..|existing|] == existing &&
      (forall x :: x in all ==> x in grown) &&
      (forall k :: |existing| <= k < |grown| ==> grown[k] !in existing)
  {
    var grown := existing + NewItems(existing, all);
    forall k | |existing| <= k < |grown|
      ensures grown[k] !in existing
    {
      assert grown[k] in NewItems(existing, all);
    }
  }

  /** JavaScript's `amount < total` once `total` has been turned into a number; `NaN` compares false. */
  predicate NumberLess(amount: nat, total: Option<int>) {
    total.Some? && amount < total.value
  }

  /** With `data-total` printed from a count `n`, more photos are expected exactly while fewer than `n` are in the grid. */
  lemma MoreIffBelowTotal(amount: nat, n: nat)
    ensures NumberLess(amount, ToNumber(NatToDecimal(n))) <==> amount < n
  {
    ToNumberOfDecimal(n);
  }

  /** One mounted hook, with the parts of the page it reads. */
  class Hook {
    /** `data-page`, `data-total`, `data-is-favorites-shown` and `data-favorites-count` of the hook's element. */
    var page: string
    var total: string
    var isFavoritesShown: string
    var favoritesCount: string
    /** Whether the page has a `.masonry` element, and the ids of its `.item` elements in document order. */
    var hasMasonry: bool
    var domItems: seq<string>
    /** `window.grid`: unset, or a Masonry instance given by the ids of its items in layout order. */
    var grid: Option<seq<string>>
    /** How many times `layout()` was called on the grid; the layout Masonry makes when it is created is not counted. */
    var layouts: nat
    var pending: string
    /** Whether the scroll listener is registered, and how many `load-more` events were pushed. */
    var listening: bool
    var loadMores: nat

    /** `this.pending === this.page()`: no `load-more` is outstanding for the current page. */
    predicate GateOpen()
      reads this`pending, this`page
    {
      pending == page
    }

    /** The grid holds fewer items than `data-total` says there are. */
    predicate MoreToLoad()
      reads this`grid, this`total
    {
      grid.Some? && NumberLess(|grid.value|, ToNumber(total))
    }

    constructor (page: string, total: string, isFavoritesShown: string, favoritesCount: string,
                 hasMasonry: bool, domItems: seq<string>, grid: Option<seq<string>>)
      ensures this.page == page && this.total == total
      ensures this.isFavoritesShown == isFavoritesShown && this.favoritesCount == favoritesCount
      ensures this.hasMasonry == hasMasonry && this.domItems == domItems && this.grid == grid
      ensures layouts == 0 && pending == page && !listening && loadMores == 0
    {
      this.page := page;
      this.total := total;
      this.isFavoritesShown := isFavoritesShown;
      this.favoritesCount := favoritesCount;
      this.hasMasonry := hasMasonry;
      this.domItems := domItems;
      this.grid := grid;
      layouts := 0;
      pending := page;
      listening := false;
      loadMores := 0;
    }

    /** `init_masonry`: a new Masonry over the `.item` elements, or `false` without a `.masonry` element. */
    method InitMasonry() returns (ok: bool)
      modifies this`grid
      ensures ok == hasMasonry
      ensures grid == if hasMasonry then Some(domItems) else old(grid)
    {
      if !hasMasonry {
        return false;
      }
      grid := Some(domItems);
      return true;
    }

    /** `get_grid`: `window.grid` when set, otherwise a fresh initialisation. */
    method GetGrid() returns (ok: bool)
      modifies this`grid
      ensures ok == (old(grid).Some? || hasMasonry)
      ensures ok ==> grid.Some?
      ensures old(grid).Some? ==> grid == old(grid)
      ensures old(grid).None? ==> grid == if hasMasonry then Some(domItems) else None
    {
      if grid.Some? {
        return true;
      }
      ok := InitMasonry();
    }

    /**
     * `reload_masonry`: the grid recollects the document's items. `ok` is
     * false when `get_grid` gave `false` and `reloadItems` throws.
     */
    method ReloadMasonry() returns (ok: bool)
      modifies this`grid
      ensures ok == (old(grid).Some? || hasMasonry)
      ensures grid == if ok then Some(domItems) else old(grid)
    {
      ok := GetGrid();
      if !ok {
        return;
      }
      grid := Some(domItems);
    }

    /** `inject_new_items`: the items the grid does not hold yet are appended, then the grid is laid out. */
    method InjectNewItems() returns (ok: bool)
      modifies this`grid, this`layouts
      ensures ok == (old(grid).Some? || hasMasonry)
      ensures ok ==> var before := if old(grid).Some? then old(grid).value else domItems;
        grid == Some(before + NewItems(before, domItems)) && layouts == old(layouts) + 1
      ensures !ok ==> grid == old(grid) && layouts == old(layouts)
    {
      ok := GetGrid();
      if !ok {
        return;
      }
      var added := grid.value;
      var itemsToInject := NewItems(added, domItems);
      grid := Some(added + itemsToInject);
      layouts := layouts + 1;
    }

    /**
     * `hasMorePhotoToLoad`: the grid's item count against `data-total`,
     * whether or not favorites are shown. `None` is the throw when there
     * is no grid.
     */
    method HasMorePhotoToLoad() returns (more: Option<bool>)
      modifies this`grid
      ensures more.Some? == (old(grid).Some? || hasMasonry)
      ensures old(grid).Some? ==> grid == old(grid)
      ensures old(grid).None? ==> grid == if hasMasonry then Some(domItems) else None
      ensures more.Some? ==> more.value == MoreToLoad()
    {
      var ok := GetGrid();
      if !ok {
        return None;
      }
      var amount := |grid.value|;
      var totalImagesNumber := if isFavoritesShown == "true" then ParseInt(favoritesCount) else ParseInt(total);
      return Some(NumberLess(amount, ToNumber(total)));
    }

    /** `mounted`: the gate is opened on the current page, the scroll listener registered, the grid initialised. */
    method Mounted()
      modifies this`pending, this`listening, this`grid
      ensures pending == page && listening
      ensures grid == if hasMasonry then Some(domItems) else old(grid)
    {
      pending := page;
      listening := true;
      var ok := InitMasonry();
    }

    /**
     * The scroll listener, given whether the page is scrolled far enough.
     * `load-more` is pushed only through an open gate and only while more
     * photos are expected; the gate is then closed by setting `pending` to
     * `page + 1`, which concatenates. `ok` is false when the count throws.
     */
    method Scroll(scrolledOver: bool) returns (ok: bool)
      requires listening
      modifies this`pending, this`loadMores, this`grid
      ensures !(old(GateOpen()) && scrolledOver) ==>
        ok && pending == old(pending) && loadMores == old(loadMores) && grid == old(grid)
      ensures old(GateOpen()) && scrolledOver ==> ok == (old(grid).Some? || hasMasonry)
      ensures old(GateOpen()) && scrolledOver && old(grid).Some? ==> grid == old(grid)
      ensures old(GateOpen()) && scrolledOver && old(grid).None? ==> grid == if hasMasonry then Some(domItems) else None
      ensures !ok ==> pending == old(pending) && loadMores == old(loadMores)
      ensures old(GateOpen()) && scrolledOver && ok && MoreToLoad() ==>
        pending == page + "1" && loadMores == old(loadMores) + 1
      ensures old(GateOpen()) && scrolledOver && ok && !MoreToLoad() ==>
        pending == old(pending) && loadMores == old(loadMores)
    {
      if !GateOpen() || !scrolledOver {
        return true;
      }
      var more := HasMorePhotoToLoad();
      if more.None? {
        return false;
      }
      if more.value {
        pending := page + "1";
        loadMores := loadMores + 1;
      }
      return true;
    }

    /** `reconnected`: the gate is reopened and new items are injected. */
    method Reconnected() returns (ok: bool)
      modifies this`pending, this`grid, this`layouts
      ensures pending == page
      ensures ok == (old(grid).Some? || hasMasonry)
      ensures ok ==> var before := if old(grid).Some? then old(grid).value else domItems;
        grid == Some(before + NewItems(before, domItems)) && layouts == old(layouts) + 1
      ensures !ok ==> grid == old(grid) && layouts == old(layouts)
    {
      pending := page;
      ok := InjectNewItems();
    }

    /**
     * `updated`: the gate is reopened, the grid recollects the items and
     * then takes in the new ones, so it ends holding exactly the
     * document's items.
     */
    method Updated() returns (ok: bool)
      modifies this`pending, this`grid, this`layouts
      ensures pending == page
      ensures ok == (old(grid).Some? || hasMasonry)
      ensures ok ==> grid == Some(domItems) && layouts == old(layouts) + 1
      ensures !ok ==> grid == old(grid) && layouts == old(layouts)
    {
      pending := page;
      ok := ReloadMasonry();
      if !ok {
        return;
      }
      NothingNewInSelf(domItems);
      assert domItems + [] == domItems;
      ok := InjectNewItems();
    }
  }

  /**
   * Between two updates, however often the page is scrolled, at most one
   * `load-more` is pushed: the first push closes the gate, and nothing but
   * `mounted`, `reconnected` or `updated` reopens it. `events` are the
   * scroll events in order, each with whether the page is scrolled far
   * enough; a listener that throws does not stop later events.
   */
  method ScrollMany(h: Hook, events: seq<bool>)
    requires h.listening
    modifies h`pending, h`loadMores, h`grid
    ensures h.loadMores <= old(h.loadMores) + 1
    ensures h.loadMores == old(h.loadMores) + 1 ==> !h.GateOpen()
  {
    for i := 0 to |events|
      invariant h.listening && h.page == old(h.page)
      invariant h.loadMores <= old(h.loadMores) + 1
      invariant h.loadMores == old(h.loadMores) + 1 ==> h.pending == h.page + "1"
    {
      var ok := h.Scroll(events[i]);
    }
  }
}
