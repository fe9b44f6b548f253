/**
 * The photo-update hook: after an update that carries
 * `data-photo-updates`, the photo's image is pointed at the new URL.
 */
module PhotoUpdate {
  import opened Wrappers
  import opened Dom

  /** Some proper ancestor of `e` has id `ident`. */
  predicate UnderId(t: Tree, e: nat, ident: string)
    requires WellFormed(t) && IsElem(t, e)
    decreases e
  {
    t.parent[e] >= 0 && (t.id[t.parent[e]] == ident || UnderId(t, t.parent[e], ident))
  }

  /** `document.querySelector('#photo-' + id + ' img')`. */
  function PhotoImage(t: Tree, id: string): (r: Option<nat>)
    requires WellFormed(t)
    ensures r.Some? ==> IsElem(t, r.value) && t.tag[r.value] == "img" && UnderId(t, r.value, "photo-" + id)
    ensures r.Some? ==> forall e :: IsElem(t, e) && e < r.value ==> !(t.tag[e] == "img" && UnderId(t, e, "photo-" + id))
    ensures r.None? ==> forall e :: IsElem(t, e) ==> !(t.tag[e] == "img" && UnderId(t, e, "photo-" + id))
  {
    var keep: nat -> bool := e => IsElem(t, e) && t.tag[e] == "img" && UnderId(t, e, "photo-" + id);
    var all := SelectFrom(|t.parent|, keep, 0);
    if all == [] then
      assert forall e :: IsElem(t, e) ==> !(t.tag[e] == "img" && UnderId(t, e, "photo-" + id)) by {
        forall e | IsElem(t, e)
          ensures !(t.tag[e] == "img" && UnderId(t, e, "photo-" + id))
        {
          assert e !in all;
        }
      }
      None
    else
      assert all[0] in all;
      forall e | IsElem(t, e) && e < all[0]
        ensures !(t.tag[e] == "img" && UnderId(t, e, "photo-" + id))
      {
        assert !keep(e);
      }
      Some(all[0])
  }

  /** `if (img.src && img.src != url) img.src = url`. */
  function NewSrc(current: string, url: string): (r: string)
    ensures current != "" ==> r == url
    ensures current == "" ==> r == ""
  {
    if current != "" && current != url then url else current
  }

  /** A second identical update changes nothing. */
  lemma NewSrcIdempotent(current: string, url: string)
    ensures NewSrc(NewSrc(current, url), url) == NewSrc(current, url)
  {
  }

  /** What an `updated` call does. */
  datatype Outcome = NoUpdate | SyntaxError | Applied

  /**
   * The `updated` callback. `parse` stands for `JSON.parse` of the
   * attribute, `None` meaning that it throws; it yields the photo's id and
   * URL.
   */
  method Updated(doc: Document, photoUpdates: string, parse: string -> Option<(string, string)>) returns (outcome: Outcome)
    requires doc.Valid()
    modifies doc`src
    ensures doc.Valid()
    ensures photoUpdates == "" ==> outcome == NoUpdate && doc.src == old(doc.src)
    ensures photoUpdates != "" && parse(photoUpdates).None? ==> outcome == SyntaxError && doc.src == old(doc.src)
    ensures photoUpdates != "" && parse(photoUpdates).Some? ==> outcome == Applied
    ensures photoUpdates != "" && parse(photoUpdates).Some? ==>
      var (id, url) := parse(photoUpdates).value;
      var img := PhotoImage(doc.tree, id);
      doc.src == if img.Some? then old(doc.src)[img.value := NewSrc(old(doc.src)[img.value], url)] else old(doc.src)
  {
    if photoUpdates == "" {
      return NoUpdate;
    }
    var obj := parse(photoUpdates);
    if obj.None? {
      return SyntaxError;
    }
    UpdatePhotoImage(doc, obj.value.0, obj.value.1);
    return Applied;
  }

  /** `updatePhotoImage`. */
  method UpdatePhotoImage(doc: Document, id: string, url: string)
    requires doc.Valid()
    modifies doc`src
    ensures doc.Valid()
    ensures var img := PhotoImage(doc.tree, id);
      doc.src == if img.Some? then old(doc.src)[img.value := NewSrc(old(doc.src)[img.value], url)] else old(doc.src)
  {
    var img := PhotoImage(doc.tree, id);
    if img.Some? && doc.src[img.value] != "" && doc.src[img.value] != url {
      doc.src := doc.src[img.value := url];
    }
  }
}
