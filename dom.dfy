/**
 * The part of the DOM the hooks read and write. The tree itself is fixed:
 * elements are numbered in document order, and every query takes index
 * order for document order. `WellFormed` checks only the consequence that
 * an element's parent has a smaller number. Each element has an `id` attribute (`""` when it
 * has none), a tag name and a set of classes; the classes are what the
 * hooks change.
 */
module Dom {
  import opened Wrappers

  /** `parent[e]` is `-1` for the root. */
  datatype Tree = Tree(parent: seq<int>, id: seq<string>, tag: seq<string>)

  predicate WellFormed(t: Tree) {
    |t.id| == |t.parent| && |t.tag| == |t.parent| &&
    forall e :: 0 <= e < |t.parent| ==> -1 <= t.parent[e] < e
  }

  predicate IsElem(t: Tree, e: int) {
    0 <= e < |t.parent|
  }

  /** The class lists of every element of `t`. */
  predicate Fits(t: Tree, classes: seq<set<string>>) {
    |classes| == |t.parent|
  }

  /** `a` is `e` or one of its ancestors: `a.contains(e)`. */
  predicate InclusiveAncestor(t: Tree, a: int, e: int)
    requires WellFormed(t) && IsElem(t, e)
    decreases e
  {
    a == e || (t.parent[e] >= 0 && InclusiveAncestor(t, a, t.parent[e]))
  }

  lemma {:induction false} AncestorPrecedes(t: Tree, a: int, e: int)
    requires WellFormed(t) && IsElem(t, e) && InclusiveAncestor(t, a, e)
    ensures 0 <= a <= e
    decreases e
  {
    if a != e {
      AncestorPrecedes(t, a, t.parent[e]);
    }
  }

  lemma {:induction false} AncestorTransitive(t: Tree, a: int, b: int, e: int)
    requires WellFormed(t) && IsElem(t, b) && IsElem(t, e)
    requires InclusiveAncestor(t, a, b) && InclusiveAncestor(t, b, e)
    ensures InclusiveAncestor(t, a, e)
    decreases e
  {
    if b != e {
      AncestorTransitive(t, a, b, t.parent[e]);
    }
  }

  /** The elements from `i` on that `keep` accepts, in document order. */
  function SelectFrom(n: nat, keep: nat -> bool, i: nat): (r: seq<nat>)
    requires i <= n
    ensures forall e :: e in r <==> i <= e < n && keep(e)
    ensures forall k :: 0 <= k < |r| ==> i <= r[k] < n
    ensures forall j, k :: 0 <= j < k < |r| ==> r[j] < r[k]
    ensures r != [] ==> forall e :: i <= e < r[0] ==> !keep(e)
    decreases n - i
  {
    if i == n then []
    else if keep(i) then [i] + SelectFrom(n, keep, i + 1)
    else SelectFrom(n, keep, i + 1)
  }

  /** A simple selector: `.name`, `#name` or a tag name. */
  datatype Selector = ClassSel(cls: string) | IdSel(ident: string) | TagSel(name: string)

  predicate Has(t: Tree, classes: seq<set<string>>, e: int, sel: Selector)
    requires WellFormed(t) && Fits(t, classes) && IsElem(t, e)
  {
    match sel
    case ClassSel(cls) => cls in classes[e]
    case IdSel(ident) => t.id[e] == ident
    case TagSel(name) => t.tag[e] == name
  }

  /** `e` lies strictly inside `scope`, or anywhere in the document when `scope` is `None`. */
  predicate InScope(t: Tree, scope: Option<nat>, e: int)
    requires WellFormed(t) && IsElem(t, e)
  {
    scope.None? || (e != scope.value && InclusiveAncestor(t, scope.value, e))
  }

  /** `querySelectorAll(sel)` on `scope` (the document when `None`): a static list in document order. */
  function QueryAll(t: Tree, classes: seq<set<string>>, scope: Option<nat>, sel: Selector): (r: seq<nat>)
    requires WellFormed(t) && Fits(t, classes)
    ensures forall e :: e in r <==> IsElem(t, e) && InScope(t, scope, e) && Has(t, classes, e, sel)
    ensures forall j, k :: 0 <= j < k < |r| ==> r[j] < r[k]
  {
    SelectFrom(|t.parent|, e => IsElem(t, e) && InScope(t, scope, e) && Has(t, classes, e, sel), 0)
  }

  /** `querySelector(sel)`: the first element `querySelectorAll` would list, `None` for `null`. */
  function Query(t: Tree, classes: seq<set<string>>, scope: Option<nat>, sel: Selector): (r: Option<nat>)
    requires WellFormed(t) && Fits(t, classes)
    ensures r.None? <==> QueryAll(t, classes, scope, sel) == []
    ensures r.Some? ==> r.value == QueryAll(t, classes, scope, sel)[0]
  {
    var all := QueryAll(t, classes, scope, sel);
    if all == [] then None else Some(all[0])
  }

  /** `e.closest(sel)`: the nearest of `e` and its ancestors that matches. */
  function Closest(t: Tree, classes: seq<set<string>>, e: int, sel: Selector): (r: Option<nat>)
    requires WellFormed(t) && Fits(t, classes) && IsElem(t, e)
    ensures r.Some? ==> IsElem(t, r.value) && InclusiveAncestor(t, r.value, e) && Has(t, classes, r.value, sel)
    ensures r.None? ==> forall a :: IsElem(t, a) && InclusiveAncestor(t, a, e) ==> !Has(t, classes, a, sel)
    ensures r.Some? ==> forall a :: IsElem(t, a) && InclusiveAncestor(t, a, e) && InclusiveAncestor(t, r.value, a) && a != r.value ==>
      !Has(t, classes, a, sel)
    decreases e
  {
    if Has(t, classes, e, sel) then
      assert forall a :: IsElem(t, a) && InclusiveAncestor(t, a, e) && InclusiveAncestor(t, e, a) ==> a == e by {
        forall a | IsElem(t, a) && InclusiveAncestor(t, a, e) && InclusiveAncestor(t, e, a)
          ensures a == e
        {
          AncestorPrecedes(t, a, e);
          AncestorPrecedes(t, e, a);
        }
      }
      Some(e)
    else if t.parent[e] < 0 then None
    else
      var r := Closest(t, classes, t.parent[e], sel);
      assert forall a :: IsElem(t, a) && InclusiveAncestor(t, a, e) && a != e ==> InclusiveAncestor(t, a, t.parent[e]);
      r
  }

  /** `getElementById(ident)`: the first element in document order with that id. */
  function GetElementById(t: Tree, ident: string): (r: Option<nat>)
    requires WellFormed(t)
    ensures r.Some? ==> IsElem(t, r.value) && t.id[r.value] == ident
    ensures r.None? ==> forall e :: IsElem(t, e) ==> t.id[e] != ident
    ensures r.Some? ==> forall e :: IsElem(t, e) && e < r.value ==> t.id[e] != ident
  {
    var withId: nat -> bool := e => IsElem(t, e) && t.id[e] == ident;
    var all := SelectFrom(|t.parent|, withId, 0);
    if all == [] then
      assert forall e :: IsElem(t, e) ==> t.id[e] != ident by {
        forall e | IsElem(t, e)
          ensures t.id[e] != ident
        {
          assert e !in all;
        }
      }
      None
    else
      assert all[0] in all;
      assert forall e :: IsElem(t, e) && e < all[0] ==> t.id[e] != ident by {
        forall e | IsElem(t, e) && e < all[0]
          ensures t.id[e] != ident
        {
          var n: nat := e;
          assert 0 <= n < all[0];
          assert !withId(n);
        }
      }
      Some(all[0])
  }

  /** A class list with `cls` toggled. */
  function Flip(s: set<string>, cls: string): (r: set<string>)
    ensures cls in r <==> cls !in s
    ensures forall c :: c != cls ==> (c in r <==> c in s)
  {
    if cls in s then s - {cls} else s + {cls}
  }

  /** Queries that agree on which elements match give the same list. */
  lemma {:induction false} SelectFromAgree(n: nat, keep1: nat -> bool, keep2: nat -> bool, i: nat)
    requires i <= n
    requires forall e :: i <= e < n ==> keep1(e) == keep2(e)
    ensures SelectFrom(n, keep1, i) == SelectFrom(n, keep2, i)
    decreases n - i
  {
    if i < n {
      SelectFromAgree(n, keep1, keep2, i + 1);
    }
  }

  /** A query is unaffected by a class change that does not change which elements match. */
  lemma QueryAllAgree(t: Tree, c1: seq<set<string>>, c2: seq<set<string>>, scope: Option<nat>, sel: Selector)
    requires WellFormed(t) && Fits(t, c1) && Fits(t, c2)
    requires forall e :: IsElem(t, e) ==> (Has(t, c1, e, sel) <==> Has(t, c2, e, sel))
    ensures QueryAll(t, c1, scope, sel) == QueryAll(t, c2, scope, sel)
    ensures Query(t, c1, scope, sel) == Query(t, c2, scope, sel)
  {
    SelectFromAgree(|t.parent|,
      e => IsElem(t, e) && InScope(t, scope, e) && Has(t, c1, e, sel),
      e => IsElem(t, e) && InScope(t, scope, e) && Has(t, c2, e, sel), 0);
  }

  /** The document the hooks act on: its fixed tree, and each element's classes and `src`. */
  class Document {
    const tree: Tree
    var classes: seq<set<string>>
    var src: seq<string>

    predicate Valid()
      reads this
    {
      WellFormed(tree) && Fits(tree, classes) && |src| == |tree.parent|
    }

    constructor (tree: Tree, classes: seq<set<string>>, src: seq<string>)
      requires WellFormed(tree) && Fits(tree, classes) && |src| == |tree.parent|
      ensures Valid()
      ensures this.tree == tree && this.classes == classes && this.src == src
    {
      this.tree := tree;
      this.classes := classes;
      this.src := src;
    }
  }
}
