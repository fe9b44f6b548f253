/**
 * The custom-selector hook: on every update the photos listed in
 * `data-ids` lose their `photo-border`, and the `data-selected` one gains
 * it.
 */
module CustomSelector {
  import opened Wrappers
  import opened JsString
  import opened Dom
  import Seqs

  const Border := "photo-border"

  /** What `/\s+|\[|\]/g` removes. */
  predicate Dropped(c: char) {
    IsSpace(c) || c == '[' || c == ']'
  }

  /** The characters the regular expression leaves in place. */
  predicate Kept(c: char) {
    !Dropped(c)
  }

  /** The `replace`: the kept characters of `s`, in order and as often as they occur. */
  function RemoveDropped(s: string): (r: string)
    ensures r == Seqs.Filter(s, Kept)
    ensures forall c :: c in r <==> c in s && !Dropped(c)
  {
    if s == [] then []
    else if Dropped(s[0]) then RemoveDropped(s[1..])
    else [s[0]] + RemoveDropped(s[1..])
  }

  /**
   * `idsInput.replace(/\s+|\[|\]/g, '').split(',')`: the comma-free
   * pieces that, joined with commas, give back the cleaned input.
   */
  function ParseIds(idsInput: string): (ids: seq<string>)
    ensures |ids| > 0
    ensures forall k :: 0 <= k < |ids| ==> forall c :: c in ids[k] ==> !Dropped(c) && c != ','
    ensures Join(ids, ",") == RemoveDropped(idsInput)
  {
    var stripped := RemoveDropped(idsInput);
    SplitPartsHaveNoSeparator(stripped, ',');
    var ids := Split(stripped, ',');
    JoinSplit(stripped, ',');
    assert forall k :: 0 <= k < |ids| ==> forall c :: c in ids[k] ==> c in stripped by {
      JoinSplit(stripped, ',');
      forall k, c | 0 <= k < |ids| && c in ids[k]
        ensures c in stripped
      {
        PartInJoin(ids, k, c);
      }
    }
    ids
  }

  /** Every character of a part occurs in the joined text. */
  lemma {:induction false} PartInJoin(parts: seq<string>, k: nat, c: char)
    requires k < |parts| && c in parts[k]
    ensures c in Join(parts, ",")
  {
    if |parts| > 1 {
      if k == 0 {
        assert Join(parts, ",") == parts[0] + "," + Join(parts[1..], ",");
      } else {
        PartInJoin(parts[1..], k - 1, c);
        assert Join(parts, ",") == parts[0] + "," + Join(parts[1..], ",");
      }
    }
  }

  lemma {:induction false} RemoveDroppedKeepsCommas(s: string)
    ensures Count(RemoveDropped(s), ',') == Count(s, ',')
  {
    if s != [] {
      RemoveDroppedKeepsCommas(s[1..]);
      if !Dropped(s[0]) {
        assert ([s[0]] + RemoveDropped(s[1..]))[1..] == RemoveDropped(s[1..]);
      }
    }
  }

  /** There is one id more than there are commas in `data-ids`. */
  lemma IdCount(idsInput: string)
    ensures |ParseIds(idsInput)| == Count(idsInput, ',') + 1
  {
    SplitCount(RemoveDropped(idsInput), ',');
    RemoveDroppedKeepsCommas(idsInput);
  }

  lemma {:induction false} RemoveDroppedConcat(a: string, b: string)
    ensures RemoveDropped(a + b) == RemoveDropped(a) + RemoveDropped(b)
  {
    if a == [] {
      assert a + b == b;
    } else {
      var ab := a + b;
      assert ab[0] == a[0] && ab[1..] == a[1..] + b;
      RemoveDroppedConcat(a[1..], b);
      if !Dropped(a[0]) {
        calc {
          RemoveDropped(ab);
          [a[0]] + RemoveDropped(a[1..] + b);
          [a[0]] + (RemoveDropped(a[1..]) + RemoveDropped(b));
          ([a[0]] + RemoveDropped(a[1..])) + RemoveDropped(b);
        }
      }
    }
  }

  lemma {:induction false} RemoveDroppedClean(s: string)
    requires forall c :: c in s ==> !Dropped(c)
    ensures RemoveDropped(s) == s
  {
    if s != [] {
      assert forall c :: c in s[1..] ==> c in s;
      RemoveDroppedClean(s[1..]);
    }
  }

  /** Cleaning `a, b, c` leaves `a,b,c`. */
  lemma {:induction false} RemoveDroppedJoin(ids: seq<string>)
    requires forall k :: 0 <= k < |ids| ==> forall c :: c in ids[k] ==> !Dropped(c)
    ensures RemoveDropped(Join(ids, ", ")) == Join(ids, ",")
  {
    if |ids| == 1 {
      RemoveDroppedClean(ids[0]);
    } else if |ids| > 1 {
      RemoveDroppedJoin(ids[1..]);
      RemoveDroppedClean(ids[0]);
      assert RemoveDropped(", ") == "," by {
        assert ", "[1..] == " ";
        assert " "[1..] == "";
      }
      RemoveDroppedConcat(ids[0] + ", ", Join(ids[1..], ", "));
      RemoveDroppedConcat(ids[0], ", ");
    }
  }

  /**
   * A list of ids rendered as `[a, b, c]` parses back to exactly those
   * ids, provided none holds a comma, a bracket or white space.
   */
  lemma ParseIdsRoundTrip(ids: seq<string>)
    requires |ids| > 0
    requires forall k :: 0 <= k < |ids| ==> forall c :: c in ids[k] ==> !Dropped(c) && c != ','
    ensures ParseIds("[" + Join(ids, ", ") + "]") == ids
  {
    var listed := Join(ids, ", ");
    assert RemoveDropped("[" + listed + "]") == Join(ids, ",") by {
      RemoveDroppedJoin(ids);
      RemoveDroppedBracketed(listed);
    }
    SplitJoin(ids, ',');
  }

  lemma RemoveDroppedBracketed(s: string)
    ensures RemoveDropped("[" + s + "]") == RemoveDropped(s)
  {
    RemoveDroppedConcat("[" + s, "]");
    RemoveDroppedConcat("[", s);
    assert RemoveDropped("[") == "" && RemoveDropped("]") == "" by {
      assert "["[1..] == "" && "]"[1..] == "";
    }
    assert RemoveDropped(s) + "" == RemoveDropped(s);
  }

  /** An empty list renders as `[]`, which gives one empty id and so an element that does not exist. */
  lemma EmptyListGivesEmptyId()
    ensures ParseIds("[]") == [""]
  {
    assert RemoveDropped("[]") == "" by {
      assert "[]"[1..] == "]";
      assert "]"[1..] == "";
    }
  }

  /** `document.getElementById('photo-' + id + '-selected')`. */
  function PhotoElement(t: Tree, id: string): Option<nat>
    requires WellFormed(t)
  {
    GetElementById(t, "photo-" + id + "-selected")
  }

  /** The elements of the listed photos, up to the first one that is missing. */
  function Found(t: Tree, ids: seq<string>): (r: seq<nat>)
    requires WellFormed(t)
    ensures |r| <= |ids|
    ensures forall k :: 0 <= k < |r| ==> IsElem(t, r[k])
  {
    if ids == [] then []
    else
      var init := Found(t, ids[..|ids| - 1]);
      var last := PhotoElement(t, ids[|ids| - 1]);
      if |init| == |ids| - 1 && last.Some? then init + [last.value] else init
  }

  /** Each found element is the listed photo's, and the search stops only at a missing one. */
  lemma {:induction false} FoundSpec(t: Tree, ids: seq<string>)
    requires WellFormed(t)
    ensures var r := Found(t, ids);
      (forall k :: 0 <= k < |r| ==> PhotoElement(t, ids[k]) == Some(r[k])) &&
      (|r| < |ids| ==> PhotoElement(t, ids[|r|]).None?)
  {
    if ids != [] {
      var init := ids[..|ids| - 1];
      FoundSpec(t, init);
      assert forall k :: 0 <= k < |init| ==> init[k] == ids[k];
    }
  }

  /**
   * `photo-border` removed from each element of `elements`: a listed
   * element loses the border and nothing else; every other element is
   * unchanged.
   */
  function RemoveBorder(classes: seq<set<string>>, elements: seq<nat>): (r: seq<set<string>>)
    ensures |r| == |classes|
    ensures forall e :: 0 <= e < |r| && e in elements ==> Border !in r[e] && r[e] <= classes[e] && classes[e] - r[e] <= {Border}
    ensures forall e :: 0 <= e < |r| && e !in elements ==> r[e] == classes[e]
  {
    seq(|classes|, e requires 0 <= e < |classes| => if e in elements then classes[e] - {Border} else classes[e])
  }

  /**
   * When every photo is found, the selected one alone among the listed
   * ones has the border afterwards, and unlisted elements other than the
   * selected one are unchanged.
   */
  lemma SelectedAloneHasBorder(t: Tree, classes: seq<set<string>>, ids: seq<string>, s: nat)
    requires WellFormed(t) && Fits(t, classes) && IsElem(t, s)
    requires |Found(t, ids)| == |ids|
    ensures var found := Found(t, ids);
      var after := RemoveBorder(classes, found)[s := RemoveBorder(classes, found)[s] + {Border}];
      Border in after[s] &&
      (forall k :: 0 <= k < |ids| && found[k] != s ==> Border !in after[found[k]]) &&
      (forall e :: 0 <= e < |classes| && e != s && e !in found ==> after[e] == classes[e])
  {
    var found := Found(t, ids);
    assert forall k :: 0 <= k < |ids| ==> found[k] in found;
  }

  /**
   * The `updated` callback. `ok` is false when it throws at a missing
   * element; the borders already removed stay removed.
   */
  method Updated(doc: Document, idsInput: string, selected: string) returns (ok: bool)
    requires doc.Valid()
    modifies doc`classes
    ensures doc.Valid()
    ensures var ids := ParseIds(idsInput);
      var found := Found(doc.tree, ids);
      var cleared := RemoveBorder(old(doc.classes), found);
      var sel := PhotoElement(doc.tree, selected);
      ok == (|found| == |ids| && sel.Some?) &&
      doc.classes == if ok then cleared[sel.value := cleared[sel.value] + {Border}] else cleared
  {
    var ids := ParseIds(idsInput);
    for i := 0 to |ids|
      invariant doc.Valid()
      invariant |Found(doc.tree, ids[..i])| == i
      invariant doc.classes == RemoveBorder(old(doc.classes), Found(doc.tree, ids[..i]))
    {
      var e := PhotoElement(doc.tree, ids[i]);
      if e.None? {
        FoundEnds(doc.tree, ids, i);
        return false;
      }
      FoundExtends(doc.tree, ids, i);
      RemoveBorderStep(old(doc.classes), Found(doc.tree, ids[..i]), e.value);
      doc.classes := doc.classes[e.value := doc.classes[e.value] - {Border}];
    }
    assert ids[..|ids|] == ids;
    var sel := PhotoElement(doc.tree, selected);
    if sel.None? {
      return false;
    }
    doc.classes := doc.classes[sel.value := doc.classes[sel.value] + {Border}];
    return true;
  }

  /** A found next id extends the found prefix. */
  lemma FoundExtends(t: Tree, ids: seq<string>, i: nat)
    requires WellFormed(t) && i < |ids| && |Found(t, ids[..i])| == i && PhotoElement(t, ids[i]).Some?
    ensures Found(t, ids[..i + 1]) == Found(t, ids[..i]) + [PhotoElement(t, ids[i]).value]
  {
    var xs := ids[..i + 1];
    assert xs[..|xs| - 1] == ids[..i] && xs[|xs| - 1] == ids[i];
  }

  /** A missing next id ends the search short of the whole list. */
  lemma FoundEnds(t: Tree, ids: seq<string>, i: nat)
    requires WellFormed(t) && i < |ids| && |Found(t, ids[..i])| == i && PhotoElement(t, ids[i]).None?
    ensures Found(t, ids) == Found(t, ids[..i]) && |Found(t, ids)| < |ids|
  {
    var xs := ids[..i + 1];
    assert xs[..|xs| - 1] == ids[..i] && xs[|xs| - 1] == ids[i];
    assert Found(t, xs) == Found(t, ids[..i]);
    FoundStuck(t, xs, ids[i + 1..]);
    assert xs + ids[i + 1..] == ids;
  }

  lemma RemoveBorderStep(classes: seq<set<string>>, elements: seq<nat>, e: nat)
    requires e < |classes|
    ensures RemoveBorder(classes, elements)[e := RemoveBorder(classes, elements)[e] - {Border}] ==
      RemoveBorder(classes, elements + [e])
  {
    var a := RemoveBorder(classes, elements)[e := RemoveBorder(classes, elements)[e] - {Border}];
    var b := RemoveBorder(classes, elements + [e]);
    forall k | 0 <= k < |classes|
      ensures a[k] == b[k]
    {
      assert k in elements + [e] <==> k in elements || k == e;
    }
  }

  /** Once a photo is missing, later ids are not looked at. */
  lemma {:induction false} FoundStuck(t: Tree, xs: seq<string>, ys: seq<string>)
    requires WellFormed(t) && |Found(t, xs)| < |xs|
    ensures Found(t, xs + ys) == Found(t, xs)
    decreases |ys|
  {
    if ys != [] {
      var init := ys[..|ys| - 1];
      FoundStuck(t, xs, init);
      assert (xs + ys)[..|xs + ys| - 1] == xs + init;
    } else {
      assert xs + ys == xs;
    }
  }
}
