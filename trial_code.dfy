/**
 * The trial-code hook: a `code=` parameter of the page's query string is
 * copied into `localStorage` under `picsello_trialCode`, and the stored
 * value is read back (and, for `data-handle="retrieve"`, pushed to the
 * server).
 */
module TrialCode {
  import opened Wrappers
  import opened JsString
  import Seqs

  const StorageName := "picsello_trialCode"
  const CodeMarker := "code="

  /** `queryString.replace(/^\?/, '')`: one leading `?` is removed, exactly when there is one. */
  function StripQuestion(q: string): (r: string)
    ensures "?" + r == q || r == q
    ensures "?" + r == q <==> q != [] && q[0] == '?'
  {
    if q != [] && q[0] == '?' then q[1..] else q
  }

  /** The characters before the first `c` (the first part of `split(c)`). */
  function Before(s: string, c: char): (r: string)
    ensures |r| <= |s| && r == s[..|r|] && c !in r
    ensures c in s ==> s[..|r| + 1] == r + [c]
    ensures c !in s ==> r == s
  {
    Seqs.TakeWhile(s, (x: char) => x != c)
  }

  lemma ContainsSuffix(a: string, b: string, w: string)
    requires Contains(b, w)
    ensures Contains(a + b, w)
    decreases |a|
  {
    if a != [] {
      assert (a + b)[1..] == a[1..] + b;
      ContainsSuffix(a[1..], b, w);
    } else {
      assert a + b == b;
    }
  }

  lemma {:induction false} ContainsPrefix(a: string, b: string, w: string)
    requires Contains(a, w)
    ensures Contains(a + b, w)
    decreases |a|
  {
    if StartsWith(a, w) {
      assert (a + b)[..|w|] == a[..|w|];
    } else {
      assert (a + b)[1..] == a[1..] + b;
      ContainsPrefix(a[1..], b, w);
    }
  }

  /** A word containing `c` shows `c` in every string that contains the word. */
  lemma ContainsChar(s: string, w: string, i: nat)
    requires i < |w| && Contains(s, w)
    ensures w[i] in s
  {
    ContainsIffOccurs(s, w);
    var k :| OccursAt(s, w, k);
    assert s[k + i] == s[k..k + |w|][i] == w[i];
  }

  /** The first part of `split(sep)` extends every prefix free of the separator. */
  lemma {:induction false} SplitHeadExtends(s: string, sep: char, w: string)
    requires StartsWith(s, w) && sep !in w
    ensures StartsWith(Split(s, sep)[0], w)
  {
    if w != [] {
      assert s[0] == w[0] != sep;
      assert StartsWith(s[1..], w[1..]) by {
        assert s[1..][..|w[1..]|] == s[..|w|][1..];
      }
      SplitHeadExtends(s[1..], sep, w[1..]);
      var head := Split(s, sep)[0];
      assert head == [s[0]] + Split(s[1..], sep)[0];
      assert head[..|w|] == [s[0]] + Split(s[1..], sep)[0][..|w| - 1];
    }
  }

  /** A separator-free word that occurs in `s` occurs within one part of `s.split(sep)`. */
  lemma {:induction false} ContainedInSomePart(s: string, sep: char, w: string)
    requires sep !in w && Contains(s, w)
    ensures exists k :: 0 <= k < |Split(s, sep)| && Contains(Split(s, sep)[k], w)
    decreases |s|
  {
    var parts := Split(s, sep);
    if StartsWith(s, w) {
      SplitHeadExtends(s, sep, w);
      assert Contains(parts[0], w);
    } else {
      assert s != [] && Contains(s[1..], w);
      ContainedInSomePart(s[1..], sep, w);
      var rest := Split(s[1..], sep);
      var k :| 0 <= k < |rest| && Contains(rest[k], w);
      if s[0] == sep {
        assert parts[k + 1] == rest[k];
      } else if k == 0 {
        assert parts[0] == [s[0]] + rest[0];
        ContainsSuffix([s[0]], rest[0], w);
      } else {
        assert parts[k] == rest[k];
      }
    }
  }

  /** A part of `s.split(sep)` that contains `w` puts `w` into `s`. */
  lemma {:induction false} PartInJoin(parts: seq<string>, sep: string, w: string, k: nat)
    requires k < |parts| && Contains(parts[k], w)
    ensures Contains(Join(parts, sep), w)
  {
    if |parts| > 1 {
      if k == 0 {
        ContainsPrefix(parts[0], sep + Join(parts[1..], sep), w);
        assert Join(parts, sep) == parts[0] + (sep + Join(parts[1..], sep));
      } else {
        PartInJoin(parts[1..], sep, w, k - 1);
        ContainsSuffix(parts[0] + sep, Join(parts[1..], sep), w);
      }
    }
  }

  lemma {:induction false} CountPositive(s: string, c: char)
    requires c in s
    ensures Count(s, c) > 0
  {
    if s[0] != c {
      assert c in s[1..];
      CountPositive(s[1..], c);
    }
  }

  /** With a separator present, the second part of `split(sep)` is what lies between the first and second separator. */
  lemma {:induction false} SplitSecond(s: string, sep: char)
    requires sep in s
    ensures |Split(s, sep)| >= 2
    ensures |Before(s, sep)| < |s|
    ensures Split(s, sep)[1] == Before(s[|Before(s, sep)| + 1..], sep)
  {
    if s[0] == sep {
      SplitHead(s[1..], sep);
      assert Before(s, sep) == [];
      assert Split(s, sep) == [""] + Split(s[1..], sep);
    } else {
      assert sep in s[1..];
      SplitSecond(s[1..], sep);
      BeforeStep(s, sep);
      assert Split(s, sep)[1..] == Split(s[1..], sep)[1..];
      assert s[|Before(s, sep)| + 1..] == s[1..][|Before(s[1..], sep)| + 1..];
    }
  }

  lemma BeforeStep(s: string, sep: char)
    requires s != [] && s[0] != sep
    ensures Before(s, sep) == [s[0]] + Before(s[1..], sep)
  {
  }

  lemma {:induction false} SplitHead(s: string, sep: char)
    ensures Split(s, sep)[0] == Before(s, sep)
  {
    if s != [] && s[0] != sep {
      SplitHead(s[1..], sep);
    }
  }

  /** Whether the query takes the parsing path at all. */
  predicate CarriesCode(query: string) {
    query != "" && Contains(query, CodeMarker)
  }

  /** The test of the filter: `urlParts.includes('code=')`. */
  predicate HasCode(part: string) {
    Contains(part, CodeMarker)
  }

  /** `parseQueryString.filter(p => p.includes('code='))`. */
  function PartsWithCode(query: string): (r: seq<string>)
    requires CarriesCode(query)
    ensures |r| > 0
    ensures forall k :: 0 <= k < |r| ==> Contains(r[k], CodeMarker) && '&' !in r[k]
  {
    var stripped := StripQuestion(query);
    assert Contains(stripped, CodeMarker) by {
      if query[0] == '?' {
        assert !StartsWith(query, CodeMarker);
        assert stripped == query[1..];
      }
    }
    ContainedInSomePart(stripped, '&', CodeMarker);
    SplitPartsHaveNoSeparator(stripped, '&');
    var parts := Split(stripped, '&');
    var k :| 0 <= k < |parts| && Contains(parts[k], CodeMarker);
    assert parts[k] in parts;
    var r := Seqs.Filter(parts, HasCode);
    assert forall k :: 0 <= k < |r| ==> r[k] in parts;
    r
  }

  /**
   * The code `saveCodefromURLtoLocalStorage` stores: `None` when the query is
   * empty or has no `code=`; otherwise the text between the first and the
   * second `=` of the first `&`-part that contains `code=`.
   */
  function ExtractCode(query: string): (code: Option<string>)
    ensures code.None? <==> !CarriesCode(query)
    ensures code.Some? ==>
      var part := PartsWithCode(query)[0];
      var head := Before(part, '=');
      '=' !in head && '=' !in code.value && '&' !in code.value &&
      StartsWith(part, head + "=" + code.value) &&
      (|part| == |head + "=" + code.value| || part[|head + "=" + code.value|] == '=')
  {
    if !CarriesCode(query) then None
    else
      var part := PartsWithCode(query)[0];
      SecondOfPart(part);
      Some(Split(part, '=')[1])
  }

  /** In a part holding `code=`, the second `=`-piece is what follows the first `=`, up to the next one. */
  lemma SecondOfPart(part: string)
    requires Contains(part, CodeMarker) && '&' !in part
    ensures |Split(part, '=')| >= 2
    ensures var code := Split(part, '=')[1];
      var head := Before(part, '=');
      '=' !in head && '=' !in code && '&' !in code &&
      StartsWith(part, head + "=" + code) &&
      (|part| == |head + "=" + code| || part[|head + "=" + code|] == '=')
  {
    ContainsChar(part, CodeMarker, 4);
    SplitSecond(part, '=');
    var head := Before(part, '=');
    assert part[..|head| + 1] == head + "=";
    assert part == part[..|head| + 1] + part[|head| + 1..];
    PieceAfterFirst(part, head, part[|head| + 1..]);
  }

  /** The text after the first separator, up to the next one, is a separator-free stretch of the part. */
  lemma PieceAfterFirst(part: string, head: string, rest: string)
    requires part == head + "=" + rest && '&' !in part
    ensures var code := Before(rest, '=');
      '&' !in code && StartsWith(part, head + "=" + code) &&
      (|part| == |head + "=" + code| || part[|head + "=" + code|] == '=')
  {
    var code := Before(rest, '=');
    assert code == rest[..|code|];
    assert '&' !in code by {
      assert forall c :: c in code ==> c in rest;
      assert forall c :: c in rest ==> c in part;
    }
    assert head + "=" + code == part[..|head + "=" + code|];
    if '=' in rest {
      assert rest[..|code| + 1] == code + "=";
    }
  }

  lemma {:induction false} FilterSkips<T>(pre: seq<T>, s: seq<T>, keep: T -> bool)
    requires forall k :: 0 <= k < |pre| ==> !keep(pre[k])
    ensures Seqs.Filter(pre + s, keep) == Seqs.Filter(s, keep)
  {
    if pre != [] {
      assert (pre + s)[1..] == pre[1..] + s;
      FilterSkips(pre[1..], s, keep);
    } else {
      assert pre + s == s;
    }
  }

  /** A `&`-joined query with a `code=…` parameter takes the parsing path. */
  lemma JoinedQueryCarriesCode(parts: seq<string>, k: nat)
    requires k < |parts| && StartsWith(parts[k], CodeMarker)
    ensures CarriesCode("?" + Join(parts, "&"))
  {
    PartInJoin(parts, "&", CodeMarker, k);
    ContainsSuffix("?", Join(parts, "&"), CodeMarker);
  }

  /** The parameters of a `?`-prefixed, `&`-joined query are its `&`-parts again. */
  lemma JoinedQueryParts(parts: seq<string>)
    requires |parts| > 0 && forall k :: 0 <= k < |parts| ==> '&' !in parts[k]
    ensures Split(StripQuestion("?" + Join(parts, "&")), '&') == parts
  {
    assert StripQuestion("?" + Join(parts, "&")) == Join(parts, "&");
    SplitJoin(parts, '&');
  }

  /** `code=c` splits at `=` into `code` and `c`. */
  lemma CodeParameter(c: string)
    requires '=' !in c && '&' !in c
    ensures StartsWith(CodeMarker + c, CodeMarker)
    ensures '&' !in CodeMarker + c
    ensures Split(CodeMarker + c, '=') == ["code", c]
  {
    assert (CodeMarker + c)[..5] == CodeMarker;
    assert CodeMarker + c == "code" + ['='] + c;
    SplitAtFirstSeparator("code", '=', c);
    SplitWithoutSeparator(c, '=');
  }

  /**
   * A query built as `?p1&…&code=c&…` gives back `c` when no earlier
   * parameter contains `code=` and `c` holds neither `=` nor `&`.
   */
  lemma QueryRoundTrip(pre: seq<string>, c: string, post: seq<string>)
    requires forall k :: 0 <= k < |pre| ==> !Contains(pre[k], CodeMarker) && '&' !in pre[k]
    requires forall k :: 0 <= k < |post| ==> '&' !in post[k]
    requires '=' !in c && '&' !in c
    ensures ExtractCode("?" + Join(pre + [CodeMarker + c] + post, "&")) == Some(c)
  {
    CodeParameter(c);
    var part := CodeMarker + c;
    var parts := pre + ([part] + post);
    assert pre + [part] + post == parts;
    forall k | 0 <= k < |parts|
      ensures '&' !in parts[k]
    {
      if k < |pre| {
        assert parts[k] == pre[k];
      } else if k > |pre| {
        assert parts[k] == post[k - |pre| - 1];
      }
    }
    JoinedQueryCarriesCode(parts, |pre|);
    JoinedQueryParts(parts);
    ContainsPrefix(part, [], CodeMarker);
    assert part + [] == part;
    ExtractFromPart("?" + Join(parts, "&"), pre, part, post);
  }

  /** When no part before `part` carries `code=` and `part` does, the code is read off `part`. */
  lemma ExtractFromPart(query: string, pre: seq<string>, part: string, post: seq<string>)
    requires CarriesCode(query)
    requires Split(StripQuestion(query), '&') == pre + ([part] + post)
    requires forall k :: 0 <= k < |pre| ==> !HasCode(pre[k])
    requires HasCode(part) && |Split(part, '=')| >= 2
    ensures ExtractCode(query) == Some(Split(part, '=')[1])
  {
    FilterSkips(pre, [part] + post, HasCode);
  }

  /**
   * The first part that merely contains `code=` wins, and what it gives is
   * the text after its first `=`: `?<pre>code=c&code=d` gives `c`, so
   * `?promocode=x&code=y` gives `x`.
   */
  lemma ContainingPartWins(pre: string, c: string, d: string)
    requires '=' !in pre && '&' !in pre
    requires '=' !in c && '&' !in c && '=' !in d && '&' !in d
    ensures ExtractCode("?" + pre + CodeMarker + c + "&" + CodeMarker + d) == Some(c)
  {
    var parts := [pre + CodeMarker + c, CodeMarker + d];
    assert parts[1..] == [CodeMarker + d];
    assert "?" + Join(parts, "&") == "?" + pre + CodeMarker + c + "&" + CodeMarker + d;
    CodeParameter(d);
    JoinedQueryCarriesCode(parts, 1);
    PrefixedCodeParameter(pre, c);
    assert forall k :: 0 <= k < |parts| ==> '&' !in parts[k];
    JoinedQueryParts(parts);
    assert PartsWithCode("?" + Join(parts, "&"))[0] == parts[0];
  }

  /** `<pre>code=c` contains `code=` and splits at `=` into `<pre>code` and `c`. */
  lemma PrefixedCodeParameter(pre: string, c: string)
    requires '=' !in pre && '&' !in pre && '=' !in c && '&' !in c
    ensures Contains(pre + CodeMarker + c, CodeMarker)
    ensures '&' !in pre + CodeMarker + c
    ensures Split(pre + CodeMarker + c, '=') == [pre + "code", c]
  {
    CodeParameter(c);
    ContainsPrefix(CodeMarker + c, [], CodeMarker);
    assert CodeMarker + c + [] == CodeMarker + c;
    ContainsSuffix(pre, CodeMarker + c, CodeMarker);
    assert pre + (CodeMarker + c) == pre + CodeMarker + c == (pre + "code") + ['='] + c;
    SplitAtFirstSeparator(pre + "code", '=', c);
    SplitWithoutSeparator(c, '=');
  }

  /** `localStorage`: string keys to string values. */
  class LocalStorage {
    var items: map<string, string>

    constructor (items: map<string, string>)
      ensures this.items == items
    {
      this.items := items;
    }

    /** `getItem`: `None` is the `null` of a missing key. */
    function GetItem(key: string): (v: Option<string>)
      reads this
      ensures v.Some? <==> key in items
      ensures v.Some? ==> v.value == items[key]
    {
      if key in items then Some(items[key]) else None
    }

    method SetItem(key: string, value: string)
      modifies this
      ensures items == old(items)[key := value]
    {
      items := items[key := value];
    }
  }

  /**
   * After `setItem(key, value)` on a store that held `before`, `getItem`
   * reads `value` back under `key` and reads every other key as before.
   */
  lemma ReadAfterWrite(storage: LocalStorage, before: map<string, string>, key: string, value: string, other: string)
    requires storage.items == before[key := value]
    ensures storage.GetItem(key) == Some(value)
    ensures other != key ==> storage.GetItem(other) == (if other in before then Some(before[other]) else None)
  {
  }

  /**
   * `saveCodefromURLtoLocalStorage`: without a code the store is only read;
   * with one it is written under `picsello_trialCode` and read back.
   * `query` is `window.location.search` as read once when the module is
   * loaded, not the address at the time of the call.
   */
  method SaveCode(query: string, storage: LocalStorage) returns (stored: Option<string>)
    modifies storage
    ensures ExtractCode(query).None? ==> storage.items == old(storage.items) && stored == storage.GetItem(StorageName)
    ensures ExtractCode(query).Some? ==>
      storage.items == old(storage.items)[StorageName := ExtractCode(query).value] && stored == ExtractCode(query)
  {
    if !CarriesCode(query) {
      return storage.GetItem(StorageName);
    }
    var code := ExtractCode(query).value;
    storage.SetItem(StorageName, code);
    stored := storage.GetItem(StorageName);
  }

  /** The `trial-code` event and its payload `{code}`. */
  datatype Push = TrialCodeEvent(code: Option<string>)

  /**
   * `mounted`: one call for the log line, then a second one whose result is
   * pushed when `data-handle` is `retrieve`. The two calls leave the store
   * as one call does. `query` is the module-load value of
   * `window.location.search`, the same for every later mount.
   */
  method Mounted(handle: Option<string>, query: string, storage: LocalStorage) returns (pushed: Option<Push>)
    modifies storage
    ensures ExtractCode(query).None? ==> storage.items == old(storage.items)
    ensures ExtractCode(query).Some? ==> storage.items == old(storage.items)[StorageName := ExtractCode(query).value]
    ensures pushed.Some? <==> handle == Some("retrieve")
    ensures pushed.Some? ==> pushed.value.code == storage.GetItem(StorageName)
  {
    var logged := SaveCode(query, storage);
    var again := SaveCode(query, storage);
    if handle == Some("retrieve") {
      pushed := Some(TrialCodeEvent(again));
    } else {
      pushed := None;
    }
  }
}
