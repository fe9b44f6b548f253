/**
 * The client-gallery cookie hook: `getCookie` looks a cookie up in the
 * `document.cookie` header, `setCookie` formats the string assigned to
 * `document.cookie`, and the hook's `mounted`/`updated` callbacks reveal
 * the gallery or remember that it was shown.
 *
 * The browser's cookie jar is modelled by `Jar`: cookies in creation
 * order, an assignment replacing the value of a cookie with the same
 * name, and `document.cookie` reading back `name=value` pairs joined by
 * `"; "`. Paths, domains and expiry are not modelled.
 */
module GalleryCookie {
  import opened Wrappers
  import opened JsString

  /** The inner `while` of `getCookie`: only U+0020 is removed, and only at the front. */
  function StripSpaces(s: string): (r: string)
    ensures |r| <= |s| && (r == [] || r[0] != ' ')
  {
    if s != [] && s[0] == ' ' then StripSpaces(s[1..]) else s
  }

  /** An entry is `name=…` once its leading spaces are gone (`indexOf(nameEQ) == 0`). */
  predicate Matches(entry: string, key: string) {
    StartsWith(StripSpaces(entry), key)
  }

  /** The rest of the first entry that matches `key`, after the key. */
  function FindEntry(entries: seq<string>, key: string): Option<string> {
    if entries == [] then None
    else if Matches(entries[0], key) then Some(StripSpaces(entries[0])[|key|..])
    else FindEntry(entries[1..], key)
  }

  /** `getCookie(name)` on the header `cookie`; `None` is the `false` it returns. */
  function Lookup(cookie: string, name: string): Option<string> {
    FindEntry(Split(cookie, ';'), name + "=")
  }

  /** `getCookie`: a `for` loop over the `;`-separated entries with an inner `while` that strips spaces. */
  method GetCookie(cookie: string, name: string) returns (r: Option<string>)
    ensures r == Lookup(cookie, name)
  {
    var nameEQ := name + "=";
    var cookies := Split(cookie, ';');
    var i := 0;
    while i < |cookies|
      invariant 0 <= i <= |cookies|
      invariant FindEntry(cookies[i..], nameEQ) == Lookup(cookie, name)
    {
      var entry := cookies[i];
      while entry != [] && entry[0] == ' '
        invariant StripSpaces(entry) == StripSpaces(cookies[i])
        decreases |entry|
      {
        entry := entry[1..];
      }
      assert entry == StripSpaces(cookies[i]);
      if StartsWith(entry, nameEQ) {
        return Some(entry[|nameEQ|..]);
      }
      assert cookies[i..][1..] == cookies[i + 1..];
      i := i + 1;
    }
    return None;
  }

  /** No entry matches exactly when the lookup gives `None` (`return false`). */
  lemma {:induction false} FindEntryNone(entries: seq<string>, key: string)
    ensures FindEntry(entries, key).None? <==> forall k :: 0 <= k < |entries| ==> !Matches(entries[k], key)
  {
    if entries != [] {
      FindEntryNone(entries[1..], key);
      assert forall k :: 0 < k < |entries| ==> entries[k] == entries[1..][k - 1];
    }
  }

  /** When entry `j` is the first that matches, the lookup returns what follows the key in it. */
  lemma {:induction false} FindEntryFirst(entries: seq<string>, key: string, j: nat)
    requires j < |entries| && Matches(entries[j], key)
    requires forall k :: 0 <= k < j ==> !Matches(entries[k], key)
    ensures FindEntry(entries, key) == Some(StripSpaces(entries[j])[|key|..])
  {
    if j > 0 {
      assert !Matches(entries[0], key);
      assert forall k :: 0 <= k < j - 1 ==> entries[1..][k] == entries[k + 1];
      FindEntryFirst(entries[1..], key, j - 1);
    }
  }

  /** The key carries the `=`: cookie `ab=1` is not found under the name `a`. */
  lemma KeyIncludesEquals()
    ensures Lookup("ab=1", "a") == None
    ensures Lookup("ab=1", "ab") == Some("1")
  {
    SplitWithoutSeparator("ab=1", ';');
    assert StripSpaces("ab=1") == "ab=1";
    assert !StartsWith("ab=1", "a=") by {
      assert "ab=1"[..2] == "ab";
    }
    assert "a" + "=" == "a=";
    assert !Matches("ab=1", "a=");
    assert ["ab=1"][1..] == [];
    assert "ab=1"[..3] == "ab=";
  }

  /** A cookie in the jar. */
  datatype Cookie = Cookie(name: string, value: string)

  /** A cookie name the header can carry unambiguously. */
  predicate WellFormedName(name: string) {
    name != [] && name[0] != ' ' && '=' !in name && ';' !in name
  }

  predicate WellFormedJar(jar: seq<Cookie>) {
    forall i :: 0 <= i < |jar| ==> WellFormedName(jar[i].name) && ';' !in jar[i].value
  }

  function Entry(c: Cookie): string {
    c.name + "=" + c.value
  }

  /** What `document.cookie` reads: the pairs joined by `"; "`. */
  function Header(jar: seq<Cookie>): string {
    if jar == [] then ""
    else if |jar| == 1 then Entry(jar[0])
    else Entry(jar[0]) + "; " + Header(jar[1..])
  }

  /** The value of the first cookie named `name`. */
  function JarGet(jar: seq<Cookie>, name: string): Option<string> {
    if jar == [] then None
    else if jar[0].name == name then Some(jar[0].value)
    else JarGet(jar[1..], name)
  }

  /** Assigning `name=value; …` to `document.cookie`: the value is replaced, or a cookie is added at the end. */
  function JarSet(jar: seq<Cookie>, name: string, value: string): (r: seq<Cookie>)
    ensures |r| == |jar| || |r| == |jar| + 1
    ensures (forall j :: 0 <= j < |jar| ==> jar[j].name != name) ==> r == jar + [Cookie(name, value)]
    ensures forall k :: 0 <= k < |jar| && jar[k].name == name && (forall j :: 0 <= j < k ==> jar[j].name != name) ==>
      r == jar[k := Cookie(name, value)]
  {
    if jar == [] then [Cookie(name, value)]
    else if jar[0].name == name then [Cookie(name, value)] + jar[1..]
    else [jar[0]] + JarSet(jar[1..], name, value)
  }

  /** A `name=` key matches a `n=v` entry exactly when the names agree (neither holds `=`). */
  lemma MatchIffSameName(n: string, v: string, name: string)
    requires '=' !in n && '=' !in name
    ensures StartsWith(Entry(Cookie(n, v)), name + "=") <==> n == name
    ensures n == name ==> Entry(Cookie(n, v))[|name + "="|..] == v
  {
    var e := Entry(Cookie(n, v));
    if StartsWith(e, name + "=") {
      var k := |name|;
      assert e[..k + 1] == name + "=";
      assert e[k] == '=' by {
        assert e[..k + 1][k] == '=';
      }
      assert forall i :: 0 <= i < |n| ==> e[i] == n[i];
      forall i | 0 <= i < k
        ensures e[i] == name[i]
      {
        assert e[..k + 1][i] == name[i];
      }
      assert e[|n|] == '=';
      assert k == |n|;
      assert n == e[..|n|] == name;
    }
    if n == name {
      assert e[..|name + "="|] == name + "=";
      assert e[|name + "="|..] == v;
    }
  }

  lemma StripPadding(pad: string, e: string)
    requires forall i :: 0 <= i < |pad| ==> pad[i] == ' '
    requires e == [] || e[0] != ' '
    ensures StripSpaces(pad + e) == e
    decreases |pad|
  {
    if pad != [] {
      assert (pad + e)[1..] == pad[1..] + e;
      StripPadding(pad[1..], e);
    }
  }

  /** The one-step unfolding of `Split` for a leading character that is not the separator. */
  lemma SplitSpace(x: string)
    ensures Split(" " + x, ';') == [" " + Split(x, ';')[0]] + Split(x, ';')[1..]
  {
    assert (" " + x)[1..] == x;
  }

  lemma {:induction false} LookupPadded(jar: seq<Cookie>, pad: string, name: string)
    requires WellFormedJar(jar) && WellFormedName(name)
    requires forall i :: 0 <= i < |pad| ==> pad[i] == ' '
    ensures FindEntry(Split(pad + Header(jar), ';'), name + "=") == JarGet(jar, name)
    decreases |jar|
  {
    var key := name + "=";
    if jar == [] {
      LookupBlank(pad, name);
    } else {
      var e := Entry(jar[0]);
      assert e[0] == jar[0].name[0];
      StripPadding(pad, e);
      MatchIffSameName(jar[0].name, jar[0].value, name);
      var rest := SplitHead(jar, pad);
      assert FindEntry([pad + e] + rest, key) == if Matches(pad + e, key) then Some(StripSpaces(pad + e)[|key|..]) else FindEntry(rest, key);
      if |jar| > 1 {
        assert WellFormedJar(jar[1..]) by {
          assert forall i :: 0 <= i < |jar[1..]| ==> jar[1..][i] == jar[i + 1];
        }
        LookupPadded(jar[1..], " ", name);
      }
    }
  }

  /** Blank text has no entry for any name. */
  lemma LookupBlank(pad: string, name: string)
    requires WellFormedName(name)
    requires forall i :: 0 <= i < |pad| ==> pad[i] == ' '
    ensures FindEntry(Split(pad + Header([]), ';'), name + "=") == None
  {
    assert pad + Header([]) == pad;
    StripPadding(pad, "");
    assert ';' !in pad;
    SplitWithoutSeparator(pad, ';');
    assert !StartsWith(StripSpaces(pad), name + "=");
  }

  /** The first entry of a padded header is the padded first pair; the rest are the later pairs, each after one space. */
  lemma SplitHead(jar: seq<Cookie>, pad: string) returns (rest: seq<string>)
    requires WellFormedJar(jar) && jar != []
    requires forall i :: 0 <= i < |pad| ==> pad[i] == ' '
    ensures rest == if |jar| == 1 then [] else Split(" " + Header(jar[1..]), ';')
    ensures Split(pad + Header(jar), ';') == [pad + Entry(jar[0])] + rest
  {
    var e := Entry(jar[0]);
    assert ';' !in e;
    assert ';' !in pad + e;
    if |jar| == 1 {
      SplitWithoutSeparator(pad + e, ';');
      rest := [];
      assert pad + Header(jar) == pad + e;
    } else {
      var tail := Header(jar[1..]);
      assert pad + Header(jar) == (pad + e) + [';'] + (" " + tail);
      SplitAtFirstSeparator(pad + e, ';', " " + tail);
      rest := Split(" " + tail, ';');
    }
  }

  /** Reading `document.cookie` back with `getCookie` gives the jar's value for the name. */
  lemma LookupHeader(jar: seq<Cookie>, name: string)
    requires WellFormedJar(jar) && WellFormedName(name)
    ensures Lookup(Header(jar), name) == JarGet(jar, name)
  {
    LookupPadded(jar, "", name);
    assert "" + Header(jar) == Header(jar);
  }

  /** With duplicate names the earliest entry wins: `a=1; a=2` gives `1` for `a`. */
  lemma EarliestDuplicateWins(name: string, first: string, second: string)
    requires WellFormedName(name) && ';' !in first && ';' !in second
    ensures Lookup(name + "=" + first + "; " + name + "=" + second, name) == Some(first)
  {
    var jar := [Cookie(name, first), Cookie(name, second)];
    assert jar[1..] == [Cookie(name, second)];
    assert Header(jar) == name + "=" + first + "; " + name + "=" + second;
    LookupHeader(jar, name);
  }

  lemma {:induction false} JarSetGet(jar: seq<Cookie>, name: string, value: string, other: string)
    ensures JarGet(JarSet(jar, name, value), name) == Some(value)
    ensures other != name ==> JarGet(JarSet(jar, name, value), other) == JarGet(jar, other)
    decreases |jar|
  {
    if jar != [] && jar[0].name != name {
      JarSetGet(jar[1..], name, value, other);
      assert JarSet(jar, name, value)[1..] == JarSet(jar[1..], name, value);
    } else if jar != [] {
      assert JarSet(jar, name, value)[1..] == jar[1..];
    }
  }

  lemma {:induction false} JarSetWellFormed(jar: seq<Cookie>, name: string, value: string)
    requires WellFormedJar(jar) && WellFormedName(name) && ';' !in value
    ensures WellFormedJar(JarSet(jar, name, value))
    decreases |jar|
  {
    if jar != [] && jar[0].name != name {
      assert WellFormedJar(jar[1..]) by {
        assert forall i :: 0 <= i < |jar[1..]| ==> jar[1..][i] == jar[i + 1];
      }
      JarSetWellFormed(jar[1..], name, value);
      var r := JarSet(jar, name, value);
      assert forall i :: 0 < i < |r| ==> r[i] == JarSet(jar[1..], name, value)[i - 1];
    }
  }

  /** The string `setCookie(name, value, days)` assigns; `expiry` is the date text when `days` is truthy. */
  function CookieString(name: string, value: string, expiry: Option<string>): (s: string)
    ensures StartsWith(s, name + "=" + value)
  {
    var s := name + "=" + value + (if expiry.Some? then "; Expires=" + expiry.value else "") + "; path=/";
    assert s[..|name + "=" + value|] == name + "=" + value;
    s
  }

  /** The attributes follow the first `;`, so the browser reads back exactly `name=value`. */
  lemma CookieStringPair(name: string, value: string, expiry: Option<string>)
    requires ';' !in name && ';' !in value
    ensures Split(CookieString(name, value, expiry), ';')[0] == name + "=" + value
  {
    var s := CookieString(name, value, expiry);
    var pair := name + "=" + value;
    assert ';' !in pair;
    assert s[|pair|] == ';';
    assert s == pair + [';'] + s[|pair| + 1..];
    SplitAtFirstSeparator(pair, ';', s[|pair| + 1..]);
  }

  /**
   * The page one hook instance touches: the cookie jar and the class lists of
   * the hook's element and of `#gallery`.
   */
  class Page {
    var jar: seq<Cookie>
    var elClasses: set<string>
    var galleryClasses: set<string>

    constructor (jar: seq<Cookie>, elClasses: set<string>, galleryClasses: set<string>)
      ensures this.jar == jar && this.elClasses == elClasses && this.galleryClasses == galleryClasses
    {
      this.jar := jar;
      this.elClasses := elClasses;
      this.galleryClasses := galleryClasses;
    }

    /**
     * `mounted`: a truthy cookie (present and non-empty) removes only
     * `sm:hidden` from the gallery; otherwise `hidden` is removed from the
     * element and from the gallery.
     */
    method Mounted(name: string)
      modifies this`elClasses, this`galleryClasses
      ensures var v := Lookup(Header(jar), name);
        if v.Some? && v.value != "" then
          galleryClasses == old(galleryClasses) - {"sm:hidden"} && elClasses == old(elClasses)
        else
          galleryClasses == old(galleryClasses) - {"hidden"} && elClasses == old(elClasses) - {"hidden"}
    {
      var v := GetCookie(Header(jar), name);
      if v.Some? && v.value != "" {
        galleryClasses := galleryClasses - {"sm:hidden"};
      } else {
        elClasses := elClasses - {"hidden"};
        galleryClasses := galleryClasses - {"hidden"};
      }
    }

    /**
     * `updated`: when `data-active` is truthy the cookie `name=true` is set
     * (`expiry` is the date text for a truthy `data-max_age`); otherwise nothing changes.
     */
    method Updated(name: string, active: Option<string>, expiry: Option<string>) returns (written: Option<string>)
      modifies this`jar
      ensures active.Some? && active.value != "" ==>
        jar == JarSet(old(jar), name, "true") && written == Some(CookieString(name, "true", expiry))
      ensures !(active.Some? && active.value != "") ==> jar == old(jar) && written == None
    {
      if active.Some? && active.value != "" {
        written := Some(CookieString(name, "true", expiry));
        jar := JarSet(jar, name, "true");
      } else {
        written := None;
      }
    }
  }

  /** Once `updated` has stored the cookie, a later `mounted` finds it and takes the "seen before" branch. */
  lemma RememberedAfterUpdate(jar: seq<Cookie>, name: string)
    requires WellFormedJar(jar) && WellFormedName(name)
    ensures Lookup(Header(JarSet(jar, name, "true")), name) == Some("true")
  {
    JarSetWellFormed(jar, name, "true");
    LookupHeader(JarSet(jar, name, "true"), name);
    JarSetGet(jar, name, "true", name);
  }
}
