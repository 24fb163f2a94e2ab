/**
 * Header multimaps. A header map is a list of (name, values) entries in the
 * map's iteration order. Two flavours occur in the client:
 *  - a plain java.util.Map<String, List<String>>: names are unique as strings
 *    (`HeaderMap`), lookups are exact;
 *  - Spring's HttpHeaders: names are unique ignoring case and every lookup
 *    ignores case (class `HttpHeaders`, over the functions below).
 */
module Headers {
  import opened Wrappers
  import opened JavaLang

  datatype Header = Header(name: string, values: seq<string>)
  type HeaderList = seq<Header>

  const CONTENT_TYPE: string := "Content-Type"
  const APPLICATION_JSON: string := "application/json"

  // ------------------------------------------------- exact-key (java.util.Map)

  predicate UniqueNames(h: HeaderList) {
    forall i, j :: 0 <= i < j < |h| ==> h[i].name != h[j].name
  }

  type HeaderMap = h: HeaderList | UniqueNames(h) witness []

  /** Map.get: the values stored under exactly `name`, None (null) if absent. */
  function Get(h: HeaderList, name: string): (r: Option<seq<string>>)
    ensures r.None? <==> forall i :: 0 <= i < |h| ==> h[i].name != name
    ensures UniqueNames(h) ==> forall i :: 0 <= i < |h| && h[i].name == name ==> r == Some(h[i].values)
  {
    if |h| == 0 then None
    else if h[0].name == name then Some(h[0].values)
    else
      var r := Get(h[1..], name);
      assert forall i :: 1 <= i < |h| ==> h[i] == h[1..][i - 1];
      r
  }

  function NameSet(h: HeaderList): (s: set<string>)
    ensures forall i :: 0 <= i < |h| ==> h[i].name in s
    ensures forall n :: n in s ==> exists i :: 0 <= i < |h| && h[i].name == n
  {
    set i | 0 <= i < |h| :: h[i].name
  }

  /** The map a header list denotes, forgetting its iteration order. */
  function ToMap(h: HeaderList): (m: map<string, seq<string>>)
    ensures m.Keys == NameSet(h)
    ensures forall n :: n in m ==> Get(h, n) == Some(m[n])
  {
    if |h| == 0 then map[]
    else
      var m := ToMap(h[1..])[h[0].name := h[0].values];
      assert NameSet(h) == NameSet(h[1..]) + {h[0].name} by {
        forall n | n in NameSet(h) ensures n in NameSet(h[1..]) + {h[0].name} {
          var i :| 0 <= i < |h| && h[i].name == n;
          if i > 0 { assert h[1..][i - 1] == h[i]; }
        }
      }
      m
  }

  /** Map.size of a map with unique names is the length of its entry list. */
  lemma {:induction false} NameSetSize(h: HeaderList)
    requires UniqueNames(h)
    ensures |NameSet(h)| == |h|
  {
    if |h| > 0 {
      var init := h[..|h| - 1];
      NameSetSize(init);
      assert NameSet(h) == NameSet(init) + {h[|h| - 1].name} by {
        forall n | n in NameSet(h) ensures n in NameSet(init) + {h[|h| - 1].name} {
          var i :| 0 <= i < |h| && h[i].name == n;
          if i < |h| - 1 { assert init[i] == h[i]; }
        }
      }
      assert h[|h| - 1].name !in NameSet(init);
    }
  }

  /**
   * The entry-wise comparison of AbstractMap-style equality: same size, and
   * every entry of `a` is found in `b` under the same name.
   */
  predicate EntriesMatch(a: HeaderList, b: HeaderList) {
    |a| == |b| && forall i :: 0 <= i < |a| ==> Get(b, a[i].name) == Some(a[i].values)
  }

  /** For maps with unique names, the entry-wise comparison is map equality. */
  lemma EntriesMatchIffSameMap(a: HeaderMap, b: HeaderMap)
    ensures EntriesMatch(a, b) <==> ToMap(a) == ToMap(b)
  {
    if EntriesMatch(a, b) {
      EntriesMatchGivesSameMap(a, b);
    }
    if ToMap(a) == ToMap(b) {
      SameMapGivesEntriesMatch(a, b);
    }
  }

  lemma EntriesMatchGivesSameMap(a: HeaderMap, b: HeaderMap)
    requires EntriesMatch(a, b)
    ensures ToMap(a) == ToMap(b)
  {
    EntriesMatchGivesSameNames(a, b);
    forall n | n in ToMap(a) ensures ToMap(a)[n] == ToMap(b)[n] {
      var i :| 0 <= i < |a| && a[i].name == n;
      assert Get(a, n) == Some(a[i].values);
    }
  }

  lemma EntriesMatchGivesSameNames(a: HeaderMap, b: HeaderMap)
    requires EntriesMatch(a, b)
    ensures NameSet(a) == NameSet(b)
  {
    NameSetSize(a);
    NameSetSize(b);
    assert NameSet(a) <= NameSet(b) by {
      forall n | n in NameSet(a) ensures n in NameSet(b) {
        var i :| 0 <= i < |a| && a[i].name == n;
        assert Get(b, n).Some?;
      }
    }
    SubsetOfSameSize(NameSet(a), NameSet(b));
  }

  lemma SameMapGivesEntriesMatch(a: HeaderMap, b: HeaderMap)
    requires ToMap(a) == ToMap(b)
    ensures EntriesMatch(a, b)
  {
    NameSetSize(a);
    NameSetSize(b);
    forall i | 0 <= i < |a| ensures Get(b, a[i].name) == Some(a[i].values) {
      var n := a[i].name;
      assert n in ToMap(a);
      assert Get(a, n) == Some(a[i].values);
    }
  }

  lemma SubsetOfSameSize<X>(s: set<X>, t: set<X>)
    requires s <= t && |s| == |t|
    ensures s == t
  {
    assert |t - s| == |t| - |s| == 0;
    assert t - s == {};
  }

  // ------------------------------------------- case-insensitive (HttpHeaders)

  predicate SameName(a: string, b: string) { FoldCase(a) == FoldCase(b) }

  predicate UniqueNamesIgnoringCase(h: HeaderList) {
    forall i, j :: 0 <= i < j < |h| ==> !SameName(h[i].name, h[j].name)
  }

  /** The position of the entry whose name equals `name` ignoring case. */
  function IndexIgnoringCase(h: HeaderList, name: string): (r: Option<nat>)
    ensures r.Some? ==> r.value < |h| && SameName(h[r.value].name, name)
    ensures r.Some? ==> forall j :: 0 <= j < r.value ==> !SameName(h[j].name, name)
    ensures r.None? <==> forall j :: 0 <= j < |h| ==> !SameName(h[j].name, name)
  {
    if |h| == 0 then None
    else if SameName(h[0].name, name) then Some(0)
    else match IndexIgnoringCase(h[1..], name)
      case None => None
      case Some(i) => Some(i + 1)
  }

  predicate HasName(h: HeaderList, name: string) {
    IndexIgnoringCase(h, name).Some?
  }

  /** The values stored under `name` ignoring case; empty when absent. */
  function ValuesOf(h: HeaderList, name: string): seq<string> {
    match IndexIgnoringCase(h, name)
    case None => []
    case Some(i) => h[i].values
  }

  /** HttpHeaders.getFirst: the first value under `name`, None (null) if there is none. */
  function First(h: HeaderList, name: string): (r: Option<string>)
    ensures r.Some? <==> |ValuesOf(h, name)| > 0
    ensures r.Some? ==> r.value == ValuesOf(h, name)[0]
  {
    var vs := ValuesOf(h, name);
    if |vs| == 0 then None else Some(vs[0])
  }

  /** getFirst does not depend on the spelling of the name. */
  lemma FirstIgnoresCase(h: HeaderList, a: string, b: string)
    requires SameName(a, b)
    ensures First(h, a) == First(h, b)
  {
    SameNameLookup(h, a, b);
  }

  lemma SameNameLookup(h: HeaderList, a: string, b: string)
    requires SameName(a, b)
    ensures IndexIgnoringCase(h, a) == IndexIgnoringCase(h, b)
    ensures ValuesOf(h, a) == ValuesOf(h, b) && (HasName(h, a) <==> HasName(h, b))
  {
    if |h| > 0 && !SameName(h[0].name, a) {
      SameNameLookup(h[1..], a, b);
    }
  }

  /** MultiValueMap.addAll(key, values): append to the existing list, or add a new entry at the end. */
  function AddValues(h: HeaderList, name: string, vs: seq<string>): (r: HeaderList)
    requires UniqueNamesIgnoringCase(h)
    ensures UniqueNamesIgnoringCase(r)
    ensures |r| == |h| + (if HasName(h, name) then 0 else 1)
  {
    match IndexIgnoringCase(h, name)
    case Some(i) => h[i := Header(h[i].name, h[i].values + vs)]
    case None => h + [Header(name, vs)]
  }

  /** After addAll(name, vs), a lookup of `k` sees its old values, followed by `vs` when `k` is `name`. */
  lemma AddValuesLookup(h: HeaderList, name: string, vs: seq<string>, k: string)
    requires UniqueNamesIgnoringCase(h)
    ensures var r := AddValues(h, name, vs);
      && ValuesOf(r, k) == ValuesOf(h, k) + (if SameName(k, name) then vs else [])
      && (HasName(r, k) <==> HasName(h, k) || SameName(k, name))
  {
    match IndexIgnoringCase(h, name)
    case Some(i) => AddToExistingLookup(h, i, name, vs, k);
    case None => IndexAppend(h, Header(name, vs), k);
  }

  lemma AddToExistingLookup(h: HeaderList, i: nat, name: string, vs: seq<string>, k: string)
    requires IndexIgnoringCase(h, name) == Some(i)
    ensures var r := h[i := Header(h[i].name, h[i].values + vs)];
      && ValuesOf(r, k) == ValuesOf(h, k) + (if SameName(k, name) then vs else [])
      && (HasName(r, k) <==> HasName(h, k) || SameName(k, name))
  {
    var r := h[i := Header(h[i].name, h[i].values + vs)];
    IndexRenamed(h, r, k);
    if SameName(k, name) {
      SameNameLookup(h, k, name);
    }
  }

  lemma IndexRenamed(h: HeaderList, r: HeaderList, k: string)
    requires |r| == |h| && forall j :: 0 <= j < |h| ==> SameName(r[j].name, h[j].name)
    ensures IndexIgnoringCase(r, k) == IndexIgnoringCase(h, k)
  {
    if |h| > 0 {
      IndexRenamed(h[1..], r[1..], k);
    }
  }

  lemma {:induction false} IndexAppend(h: HeaderList, e: Header, k: string)
    ensures HasName(h, k) ==> IndexIgnoringCase(h + [e], k) == IndexIgnoringCase(h, k)
    ensures !HasName(h, k) && SameName(e.name, k) ==> IndexIgnoringCase(h + [e], k) == Some(|h|)
    ensures !HasName(h, k) && !SameName(e.name, k) ==> IndexIgnoringCase(h + [e], k) == None
  {
    if |h| > 0 {
      assert (h + [e])[0] == h[0] && (h + [e])[1..] == h[1..] + [e];
      IndexAppend(h[1..], e, k);
    }
  }

  /** The values that entries of `c` named `k` (ignoring case) contribute, in order. */
  function ValuesFor(c: HeaderList, k: string): seq<string> {
    if |c| == 0 then []
    else ValuesFor(c[..|c| - 1], k) + (if SameName(c[|c| - 1].name, k) then c[|c| - 1].values else [])
  }

  predicate Mentions(c: HeaderList, k: string) {
    exists i :: 0 <= i < |c| && SameName(c[i].name, k)
  }

  /**
   * HttpHeaders.addAll(MultiValueMap): every entry of `c`, in iteration order,
   * appended under its name. Existing names keep their values and casing.
   */
  function MergeAll(h: HeaderList, c: HeaderList): (r: HeaderList)
    requires UniqueNamesIgnoringCase(h)
    ensures UniqueNamesIgnoringCase(r)
    ensures |h| <= |r| <= |h| + |c|
  {
    if |c| == 0 then h
    else AddValues(MergeAll(h, c[..|c| - 1]), c[|c| - 1].name, c[|c| - 1].values)
  }

  /** Merging one more caller header is one more AddValues. */
  lemma MergeAllPrefixStep(h: HeaderList, c: HeaderList, i: nat)
    requires UniqueNamesIgnoringCase(h) && i < |c|
    ensures MergeAll(h, c[..i + 1]) == AddValues(MergeAll(h, c[..i]), c[i].name, c[i].values)
  {
    assert c[..i + 1][..i] == c[..i];
  }

  /**
   * Merging keeps every existing header and adds every caller header: a lookup
   * of `k` gives the old values of `k` followed by all the caller's values for `k`.
   */
  lemma MergeAllLookup(h: HeaderList, c: HeaderList, k: string)
    requires UniqueNamesIgnoringCase(h)
    ensures ValuesOf(MergeAll(h, c), k) == ValuesOf(h, k) + ValuesFor(c, k)
    ensures HasName(MergeAll(h, c), k) <==> HasName(h, k) || Mentions(c, k)
  {
    MergeAllValues(h, c, k);
    MergeAllHasName(h, c, k);
  }

  lemma {:induction false} MergeAllValues(h: HeaderList, c: HeaderList, k: string)
    requires UniqueNamesIgnoringCase(h)
    ensures ValuesOf(MergeAll(h, c), k) == ValuesOf(h, k) + ValuesFor(c, k)
  {
    if |c| > 0 {
      var init, last := c[..|c| - 1], c[|c| - 1];
      var a, b := ValuesOf(h, k), ValuesFor(init, k);
      var x := if SameName(last.name, k) then last.values else [];
      calc {
        ValuesOf(MergeAll(h, c), k);
        == { MergeStep(h, c, k); }
        ValuesOf(MergeAll(h, init), k) + x;
        == { MergeAllValues(h, init, k); }
        (a + b) + x;
        ==
        a + (b + x);
        == { assert ValuesFor(c, k) == b + x; }
        a + ValuesFor(c, k);
      }
    }
  }

  lemma {:induction false} MergeAllHasName(h: HeaderList, c: HeaderList, k: string)
    requires UniqueNamesIgnoringCase(h)
    ensures HasName(MergeAll(h, c), k) <==> HasName(h, k) || Mentions(c, k)
  {
    if |c| > 0 {
      MergeAllHasName(h, c[..|c| - 1], k);
      MergeStep(h, c, k);
      MentionsSnoc(c, k);
    }
  }

  /** One step of the merge: the last caller entry is added on top of the merge of the others. */
  lemma MergeStep(h: HeaderList, c: HeaderList, k: string)
    requires UniqueNamesIgnoringCase(h) && |c| > 0
    ensures var init, last := c[..|c| - 1], c[|c| - 1];
      && ValuesOf(MergeAll(h, c), k) == ValuesOf(MergeAll(h, init), k) + (if SameName(last.name, k) then last.values else [])
      && (HasName(MergeAll(h, c), k) <==> HasName(MergeAll(h, init), k) || SameName(k, last.name))
  {
    var init, last := c[..|c| - 1], c[|c| - 1];
    AddValuesLookup(MergeAll(h, init), last.name, last.values, k);
    SameNameSymmetric(k, last.name);
  }

  lemma MentionsSnoc(c: HeaderList, k: string)
    requires |c| > 0
    ensures Mentions(c, k) <==> Mentions(c[..|c| - 1], k) || SameName(k, c[|c| - 1].name)
  {
    var init := c[..|c| - 1];
    if Mentions(c, k) {
      var i :| 0 <= i < |c| && SameName(c[i].name, k);
      if i < |c| - 1 {
        assert init[i] == c[i];
      }
    }
    if Mentions(init, k) {
      var i :| 0 <= i < |init| && SameName(init[i].name, k);
      assert c[i] == init[i];
    }
  }

  lemma SameNameSymmetric(a: string, b: string)
    ensures SameName(a, b) <==> SameName(b, a)
  {
  }

  /**
   * LinkedCaseInsensitiveMap.put: an entry spelled exactly `name` is replaced
   * in place; one spelled differently is removed and the new entry goes last.
   */
  function SetValue(h: HeaderList, name: string, vs: seq<string>): (r: HeaderList)
    requires UniqueNamesIgnoringCase(h)
    ensures UniqueNamesIgnoringCase(r)
    ensures |r| == |h| + (if HasName(h, name) then 0 else 1)
  {
    match IndexIgnoringCase(h, name)
    case Some(i) =>
      if h[i].name == name then h[i := Header(name, vs)]
      else
        RemoveKeepsUnique(h, i);
        h[..i] + h[i + 1..] + [Header(name, vs)]
    case None => h + [Header(name, vs)]
  }

  lemma RemoveKeepsUnique(h: HeaderList, i: nat)
    requires UniqueNamesIgnoringCase(h) && i < |h|
    ensures UniqueNamesIgnoringCase(h[..i] + h[i + 1..])
  {
    var rest := h[..i] + h[i + 1..];
    forall a, b | 0 <= a < b < |rest| ensures !SameName(rest[a].name, rest[b].name) {
      var a', b' := if a < i then a else a + 1, if b < i then b else b + 1;
      assert rest[a] == h[a'] && rest[b] == h[b'];
    }
  }

  /** After put(name, vs), `name` holds exactly `vs` and every other name is untouched. */
  lemma SetValueLookup(h: HeaderList, name: string, vs: seq<string>, k: string)
    requires UniqueNamesIgnoringCase(h)
    ensures var r := SetValue(h, name, vs);
      && (SameName(k, name) ==> HasName(r, k) && ValuesOf(r, k) == vs)
      && (!SameName(k, name) ==> ValuesOf(r, k) == ValuesOf(h, k) && (HasName(r, k) <==> HasName(h, k)))
  {
    var e := Header(name, vs);
    match IndexIgnoringCase(h, name)
    case Some(i) =>
      if h[i].name == name {
        SetInPlaceLookup(h, i, e, k);
      } else {
        SetMovedLookup(h, i, e, k);
      }
    case None =>
      IndexAppend(h, e, k);
  }

  /** After set(name, vs) with a non-empty list, getFirst of any spelling of the name is the list's head. */
  lemma FirstAfterSetValue(h: HeaderList, name: string, vs: seq<string>, k: string)
    requires UniqueNamesIgnoringCase(h) && vs != [] && SameName(k, name)
    ensures First(SetValue(h, name, vs), k) == Some(vs[0])
  {
    SetValueLookup(h, name, vs, k);
  }

  lemma SetInPlaceLookup(h: HeaderList, i: nat, e: Header, k: string)
    requires i < |h| && IndexIgnoringCase(h, e.name) == Some(i) && h[i].name == e.name
    ensures SameName(k, e.name) ==> HasName(h[i := e], k) && ValuesOf(h[i := e], k) == e.values
    ensures !SameName(k, e.name) ==> ValuesOf(h[i := e], k) == ValuesOf(h, k) && (HasName(h[i := e], k) <==> HasName(h, k))
  {
    IndexRenamed(h, h[i := e], k);
    if SameName(k, e.name) {
      SameNameLookup(h, k, e.name);
    } else {
      var j := IndexIgnoringCase(h, k);
      assert j.Some? ==> j.value != i;
    }
  }

  lemma SetMovedLookup(h: HeaderList, i: nat, e: Header, k: string)
    requires UniqueNamesIgnoringCase(h)
    requires i < |h| && IndexIgnoringCase(h, e.name) == Some(i)
    ensures var r := h[..i] + h[i + 1..] + [e];
      && (SameName(k, e.name) ==> HasName(r, k) && ValuesOf(r, k) == e.values)
      && (!SameName(k, e.name) ==> ValuesOf(r, k) == ValuesOf(h, k) && (HasName(r, k) <==> HasName(h, k)))
  {
    var rest := h[..i] + h[i + 1..];
    if SameName(k, e.name) {
      IndexRemoveMatching(h, i, e.name);
      IndexAppend(rest, e, e.name);
      SameNameLookup(rest + [e], k, e.name);
    } else {
      IndexRemoveOther(h, i, k);
      IndexAppend(rest, e, k);
    }
  }

  /** Removing an entry that does not match `k` keeps the entry that `k` finds. */
  lemma {:induction false} IndexRemoveOther(h: HeaderList, i: nat, k: string)
    requires i < |h| && !SameName(h[i].name, k)
    ensures ValuesOf(h[..i] + h[i + 1..], k) == ValuesOf(h, k)
    ensures HasName(h[..i] + h[i + 1..], k) <==> HasName(h, k)
  {
    var rest := h[..i] + h[i + 1..];
    if i == 0 {
      assert rest == h[1..];
      SkipOther(h, k);
    } else if !SameName(h[0].name, k) {
      assert rest[0] == h[0];
      assert rest[1..] == h[1..][..i - 1] + h[1..][i..];
      IndexRemoveOther(h[1..], i - 1, k);
      SkipOther(h, k);
      SkipOther(rest, k);
    } else {
      assert rest[0] == h[0];
    }
  }

  /** A first entry under another name plays no part in a lookup. */
  lemma SkipOther(h: HeaderList, k: string)
    requires |h| > 0 && !SameName(h[0].name, k)
    ensures ValuesOf(h, k) == ValuesOf(h[1..], k)
    ensures HasName(h, k) <==> HasName(h[1..], k)
  {
  }

  /** Removing the one entry that matches `k` leaves none that does. */
  lemma IndexRemoveMatching(h: HeaderList, i: nat, k: string)
    requires UniqueNamesIgnoringCase(h) && i < |h| && SameName(h[i].name, k)
    ensures !HasName(h[..i] + h[i + 1..], k)
  {
    RemoveKeepsUnique(h, i);
    var rest := h[..i] + h[i + 1..];
    forall j | 0 <= j < |rest| ensures !SameName(rest[j].name, k) {
      var j' := if j < i then j else j + 1;
      assert rest[j] == h[j'];
      assert !SameName(h[j'].name, h[i].name);
    }
  }

  /** HttpHeaders.getContentType is non-null exactly when the first Content-Type value is non-empty. */
  predicate HasContentType(h: HeaderList) {
    match First(h, CONTENT_TYPE)
    case None => false
    case Some(v) => v != []
  }

  /** Sets Content-Type to application/json unless a content type is present. */
  function WithDefaultContentType(h: HeaderList): (r: HeaderList)
    requires UniqueNamesIgnoringCase(h)
    ensures UniqueNamesIgnoringCase(r)
    ensures HasContentType(r)
  {
    if HasContentType(h) then h
    else
      SetValueLookup(h, CONTENT_TYPE, [APPLICATION_JSON], CONTENT_TYPE);
      SetValue(h, CONTENT_TYPE, [APPLICATION_JSON])
  }

  /**
   * The outgoing headers both adapters build: the caller's headers (a null map
   * counts as empty) appended to `existing`, then the Content-Type default.
   */
  function Prepared(existing: HeaderList, caller: Option<HeaderList>): (r: HeaderList)
    requires UniqueNamesIgnoringCase(existing)
    ensures UniqueNamesIgnoringCase(r)
    ensures HasContentType(r)
  {
    WithDefaultContentType(MergeAll(existing, caller.GetOr([])))
  }

  /**
   * What the outgoing headers hold under a name `k`: for any name but
   * Content-Type, the existing values followed by the caller's; for
   * Content-Type, the same when that already gives a non-empty first value,
   * otherwise application/json alone.
   */
  lemma PreparedLookup(existing: HeaderList, caller: Option<HeaderList>, k: string)
    requires UniqueNamesIgnoringCase(existing)
    ensures var c := caller.GetOr([]);
      var r := Prepared(existing, caller);
      && (!SameName(k, CONTENT_TYPE) ==>
            ValuesOf(r, k) == ValuesOf(existing, k) + ValuesFor(c, k) &&
            (HasName(r, k) <==> HasName(existing, k) || Mentions(c, k)))
      && (SameName(k, CONTENT_TYPE) && HasContentType(MergeAll(existing, c)) ==>
            ValuesOf(r, k) == ValuesOf(existing, k) + ValuesFor(c, k))
      && (SameName(k, CONTENT_TYPE) && !HasContentType(MergeAll(existing, c)) ==>
            ValuesOf(r, k) == [APPLICATION_JSON])
  {
    var c := caller.GetOr([]);
    var m := MergeAll(existing, c);
    MergeAllLookup(existing, c, k);
    if !HasContentType(m) {
      SetValueLookup(m, CONTENT_TYPE, [APPLICATION_JSON], k);
    }
  }

  // ------------------------------------------------------------ the object

  /** Spring's HttpHeaders: a mutable, case-insensitive header multimap. */
  class HttpHeaders {
    var entries: HeaderList

    ghost predicate Valid()
      reads this
    {
      UniqueNamesIgnoringCase(entries)
    }

    constructor ()
      ensures Valid() && entries == []
    {
      entries := [];
    }

    /** getContentType: the first Content-Type value when it is non-empty, else None (null). */
    function ContentType(): (r: Option<string>)
      reads this
      ensures r.Some? <==> HasContentType(entries)
      ensures r.Some? ==> r.value != [] && First(entries, CONTENT_TYPE) == Some(r.value)
      ensures r.None? ==> First(entries, CONTENT_TYPE) in {None, Some([])}
    {
      match First(entries, CONTENT_TYPE)
      case None => None
      case Some(v) => if v == [] then None else Some(v)
    }

    /** addAll(key, values) */
    method AddAll(name: string, values: seq<string>)
      requires Valid()
      modifies this
      ensures Valid() && entries == AddValues(old(entries), name, values)
    {
      entries := AddValues(entries, name, values);
    }

    /** addAll(MultiValueMap): adds the entries of `other` one after another. */
    method AddAllFrom(other: HeaderList)
      requires Valid()
      modifies this
      ensures Valid() && entries == MergeAll(old(entries), other)
    {
      var i := 0;
      while i < |other|
        invariant 0 <= i <= |other|
        invariant Valid()
        invariant entries == MergeAll(old(entries), other[..i])
      {
        MergeAllPrefixStep(old(entries), other, i);
        AddAll(other[i].name, other[i].values);
        i := i + 1;
      }
      assert other[..|other|] == other;
    }

    /** setContentType: replaces every Content-Type value with `mediaType`. */
    method SetContentType(mediaType: string)
      requires Valid()
      modifies this
      ensures Valid() && entries == SetValue(old(entries), CONTENT_TYPE, [mediaType])
      ensures mediaType != [] ==> ContentType() == Some(mediaType)
    {
      entries := SetValue(entries, CONTENT_TYPE, [mediaType]);
      FirstAfterSetValue(old(entries), CONTENT_TYPE, [mediaType], CONTENT_TYPE);
    }
  }
}
