/**
 * `DotArray`: a nested PHP array reached through dot-separated key paths
 * such as "db.host". `has` and `get` walk a path, `set` builds a one-path
 * array and merges it in the way `array_merge_recursive` does (optionally
 * sorting the keys at every level afterwards), and `getDotKeys` lists the
 * path of every entry.
 */
module DotArray {
  import opened Wrappers
  import Php

  /** A PHP array key: a string key (never a numeric string here) or an integer key. */
  datatype Key = Name(name: string) | Index(index: nat)

  /**
   * A PHP value as this class sees it: `null`, a scalar (kept as its string
   * form), or an array, the ordered list of its entries.
   */
  datatype Value = Null | Leaf(scalar: string) | Node(entries: seq<Entry>)

  datatype Entry = Entry(key: Key, value: Value)

  // ----------------------------------------------------------------------
  // PHP arrays: lookup, assignment, append

  /** The position of key `k` in an array, as PHP's hash lookup finds it. */
  function Find(es: seq<Entry>, k: Key): (r: Option<nat>)
    ensures r.Some? ==> r.value < |es| && es[r.value].key == k
    ensures r.Some? ==> forall j :: 0 <= j < r.value ==> es[j].key != k
    ensures r.None? <==> forall j :: 0 <= j < |es| ==> es[j].key != k
  {
    if es == [] then None
    else if es[0].key == k then Some(0)
    else match Find(es[1..], k)
      case Some(i) => Some(i + 1)
      case None => None
  }

  /** The keys of an array. */
  ghost function Keys(es: seq<Entry>): set<Key> {
    set i | 0 <= i < |es| :: es[i].key
  }

  /** A PHP array never holds a key twice, at any depth. */
  ghost predicate WellFormed(v: Value) {
    match v
    case Node(es) => DistinctKeys(es) && forall i :: 0 <= i < |es| ==> WellFormed(es[i].value)
    case _ => true
  }

  ghost predicate DistinctKeys(es: seq<Entry>) {
    forall i, j :: 0 <= i < j < |es| ==> es[i].key != es[j].key
  }

  ghost predicate WellFormedEntries(es: seq<Entry>) {
    WellFormed(Node(es))
  }

  /** Arrays with the same keys in the same places find every key in the same place. */
  lemma {:induction false} FindSameKeys(a: seq<Entry>, b: seq<Entry>, k: Key)
    requires |a| == |b| && forall j :: 0 <= j < |a| ==> a[j].key == b[j].key
    ensures Find(a, k) == Find(b, k)
  {
    if a != [] && a[0].key != k {
      FindSameKeys(a[1..], b[1..], k);
    }
  }

  lemma {:induction false} FindAppend(es: seq<Entry>, e: Entry, k: Key)
    ensures Find(es + [e], k) ==
      if Find(es, k).Some? then Find(es, k) else if e.key == k then Some(|es|) else None
  {
    if es != [] && es[0].key != k {
      assert (es + [e])[1..] == es[1..] + [e];
      FindAppend(es[1..], e, k);
    }
  }

  /** `$a[$k] = $v`: replaces the value under `k` in place, or adds `k` at the end. */
  function Assign(es: seq<Entry>, k: Key, v: Value): (r: seq<Entry>)
    ensures Find(r, k).Some? && r[Find(r, k).value].value == v
    ensures forall j :: 0 <= j < |es| ==> j < |r| && r[j].key == es[j].key
    ensures forall j :: 0 <= j < |es| && es[j].key != k ==> r[j] == es[j]
    ensures Find(es, k).Some? ==> |r| == |es|
    ensures Find(es, k).None? ==> r == es + [Entry(k, v)]
  {
    match Find(es, k)
    case Some(i) =>
      FindSameKeys(es[i := Entry(k, v)], es, k);
      es[i := Entry(k, v)]
    case None =>
      FindAppend(es, Entry(k, v), k);
      es + [Entry(k, v)]
  }

  /** PHP's next free integer key: one more than the largest integer key, or 0. */
  function NextIndex(es: seq<Entry>): (r: nat)
    ensures forall j :: 0 <= j < |es| && es[j].key.Index? ==> es[j].key.index < r
  {
    if es == [] then 0
    else
      var n := NextIndex(es[1..]);
      if es[0].key.Index? && es[0].key.index >= n then es[0].key.index + 1 else n
  }

  /** `$a[] = $v`. */
  function Push(es: seq<Entry>, v: Value): (r: seq<Entry>)
    ensures |r| == |es| + 1 && r[..|es|] == es && r[|es|] == Entry(Index(NextIndex(es)), v)
    ensures Index(NextIndex(es)) !in Keys(es)
  {
    es + [Entry(Index(NextIndex(es)), v)]
  }

  /** The `(array)` cast: `null` is the empty array and a scalar becomes `[0 => scalar]`. */
  function Cast(v: Value): (r: seq<Entry>)
    ensures v.Node? ==> r == v.entries
    ensures v.Null? ==> r == []
    ensures v.Leaf? ==> r == [Entry(Index(0), v)]
  {
    match v
    case Null => []
    case Leaf(_) => [Entry(Index(0), v)]
    case Node(es) => es
  }

  // ----------------------------------------------------------------------
  // Dot paths

  /** `explode(".", trim($dotKey, '.'))`. */
  function Segments(dotKey: string): (r: seq<string>)
    ensures |r| >= 1
  {
    Php.Explode('.', Php.Trim(dotKey, '.'))
  }

  /** No segment holds a dot, and joined with dots the segments give back the trimmed key. */
  lemma SegmentsRejoin(dotKey: string)
    ensures forall i :: 0 <= i < |Segments(dotKey)| ==> '.' !in Segments(dotKey)[i]
    ensures Php.Implode('.', Segments(dotKey)) == Php.Trim(dotKey, '.')
  {
    Php.ExplodeNoSeparator('.', Php.Trim(dotKey, '.'));
    Php.ImplodeExplode('.', Php.Trim(dotKey, '.'));
  }

  /** `isset($source[$key])`: `source` is an array holding `key` with a value other than `null`. */
  predicate Isset(source: Value, key: string) {
    && source.Node?
    && Find(source.entries, Name(key)).Some?
    && !source.entries[Find(source.entries, Name(key)).value].value.Null?
  }

  /** `$source[$key]`, where the key is set. */
  function At(source: Value, key: string): Value
    requires Isset(source, key)
  {
    source.entries[Find(source.entries, Name(key)).value].value
  }

  /** The value reached by following `keys` from `source`, or `None` where a segment is not set. */
  function Resolve(source: Value, keys: seq<string>): (r: Option<Value>)
    ensures keys != [] && r.Some? ==> r.value != Null
    decreases |keys|
  {
    if keys == [] then Some(source)
    else if Isset(source, keys[0]) then Resolve(At(source, keys[0]), keys[1..])
    else None
  }

  lemma ResolveStep(source: Value, keys: seq<string>, i: nat)
    requires i < |keys|
    ensures Resolve(source, keys[i..]) ==
      if Isset(source, keys[i]) then Resolve(At(source, keys[i]), keys[i + 1..]) else None
  {
    assert keys[i..][0] == keys[i] && keys[i..][1..] == keys[i + 1..];
  }

  /** The array that `set` builds for `keys`: one entry per level, `value` at the bottom. */
  function SinglePath(keys: seq<string>, value: Value): (r: seq<Entry>)
    requires |keys| >= 1
    ensures |r| == 1 && r[0].key == Name(keys[0])
    decreases |keys|
  {
    if |keys| == 1 then [Entry(Name(keys[0]), value)]
    else [Entry(Name(keys[0]), Node(SinglePath(keys[1..], value)))]
  }

  lemma AssignEmpty(k: Key, v: Value)
    ensures Assign([], k, v) == [Entry(k, v)]
  { }

  lemma SinglePathLast(keys: seq<string>, value: Value)
    requires |keys| >= 1
    ensures SinglePath(keys[|keys| - 1..], value) == [Entry(Name(keys[|keys| - 1]), value)]
  { }

  lemma SinglePathStep(keys: seq<string>, i: nat, value: Value)
    requires i < |keys| - 1
    ensures SinglePath(keys[i..], value) == [Entry(Name(keys[i]), Node(SinglePath(keys[i + 1..], value)))]
  {
    assert keys[i..][1..] == keys[i + 1..];
  }

  // ----------------------------------------------------------------------
  // array_merge_recursive

  /**
   * `array_merge_recursive($dest, $src)` with the entries of `dest` kept where
   * they are: each entry of `src` is merged in turn.
   */
  function Merge(dest: seq<Entry>, src: seq<Entry>): (r: seq<Entry>)
    ensures |dest| <= |r| <= |dest| + |src|
    ensures forall j :: 0 <= j < |dest| ==> r[j].key == dest[j].key
    ensures forall j :: 0 <= j < |dest| && (dest[j].key.Index? || dest[j].key !in Keys(src)) ==> r[j] == dest[j]
    ensures forall i :: 0 <= i < |src| && src[i].key.Name? ==> Find(r, src[i].key).Some?
    decreases src
  {
    if src == [] then dest
    else
      var d1 := MergeEntry(dest, src[0]);
      var r := Merge(d1, src[1..]);
      assert forall i :: 1 <= i < |src| ==> src[i] == src[1..][i - 1];
      assert src[0].key.Name? ==> Find(r, src[0].key).Some? by {
        if src[0].key.Name? {
          var p := Find(d1, src[0].key).value;
          assert r[p].key == src[0].key;
        }
      }
      r
  }

  /**
   * One entry of the source array: an integer key is appended under the next
   * free index; a new string key is appended; a string key already present
   * combines the two values.
   */
  function MergeEntry(dest: seq<Entry>, e: Entry): (r: seq<Entry>)
    ensures |dest| <= |r| <= |dest| + 1
    ensures forall j :: 0 <= j < |dest| ==> r[j].key == dest[j].key
    ensures forall j :: 0 <= j < |dest| && (dest[j].key.Index? || dest[j].key != e.key) ==> r[j] == dest[j]
    ensures |r| == |dest| + 1 ==> r[|dest|].value == e.value && r[|dest|].key !in Keys(dest)
    ensures e.key.Name? ==> Find(r, e.key).Some?
    ensures e.key.Name? && Find(dest, e.key).Some? ==> |r| == |dest|
    decreases e
  {
    match e.key
    case Index(_) => Push(dest, e.value)
    case Name(_) =>
      match Find(dest, e.key)
      case None => dest + [e]
      case Some(i) => dest[i := Entry(e.key, Combine(dest[i].value, e.value))]
  }

  /** How `array_merge_recursive` lists the value already under a key: an array as it is, anything else (`null` too) as a one-item list. */
  function AsArray(v: Value): seq<Entry> {
    match v
    case Node(es) => es
    case _ => [Entry(Index(0), v)]
  }

  /**
   * Two values under the same string key: the old one is turned into an
   * array (`null` into `[null]`, a scalar into `[scalar]`); an array on the
   * source side is merged into it, anything else is appended to it.
   */
  function Combine(d: Value, s: Value): (r: Value)
    ensures r.Node?
    ensures d.Node? ==>
      |d.entries| <= |r.entries| && forall j :: 0 <= j < |d.entries| ==> r.entries[j].key == d.entries[j].key
    ensures !d.Node? ==> r.entries != [] && r.entries[0] == Entry(Index(0), d)
    ensures !s.Node? ==> r.entries != [] && r.entries[|r.entries| - 1].value == s
    ensures s.Node? ==> forall i :: 0 <= i < |s.entries| && s.entries[i].key.Name? ==> Find(r.entries, s.entries[i].key).Some?
    decreases s
  {
    var base := AsArray(d);
    match s
    case Node(ses) => Node(Merge(base, ses))
    case _ => Node(Push(base, s))
  }

  // ----------------------------------------------------------------------
  // ksort

  /** Byte-wise comparison of two strings, as `strcmp(s, t) <= 0`. */
  predicate StrLeq(s: string, t: string) {
    s == [] || (t != [] && (s[0] < t[0] || (s[0] == t[0] && StrLeq(s[1..], t[1..]))))
  }

  /** The key order `ksort` uses: integer keys first, by value, then string keys. */
  predicate KeyLeq(a: Key, b: Key) {
    match (a, b)
    case (Index(m), Index(n)) => m <= n
    case (Index(_), Name(_)) => true
    case (Name(_), Index(_)) => false
    case (Name(s), Name(t)) => StrLeq(s, t)
  }

  lemma {:induction false} StrLeqTotal(s: string, t: string)
    ensures StrLeq(s, t) || StrLeq(t, s)
  {
    if s != [] && t != [] && s[0] == t[0] {
      StrLeqTotal(s[1..], t[1..]);
    }
  }

  lemma KeyLeqTotal(a: Key, b: Key)
    ensures KeyLeq(a, b) || KeyLeq(b, a)
  {
    if a.Name? && b.Name? {
      StrLeqTotal(a.name, b.name);
    }
  }

  /** Keys in ascending order. */
  predicate Sorted(es: seq<Entry>) {
    forall i :: 0 <= i < |es| - 1 ==> KeyLeq(es[i].key, es[i + 1].key)
  }

  function Insert(e: Entry, es: seq<Entry>): (r: seq<Entry>)
    requires Sorted(es)
    ensures Sorted(r) && multiset(r) == multiset(es) + multiset{e}
    ensures |r| >= 1 && (r[0] == e || (es != [] && r[0] == es[0]))
  {
    if es == [] || KeyLeq(e.key, es[0].key) then [e] + es
    else
      KeyLeqTotal(e.key, es[0].key);
      assert es == [es[0]] + es[1..];
      [es[0]] + Insert(e, es[1..])
  }

  /** `ksort`: the same entries, keys in ascending order. */
  function KSort(es: seq<Entry>): (r: seq<Entry>)
    ensures Sorted(r) && multiset(r) == multiset(es)
  {
    if es == [] then []
    else
      assert es == [es[0]] + es[1..];
      Insert(es[0], KSort(es[1..]))
  }

  /** The entries of an array with every nested array sorted, the keys left where they are. */
  function SortChildren(es: seq<Entry>): (r: seq<Entry>)
    ensures |r| == |es|
    ensures forall i :: 0 <= i < |es| ==> r[i] == SortEntry(es[i])
    decreases es
  {
    if es == [] then []
    else [SortEntry(es[0])] + SortChildren(es[1..])
  }

  /** An entry whose value, when it is an array, is sorted at every level. */
  function SortEntry(e: Entry): (r: Entry)
    ensures r.key == e.key && (r.value.Node? <==> e.value.Node?)
    ensures !e.value.Node? ==> r == e
    decreases e
  {
    match e.value
    case Node(es) => Entry(e.key, Node(KSort(SortChildren(es))))
    case _ => e
  }

  /** What `recursiveKSort` leaves in its argument: nested arrays first, then the array itself. */
  function SortDeep(es: seq<Entry>): seq<Entry> {
    KSort(SortChildren(es))
  }

  /** Keys ascending in the array and in every array nested in it. */
  ghost predicate DeepSorted(v: Value) {
    match v
    case Node(es) => Sorted(es) && forall i :: 0 <= i < |es| ==> DeepSorted(es[i].value)
    case _ => true
  }

  // ----------------------------------------------------------------------
  // Listing the paths

  /** The string PHP makes of a key when it is concatenated. */
  function KeyString(k: Key): string {
    match k
    case Name(s) => s
    case Index(n) => Php.IntToString(n)
  }

  /** `$dotKey . "." . $k`, or the key alone when there is no prefix. */
  function Dotted(prefix: Option<string>, s: string): string {
    match prefix
    case None => s
    case Some(p) => p + "." + s
  }

  /**
   * What `fetch($dotKey, $source, $out)` appends to `$out`, as the code is
   * written: a key below an `empty()` prefix ("" or "0") is listed without
   * that prefix.
   */
  function ListingAsWritten(dotKey: string, source: Value): seq<string>
    decreases source
  {
    match source
    case Node(es) => ListingEntriesAsWritten(dotKey, es)
    case _ => []
  }

  function ListingEntriesAsWritten(dotKey: string, es: seq<Entry>): seq<string>
    decreases es
  {
    if es == [] then []
    else ListingEntriesAsWritten(dotKey, es[..|es| - 1]) + ListingEntryAsWritten(dotKey, es[|es| - 1])
  }

  function ListingEntryAsWritten(dotKey: string, e: Entry): seq<string>
    decreases e
  {
    var newDotKey := if Php.EmptyString(dotKey) then KeyString(e.key) else dotKey + "." + KeyString(e.key);
    [newDotKey] + ListingAsWritten(newDotKey, e.value)
  }

  lemma ListingEntriesAsWrittenSnoc(dotKey: string, es: seq<Entry>, i: nat)
    requires i < |es|
    ensures ListingEntriesAsWritten(dotKey, es[..i + 1])
         == ListingEntriesAsWritten(dotKey, es[..i]) + ListingEntryAsWritten(dotKey, es[i])
  {
    assert es[..i + 1][..i] == es[..i];
  }

  lemma AppendAssoc(a: seq<string>, b: seq<string>, c: seq<string>)
    ensures a + b + c == a + (b + c)
  {
  }

  /** The listing with the prefix dropped only at the top level. */
  function Listing(prefix: Option<string>, source: Value): seq<string>
    decreases source
  {
    match source
    case Node(es) => ListingEntries(prefix, es)
    case _ => []
  }

  function ListingEntries(prefix: Option<string>, es: seq<Entry>): seq<string>
    decreases es
  {
    if es == [] then []
    else ListingEntries(prefix, es[..|es| - 1]) + ListingEntry(prefix, es[|es| - 1])
  }

  function ListingEntry(prefix: Option<string>, e: Entry): seq<string>
    decreases e
  {
    var newDotKey := Dotted(prefix, KeyString(e.key));
    [newDotKey] + Listing(Some(newDotKey), e.value)
  }

  lemma ListingEntriesSnoc(prefix: Option<string>, es: seq<Entry>, i: nat)
    requires i < |es|
    ensures ListingEntries(prefix, es[..i + 1]) == ListingEntries(prefix, es[..i]) + ListingEntry(prefix, es[i])
  {
    assert es[..i + 1][..i] == es[..i];
  }

  /** Every entry's key path, in depth-first pre-order: an entry, then the entries below it. */
  function Paths(v: Value): seq<seq<Key>>
    decreases v
  {
    match v
    case Node(es) => PathsEntries(es)
    case _ => []
  }

  function PathsEntries(es: seq<Entry>): seq<seq<Key>>
    decreases es
  {
    if es == [] then []
    else PathsEntries(es[..|es| - 1]) + PathsEntry(es[|es| - 1])
  }

  function PathsEntry(e: Entry): seq<seq<Key>>
    decreases e
  {
    [[e.key]] + Prefixed(e.key, Paths(e.value))
  }

  function Prefixed(k: Key, paths: seq<seq<Key>>): (r: seq<seq<Key>>)
    ensures |r| == |paths| && forall i :: 0 <= i < |paths| ==> r[i] == [k] + paths[i]
  {
    seq(|paths|, i requires 0 <= i < |paths| => [k] + paths[i])
  }

  /** A key path written with dots. */
  function Render(path: seq<Key>): string {
    Php.Implode('.', seq(|path|, i requires 0 <= i < |path| => KeyString(path[i])))
  }

  /** Key paths written with dots after a prefix. */
  function RenderAll(prefix: Option<string>, paths: seq<seq<Key>>): (r: seq<string>)
    ensures |r| == |paths| && forall i :: 0 <= i < |paths| ==> r[i] == Dotted(prefix, Render(paths[i]))
  {
    seq(|paths|, i requires 0 <= i < |paths| => Dotted(prefix, Render(paths[i])))
  }

  lemma RenderOne(k: Key)
    ensures Render([k]) == KeyString(k)
  {
    assert seq(1, i requires 0 <= i < 1 => KeyString([k][i])) == [KeyString(k)];
  }

  lemma RenderCons(k: Key, path: seq<Key>)
    requires path != []
    ensures Render([k] + path) == KeyString(k) + "." + Render(path)
  {
    var p := [k] + path;
    var pieces := seq(|p|, i requires 0 <= i < |p| => KeyString(p[i]));
    assert pieces[1..] == seq(|path|, i requires 0 <= i < |path| => KeyString(path[i]));
  }

  lemma {:induction false} PathsNonEmpty(v: Value)
    ensures forall i :: 0 <= i < |Paths(v)| ==> Paths(v)[i] != []
    decreases v
  {
    if v.Node? {
      PathsEntriesNonEmpty(v.entries);
    }
  }

  lemma {:induction false} PathsEntriesNonEmpty(es: seq<Entry>)
    ensures forall i :: 0 <= i < |PathsEntries(es)| ==> PathsEntries(es)[i] != []
    decreases es
  {
    if es != [] {
      PathsEntriesNonEmpty(es[..|es| - 1]);
    }
  }

  /** `fetch` with the corrected prefix test lists exactly the rendered key paths. */
  lemma {:induction false} ListingRendersPaths(prefix: Option<string>, v: Value)
    ensures Listing(prefix, v) == RenderAll(prefix, Paths(v))
    decreases v
  {
    if v.Node? {
      ListingEntriesRendersPaths(prefix, v.entries);
    }
  }

  lemma {:induction false} ListingEntriesRendersPaths(prefix: Option<string>, es: seq<Entry>)
    ensures ListingEntries(prefix, es) == RenderAll(prefix, PathsEntries(es))
    decreases es
  {
    if es != [] {
      var init, last := es[..|es| - 1], es[|es| - 1];
      ListingEntriesRendersPaths(prefix, init);
      ListingEntryRendersPaths(prefix, last);
      assert RenderAll(prefix, PathsEntries(init) + PathsEntry(last))
          == RenderAll(prefix, PathsEntries(init)) + RenderAll(prefix, PathsEntry(last));
    }
  }

  lemma {:induction false} ListingEntryRendersPaths(prefix: Option<string>, e: Entry)
    ensures ListingEntry(prefix, e) == RenderAll(prefix, PathsEntry(e))
    decreases e
  {
    var newDotKey := Dotted(prefix, KeyString(e.key));
    var below := Paths(e.value);
    ListingRendersPaths(Some(newDotKey), e.value);
    PathsNonEmpty(e.value);
    RenderAllPrefixed(prefix, e.key, below);
    RenderOne(e.key);
    assert RenderAll(prefix, [[e.key]]) == [newDotKey];
    assert RenderAll(prefix, [[e.key]] + Prefixed(e.key, below))
        == RenderAll(prefix, [[e.key]]) + RenderAll(prefix, Prefixed(e.key, below));
  }

  /** Paths below a key, written after a prefix, are the paths written after prefix and key. */
  lemma RenderAllPrefixed(prefix: Option<string>, k: Key, paths: seq<seq<Key>>)
    requires forall i :: 0 <= i < |paths| ==> paths[i] != []
    ensures RenderAll(prefix, Prefixed(k, paths)) == RenderAll(Some(Dotted(prefix, KeyString(k))), paths)
  {
    var lhs, rhs := RenderAll(prefix, Prefixed(k, paths)), RenderAll(Some(Dotted(prefix, KeyString(k))), paths);
    forall i | 0 <= i < |paths|
      ensures lhs[i] == rhs[i]
    {
      assert lhs[i] == Dotted(prefix, Render([k] + paths[i]));
      RenderCons(k, paths[i]);
      DottedAssoc(prefix, KeyString(k), Render(paths[i]));
    }
  }

  lemma DottedAssoc(prefix: Option<string>, s: string, t: string)
    ensures Dotted(prefix, s + "." + t) == Dotted(prefix, s) + "." + t
  {
    if prefix.Some? {
      var p := prefix.value;
      assert p + "." + (s + "." + t) == (p + "." + s) + "." + t;
    }
  }

  /** The array after `set(dotKey, value, kSort)` for a key that is not `empty()`. */
  function AfterSet(es: seq<Entry>, keys: seq<string>, value: Value, kSort: bool): seq<Entry>
    requires |keys| >= 1
  {
    var merged := Merge(es, SinglePath(keys, value));
    if kSort then SortDeep(merged) else merged
  }

  // ----------------------------------------------------------------------
  // Properties of the dot paths and of `set`

  /** Dots before and after the key change neither the segments nor whether the key is `empty()`. */
  lemma SegmentsIgnoreOuterDots(m: nat, dotKey: string, n: nat)
    ensures Segments(Php.Repeat('.', m) + dotKey + Php.Repeat('.', n)) == Segments(dotKey)
    ensures !Php.EmptyString(dotKey) ==> !Php.EmptyString(Php.Repeat('.', m) + dotKey + Php.Repeat('.', n))
  {
    Php.TrimIgnoresPadding('.', m, dotKey, n);
    var padded := Php.Repeat('.', m) + dotKey + Php.Repeat('.', n);
    if m + n == 0 {
      assert padded == dotKey;
    }
  }

  /**
   * The path `keys` has no entry where it ends: walking it leaves the array
   * at a missing key, or passes a scalar or `null` that `array_merge_recursive`
   * will turn into an array.
   */
  ghost predicate Fresh(es: seq<Entry>, keys: seq<string>)
    requires |keys| >= 1
    decreases |keys|
  {
    match Find(es, Name(keys[0]))
    case None => true
    case Some(i) => |keys| > 1 && (es[i].value.Node? ==> Fresh(es[i].value.entries, keys[1..]))
  }

  lemma MergeOne(dest: seq<Entry>, e: Entry)
    ensures Merge(dest, [e]) == MergeEntry(dest, e)
  {
    assert [e][1..] == [];
  }

  lemma {:induction false} SinglePathResolves(keys: seq<string>, value: Value)
    requires |keys| >= 1 && value != Null
    ensures Resolve(Node(SinglePath(keys, value)), keys) == Some(value)
    decreases |keys|
  {
    if |keys| > 1 {
      SinglePathResolves(keys[1..], value);
    }
  }

  /** Below a fresh path's first key, the rest of the path is fresh in what `array_merge_recursive` merges into. */
  lemma FreshBelow(es: seq<Entry>, keys: seq<string>, i: nat)
    requires |keys| >= 1 && Fresh(es, keys) && Find(es, Name(keys[0])) == Some(i)
    ensures |keys| > 1 && Fresh(AsArray(es[i].value), keys[1..])
  {
    if !es[i].value.Node? {
      assert Find(AsArray(es[i].value), Name(keys[1])) == None;
    }
  }

  /** Following a path into an array goes through the entry its first key finds. */
  lemma ResolveThrough(es: seq<Entry>, i: nat, keys: seq<string>)
    requires |keys| >= 1 && Find(es, Name(keys[0])) == Some(i) && es[i].value != Null
    ensures Resolve(Node(es), keys) == Resolve(es[i].value, keys[1..])
  { }

  /** After `set` on a fresh path, `get` at that path returns the value set, unless it is `null`. */
  lemma {:induction false} SetOnFreshPathResolves(es: seq<Entry>, keys: seq<string>, value: Value)
    requires |keys| >= 1 && Fresh(es, keys) && value != Null
    ensures Resolve(Node(Merge(es, SinglePath(keys, value))), keys) == Some(value)
    decreases |keys|
  {
    var path := SinglePath(keys, value);
    var k := Name(keys[0]);
    MergeOne(es, path[0]);
    SinglePathResolves(keys, value);
    assert Find(path, k) == Some(0);
    ResolveThrough(path, 0, keys);
    match Find(es, k)
    case None =>
      var merged := es + [path[0]];
      assert MergeEntry(es, path[0]) == merged;
      FindAppend(es, path[0], k);
      ResolveThrough(merged, |es|, keys);
    case Some(i) =>
      var d := es[i].value;
      var below := SinglePath(keys[1..], value);
      assert path[0] == Entry(k, Node(below));
      var base := AsArray(d);
      var merged := es[i := Entry(k, Node(Merge(base, below)))];
      assert MergeEntry(es, path[0]) == merged;
      FindSameKeys(merged, es, k);
      ResolveThrough(merged, i, keys);
      FreshBelow(es, keys, i);
      SetOnFreshPathResolves(base, keys[1..], value);
  }

  /**
   * `set` keeps every top-level entry in its place with its key; only the
   * entry under the first segment can change, and at most one entry, for
   * that segment, is added at the end.
   */
  lemma SetKeepsTopLevel(es: seq<Entry>, keys: seq<string>, value: Value)
    requires |keys| >= 1
    ensures |es| <= |Merge(es, SinglePath(keys, value))| <= |es| + 1
    ensures forall j :: 0 <= j < |es| ==> Merge(es, SinglePath(keys, value))[j].key == es[j].key
    ensures forall j :: 0 <= j < |es| && es[j].key != Name(keys[0]) ==>
              Merge(es, SinglePath(keys, value))[j] == es[j]
    ensures |Merge(es, SinglePath(keys, value))| == |es| + 1 ==>
              Merge(es, SinglePath(keys, value))[|es|] == SinglePath(keys, value)[0]
  {
    MergeOne(es, SinglePath(keys, value)[0]);
  }

  /** Two scalars under one string key become the list of both. */
  lemma CombineScalars(before: string, after: string)
    ensures Combine(Leaf(before), Leaf(after)) == Node([Entry(Index(0), Leaf(before)), Entry(Index(1), Leaf(after))])
  {
    var base := [Entry(Index(0), Leaf(before))];
    assert base[1..] == [] && NextIndex(base) == 1;
  }

  /** `set` on a key holding a scalar does not overwrite it: the old and new scalar are listed together. */
  lemma SetOnScalarCollects(es: seq<Entry>, key: string, before: string, after: string)
    requires Find(es, Name(key)).Some? && es[Find(es, Name(key)).value].value == Leaf(before)
    ensures Resolve(Node(Merge(es, SinglePath([key], Leaf(after)))), [key])
         == Some(Node([Entry(Index(0), Leaf(before)), Entry(Index(1), Leaf(after))]))
  {
    var e := Entry(Name(key), Leaf(after));
    assert SinglePath([key], Leaf(after)) == [e];
    MergeOne(es, e);
    var i := Find(es, Name(key)).value;
    var pair := Node([Entry(Index(0), Leaf(before)), Entry(Index(1), Leaf(after))]);
    CombineScalars(before, after);
    var merged := es[i := Entry(Name(key), pair)];
    assert MergeEntry(es, e) == merged;
    FindSameKeys(merged, es, Name(key));
    ResolveThrough(merged, i, [key]);
  }

  lemma PushWellFormed(es: seq<Entry>, v: Value)
    requires WellFormedEntries(es) && WellFormed(v)
    ensures WellFormedEntries(Push(es, v))
  {
    var r := Push(es, v);
    forall i, j | 0 <= i < j < |r|
      ensures r[i].key != r[j].key
    {
      if j == |es| {
        assert r[i] == es[i];
      }
    }
  }

  /** `array_merge_recursive` of two PHP arrays is again a PHP array: no key occurs twice. */
  lemma {:induction false} MergeWellFormed(dest: seq<Entry>, src: seq<Entry>)
    requires WellFormedEntries(dest) && WellFormedEntries(src)
    ensures WellFormedEntries(Merge(dest, src))
    decreases src
  {
    if src != [] {
      MergeEntryWellFormed(dest, src[0]);
      assert WellFormedEntries(src[1..]) by {
        forall i, j | 0 <= i < j < |src| - 1
          ensures src[1..][i].key != src[1..][j].key
        {
          assert src[1..][i] == src[i + 1] && src[1..][j] == src[j + 1];
        }
      }
      MergeWellFormed(MergeEntry(dest, src[0]), src[1..]);
    }
  }

  lemma {:induction false} MergeEntryWellFormed(dest: seq<Entry>, e: Entry)
    requires WellFormedEntries(dest) && WellFormed(e.value)
    ensures WellFormedEntries(MergeEntry(dest, e))
    decreases e
  {
    match e.key
    case Index(_) =>
      PushWellFormed(dest, e.value);
    case Name(_) =>
      match Find(dest, e.key)
      case None =>
        var r := dest + [e];
        forall i, j | 0 <= i < j < |r|
          ensures r[i].key != r[j].key
        {
          if j == |dest| {
            assert r[i] == dest[i];
          }
        }
      case Some(i) =>
        CombineWellFormed(dest[i].value, e.value);
  }

  lemma {:induction false} CombineWellFormed(d: Value, s: Value)
    requires WellFormed(d) && WellFormed(s)
    ensures WellFormed(Combine(d, s))
    decreases s
  {
    var base := AsArray(d);
    assert WellFormedEntries(base);
    match s
    case Node(ses) =>
      MergeWellFormed(base, ses);
    case _ =>
      PushWellFormed(base, s);
  }

  lemma {:induction false} SinglePathWellFormed(keys: seq<string>, value: Value)
    requires |keys| >= 1 && WellFormed(value)
    ensures WellFormedEntries(SinglePath(keys, value))
    decreases |keys|
  {
    if |keys| > 1 {
      SinglePathWellFormed(keys[1..], value);
    }
  }

  /** Two arrays holding the same entries hold the same keys. */
  lemma SameEntriesSameKeys(a: seq<Entry>, b: seq<Entry>)
    requires multiset(a) == multiset(b)
    ensures Keys(a) == Keys(b)
  {
    forall k | k in Keys(a)
      ensures k in Keys(b)
    {
      var i :| 0 <= i < |a| && a[i].key == k;
      assert a[i] in multiset(b);
      var j :| 0 <= j < |b| && b[j] == a[i];
    }
    forall k | k in Keys(b)
      ensures k in Keys(a)
    {
      var j :| 0 <= j < |b| && b[j].key == k;
      assert b[j] in multiset(a);
      var i :| 0 <= i < |a| && a[i] == b[j];
    }
  }

  /** The keys after the first, when no key occurs twice. */
  lemma TailKeys(es: seq<Entry>)
    requires es != [] && DistinctKeys(es)
    ensures Keys(es[1..]) == Keys(es) - {es[0].key}
  {
    forall k | k in Keys(es) - {es[0].key}
      ensures k in Keys(es[1..])
    {
      var j :| 0 <= j < |es| && es[j].key == k;
      assert es[1..][j - 1] == es[j];
    }
    forall j | 0 <= j < |es| - 1
      ensures es[1..][j].key != es[0].key
    {
      assert es[1..][j] == es[j + 1];
    }
  }

  lemma DistinctTail(es: seq<Entry>)
    requires es != [] && DistinctKeys(es)
    ensures DistinctKeys(es[1..])
  {
    forall i, j | 0 <= i < j < |es| - 1
      ensures es[1..][i].key != es[1..][j].key
    {
      assert es[1..][i] == es[i + 1] && es[1..][j] == es[j + 1];
    }
  }

  lemma DistinctCons(x: Entry, rest: seq<Entry>)
    requires DistinctKeys(rest) && x.key !in Keys(rest)
    ensures DistinctKeys([x] + rest)
  {
    var r := [x] + rest;
    forall i, j | 0 <= i < j < |r|
      ensures r[i].key != r[j].key
    {
      if i == 0 {
        assert r[j] == rest[j - 1];
      } else {
        assert r[i] == rest[i - 1] && r[j] == rest[j - 1];
      }
    }
  }

  lemma KeysSnoc(es: seq<Entry>, e: Entry)
    ensures Keys(es + [e]) == Keys(es) + {e.key}
  {
    var r := es + [e];
    forall k | k in Keys(r)
      ensures k in Keys(es) + {e.key}
    {
      var i :| 0 <= i < |r| && r[i].key == k;
      if i < |es| {
        assert r[i] == es[i];
      }
    }
    forall k | k in Keys(es) + {e.key}
      ensures k in Keys(r)
    {
      if k in Keys(es) {
        var i :| 0 <= i < |es| && es[i].key == k;
        assert r[i] == es[i];
      } else {
        assert r[|es|] == e;
      }
    }
  }

  lemma InsertKeys(e: Entry, es: seq<Entry>)
    requires Sorted(es)
    ensures Keys(Insert(e, es)) == Keys(es) + {e.key}
  {
    SameEntriesSameKeys(Insert(e, es), es + [e]);
    KeysSnoc(es, e);
  }

  lemma {:induction false} InsertDistinct(e: Entry, es: seq<Entry>)
    requires Sorted(es) && DistinctKeys(es) && e.key !in Keys(es)
    ensures DistinctKeys(Insert(e, es))
  {
    if es != [] && !KeyLeq(e.key, es[0].key) {
      DistinctTail(es);
      TailKeys(es);
      InsertDistinct(e, es[1..]);
      var rest := Insert(e, es[1..]);
      InsertKeys(e, es[1..]);
      assert es[0].key in Keys(es);
      DistinctCons(es[0], rest);
      assert Insert(e, es) == [es[0]] + rest;
    } else {
      DistinctCons(e, es);
    }
  }

  lemma {:induction false} KSortDistinct(es: seq<Entry>)
    requires DistinctKeys(es)
    ensures DistinctKeys(KSort(es))
  {
    if es != [] {
      assert DistinctKeys(es[1..]) by {
        forall i, j | 0 <= i < j < |es| - 1
          ensures es[1..][i].key != es[1..][j].key
        {
          assert es[1..][i] == es[i + 1] && es[1..][j] == es[j + 1];
        }
      }
      KSortDistinct(es[1..]);
      SameEntriesSameKeys(KSort(es[1..]), es[1..]);
      TailKeys(es);
      InsertDistinct(es[0], KSort(es[1..]));
    }
  }

  /** The recursive sort leaves a PHP array a PHP array. */
  lemma {:induction false} SortDeepWellFormed(es: seq<Entry>)
    requires WellFormedEntries(es)
    ensures WellFormedEntries(SortDeep(es))
    decreases es
  {
    var children := SortChildren(es);
    forall i | 0 <= i < |children|
      ensures WellFormed(children[i].value)
    {
      SortEntryWellFormed(es[i]);
    }
    KSortDistinct(children);
    var r := SortDeep(es);
    forall i | 0 <= i < |r|
      ensures WellFormed(r[i].value)
    {
      assert r[i] in multiset(children);
      var j :| 0 <= j < |children| && children[j] == r[i];
    }
  }

  lemma {:induction false} SortEntryWellFormed(e: Entry)
    requires WellFormed(e.value)
    ensures WellFormed(SortEntry(e).value)
    decreases e
  {
    if e.value.Node? {
      SortDeepWellFormed(e.value.entries);
    }
  }

  /** `set` leaves a PHP array a PHP array, sorted or not. */
  lemma SetKeepsWellFormed(es: seq<Entry>, keys: seq<string>, value: Value, kSort: bool)
    requires |keys| >= 1 && WellFormedEntries(es) && WellFormed(value)
    ensures WellFormedEntries(AfterSet(es, keys, value, kSort))
  {
    SinglePathWellFormed(keys, value);
    MergeWellFormed(es, SinglePath(keys, value));
    if kSort {
      SortDeepWellFormed(Merge(es, SinglePath(keys, value)));
    }
  }

  // ----------------------------------------------------------------------
  // Properties of the recursive sort

  /** After `recursiveKSort` the keys are in ascending order at every level. */
  lemma {:induction false} SortDeepSorted(es: seq<Entry>)
    ensures DeepSorted(Node(SortDeep(es)))
    decreases es
  {
    var children := SortChildren(es);
    var r := SortDeep(es);
    forall i | 0 <= i < |r|
      ensures DeepSorted(r[i].value)
    {
      assert r[i] in multiset(children);
      var j :| 0 <= j < |children| && children[j] == r[i];
      SortEntrySorted(es[j]);
    }
  }

  lemma {:induction false} SortEntrySorted(e: Entry)
    ensures DeepSorted(SortEntry(e).value)
    decreases e
  {
    if e.value.Node? {
      SortDeepSorted(e.value.entries);
    }
  }

  /** The sorted array holds the same keys as before. */
  lemma SortDeepKeys(es: seq<Entry>)
    ensures Keys(SortDeep(es)) == Keys(es)
  {
    var children := SortChildren(es);
    var r := SortDeep(es);
    forall k | k in Keys(r)
      ensures k in Keys(es)
    {
      var i :| 0 <= i < |r| && r[i].key == k;
      assert r[i] in multiset(children);
      var j :| 0 <= j < |children| && children[j] == r[i];
    }
    forall k | k in Keys(es)
      ensures k in Keys(r)
    {
      var j :| 0 <= j < |es| && es[j].key == k;
      assert children[j] in multiset(r);
      var i :| 0 <= i < |r| && r[i] == children[j];
    }
  }

  /** The sort only moves entries and sorts their nested arrays: keys and scalars stay as they were. */
  lemma SortDeepEntries(es: seq<Entry>)
    ensures multiset(SortDeep(es)) == multiset(SortChildren(es))
    ensures forall i :: 0 <= i < |es| ==> SortChildren(es)[i].key == es[i].key
    ensures forall i :: 0 <= i < |es| && !es[i].value.Node? ==> SortChildren(es)[i] == es[i]
  {
  }

  /** A value with every array in it sorted, as the recursive sort leaves it. */
  function SortValue(v: Value): (r: Value)
    ensures r.Node? <==> v.Node?
    ensures !v.Node? ==> r == v
  {
    match v
    case Node(es) => Node(SortDeep(es))
    case _ => v
  }

  lemma SortEntryValue(e: Entry)
    ensures SortEntry(e).value == SortValue(e.value)
  {
  }

  /** In an array without repeated keys, the sorted array finds the same keys, each with its sorted entry. */
  lemma SortDeepFind(es: seq<Entry>, k: Key)
    requires DistinctKeys(es)
    ensures Find(SortDeep(es), k).Some? <==> Find(es, k).Some?
    ensures Find(es, k).Some? ==> SortDeep(es)[Find(SortDeep(es), k).value] == SortEntry(es[Find(es, k).value])
  {
    var c := SortChildren(es);
    var r := SortDeep(es);
    forall j | 0 <= j < |r| && r[j].key == k
      ensures Find(es, k).Some? && r[j] == c[Find(es, k).value]
    {
      assert r[j] in multiset(c);
      var m :| 0 <= m < |c| && c[m] == r[j];
      assert es[m].key == k;
      var i := Find(es, k).value;
      assert es[i].key == es[m].key;
      assert i == m;
    }
    if Find(es, k).Some? {
      var i := Find(es, k).value;
      assert c[i] in multiset(r);
      var j :| 0 <= j < |r| && r[j] == c[i];
      assert r[j].key == k;
    }
  }

  /** Walking a path through the sorted value reaches the sorted form of what the walk reached before. */
  lemma {:induction false} ResolveSorted(v: Value, keys: seq<string>)
    requires WellFormed(v)
    ensures Resolve(SortValue(v), keys) ==
      match Resolve(v, keys)
      case Some(found) => Some(SortValue(found))
      case None => None
    decreases |keys|
  {
    if keys != [] && v.Node? {
      var k := keys[0];
      SortDeepFind(v.entries, Name(k));
      if Isset(v, k) {
        var i := Find(v.entries, Name(k)).value;
        SortEntryValue(v.entries[i]);
        assert At(SortValue(v), k) == SortValue(At(v, k));
        ResolveSorted(At(v, k), keys[1..]);
      }
    }
  }

  /**
   * `set(dotKey, value, true)` leaves every path set exactly where
   * `set(dotKey, value)` does, leading to the same value with its arrays sorted.
   */
  lemma SetSortedResolvesAlike(es: seq<Entry>, keys: seq<string>, value: Value, path: seq<string>)
    requires |keys| >= 1 && WellFormedEntries(es) && WellFormed(value)
    ensures Resolve(Node(AfterSet(es, keys, value, true)), path) ==
      match Resolve(Node(AfterSet(es, keys, value, false)), path)
      case Some(found) => Some(SortValue(found))
      case None => None
  {
    SinglePathWellFormed(keys, value);
    MergeWellFormed(es, SinglePath(keys, value));
    ResolveSorted(Node(AfterSet(es, keys, value, false)), path);
  }

  /** After `set(dotKey, value, true)` on a fresh path, the path leads to the value set, its arrays sorted. */
  lemma SetSortedOnFreshPathResolves(es: seq<Entry>, keys: seq<string>, value: Value)
    requires |keys| >= 1 && Fresh(es, keys) && value != Null && WellFormedEntries(es) && WellFormed(value)
    ensures Resolve(Node(AfterSet(es, keys, value, true)), keys) == Some(SortValue(value))
  {
    SetOnFreshPathResolves(es, keys, value);
    SetSortedResolvesAlike(es, keys, value, keys);
  }

  // ----------------------------------------------------------------------
  // Properties of the path listing

  /** The number of entries in an array and in every array nested in it. */
  function Count(v: Value): nat
    decreases v
  {
    match v
    case Node(es) => CountEntries(es)
    case _ => 0
  }

  function CountEntries(es: seq<Entry>): nat
    decreases es
  {
    if es == [] then 0 else CountEntries(es[..|es| - 1]) + CountEntry(es[|es| - 1])
  }

  function CountEntry(e: Entry): nat
    decreases e
  {
    1 + Count(e.value)
  }

  /** The listing has one path for each entry at any depth. */
  lemma {:induction false} PathsCount(v: Value)
    ensures |Paths(v)| == Count(v)
    decreases v
  {
    if v.Node? {
      PathsEntriesCount(v.entries);
    }
  }

  lemma {:induction false} PathsEntriesCount(es: seq<Entry>)
    ensures |PathsEntries(es)| == CountEntries(es)
    decreases es
  {
    if es != [] {
      PathsEntriesCount(es[..|es| - 1]);
      PathsEntryCount(es[|es| - 1]);
    }
  }

  lemma {:induction false} PathsEntryCount(e: Entry)
    ensures |PathsEntry(e)| == CountEntry(e)
    decreases e
  {
    PathsCount(e.value);
  }

  /** Each path of an array starts with one of its keys. */
  lemma {:induction false} PathsStartWithKeys(es: seq<Entry>)
    ensures forall i :: 0 <= i < |PathsEntries(es)| ==>
      PathsEntries(es)[i] != [] && PathsEntries(es)[i][0] in Keys(es)
    decreases es
  {
    if es != [] {
      var init, last := es[..|es| - 1], es[|es| - 1];
      PathsStartWithKeys(init);
      var a, b := PathsEntries(init), PathsEntry(last);
      forall i | 0 <= i < |a + b|
        ensures (a + b)[i] != [] && (a + b)[i][0] in Keys(es)
      {
        if i < |a| {
          var j :| 0 <= j < |init| && init[j].key == a[i][0];
          assert es[j] == init[j];
        } else {
          assert (a + b)[i] == b[i - |a|];
          assert es[|es| - 1] == last;
        }
      }
    }
  }

  ghost predicate DistinctPaths(paths: seq<seq<Key>>) {
    forall i, j :: 0 <= i < j < |paths| ==> paths[i] != paths[j]
  }

  /** In a PHP array no two entries have the same path: the listing holds no path twice. */
  lemma {:induction false} PathsDistinct(v: Value)
    requires WellFormed(v)
    ensures DistinctPaths(Paths(v))
    decreases v
  {
    if v.Node? {
      PathsEntriesDistinct(v.entries);
    }
  }

  lemma {:induction false} PathsEntriesDistinct(es: seq<Entry>)
    requires WellFormedEntries(es)
    ensures DistinctPaths(PathsEntries(es))
    decreases es
  {
    if es != [] {
      var init, last := es[..|es| - 1], es[|es| - 1];
      assert WellFormedEntries(init) by {
        forall i, j | 0 <= i < j < |init|
          ensures init[i].key != init[j].key
        {
          assert init[i] == es[i] && init[j] == es[j];
        }
        forall i | 0 <= i < |init|
          ensures WellFormed(init[i].value)
        {
          assert init[i] == es[i];
        }
      }
      PathsEntriesDistinct(init);
      PathsEntryDistinct(last);
      PathsStartWithKeys(init);
      var a, b := PathsEntries(init), PathsEntry(last);
      forall i, j | 0 <= i < j < |a + b|
        ensures (a + b)[i] != (a + b)[j]
      {
        if j < |a| {
          assert (a + b)[i] == a[i] && (a + b)[j] == a[j];
        } else if i >= |a| {
          assert (a + b)[i] == b[i - |a|] && (a + b)[j] == b[j - |a|];
        } else {
          var q :| 0 <= q < |init| && init[q].key == a[i][0];
          assert init[q] == es[q];
          assert (a + b)[j] == b[j - |a|];
          assert b[j - |a|][0] == last.key;
        }
      }
    }
  }

  lemma {:induction false} PathsEntryDistinct(e: Entry)
    requires WellFormed(e.value)
    ensures DistinctPaths(PathsEntry(e))
    ensures forall i :: 0 <= i < |PathsEntry(e)| ==> PathsEntry(e)[i] != [] && PathsEntry(e)[i][0] == e.key
    decreases e
  {
    PathsDistinct(e.value);
    PathsNonEmpty(e.value);
    var below := Paths(e.value);
    var r := PathsEntry(e);
    forall i, j | 0 <= i < j < |r|
      ensures r[i] != r[j]
    {
      assert r[j] == [e.key] + below[j - 1];
      if i > 0 {
        assert r[i] == [e.key] + below[i - 1];
        assert r[i][1..] == below[i - 1] && r[j][1..] == below[j - 1];
      }
    }
  }

  /** Below a prefix that is not `empty()`, the code as written and the corrected code list the same. */
  lemma {:induction false} AsWrittenAgreesBelow(dotKey: string, v: Value)
    requires !Php.EmptyString(dotKey)
    ensures ListingAsWritten(dotKey, v) == Listing(Some(dotKey), v)
    decreases v
  {
    if v.Node? {
      AsWrittenEntriesAgreeBelow(dotKey, v.entries);
    }
  }

  lemma {:induction false} AsWrittenEntriesAgreeBelow(dotKey: string, es: seq<Entry>)
    requires !Php.EmptyString(dotKey)
    ensures ListingEntriesAsWritten(dotKey, es) == ListingEntries(Some(dotKey), es)
    decreases es
  {
    if es != [] {
      AsWrittenEntriesAgreeBelow(dotKey, es[..|es| - 1]);
      AsWrittenEntryAgreesBelow(dotKey, es[|es| - 1]);
    }
  }

  lemma {:induction false} AsWrittenEntryAgreesBelow(dotKey: string, e: Entry)
    requires !Php.EmptyString(dotKey)
    ensures ListingEntryAsWritten(dotKey, e) == ListingEntry(Some(dotKey), e)
    decreases e
  {
    AsWrittenAgreesBelow(dotKey + "." + KeyString(e.key), e.value);
  }

  /** At the top level the two agree unless a key is written "" or "0". */
  lemma {:induction false} AsWrittenAgreesWithoutEmptyKeys(es: seq<Entry>)
    requires forall i :: 0 <= i < |es| ==> !Php.EmptyString(KeyString(es[i].key))
    ensures ListingEntriesAsWritten("", es) == ListingEntries(None, es)
    decreases es
  {
    if es != [] {
      var last := es[|es| - 1];
      AsWrittenAgreesWithoutEmptyKeys(es[..|es| - 1]);
      AsWrittenAgreesBelow(KeyString(last.key), last.value);
    }
  }

  /**
   * The list `[['a' => 'x']]`: its first key is the integer 0, which `empty`
   * treats as false, so the code as written lists the child without its prefix.
   */
  lemma FetchAsWrittenDropsPrefix()
    ensures ListingAsWritten("", Node([Entry(Index(0), Node([Entry(Name("a"), Leaf("x"))]))])) == ["0", "a"]
    ensures Listing(None, Node([Entry(Index(0), Node([Entry(Name("a"), Leaf("x"))]))])) == ["0", "0.a"]
  {
    var child := Entry(Name("a"), Leaf("x"));
    var top := Entry(Index(0), Node([child]));
    assert KeyString(Index(0)) == "0";
    assert [top][..0] == [] && [child][..0] == [];
    assert ListingEntriesAsWritten("0", [child]) == ["a"];
    assert ListingEntryAsWritten("", top) == ["0"] + ListingAsWritten("0", Node([child]));
    assert ListingEntriesAsWritten("", [top]) == ListingEntryAsWritten("", top);
    assert Dotted(Some("0"), KeyString(Name("a"))) == "0" + "." + "a" == "0.a";
    assert ListingEntry(Some("0"), child) == ["0.a"];
    assert ListingEntries(Some("0"), [child]) == ["0.a"];
    assert ListingEntry(None, top) == ["0"] + Listing(Some("0"), Node([child]));
    assert ListingEntries(None, [top]) == ListingEntry(None, top);
  }

  /** The list `[['a' => 'x']]` below the prefix "0", as written and corrected. */
  lemma ListingBelowZero()
    ensures ListingAsWritten("0", Node([Entry(Index(0), Node([Entry(Name("a"), Leaf("x"))]))])) == ["0", "a"]
    ensures Listing(Some("0"), Node([Entry(Index(0), Node([Entry(Name("a"), Leaf("x"))]))])) == ["0.0", "0.0.a"]
  {
    var child := Entry(Name("a"), Leaf("x"));
    var middle := Entry(Index(0), Node([child]));
    assert KeyString(Index(0)) == "0";
    assert [middle][..0] == [] && [child][..0] == [];
    assert ListingEntriesAsWritten("0", [child]) == ["a"];
    assert ListingEntryAsWritten("0", middle) == ["0"] + ListingAsWritten("0", Node([child]));
    assert ListingEntriesAsWritten("0", [middle]) == ListingEntryAsWritten("0", middle);
    assert Dotted(Some("0"), KeyString(Index(0))) == "0" + "." + "0" == "0.0";
    assert Dotted(Some("0.0"), KeyString(Name("a"))) == "0.0" + "." + "a" == "0.0.a";
    assert ListingEntry(Some("0.0"), child) == ["0.0.a"];
    assert ListingEntries(Some("0.0"), [child]) == ["0.0.a"];
    assert ListingEntry(Some("0"), middle) == ["0.0"] + Listing(Some("0.0"), Node([child]));
    assert ListingEntries(Some("0"), [middle]) == ListingEntry(Some("0"), middle);
  }

  /**
   * One level deeper, `[[['a' => 'x']]]`: the second key 0 is again written
   * on its own, since the prefix "0" it receives is `empty` too.
   */
  lemma FetchAsWrittenDropsPrefixTwice()
    ensures ListingAsWritten("", Node([Entry(Index(0), Node([Entry(Index(0), Node([Entry(Name("a"), Leaf("x"))]))]))]))
         == ["0", "0", "a"]
    ensures Listing(None, Node([Entry(Index(0), Node([Entry(Index(0), Node([Entry(Name("a"), Leaf("x"))]))]))]))
         == ["0", "0.0", "0.0.a"]
  {
    var middle := Entry(Index(0), Node([Entry(Name("a"), Leaf("x"))]));
    var top := Entry(Index(0), Node([middle]));
    ListingBelowZero();
    assert KeyString(Index(0)) == "0";
    assert [top][..0] == [];
    assert ListingEntryAsWritten("", top) == ["0"] + ListingAsWritten("0", Node([middle]));
    assert ListingEntriesAsWritten("", [top]) == ListingEntryAsWritten("", top);
    assert ListingEntry(None, top) == ["0"] + Listing(Some("0"), Node([middle]));
    assert ListingEntries(None, [top]) == ListingEntry(None, top);
  }

  /** The class itself and the values `import` accepts. */
  datatype Importable = FromDotArray(source: DotArray) | FromValue(value: Value)

  /**
   * A `DotArray` object: the field `sourceArray` is replaced by `import` and
   * `set`.
   */
  class DotArray {
    var sourceArray: seq<Entry>

    /** `__construct($value = [])`. */
    constructor (value: Importable := FromValue(Node([])))
      ensures value.FromDotArray? ==> sourceArray == old(value.source.sourceArray)
      ensures value.FromValue? ==> sourceArray == Cast(value.value)
    {
      sourceArray := [];
      new;
      Import(value);
    }

    /** `import`: takes over another object's array, an array, or the `(array)` cast of anything else. */
    method Import(value: Importable)
      modifies this
      ensures value.FromDotArray? ==> sourceArray == old(value.source.sourceArray)
      ensures value.FromValue? ==> sourceArray == Cast(value.value)
    {
      match value
      case FromDotArray(other) =>
        sourceArray := other.All();
      case FromValue(v) =>
        if v.Node? {
          sourceArray := v.entries;
        } else {
          sourceArray := Cast(v);
        }
    }

    /** `all`. */
    method All() returns (r: seq<Entry>)
      ensures r == sourceArray
    {
      r := sourceArray;
    }

    /** `has`: every segment of the trimmed key is set, in order. */
    method Has(dotKey: string) returns (r: bool)
      ensures r <==> Resolve(Node(sourceArray), Segments(dotKey)).Some?
    {
      var keys := Segments(dotKey);
      var source := Node(sourceArray);
      for i := 0 to |keys|
        invariant Resolve(Node(sourceArray), keys) == Resolve(source, keys[i..])
      {
        ResolveStep(source, keys, i);
        if Isset(source, keys[i]) {
          source := At(source, keys[i]);
        } else {
          return false;
        }
      }
      assert keys[|keys|..] == [];
      return true;
    }

    /** `get`: the whole array for an `empty()` key, else the value at the path or `default`. */
    method Get(dotKey: string, default: Value := Null) returns (r: Value)
      ensures Php.EmptyString(dotKey) ==> r == Node(sourceArray)
      ensures !Php.EmptyString(dotKey) ==> r == Resolve(Node(sourceArray), Segments(dotKey)).GetOr(default)
    {
      if Php.EmptyString(dotKey) {
        return Node(sourceArray);
      }
      var keys := Segments(dotKey);
      var source := Node(sourceArray);
      for i := 0 to |keys|
        invariant Resolve(Node(sourceArray), keys) == Resolve(source, keys[i..])
      {
        ResolveStep(source, keys, i);
        if Isset(source, keys[i]) {
          source := At(source, keys[i]);
        } else {
          return default;
        }
      }
      assert keys[|keys|..] == [];
      return source;
    }
    /** `set`: merges the one-path array for the key into `sourceArray`. */
    method Set(dotKey: string, value: Value := Null, kSortAfterMerge: bool := false) returns (r: bool)
      modifies this
      ensures Php.EmptyString(dotKey) ==> !r && sourceArray == old(sourceArray)
      ensures !Php.EmptyString(dotKey) ==>
        r && sourceArray == AfterSet(old(sourceArray), Segments(dotKey), value, kSortAfterMerge)
    {
      if Php.EmptyString(dotKey) {
        return false;
      }
      var keys := Segments(dotKey);
      var source := BuildPath(keys, value);
      if source != [] {
        sourceArray := Merge(sourceArray, source);
        if kSortAfterMerge {
          sourceArray := RecursiveKSort(sourceArray);
        }
        return true;
      }
      return false;
    }

    /** The loop of `set`: wraps the value in one array per key, from the last key to the first. */
    method BuildPath(keys: seq<string>, value: Value) returns (source: seq<Entry>)
      requires |keys| >= 1
      ensures source == SinglePath(keys, value)
    {
      source := [];
      var max := |keys|;
      var i := max - 1;
      while i >= 0
        invariant -1 <= i < max
        invariant i == max - 1 ==> source == []
        invariant i < max - 1 ==> source == SinglePath(keys[i + 1..], value)
        decreases i
      {
        var key := keys[i];
        if i == max - 1 {
          AssignEmpty(Name(key), value);
          source := Assign(source, Name(key), value);
          SinglePathLast(keys, value);
        } else {
          var v := source;
          source := [];
          AssignEmpty(Name(key), Node(v));
          source := Assign(source, Name(key), Node(v));
          SinglePathStep(keys, i, value);
        }
        i := i - 1;
      }
      assert keys[0..] == keys;
    }

    /** `recursiveKSort`: sorts every nested array, then the array itself. */
    method RecursiveKSort(items: seq<Entry>) returns (sorted: seq<Entry>)
      ensures sorted == SortDeep(items)
      decreases Node(items)
    {
      var a := items;
      for i := 0 to |a|
        invariant |a| == |items|
        invariant forall j :: 0 <= j < i ==> a[j] == SortEntry(items[j])
        invariant forall j :: i <= j < |a| ==> a[j] == items[j]
      {
        if a[i].value.Node? {
          assert a[i] == items[i];
          var child := RecursiveKSort(a[i].value.entries);
          a := a[i := Entry(a[i].key, Node(child))];
        }
      }
      assert a == SortChildren(items);
      sorted := KSort(a);
    }

    /** `getDotKeys`, with every path written out from the top level down. */
    method GetDotKeys() returns (r: seq<string>)
      ensures r == RenderAll(None, PathsEntries(sourceArray))
    {
      var out: seq<string> := [];
      out := Fetch(None, Node(sourceArray), out);
      ListingRendersPaths(None, Node(sourceArray));
      r := out;
    }

    /** `fetch` as written: the prefix test is `empty($dotKey)`. */
    method FetchAsWritten(dotKey: string, source: Value, out: seq<string>) returns (result: seq<string>)
      ensures result == out + ListingAsWritten(dotKey, source)
      decreases source
    {
      var entries: seq<Entry> := [];
      if source.Node? {
        entries := source.entries;
      }
      result := out;
      for i := 0 to |entries|
        invariant result == out + ListingEntriesAsWritten(dotKey, entries[..i])
      {
        var k := entries[i].key;
        var newDotKey := if Php.EmptyString(dotKey) then KeyString(k) else dotKey + "." + KeyString(k);
        ghost var before := result;
        result := result + [newDotKey];
        result := FetchAsWritten(newDotKey, entries[i].value, result);
        ListingEntriesAsWrittenSnoc(dotKey, entries, i);
        AppendAssoc(before, [newDotKey], ListingAsWritten(newDotKey, entries[i].value));
        AppendAssoc(out, ListingEntriesAsWritten(dotKey, entries[..i]), ListingEntryAsWritten(dotKey, entries[i]));
      }
      assert entries[..|entries|] == entries;
    }

    /** `fetch` with the prefix dropped only for the top-level keys (`prefix` is `None` there). */
    method Fetch(prefix: Option<string>, source: Value, out: seq<string>) returns (result: seq<string>)
      ensures result == out + Listing(prefix, source)
      decreases source
    {
      var entries: seq<Entry> := [];
      if source.Node? {
        entries := source.entries;
      }
      result := out;
      for i := 0 to |entries|
        invariant result == out + ListingEntries(prefix, entries[..i])
      {
        var k := entries[i].key;
        var newDotKey := Dotted(prefix, KeyString(k));
        ghost var before := result;
        result := result + [newDotKey];
        result := Fetch(Some(newDotKey), entries[i].value, result);
        ListingEntriesSnoc(prefix, entries, i);
        AppendAssoc(before, [newDotKey], Listing(Some(newDotKey), entries[i].value));
        AppendAssoc(out, ListingEntries(prefix, entries[..i]), ListingEntry(prefix, entries[i]));
      }
      assert entries[..|entries|] == entries;
    }
  }
}
