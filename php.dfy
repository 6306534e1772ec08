/**
 * The PHP builtins that the helper classes rely on, modelled on strings as
 * sequences of characters: `empty`, string truthiness, `strpos`, `strstr`,
 * `substr`, `trim` with a one-character list, `explode` and `implode` with a
 * one-character separator.
 */
module Php {
  import opened Wrappers

  /** `empty($s)` for a string: only "" and "0" are empty. */
  predicate EmptyString(s: string) {
    s == "" || s == "0"
  }

  /** `empty($s)` for a `?string`: `null` is empty too. */
  predicate EmptyNullable(s: Option<string>) {
    s.None? || EmptyString(s.value)
  }

  /** The truth value PHP gives a string used as a condition. */
  predicate Truthy(s: string) {
    !EmptyString(s)
  }

  predicate StartsWith(s: string, prefix: string) {
    |prefix| <= |s| && s[..|prefix|] == prefix
  }

  predicate EndsWith(s: string, suffix: string) {
    |suffix| <= |s| && s[|s| - |suffix|..] == suffix
  }

  lemma ConcatEnds(a: string, b: string, c: string)
    ensures StartsWith(a + b + c, a) && EndsWith(a + b + c, c)
  {
    assert (a + b + c)[..|a|] == a;
    assert (a + b + c)[|a + b|..] == c;
  }

  /** `t` occurs in `s` starting at index `i`. */
  predicate OccursAt(s: string, t: string, i: int) {
    0 <= i && i + |t| <= |s| && s[i..i + |t|] == t
  }

  /** `strpos($s, $t, $from)`: the first occurrence at or after `from`; `None` is PHP's `false`. */
  function StrposFrom(s: string, t: string, from: nat): (r: Option<nat>)
    requires from <= |s|
    ensures r.Some? ==> from <= r.value && OccursAt(s, t, r.value)
    ensures r.Some? ==> forall j :: from <= j < r.value ==> !OccursAt(s, t, j)
    ensures r.None? ==> forall j :: from <= j ==> !OccursAt(s, t, j)
    decreases |s| - from
  {
    if from + |t| > |s| then None
    else if s[from..from + |t|] == t then Some(from)
    else StrposFrom(s, t, from + 1)
  }

  /** `strpos($s, $t)`: the index of the first occurrence of `t` in `s`. */
  function Strpos(s: string, t: string): (r: Option<nat>)
    ensures r.Some? <==> exists j :: OccursAt(s, t, j)
    ensures r.Some? ==> OccursAt(s, t, r.value)
    ensures r.Some? ==> forall j :: 0 <= j < r.value ==> !OccursAt(s, t, j)
  {
    StrposFrom(s, t, 0)
  }

  /** `strstr($s, $t)`: the rest of `s` from the first occurrence of `t`; `None` is `false`. */
  function Strstr(s: string, t: string): (r: Option<string>)
    ensures r.Some? <==> exists j :: OccursAt(s, t, j)
    ensures r.Some? ==> StartsWith(r.value, t) && EndsWith(s, r.value)
  {
    match Strpos(s, t)
    case Some(i) => Some(s[i..])
    case None => None
  }

  /**
   * `substr($s, $offset, $length)` for an offset that is not negative: an
   * offset past the end gives "", a negative length stops that many
   * characters before the end, a length running past the end is cut short.
   */
  function Substr(s: string, offset: nat, length: int): (r: string)
    ensures offset <= |s| ==> |r| <= |s| - offset && r == s[offset..offset + |r|]
    ensures offset > |s| ==> r == ""
    ensures 0 <= length && offset + length <= |s| ==> r == s[offset..offset + length]
    ensures length < 0 && offset <= |s| + length ==> r == s[offset..|s| + length]
  {
    if offset > |s| then ""
    else if length < 0 then (if -length > |s| - offset then "" else s[offset..|s| + length])
    else if length > |s| - offset then s[offset..]
    else s[offset..offset + length]
  }

  /** `n` copies of the character `c`. */
  function Repeat(c: char, n: nat): (r: string)
    ensures |r| == n && forall i :: 0 <= i < n ==> r[i] == c
  {
    if n == 0 then "" else [c] + Repeat(c, n - 1)
  }

  /** `ltrim($s, $c)`: drops every leading `c`. */
  function TrimLeft(s: string, c: char): (r: string)
    ensures |r| <= |s| && r == s[|s| - |r|..]
    ensures r != "" ==> r[0] != c
    ensures forall i :: 0 <= i < |s| - |r| ==> s[i] == c
  {
    if s != "" && s[0] == c then TrimLeft(s[1..], c) else s
  }

  /** `rtrim($s, $c)`: drops every trailing `c`. */
  function TrimRight(s: string, c: char): (r: string)
    ensures |r| <= |s| && r == s[..|r|]
    ensures r != "" ==> r[|r| - 1] != c
    ensures forall i :: |r| <= i < |s| ==> s[i] == c
  {
    if s != "" && s[|s| - 1] == c then TrimRight(s[..|s| - 1], c) else s
  }

  /** `trim($s, $c)`: drops every leading and trailing `c`. */
  function Trim(s: string, c: char): (r: string)
    ensures r != "" ==> r[0] != c && r[|r| - 1] != c
  {
    TrimRight(TrimLeft(s, c), c)
  }

  /** `ltrim` skips any run of `c` at the front. */
  lemma {:induction false} TrimLeftSkip(s: string, c: char, k: nat)
    requires k <= |s| && forall i :: 0 <= i < k ==> s[i] == c
    ensures TrimLeft(s, c) == TrimLeft(s[k..], c)
  {
    if k > 0 {
      assert s[1..][k - 1..] == s[k..];
      TrimLeftSkip(s[1..], c, k - 1);
    }
  }

  lemma TrimLeftOfRepeat(c: char, m: nat, s: string)
    ensures TrimLeft(Repeat(c, m) + s, c) == TrimLeft(s, c)
  {
    var x := Repeat(c, m) + s;
    assert x[m..] == s;
    TrimLeftSkip(x, c, m);
  }

  lemma {:induction false} TrimRightOfRepeat(c: char, s: string, n: nat)
    ensures TrimRight(s + Repeat(c, n), c) == TrimRight(s, c)
  {
    if n > 0 {
      assert Repeat(c, n) == Repeat(c, n - 1) + [c] by {
        RepeatSnoc(c, n);
      }
      var x := s + Repeat(c, n);
      assert x != "" && x[|x| - 1] == c;
      assert x[..|x| - 1] == s + Repeat(c, n - 1);
      TrimRightOfRepeat(c, s, n - 1);
    } else {
      assert s + Repeat(c, n) == s;
    }
  }

  lemma {:induction false} RepeatSnoc(c: char, n: nat)
    requires n > 0
    ensures Repeat(c, n) == Repeat(c, n - 1) + [c]
  {
  }

  /** Trailing characters survive `ltrim` as long as it leaves something of `s`. */
  lemma {:induction false} TrimLeftAppend(s: string, t: string, c: char)
    requires TrimLeft(s, c) != ""
    ensures TrimLeft(s + t, c) == TrimLeft(s, c) + t
  {
    assert s != "";
    var st := s + t;
    assert st[0] == s[0];
    if s[0] == c {
      assert TrimLeft(s, c) == TrimLeft(s[1..], c);
      assert st[1..] == s[1..] + t;
      assert TrimLeft(st, c) == TrimLeft(s[1..] + t, c);
      TrimLeftAppend(s[1..], t, c);
    } else {
      assert TrimLeft(st, c) == st;
    }
  }

  /** When `ltrim` removes all of `s`, it removes all of `s` followed by more `c`. */
  lemma {:induction false} TrimLeftAllOfRepeat(c: char, s: string, n: nat)
    requires TrimLeft(s, c) == ""
    ensures TrimLeft(s + Repeat(c, n), c) == ""
  {
    if s == "" {
      assert s + Repeat(c, n) == Repeat(c, n) + "";
      TrimLeftOfRepeat(c, n, "");
    } else {
      assert (s + Repeat(c, n))[1..] == s[1..] + Repeat(c, n);
      TrimLeftAllOfRepeat(c, s[1..], n);
    }
  }

  /** `trim` ignores any run of `c` added before and after the string. */
  lemma TrimIgnoresPadding(c: char, m: nat, s: string, n: nat)
    ensures Trim(Repeat(c, m) + s + Repeat(c, n), c) == Trim(s, c)
  {
    var pad := Repeat(c, n);
    var x := Repeat(c, m) + s + pad;
    assert x == Repeat(c, m) + (s + pad);
    TrimLeftOfRepeat(c, m, s + pad);
    var left := TrimLeft(s, c);
    if left != "" {
      TrimLeftAppend(s, pad, c);
      TrimRightOfRepeat(c, left, n);
    } else {
      TrimLeftAllOfRepeat(c, s, n);
    }
  }

  /** `explode($c, $s)`: the pieces of `s` between occurrences of `c`. */
  function Explode(c: char, s: string): (r: seq<string>)
    ensures |r| >= 1
  {
    if s == "" then [""]
    else
      var rest := Explode(c, s[1..]);
      if s[0] == c then [""] + rest
      else [[s[0]] + rest[0]] + rest[1..]
  }

  /** `implode($c, $pieces)`: the pieces joined with `c` between them. */
  function Implode(c: char, pieces: seq<string>): (r: string)
    ensures |pieces| == 1 ==> r == pieces[0]
  {
    if |pieces| == 0 then ""
    else if |pieces| == 1 then pieces[0]
    else pieces[0] + [c] + Implode(c, pieces[1..])
  }

  /** No piece `explode` returns holds the separator. */
  lemma {:induction false} ExplodeNoSeparator(c: char, s: string)
    ensures forall i :: 0 <= i < |Explode(c, s)| ==> c !in Explode(c, s)[i]
  {
    if s != "" {
      var rest := Explode(c, s[1..]);
      ExplodeNoSeparator(c, s[1..]);
      if s[0] != c {
        assert c !in [s[0]] + rest[0];
      }
    }
  }

  lemma {:induction false} ImplodeExplode(c: char, s: string)
    ensures Implode(c, Explode(c, s)) == s
  {
    if s != "" {
      var rest := Explode(c, s[1..]);
      ImplodeExplode(c, s[1..]);
      if s[0] == c {
        assert ([""] + rest)[1..] == rest;
      } else {
        var r := [[s[0]] + rest[0]] + rest[1..];
        assert r[1..] == rest[1..];
        if |rest| > 1 {
          assert Implode(c, rest) == rest[0] + [c] + Implode(c, rest[1..]);
        }
      }
    }
  }

  lemma {:induction false} ExplodeWithout(c: char, s: string)
    requires c !in s
    ensures Explode(c, s) == [s]
  {
    if s != "" {
      assert s == [s[0]] + s[1..];
      assert c !in s[1..];
      ExplodeWithout(c, s[1..]);
    }
  }

  lemma ExplodeAtSeparator(c: char, t: string)
    ensures Explode(c, [c] + t) == [""] + Explode(c, t)
  {
    assert ([c] + t)[1..] == t;
  }

  lemma ExplodeAtOther(c: char, x: char, t: string)
    requires x != c
    ensures Explode(c, [x] + t) == [[x] + Explode(c, t)[0]] + Explode(c, t)[1..]
  {
    assert ([x] + t)[1..] == t;
  }

  lemma GlueCons(x: char, rest: seq<string>, tail: seq<string>)
    requires |rest| >= 1
    ensures [[x] + (rest + tail)[0]] + (rest + tail)[1..] == ([[x] + rest[0]] + rest[1..]) + tail
  {
    assert (rest + tail)[1..] == rest[1..] + tail;
  }

  lemma {:induction false} ExplodeSplit(c: char, a: string, b: string)
    ensures Explode(c, a + [c] + b) == Explode(c, a) + Explode(c, b)
  {
    if a == "" {
      assert a + [c] + b == [c] + b;
      ExplodeAtSeparator(c, b);
    } else {
      var x, t := a[0], a[1..] + [c] + b;
      assert a == [x] + a[1..] && a + [c] + b == [x] + t;
      ExplodeSplit(c, a[1..], b);
      if x == c {
        ExplodeAtSeparator(c, a[1..]);
        ExplodeAtSeparator(c, t);
      } else {
        ExplodeAtOther(c, x, a[1..]);
        ExplodeAtOther(c, x, t);
        GlueCons(x, Explode(c, a[1..]), Explode(c, b));
      }
    }
  }

  /** `explode` undoes `implode` when no piece holds the separator. */
  lemma {:induction false} ExplodeImplode(c: char, pieces: seq<string>)
    requires |pieces| >= 1
    requires forall i :: 0 <= i < |pieces| ==> c !in pieces[i]
    ensures Explode(c, Implode(c, pieces)) == pieces
  {
    if |pieces| == 1 {
      ExplodeWithout(c, pieces[0]);
    } else {
      ExplodeSplit(c, pieces[0], Implode(c, pieces[1..]));
      ExplodeWithout(c, pieces[0]);
      ExplodeImplode(c, pieces[1..]);
    }
  }

  /** The decimal form PHP gives an integer that is not negative. */
  function IntToString(n: nat): (r: string)
    ensures r != "" && forall i :: 0 <= i < |r| ==> '0' <= r[i] <= '9'
  {
    var digit := "0123456789"[n % 10];
    if n < 10 then [digit] else IntToString(n / 10) + [digit]
  }
}
