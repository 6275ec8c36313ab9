/**
 * The `Extensions` helpers of the front end: lookups over the option bag
 * (the normalised `--name=value` flags, in command-line order), plus the
 * first-occurrence `Distinct` applied to the requested outputs.
 */
module Extensions {
  import opened Wrappers
  import opened Text

  /** `collection.Any(items.Contains)`. */
  function ContainsAny<T(==)>(collection: seq<T>, items: seq<T>): (r: bool)
    ensures r <==> exists i, j :: 0 <= i < |collection| && 0 <= j < |items| && collection[i] == items[j]
  {
    if collection == [] then false
    else if collection[0] in items then true
    else
      var r := ContainsAny(collection[1..], items);
      assert forall i :: 1 <= i < |collection| ==> collection[i] == collection[1..][i - 1];
      r
  }

  /** `ContainsAny` tests whether the two collections share an element. */
  lemma ContainsAnyMembers<T>(collection: seq<T>, items: seq<T>)
    ensures ContainsAny(collection, items) <==> exists x :: x in items && x in collection
  {
    if exists x :: x in items && x in collection {
      var x :| x in items && x in collection;
      var i :| 0 <= i < |collection| && collection[i] == x;
      var j :| 0 <= j < |items| && items[j] == x;
    }
  }

  /** An option entry selects `name` when it starts with `name=`. */
  predicate Matches(entry: string, name: string) {
    name + "=" <= entry
  }

  /** The value part of a selecting entry: the text after `name=`. */
  function ValueOf(entry: string, name: string): string
    requires Matches(entry, name)
  {
    entry[|name| + 1..]
  }

  predicate NoMatch(options: seq<string>, name: string) {
    forall i :: 0 <= i < |options| ==> !Matches(options[i], name)
  }

  /** Entry `i` is the last one selecting `name`. */
  predicate IsLastMatch(options: seq<string>, name: string, i: int)
    requires 0 <= i < |options|
  {
    Matches(options[i], name) && forall j :: i < j < |options| ==> !Matches(options[j], name)
  }

  /** `Value(options, optionName)`: the value of the last selecting entry, or
      the empty string when there is none. */
  function Value(options: seq<string>, name: string): (r: string)
    ensures NoMatch(options, name) ==> r == ""
    ensures forall i :: 0 <= i < |options| && IsLastMatch(options, name, i) ==> r == ValueOf(options[i], name)
  {
    if options == [] then ""
    else
      var init, last := options[..|options| - 1], options[|options| - 1];
      if Matches(last, name) then ValueOf(last, name)
      else
        assert forall i :: 0 <= i < |init| && IsLastMatch(options, name, i) ==> IsLastMatch(init, name, i);
        Value(init, name)
  }

  /** `Value(options, optionName, defaultValue)`, where a `null` default is `None`:
      the default replaces both a missing and an empty last value. */
  function ValueOrDefault(options: seq<string>, name: string, defaultValue: Option<string>): (r: Option<string>)
    ensures NoMatch(options, name) ==> r == defaultValue
    ensures forall i :: 0 <= i < |options| && IsLastMatch(options, name, i) ==>
      r == (if ValueOf(options[i], name) == "" then defaultValue else Some(ValueOf(options[i], name)))
    ensures defaultValue.Some? ==> r.Some?
    ensures r == defaultValue || (r.Some? && r.value != "")
  {
    var v := Value(options, name);
    if v == "" then defaultValue else Some(v)
  }

  /** `Values(options, optionName)`: the value of every selecting entry, in order. */
  function Values(options: seq<string>, name: string): (r: seq<string>)
    ensures |r| <= |options|
    ensures r == [] <==> NoMatch(options, name)
  {
    if options == [] then []
    else
      var rest := Values(options[1..], name);
      assert forall i :: 1 <= i < |options| ==> options[i] == options[1..][i - 1];
      (if Matches(options[0], name) then [ValueOf(options[0], name)] else []) + rest
  }

  /** A string is among the values exactly when some selecting entry carries it. */
  lemma {:induction false} ValuesMembers(options: seq<string>, name: string)
    ensures forall v :: v in Values(options, name) <==>
      exists i :: 0 <= i < |options| && Matches(options[i], name) && ValueOf(options[i], name) == v
  {
    if options != [] {
      ValuesMembers(options[1..], name);
      assert forall i :: 1 <= i < |options| ==> options[i] == options[1..][i - 1];
    }
  }

  /** `Values(options, optionName, defaultValue)`: the one-element default when
      nothing selects `name`, every value otherwise. */
  function ValuesOrDefault(options: seq<string>, name: string, defaultValue: string): (r: seq<string>)
    ensures r != []
    ensures NoMatch(options, name) ==> r == [defaultValue]
    ensures !NoMatch(options, name) ==> r == Values(options, name)
  {
    var v := Values(options, name);
    if v == [] then [defaultValue] else v
  }

  /** Values are collected per entry, so they distribute over concatenation. */
  lemma {:induction false} ValuesAppend(a: seq<string>, b: seq<string>, name: string)
    ensures Values(a + b, name) == Values(a, name) + Values(b, name)
  {
    if a == [] {
      assert a + b == b;
    } else {
      var ab := a + b;
      assert ab[0] == a[0] && ab[1..] == a[1..] + b;
      ValuesAppend(a[1..], b, name);
      var head := if Matches(a[0], name) then [ValueOf(a[0], name)] else [];
      assert Values(ab, name) == head + Values(a[1..] + b, name);
      assert Values(a, name) == head + Values(a[1..], name);
    }
  }

  /** Each entry contributes one value when it selects `name` and none otherwise,
      at the position given by the entries before it: values keep the entries'
      order and duplicates are kept. */
  lemma ValuesPlacement(options: seq<string>, name: string, i: int)
    requires 0 <= i < |options|
    ensures !Matches(options[i], name) ==> Values(options[..i + 1], name) == Values(options[..i], name)
    ensures Matches(options[i], name) ==>
      Values(options[..i + 1], name) == Values(options[..i], name) + [ValueOf(options[i], name)]
    ensures Matches(options[i], name) ==>
      |Values(options[..i], name)| < |Values(options, name)| &&
      Values(options, name)[|Values(options[..i], name)|] == ValueOf(options[i], name)
  {
    assert options[..i + 1] == options[..i] + [options[i]];
    ValuesAppend(options[..i], [options[i]], name);
    assert options == options[..i + 1] + options[i + 1..];
    ValuesAppend(options[..i + 1], options[i + 1..], name);
  }

  /** The two accessors agree: the last of all values is the single value. */
  lemma {:induction false} LastValueIsValue(options: seq<string>, name: string)
    ensures Values(options, name) != [] ==> Values(options, name)[|Values(options, name)| - 1] == Value(options, name)
  {
    if options != [] {
      var init := options[..|options| - 1];
      var last := options[|options| - 1];
      assert options == init + [last];
      ValuesAppend(init, [last], name);
      if !Matches(last, name) {
        LastValueIsValue(init, name);
      }
    }
  }

  /** Last wins: a later `name=v` overrides every earlier entry. */
  lemma LastOccurrenceWins(options: seq<string>, name: string, v: string)
    ensures Value(options + [name + "=" + v], name) == v
  {
    var o := options + [name + "=" + v];
    assert IsLastMatch(o, name, |o| - 1);
    assert ValueOf(o[|o| - 1], name) == v;
  }

  /** An empty last occurrence overrides earlier non-empty ones and yields the default. */
  lemma EmptyLastOccurrenceDefaults(options: seq<string>, name: string, defaultValue: Option<string>)
    ensures ValueOrDefault(options + [name + "="], name, defaultValue) == defaultValue
  {
    var o := options + [name + "="];
    assert IsLastMatch(o, name, |o| - 1);
    assert ValueOf(o[|o| - 1], name) == "";
  }

  /** An element occurring in a sequence without duplicates occurs once. */
  lemma {:induction false} CountNoDuplicates<T>(s: seq<T>, x: T)
    requires NoDuplicates(s) && x in s
    ensures Count(s, x) == 1
  {
    if s[0] == x {
      assert x !in s[1..];
    } else {
      CountNoDuplicates(s[1..], x);
    }
  }

  /** `Distinct()`: each element once (the order is `DistinctOrder`). */
  function Distinct<T(==,!new)>(s: seq<T>): (r: seq<T>)
    ensures NoDuplicates(r)
    ensures forall x :: x in r <==> x in s
  {
    if s == [] then []
    else
      var d := Distinct(s[..|s| - 1]);
      var x := s[|s| - 1];
      if x in d then d else d + [x]
  }

  /** `Distinct()` keeps the elements in the order of their first occurrence. */
  lemma {:induction false} DistinctOrder<T(!new)>(s: seq<T>)
    ensures forall i, j :: 0 <= i < j < |Distinct(s)| ==> FirstIndex(s, Distinct(s)[i]) < FirstIndex(s, Distinct(s)[j])
  {
    if s != [] {
      var init := s[..|s| - 1];
      var x := s[|s| - 1];
      var d := Distinct(init);
      DistinctOrder(init);
      DistinctInSource(init);
      assert s == init + [x];
      OrderExtends(init, [x], d);
      if x in d {
        assert Distinct(s) == d;
      } else {
        assert Distinct(s) == d + [x];
        assert FirstIndex(s, x) == |init| by {
          assert x !in init;
          assert s[..|init|] == init;
        }
        OrderAppend(s, d, x);
      }
    }
  }

  lemma DistinctInSource<T(!new)>(s: seq<T>)
    ensures forall k :: 0 <= k < |Distinct(s)| ==> Distinct(s)[k] in s
  {
    var d := Distinct(s);
    forall k | 0 <= k < |d| ensures d[k] in s {
      assert d[k] in d;
    }
  }

  /** First positions in a prefix stay first positions after anything is appended. */
  lemma OrderExtends<T>(a: seq<T>, b: seq<T>, d: seq<T>)
    requires forall k :: 0 <= k < |d| ==> d[k] in a
    requires forall i, j :: 0 <= i < j < |d| ==> FirstIndex(a, d[i]) < FirstIndex(a, d[j])
    ensures forall k :: 0 <= k < |d| ==> FirstIndex(a + b, d[k]) == FirstIndex(a, d[k]) < |a|
    ensures forall i, j :: 0 <= i < j < |d| ==> FirstIndex(a + b, d[i]) < FirstIndex(a + b, d[j])
  {
    forall k | 0 <= k < |d| ensures FirstIndex(a + b, d[k]) == FirstIndex(a, d[k]) {
      FirstIndexPrefix(a, b, d[k]);
    }
  }

  /** An element first seen after all of `d` may follow `d`. */
  lemma OrderAppend<T>(s: seq<T>, d: seq<T>, x: T)
    requires x in s
    requires forall k :: 0 <= k < |d| ==> d[k] in s && FirstIndex(s, d[k]) < FirstIndex(s, x)
    requires forall i, j :: 0 <= i < j < |d| ==> FirstIndex(s, d[i]) < FirstIndex(s, d[j])
    ensures var r := d + [x];
            forall i, j :: 0 <= i < j < |r| ==> FirstIndex(s, r[i]) < FirstIndex(s, r[j])
  {
    var r := d + [x];
    forall i, j | 0 <= i < j < |r| ensures FirstIndex(s, r[i]) < FirstIndex(s, r[j]) {
      assert r[i] == d[i];
      if j < |d| {
        assert r[j] == d[j];
      }
    }
  }

  /** `Distinct` read one element at a time: a repeat is dropped, a new element appended. */
  lemma DistinctSnoc<T(!new)>(s: seq<T>, x: T)
    ensures Distinct(s + [x]) == if x in Distinct(s) then Distinct(s) else Distinct(s) + [x]
  {
    assert (s + [x])[..|s|] == s;
  }

  predicate NoDuplicates<T(==)>(s: seq<T>) {
    forall i, j :: 0 <= i < j < |s| ==> s[i] != s[j]
  }

  /** Position of the first occurrence of `x` in `s`. */
  function FirstIndex<T(==)>(s: seq<T>, x: T): (k: nat)
    requires x in s
    ensures k < |s| && s[k] == x && x !in s[..k]
  {
    if s[0] == x then 0
    else
      var k := 1 + FirstIndex(s[1..], x);
      assert s[..k] == [s[0]] + s[1..][..k - 1];
      k
  }

  lemma {:induction false} FirstIndexPrefix<T>(a: seq<T>, b: seq<T>, x: T)
    requires x in a
    ensures FirstIndex(a + b, x) == FirstIndex(a, x)
  {
    if a[0] != x {
      assert (a + b)[1..] == a[1..] + b;
      FirstIndexPrefix(a[1..], b, x);
    }
  }
}
