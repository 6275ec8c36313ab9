/**
 * String helpers the command-line front end relies on: the ASCII case fold
 * standing in for `ToLower`, `TrimStart('-')`, the `"\n"` to `"\r\n"`
 * replacement done before console output, and `string.Join`.
 */
module Text {

  /** Number of occurrences of `x` in `s`. */
  function Count<T(==)>(s: seq<T>, x: T): (n: nat)
    ensures n <= |s|
    ensures n == 0 <==> x !in s
  {
    if s == [] then 0 else (if s[0] == x then 1 else 0) + Count(s[1..], x)
  }

  lemma {:induction false} CountAppend<T>(a: seq<T>, b: seq<T>, x: T)
    ensures Count(a + b, x) == Count(a, x) + Count(b, x)
  {
    if a == [] {
      assert a + b == b;
    } else {
      assert (a + b)[1..] == a[1..] + b;
      CountAppend(a[1..], b, x);
    }
  }

  predicate IsUpper(c: char) {
    'A' <= c <= 'Z'
  }

  /** Case fold of one character; only the ASCII letters A-Z are folded. */
  function LowerChar(c: char): (r: char)
    ensures !IsUpper(r)
    ensures !IsUpper(c) ==> r == c
    ensures IsUpper(c) ==> r as int == c as int + 32
  {
    if IsUpper(c) then (c as int + 32) as char else c
  }

  /** The string with every character case-folded. */
  function Lower(s: string): (r: string)
    ensures |r| == |s|
    ensures forall i :: 0 <= i < |s| ==> r[i] == LowerChar(s[i])
  {
    if s == [] then [] else [LowerChar(s[0])] + Lower(s[1..])
  }

  /** Folding twice is folding once. */
  lemma LowerIdempotent(s: string)
    ensures Lower(Lower(s)) == Lower(s)
  {
    var l := Lower(s);
    assert forall i :: 0 <= i < |l| ==> LowerChar(l[i]) == l[i];
  }

  /** `TrimStart('-')`: drops every leading dash and nothing else. */
  function TrimDashes(s: string): (r: string)
    ensures |r| <= |s| && r == s[|s| - |r|..]
    ensures forall i :: 0 <= i < |s| - |r| ==> s[i] == '-'
    ensures r == [] || r[0] != '-'
  {
    if s != [] && s[0] == '-' then TrimDashes(s[1..]) else s
  }

  /** `s.Replace("\n", "\r\n")`: a carriage return is put before every line feed. */
  function CrLf(s: string): (r: string)
    ensures |r| == |s| + Count(s, '\n')
    ensures r == [] || r[0] != '\n'
    ensures NoBareLineFeed(r)
  {
    if s == [] then []
    else
      var rest := CrLf(s[1..]);
      var r := (if s[0] == '\n' then "\r\n" else [s[0]]) + rest;
      assert forall i :: 0 <= i < |rest| ==> r[|r| - |rest| + i] == rest[i];
      r
  }

  /** Every line feed in `s` ends a CR LF pair. */
  predicate NoBareLineFeed(s: string) {
    forall i :: 0 <= i < |s| && s[i] == '\n' ==> 0 < i && s[i - 1] == '\r'
  }

  /** Reads CR LF pairs back as single line feeds, left to right. */
  function UndoCrLf(s: string): string {
    if s == [] then []
    else if |s| >= 2 && s[0] == '\r' && s[1] == '\n' then "\n" + UndoCrLf(s[2..])
    else [s[0]] + UndoCrLf(s[1..])
  }

  /** The console newline conversion loses nothing: it can be undone, also on
      text that already holds CR LF pairs. */
  lemma {:induction false} CrLfRoundTrip(s: string)
    ensures UndoCrLf(CrLf(s)) == s
  {
    if s != [] {
      CrLfRoundTrip(s[1..]);
      var rest := CrLf(s[1..]);
      if s[0] == '\n' {
        assert CrLf(s) == "\r\n" + rest;
        assert CrLf(s)[2..] == rest;
      } else {
        assert CrLf(s) == [s[0]] + rest;
        assert CrLf(s)[1..] == rest;
      }
    }
  }

  /** Total length of the strings in `xs`. */
  function TotalLength(xs: seq<string>): nat {
    if xs == [] then 0 else |xs[0]| + TotalLength(xs[1..])
  }

  /** `string.Join(sep, xs)`: the strings in order, one separator between neighbours. */
  function Join(xs: seq<string>, sep: string): (r: string)
    ensures xs == [] ==> r == ""
    ensures xs != [] ==> xs[0] <= r
  {
    if xs == [] then "" else if |xs| == 1 then xs[0] else xs[0] + sep + Join(xs[1..], sep)
  }

  /** The joined text holds every string and one separator fewer than strings,
      and ends with the last string. */
  lemma {:induction false} JoinLength(xs: seq<string>, sep: string)
    requires xs != []
    ensures |Join(xs, sep)| == TotalLength(xs) + (|xs| - 1) * |sep|
    ensures var r, z := Join(xs, sep), xs[|xs| - 1]; |z| <= |r| && r[|r| - |z|..] == z
  {
    if |xs| > 1 {
      var rest := xs[1..];
      JoinLength(rest, sep);
      var j := Join(rest, sep);
      var r := xs[0] + sep + j;
      assert Join(xs, sep) == r;
      assert rest[|rest| - 1] == xs[|xs| - 1];
      assert r[|r| - |j|..] == j;
      SeparatorsStep(|rest| - 1, |sep|);
    }
  }

  /** One more string joined adds one more separator. */
  lemma SeparatorsStep(n: nat, k: nat)
    ensures (n + 1) * k == k + n * k
  {
  }
}
