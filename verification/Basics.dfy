/** Values every other module shares: bytes, Unicode text, and results that may fail. */
module Basics {

  datatype Option<+T> = None | Some(value: T)

  /** The outcome of code that returns a value or raises. */
  datatype Result<+T, +E> = Ok(value: T) | Err(error: E) {
    predicate IsFailure() {
      Err?
    }

    function PropagateFailure<U>(): Result<U, E>
      requires Err?
    {
      Err(error)
    }

    function Extract(): T
      requires Ok?
    {
      value
    }
  }

  type Byte = b: int | 0 <= b < 0x100

  type Bytes = seq<Byte>

  /** What SHA-256 returns. */
  type Digest = d: Bytes | |d| == 32 witness seq(32, _ => 0)

  /** A Python `str`: code points, lone surrogates included. */
  type CodePoint = c: int | 0 <= c < 0x110000

  type Text = seq<CodePoint>

  /** The code points of a literal. */
  function Lit(s: string): (t: Text)
    ensures |t| == |s|
    ensures forall i | 0 <= i < |s| :: t[i] == s[i] as int
  {
    seq(|s|, i requires 0 <= i < |s| => s[i] as int)
  }

  /** `needle in haystack` on strings. */
  predicate Contains(haystack: Text, needle: Text) {
    exists i | 0 <= i <= |haystack| - |needle| :: FoundAt(haystack, needle, i)
  }

  predicate FoundAt(haystack: Text, needle: Text, i: nat)
    requires i + |needle| <= |haystack|
  {
    haystack[i..i + |needle|] == needle
  }

  /** The sequence of the values, or the first error: a comprehension whose element expression may raise. */
  function Collect<T, E>(results: seq<Result<T, E>>): (r: Result<seq<T>, E>)
    ensures r.Ok? <==> forall i | 0 <= i < |results| :: results[i].Ok?
    ensures r.Ok? ==> |r.value| == |results| && forall i | 0 <= i < |results| :: results[i] == Ok(r.value[i])
  {
    if results == [] then Ok([])
    else if results[0].Err? then Err(results[0].error)
    else
      var rest := Collect(results[1..]);
      if rest.Err? then Err(rest.error)
      else Ok([results[0].value] + rest.value)
  }

  /** Equal concatenations whose first parts have equal lengths have equal parts. */
  lemma SplitEqual<T>(a: seq<T>, b: seq<T>, c: seq<T>, d: seq<T>)
    requires a + b == c + d
    requires |a| == |c|
    ensures a == c && b == d
  {
    assert a == (a + b)[..|a|] && b == (a + b)[|a|..];
    assert c == (c + d)[..|c|] && d == (c + d)[|c|..];
  }

  predicate ColonFree(t: Text) {
    forall i | 0 <= i < |t| :: t[i] != 0x3A
  }

  /** The last colon splits a text in one way only. */
  lemma SplitAtLastColon(a: Text, r: Text, b: Text, s: Text)
    requires a + [0x3A] + r == b + [0x3A] + s && ColonFree(r) && ColonFree(s)
    ensures a == b && r == s
  {
    var t := a + [0x3A] + r;
    assert t[|a|] == 0x3A && t[|b|] == 0x3A;
    assert t[|a| + 1..] == r && t[|b| + 1..] == s;
    if |a| == |b| {
      SplitEqual(a + [0x3A], r, b + [0x3A], s);
      SplitEqual(a, [0x3A], b, [0x3A]);
    }
  }
}
