/** Small value types shared by every module: optional values, results
    carrying a validation error, and the `min` used by the matching loop. */
module Basics {

  datatype Option<+T> = None | Some(value: T)

  datatype Result<+T, +E> = Success(value: T) | Failure(error: E)

  /** `Math.Min` on quantities. */
  function Min(a: int, b: int): (m: int)
    ensures m <= a && m <= b
    ensures m == a || m == b
  {
    if a <= b then a else b
  }
}

/** The string predicates the core relies on: `string.IsNullOrWhiteSpace`
    and the case-insensitive comparison used for instrument ids. */
module Text {
  import opened Basics

  /** `char.IsWhiteSpace`: the Unicode White_Space characters. */
  predicate IsWhiteSpace(c: char)
  {
    var n := c as int;
    n == 0x20 || (0x09 <= n <= 0x0D) || n == 0x85 || n == 0xA0 || n == 0x1680 ||
    (0x2000 <= n <= 0x200A) || n == 0x2028 || n == 0x2029 || n == 0x202F ||
    n == 0x205F || n == 0x3000
  }

  /** `string.IsNullOrWhiteSpace` on a nullable string (`None` is null). */
  predicate IsNullOrWhiteSpace(s: Option<string>)
  {
    s.None? || forall i :: 0 <= i < |s.value| ==> IsWhiteSpace(s.value[i])
  }

  function UpperChar(c: char): char
  {
    if 'a' <= c <= 'z' then (c as int - 32) as char else c
  }

  /** The comparison key of `StringComparer.OrdinalIgnoreCase`: two
      instrument ids denote the same instrument iff their keys are equal. */
  function Key(s: string): (k: string)
    ensures |k| == |s|
    ensures forall i :: 0 <= i < |s| ==> k[i] == UpperChar(s[i])
  {
    if s == [] then [] else [UpperChar(s[0])] + Key(s[1..])
  }
}
