/** The few PHP value semantics the router leans on: optional values, the
    values a route table stores, the truthiness test of `?:`, `strtoupper`,
    and the byte order in which `krsort` compares two non-numeric string keys. */
module Php {

  datatype Option<+T> = None | Some(value: T)

  /** A PHP value as a route table holds it: a controller name, a constructor
      argument, or a whole route value handed to `addRoutes`. */
  datatype Value = Null | Str(s: string) | List(items: seq<Value>)

  /** PHP's `?:` treats the strings "" and "0" as false. */
  predicate Truthy(s: string)
  {
    s != "" && s != "0"
  }

  predicate IsLowerAscii(c: char)
  {
    'a' <= c <= 'z'
  }

  /** `strtoupper` on one character: only the ASCII letters a-z change. */
  function UpperChar(c: char): (u: char)
    ensures IsLowerAscii(c) ==> 'A' <= u <= 'Z' && u as int == c as int - 32
    ensures !IsLowerAscii(c) ==> u == c
  {
    if IsLowerAscii(c) then (c as int - 32) as char else c
  }

  /** `strtoupper` on a string, character by character. */
  function StrToUpper(s: string): (r: string)
    ensures |r| == |s|
    ensures forall i :: 0 <= i < |s| ==> r[i] == UpperChar(s[i])
    ensures forall i :: 0 <= i < |r| ==> !IsLowerAscii(r[i])
  {
    if s == [] then [] else [UpperChar(s[0])] + StrToUpper(s[1..])
  }

  /** `a` sorts strictly before `b` in byte order (`strcmp(a, b) < 0`): at the
      first position where they differ the character of `a` is smaller, or `a`
      is a proper prefix of `b`. Characters compare by code point, which is the
      byte order of their UTF-8 encodings. */
  predicate Below(a: string, b: string)
    decreases |a|
  {
    if a == [] then b != []
    else if b == [] then false
    else a[0] < b[0] || (a[0] == b[0] && Below(a[1..], b[1..]))
  }

  lemma {:induction false} BelowIrreflexive(a: string)
    ensures !Below(a, a)
    decreases |a|
  {
    if a != [] {
      BelowIrreflexive(a[1..]);
    }
  }

  lemma {:induction false} BelowAsymmetric(a: string, b: string)
    ensures Below(a, b) ==> !Below(b, a)
    decreases |a|
  {
    if a != [] && b != [] && a[0] == b[0] {
      BelowAsymmetric(a[1..], b[1..]);
    }
  }

  lemma {:induction false} BelowTransitive(a: string, b: string, c: string)
    ensures Below(a, b) && Below(b, c) ==> Below(a, c)
    decreases |a|
  {
    if a != [] && b != [] && c != [] && a[0] == b[0] && b[0] == c[0] {
      BelowTransitive(a[1..], b[1..], c[1..]);
    }
  }

  /** Any two different strings are ordered one way or the other. */
  lemma {:induction false} BelowTotal(a: string, b: string)
    ensures a != b ==> Below(a, b) || Below(b, a)
    decreases |a|
  {
    if a != [] && b != [] && a[0] == b[0] {
      assert a == [a[0]] + a[1..] && b == [b[0]] + b[1..];
      BelowTotal(a[1..], b[1..]);
    }
  }

  /** A common prefix does not change how two strings compare. */
  lemma {:induction false} BelowCommonPrefix(c: string, x: string, y: string)
    ensures Below(c + x, c + y) <==> Below(x, y)
    decreases |c|
  {
    if c != [] {
      assert (c + x)[1..] == c[1..] + x;
      assert (c + y)[1..] == c[1..] + y;
      BelowCommonPrefix(c[1..], x, y);
    } else {
      assert c + x == x && c + y == y;
    }
  }
}
