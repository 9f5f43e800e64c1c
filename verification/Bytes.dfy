/**
 Byte strings, their lexicographic order, and the UTF-8 form of a text.
 Text is a sequence of Unicode scalars; two texts are ordered by their UTF-8
 bytes, as Rust orders `String`.
 */
module Bytes {

  type u8 = b: int | 0 <= b < 256

  predicate LexLess(a: seq<u8>, b: seq<u8>)
  {
    b != [] && (a == [] || a[0] < b[0] || (a[0] == b[0] && LexLess(a[1..], b[1..])))
  }

  lemma {:induction false} LexTotal(a: seq<u8>, b: seq<u8>)
    ensures LexLess(a, b) || a == b || LexLess(b, a)
    ensures !(LexLess(a, b) && LexLess(b, a))
    ensures !LexLess(a, a)
  {
    if a != [] && b != [] {
      LexTotal(a[1..], b[1..]);
      assert a == [a[0]] + a[1..] && b == [b[0]] + b[1..];
    }
    if a != [] {
      LexTotal(a[1..], a[1..]);
    }
  }

  lemma {:induction false} LexTransitive(a: seq<u8>, b: seq<u8>, c: seq<u8>)
    requires LexLess(a, b) && LexLess(b, c)
    ensures LexLess(a, c)
  {
    if a != [] && a[0] == b[0] == c[0] {
      LexTransitive(a[1..], b[1..], c[1..]);
    }
  }

  /** `a` and `b` first differ at `k`, where `a` ends or has the smaller byte. */
  ghost predicate SmallerAt(a: seq<u8>, b: seq<u8>, k: int)
  {
    0 <= k <= |a| && k < |b| && a[..k] == b[..k] && (k == |a| || a[k] < b[k])
  }

  /** The order is decided at the first difference, a proper prefix coming first. */
  lemma {:induction false} LexLessAt(a: seq<u8>, b: seq<u8>)
    ensures LexLess(a, b) <==> exists k :: SmallerAt(a, b, k)
  {
    if LexLess(a, b) {
      if a == [] || a[0] < b[0] {
        assert SmallerAt(a, b, 0);
      } else {
        LexLessAt(a[1..], b[1..]);
        var k :| SmallerAt(a[1..], b[1..], k);
        assert a[..k + 1] == [a[0]] + a[1..][..k] && b[..k + 1] == [b[0]] + b[1..][..k];
        assert SmallerAt(a, b, k + 1);
      }
    }
    if k :| SmallerAt(a, b, k) && 0 < k {
      assert a[0] == a[..k][0] == b[..k][0] == b[0];
      assert a[1..][..k - 1] == a[..k][1..] == b[..k][1..] == b[1..][..k - 1];
      assert SmallerAt(a[1..], b[1..], k - 1);
      LexLessAt(a[1..], b[1..]);
    }
  }

  /** Every element's key precedes the keys of all later elements. */
  ghost predicate StrictlyOrdered<T(!new)>(s: seq<T>, key: T -> seq<u8>)
  {
    forall i, j :: 0 <= i < j < |s| ==> LexLess(key(s[i]), key(s[j]))
  }

  /** A strictly ordered enumeration of a set is unique. */
  lemma {:induction false} StrictOrderIsUnique<T(!new)>(a: seq<T>, b: seq<T>, key: T -> seq<u8>)
    requires StrictlyOrdered(a, key) && StrictlyOrdered(b, key)
    requires forall x :: x in a <==> x in b
    ensures a == b
  {
    assert b == [] || b[0] in b;
    if a != [] {
      assert a[0] in b;
      assert b[0] in a;
      HeadsAgree(a, b, key);
      forall x ensures x in a[1..] <==> x in b[1..] {
        LexTotal(key(a[0]), key(a[0]));
        if x in a[1..] {
          assert x in b;
        }
        if x in b[1..] {
          assert x in a;
        }
      }
      StrictOrderIsUnique(a[1..], b[1..], key);
      assert a == [a[0]] + a[1..] && b == [b[0]] + b[1..];
    }
  }

  lemma HeadsAgree<T(!new)>(a: seq<T>, b: seq<T>, key: T -> seq<u8>)
    requires StrictlyOrdered(a, key) && StrictlyOrdered(b, key)
    requires a != [] && b != [] && a[0] in b && b[0] in a
    ensures a[0] == b[0]
  {
    if a[0] != b[0] {
      var i :| 0 <= i < |a| && a[i] == b[0];
      var j :| 0 <= j < |b| && b[j] == a[0];
      LexTotal(key(a[0]), key(b[0]));
    }
  }

  /** The UTF-8 bytes of one scalar. */
  function EncodeScalar(c: char): (r: seq<u8>)
    ensures 1 <= |r| <= 4
  {
    var n := c as int;
    if n < 0x80 then [n]
    else if n < 0x800 then [0xC0 + n / 64, 0x80 + n % 64]
    else if n < 0x10000 then [0xE0 + n / 4096, 0x80 + n / 64 % 64, 0x80 + n % 64]
    else [0xF0 + n / 262144, 0x80 + n / 4096 % 64, 0x80 + n / 64 % 64, 0x80 + n % 64]
  }

  function Utf8(s: string): (r: seq<u8>)
    ensures |r| >= |s|
  {
    if s == "" then [] else EncodeScalar(s[0]) + Utf8(s[1..])
  }

  /** The code point held by a well-formed encoding. */
  function ScalarCode(e: seq<u8>): (n: int)
    requires 1 <= |e| <= 4
  {
    if |e| == 1 then e[0]
    else if |e| == 2 then (e[0] as int - 0xC0) * 64 + (e[1] as int - 0x80)
    else if |e| == 3 then (e[0] as int - 0xE0) * 4096 + (e[1] as int - 0x80) * 64 + (e[2] as int - 0x80)
    else (e[0] as int - 0xF0) * 262144 + (e[1] as int - 0x80) * 4096 + (e[2] as int - 0x80) * 64 + (e[3] as int - 0x80)
  }

  lemma ScalarRoundTrip(c: char)
    ensures ScalarCode(EncodeScalar(c)) == c as int
  {
    var n := c as int;
    assert n == n / 64 * 64 + n % 64;
    assert n / 64 == n / 4096 * 64 + n / 64 % 64;
    assert n / 4096 == n / 262144 * 64 + n / 4096 % 64;
  }

  lemma EncodingLength(c: char)
    ensures var e := EncodeScalar(c);
            |e| == if e[0] < 0x80 then 1 else if e[0] < 0xE0 then 2 else if e[0] < 0xF0 then 3 else 4
  {
  }

  lemma EncodeScalarPrefixFree(c: char, x: seq<u8>, d: char, y: seq<u8>)
    requires EncodeScalar(c) + x == EncodeScalar(d) + y
    ensures c == d && x == y
  {
    var e, f := EncodeScalar(c), EncodeScalar(d);
    SplitEqual(e, x, f, y) by {
      EncodingLength(c);
      EncodingLength(d);
      assert (e + x)[0] == e[0] && (f + y)[0] == f[0];
    }
    ScalarRoundTrip(c);
    ScalarRoundTrip(d);
  }

  lemma ConcatAssoc<T>(a: seq<T>, b: seq<T>, c: seq<T>)
    ensures (a + b) + c == a + (b + c)
  {
  }

  /** Concatenations that agree, cut at the same place, agree piecewise. */
  lemma SplitEqual<T>(a: seq<T>, x: seq<T>, b: seq<T>, y: seq<T>)
    requires a + x == b + y && |a| == |b|
    ensures a == b && x == y
  {
    assert a == (a + x)[..|a|] == (b + y)[..|b|] == b;
    assert x == (a + x)[|a|..] == (b + y)[|b|..] == y;
  }

  /** Different texts have different UTF-8 bytes. */
  lemma {:induction false} Utf8Injective(s: string, t: string)
    requires Utf8(s) == Utf8(t)
    ensures s == t
  {
    if s != "" && t != "" {
      EncodeScalarPrefixFree(s[0], Utf8(s[1..]), t[0], Utf8(t[1..]));
      Utf8Injective(s[1..], t[1..]);
      assert s == [s[0]] + s[1..] && t == [t[0]] + t[1..];
    }
  }

  lemma {:induction false} Utf8Concat(s: string, t: string)
    ensures Utf8(s + t) == Utf8(s) + Utf8(t)
  {
    hide EncodeScalar;
    if s == "" {
      assert s + t == t;
    } else {
      Utf8Concat(s[1..], t);
      assert (s + t)[0] == s[0] && (s + t)[1..] == s[1..] + t;
      ConcatAssoc(EncodeScalar(s[0]), Utf8(s[1..]), Utf8(t));
    }
  }

  /** Characters below 0x80 are their own bytes. */
  lemma {:induction false} AsciiBytes(s: string)
    requires forall i :: 0 <= i < |s| ==> s[i] as int < 0x80
    ensures |Utf8(s)| == |s| && forall i :: 0 <= i < |s| ==> Utf8(s)[i] == s[i] as int
  {
    if s != "" {
      AsciiBytes(s[1..]);
    }
  }
}
