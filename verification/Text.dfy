/**
  Strings as the record store sees them: UTF-8 bytes in lexicographic order, base64url without
  padding (section 5 of RFC 4648), and fixed-width decimals.
  A Go string that survives JSON is valid UTF-8, so it is a `string` here and its bytes are Utf8(s).
*/
module Text {
  import opened Wrappers

  type byte = x: int | 0 <= x < 256

  // ---------- byte order ----------

  /** The order of keys in the store. */
  predicate Less(a: seq<int>, b: seq<int>) {
    b != [] && (a == [] || a[0] < b[0] || (a[0] == b[0] && Less(a[1..], b[1..])))
  }

  /** `a` and `b` differ inside both, and `a` is smaller where they first do. */
  predicate Diverge(a: seq<int>, b: seq<int>) {
    a != [] && b != [] && (a[0] < b[0] || (a[0] == b[0] && Diverge(a[1..], b[1..])))
  }

  lemma {:induction false} DivergeLess(a: seq<int>, b: seq<int>, x: seq<int>, y: seq<int>)
    requires Diverge(a, b)
    ensures Less(a + x, b + y)
  {
    if a[0] == b[0] {
      DivergeLess(a[1..], b[1..], x, y);
      assert (a + x)[1..] == a[1..] + x && (b + y)[1..] == b[1..] + y;
    }
  }

  lemma {:induction false} LessCommon(p: seq<int>, x: seq<int>, y: seq<int>)
    ensures Less(p + x, p + y) <==> Less(x, y)
  {
    if p == [] {
      assert p + x == x && p + y == y;
    } else {
      LessCommon(p[1..], x, y);
      assert (p + x)[1..] == p[1..] + x && (p + y)[1..] == p[1..] + y;
    }
  }

  lemma {:induction false} LessIrreflexive(a: seq<int>)
    ensures !Less(a, a)
  {
    if a != [] { LessIrreflexive(a[1..]); }
  }

  lemma {:induction false} LessTransitive(a: seq<int>, b: seq<int>, c: seq<int>)
    requires Less(a, b) && Less(b, c)
    ensures Less(a, c)
  {
    if a != [] && a[0] == b[0] && b[0] == c[0] { LessTransitive(a[1..], b[1..], c[1..]); }
  }

  lemma {:induction false} LessTotal(a: seq<int>, b: seq<int>)
    ensures a == b || Less(a, b) || Less(b, a)
  {
    if a != [] && b != [] && a[0] == b[0] {
      LessTotal(a[1..], b[1..]);
      if a[1..] == b[1..] { assert a == [a[0]] + a[1..] && b == [b[0]] + b[1..]; }
    }
  }

  // ---------- UTF-8 ----------

  function Utf8Char(c: char): (r: seq<byte>)
    ensures 1 <= |r| <= 4 && forall i :: 0 <= i < |r| ==> r[i] < 255
  {
    var n := c as int;
    if n < 0x80 then [n]
    else if n < 0x800 then [0xC0 + n / 64, 0x80 + n % 64]
    else if n < 0x10000 then [0xE0 + n / 4096, 0x80 + n / 64 % 64, 0x80 + n % 64]
    else [0xF0 + n / 262144, 0x80 + n / 4096 % 64, 0x80 + n / 64 % 64, 0x80 + n % 64]
  }

  function Utf8(s: string): (r: seq<byte>)
    ensures |s| <= |r|
  {
    if s == "" then [] else Utf8Char(s[0]) + Utf8(s[1..])
  }

  lemma {:induction false} Utf8Concat(s: string, t: string)
    ensures Utf8(s + t) == Utf8(s) + Utf8(t)
  {
    if s == "" {
      assert s + t == t;
    } else {
      assert (s + t)[1..] == s[1..] + t;
      Utf8Concat(s[1..], t);
    }
  }

  lemma Split64(m: nat, n: nat)
    requires m <= n
    ensures m / 64 < n / 64 || (m / 64 == n / 64 && m % 64 <= n % 64)
    ensures m < n && m / 64 == n / 64 ==> m % 64 < n % 64
  {}

  lemma Diverge2(m: nat, n: nat, x: int)
    requires m < n
    ensures Diverge([x + m / 64, 0x80 + m % 64], [x + n / 64, 0x80 + n % 64])
  {
    Split64(m, n);
    if m / 64 == n / 64 { DivergeTail([x + m / 64, 0x80 + m % 64], [x + n / 64, 0x80 + n % 64]); }
  }

  lemma Diverge3(m: nat, n: nat, x: int)
    requires m < n
    ensures Diverge([x + m / 4096, 0x80 + m / 64 % 64, 0x80 + m % 64],
                    [x + n / 4096, 0x80 + n / 64 % 64, 0x80 + n % 64])
  {
    var a := [x + m / 4096, 0x80 + m / 64 % 64, 0x80 + m % 64];
    var b := [x + n / 4096, 0x80 + n / 64 % 64, 0x80 + n % 64];
    assert m / 4096 == m / 64 / 64 && n / 4096 == n / 64 / 64;
    Split64(m, n);
    Split64(m / 64, n / 64);
    if m / 4096 == n / 4096 {
      if m / 64 == n / 64 { DivergeTail(a[1..], b[1..]); }
      DivergeTail(a, b);
    }
  }

  lemma Diverge4(m: nat, n: nat, x: int)
    requires m < n
    ensures Diverge([x + m / 262144, 0x80 + m / 4096 % 64, 0x80 + m / 64 % 64, 0x80 + m % 64],
                    [x + n / 262144, 0x80 + n / 4096 % 64, 0x80 + n / 64 % 64, 0x80 + n % 64])
  {
    var a := [x + m / 262144, 0x80 + m / 4096 % 64, 0x80 + m / 64 % 64, 0x80 + m % 64];
    var b := [x + n / 262144, 0x80 + n / 4096 % 64, 0x80 + n / 64 % 64, 0x80 + n % 64];
    assert m / 4096 == m / 64 / 64 && n / 4096 == n / 64 / 64;
    assert m / 262144 == m / 4096 / 64 && n / 262144 == n / 4096 / 64;
    Split64(m / 64, n / 64);
    Split64(m / 4096, n / 4096);
    if m / 262144 == n / 262144 {
      if m / 4096 == n / 4096 {
        Diverge2OfTail(m, n);
        assert a[2..] == [0x80 + m / 64 % 64, 0x80 + m % 64] && b[2..] == [0x80 + n / 64 % 64, 0x80 + n % 64];
        assert a[1..][1..] == a[2..] && b[1..][1..] == b[2..];
        DivergeTail(a[1..], b[1..]);
      }
      DivergeTail(a, b);
    }
  }

  lemma Diverge2OfTail(m: nat, n: nat)
    requires m < n && m / 64 / 64 == n / 64 / 64
    ensures Diverge([0x80 + m / 64 % 64, 0x80 + m % 64], [0x80 + n / 64 % 64, 0x80 + n % 64])
  {
    Split64(m, n);
    Split64(m / 64, n / 64);
    if m / 64 == n / 64 { DivergeTail([0x80 + m / 64 % 64, 0x80 + m % 64], [0x80 + n / 64 % 64, 0x80 + n % 64]); }
  }

  lemma DivergeTail(a: seq<int>, b: seq<int>)
    requires a != [] && b != [] && a[0] == b[0] && Diverge(a[1..], b[1..])
    ensures Diverge(a, b)
  {}

  /** Encodings of different characters differ inside both, in code point order. */
  lemma Utf8CharDiverge(c: char, d: char)
    requires c < d
    ensures Diverge(Utf8Char(c), Utf8Char(d))
  {
    var m, n := c as int, d as int;
    if 0x80 <= m && n < 0x800 { Diverge2(m, n, 0xC0); }
    else if 0x800 <= m && n < 0x10000 { Diverge3(m, n, 0xE0); }
    else if 0x10000 <= m { Diverge4(m, n, 0xF0); }
  }

  /** Different strings have different bytes. */
  lemma {:induction false} Utf8Injective(s: string, t: string)
    requires Utf8(s) == Utf8(t)
    ensures s == t
  {
    if s != "" && t != "" {
      if s[0] == t[0] {
        var n := |Utf8Char(s[0])|;
        assert Utf8(s[1..]) == Utf8(s)[n..] && Utf8(t[1..]) == Utf8(t)[n..];
        Utf8Injective(s[1..], t[1..]);
        assert s == [s[0]] + s[1..] && t == [t[0]] + t[1..];
      } else {
        if s[0] < t[0] { Utf8FirstLess(s, t, [], []); } else { Utf8FirstLess(t, s, [], []); }
        LessIrreflexive(Utf8(s) + []);
      }
    }
  }

  lemma Utf8FirstLess(s: string, t: string, x: seq<int>, y: seq<int>)
    requires s != "" && t != "" && s[0] < t[0]
    ensures Less(Utf8(s) + x, Utf8(t) + y)
  {
    Utf8CharDiverge(s[0], t[0]);
    FrontLess(Utf8Char(s[0]), Utf8Char(t[0]), Utf8(s[1..]), Utf8(t[1..]), x, y);
  }

  lemma FrontLess(a: seq<int>, b: seq<int>, u: seq<int>, v: seq<int>, x: seq<int>, y: seq<int>)
    requires Diverge(a, b)
    ensures Less((a + u) + x, (b + v) + y)
  {
    DivergeLess(a, b, u + x, v + y);
    assert (a + u) + x == a + (u + x) && (b + v) + y == b + (v + y);
  }

  /** The iterator bounds [prefix, prefix+0xff) select exactly the keys that start with the prefix. */
  lemma {:induction false} PrefixBounds(p: string, k: string)
    ensures !Less(Utf8(k), Utf8(p)) && Less(Utf8(k), Utf8(p) + [255]) <==> p <= k
  {
    if p == "" {
      assert Utf8(p) + [255] == [255];
    } else if k != "" {
      if p[0] == k[0] {
        var c := Utf8Char(p[0]);
        PrefixBounds(p[1..], k[1..]);
        LessCommon(c, Utf8(k[1..]), Utf8(p[1..]));
        LessCommon(c, Utf8(k[1..]), Utf8(p[1..]) + [255]);
        assert Utf8(p) + [255] == c + (Utf8(p[1..]) + [255]);
        assert p <= k <==> p[1..] <= k[1..];
      } else if k[0] < p[0] {
        Utf8FirstLess(k, p, [], []);
        assert Utf8(k) + [] == Utf8(k) && Utf8(p) + [] == Utf8(p);
      } else {
        Utf8FirstLess(p, k, [255], []);
        assert Utf8(k) + [] == Utf8(k);
        if Less(Utf8(k), Utf8(p) + [255]) {
          LessTransitive(Utf8(k), Utf8(p) + [255], Utf8(k));
          LessIrreflexive(Utf8(k));
        }
      }
    }
  }

  // ---------- base64url without padding ----------

  function Sextet(v: int): (c: char)
    requires 0 <= v < 64
    ensures c != '/' && c != '\r' && c != '\n'
  {
    if v < 26 then 'A' + v as char
    else if v < 52 then 'a' + (v - 26) as char
    else if v < 62 then '0' + (v - 52) as char
    else if v == 62 then '-' else '_'
  }

  function SextetValue(c: char): (v: Option<int>)
    ensures v.Some? ==> 0 <= v.value < 64
  {
    if 'A' <= c <= 'Z' then Some(c as int - 'A' as int)
    else if 'a' <= c <= 'z' then Some(c as int - 'a' as int + 26)
    else if '0' <= c <= '9' then Some(c as int - '0' as int + 52)
    else if c == '-' then Some(62)
    else if c == '_' then Some(63)
    else None
  }

  function Encode(b: seq<byte>): (s: string)
    ensures forall i :: 0 <= i < |s| ==> s[i] != '/' && s[i] != '\r' && s[i] != '\n'
    ensures b != [] ==> s != ""
  {
    if |b| == 0 then ""
    else if |b| == 1 then [Sextet(b[0] / 4), Sextet(b[0] % 4 * 16)]
    else if |b| == 2 then [Sextet(b[0] / 4), Sextet(b[0] % 4 * 16 + b[1] / 16), Sextet(b[1] % 16 * 4)]
    else [Sextet(b[0] / 4), Sextet(b[0] % 4 * 16 + b[1] / 16),
          Sextet(b[1] % 16 * 4 + b[2] / 64), Sextet(b[2] % 64)] + Encode(b[3..])
  }

  function StripNewlines(s: string): string {
    if s == "" then ""
    else if s[0] == '\r' || s[0] == '\n' then StripNewlines(s[1..])
    else [s[0]] + StripNewlines(s[1..])
  }

  /** Go's decoder: newlines are skipped anywhere and spare bits of the last character are ignored. */
  function Decode(s: string): Option<seq<byte>> {
    Quanta(StripNewlines(s))
  }

  function Quanta(s: string): Option<seq<byte>> {
    if s == "" then Some([])
    else if |s| == 1 then None
    else
      var v0, v1 := SextetValue(s[0]), SextetValue(s[1]);
      if v0.None? || v1.None? then None
      else
        var b0 := v0.value * 4 + v1.value / 16;
        if |s| == 2 then Some([b0])
        else
          var v2 := SextetValue(s[2]);
          if v2.None? then None
          else
            var b1 := v1.value % 16 * 16 + v2.value / 4;
            if |s| == 3 then Some([b0, b1])
            else
              var v3, rest := SextetValue(s[3]), Quanta(s[4..]);
              if v3.None? || rest.None? then None
              else Some([b0, b1, v2.value % 4 * 64 + v3.value] + rest.value)
  }

  lemma SextetRoundTrip(v: int)
    requires 0 <= v < 64
    ensures SextetValue(Sextet(v)) == Some(v)
  {}

  lemma {:induction false} StripNothing(s: string)
    requires forall i :: 0 <= i < |s| ==> s[i] != '\r' && s[i] != '\n'
    ensures StripNewlines(s) == s
  {
    if s != "" {
      StripNothing(s[1..]);
      assert s == [s[0]] + s[1..];
    }
  }

  /** Three bytes cut into four groups of six bits and put together again. */
  lemma Regroup(b0: byte, b1: byte, b2: byte)
    ensures var v1, v2 := b0 % 4 * 16 + b1 / 16, b1 % 16 * 4 + b2 / 64;
            && 0 <= b0 / 4 < 64 && 0 <= v1 < 64 && 0 <= v2 < 64
            && b0 / 4 * 4 + v1 / 16 == b0
            && v1 % 16 * 16 + v2 / 4 == b1
            && v2 % 4 * 64 + b2 % 64 == b2
  {}

  /** One full quantum in front of a decodable rest. */
  lemma QuantumDecoded(s: string, v0: int, v1: int, v2: int, v3: int, rest: seq<byte>, b0: byte, b1: byte, b2: byte)
    requires |s| >= 4 && Quanta(s[4..]) == Some(rest)
    requires SextetValue(s[0]) == Some(v0) && SextetValue(s[1]) == Some(v1)
    requires SextetValue(s[2]) == Some(v2) && SextetValue(s[3]) == Some(v3)
    requires v0 * 4 + v1 / 16 == b0 && v1 % 16 * 16 + v2 / 4 == b1 && v2 % 4 * 64 + v3 == b2
    ensures Quanta(s) == Some([b0, b1, b2] + rest)
  {}

  lemma QuantumRoundTrip(b0: byte, b1: byte, b2: byte, rest: string, tail: seq<byte>)
    requires Quanta(rest) == Some(tail)
    ensures Quanta([Sextet(b0 / 4), Sextet(b0 % 4 * 16 + b1 / 16), Sextet(b1 % 16 * 4 + b2 / 64), Sextet(b2 % 64)]
                   + rest)
         == Some([b0, b1, b2] + tail)
  {
    var v1, v2 := b0 % 4 * 16 + b1 / 16, b1 % 16 * 4 + b2 / 64;
    Regroup(b0, b1, b2);
    SextetRoundTrip(b0 / 4);
    SextetRoundTrip(v1);
    SextetRoundTrip(v2);
    SextetRoundTrip(b2 % 64);
    var s := [Sextet(b0 / 4), Sextet(v1), Sextet(v2), Sextet(b2 % 64)] + rest;
    assert s[4..] == rest;
    QuantumDecoded(s, b0 / 4, v1, v2, b2 % 64, tail, b0, b1, b2);
  }

  lemma {:induction false} QuantaRoundTrip(b: seq<byte>)
    ensures Quanta(Encode(b)) == Some(b)
  {
    if |b| >= 3 {
      QuantaRoundTrip(b[3..]);
      QuantumRoundTrip(b[0], b[1], b[2], Encode(b[3..]), b[3..]);
      assert b == [b[0], b[1], b[2]] + b[3..];
    } else if |b| == 2 {
      TailOfTwo(b[0], b[1]);
      assert b == [b[0], b[1]];
    } else if |b| == 1 {
      TailOfOne(b[0]);
      assert b == [b[0]];
    }
  }

  lemma TailOfTwo(b0: byte, b1: byte)
    ensures Quanta(Encode([b0, b1])) == Some([b0, b1])
  {
    var v1 := b0 % 4 * 16 + b1 / 16;
    Regroup(b0, b1, 0);
    SextetRoundTrip(b0 / 4);
    SextetRoundTrip(v1);
    SextetRoundTrip(b1 % 16 * 4);
    assert Encode([b0, b1]) == [Sextet(b0 / 4), Sextet(v1), Sextet(b1 % 16 * 4)];
  }

  lemma TailOfOne(b0: byte)
    ensures Quanta(Encode([b0])) == Some([b0])
  {
    SextetRoundTrip(b0 / 4);
    SextetRoundTrip(b0 % 4 * 16);
    assert Encode([b0]) == [Sextet(b0 / 4), Sextet(b0 % 4 * 16)];
  }

  lemma DecodeEncode(b: seq<byte>)
    ensures Decode(Encode(b)) == Some(b)
  {
    StripNothing(Encode(b));
    QuantaRoundTrip(b);
  }

  // ---------- fixed-width decimals ----------

  function Pow10(w: nat): nat {
    if w == 0 then 1 else 10 * Pow10(w - 1)
  }

  function Digit(d: int): char
    requires 0 <= d < 10
  {
    '0' + d as char
  }

  /** `n` in decimal, zero padded to width `w`. */
  function Digits(n: nat, w: nat): (s: string)
    ensures |s| == w
  {
    if w == 0 then "" else Digits(n / 10, w - 1) + [Digit(n % 10)]
  }

  lemma {:induction false} DigitsOrder(m: nat, n: nat, w: nat)
    requires m < n < Pow10(w)
    ensures Diverge(Utf8(Digits(m, w)), Utf8(Digits(n, w)))
  {
    assert w > 0;
    var c, d := Digit(m % 10), Digit(n % 10);
    Utf8Concat(Digits(m / 10, w - 1), [c]);
    Utf8Concat(Digits(n / 10, w - 1), [d]);
    assert [c][1..] == "" && [d][1..] == "";
    if m / 10 < n / 10 {
      DigitsOrder(m / 10, n / 10, w - 1);
      DivergeExtend(Utf8(Digits(m / 10, w - 1)), Utf8(Digits(n / 10, w - 1)), Utf8([c]), Utf8([d]));
    } else {
      assert m / 10 == n / 10 && m % 10 < n % 10;
      DivergeCommon(Utf8(Digits(m / 10, w - 1)), Utf8([c]), Utf8([d]));
    }
  }

  lemma {:induction false} DivergeExtend(a: seq<int>, b: seq<int>, x: seq<int>, y: seq<int>)
    requires Diverge(a, b)
    ensures Diverge(a + x, b + y)
  {
    if a[0] == b[0] {
      DivergeExtend(a[1..], b[1..], x, y);
      assert (a + x)[1..] == a[1..] + x && (b + y)[1..] == b[1..] + y;
    }
  }

  lemma {:induction false} DivergeCommon(p: seq<int>, x: seq<int>, y: seq<int>)
    requires Diverge(x, y)
    ensures Diverge(p + x, p + y)
  {
    if p == [] {
      assert p + x == x && p + y == y;
    } else {
      DivergeCommon(p[1..], x, y);
      assert (p + x)[1..] == p[1..] + x && (p + y)[1..] == p[1..] + y;
    }
  }
}
