/** Finite-field Diffie-Hellman: parsing and validation of the server's
    parameters, and agreement on the padded secret. */
module Dhe {
  import opened Bytes
  import opened Wire

  // ---- Modular exponentiation ---------------------------------------------

  function Pow(b: nat, e: nat): (r: nat)
  {
    if e == 0 then 1 else b * Pow(b, e - 1)
  }

  lemma {:induction false} PowOfProduct(b: nat, c: nat, e: nat)
    ensures Pow(b * c, e) == Pow(b, e) * Pow(c, e)
  {
    if e > 0 {
      PowOfProduct(b, c, e - 1);
      Regroup(b, c, Pow(b, e - 1), Pow(c, e - 1));
    }
  }

  lemma Regroup(a: nat, b: nat, c: nat, d: nat)
    ensures a * b * (c * d) == a * c * (b * d)
  {
    assert a * b * (c * d) == a * (b * (c * d));
    assert b * (c * d) == c * (b * d);
    assert a * (c * (b * d)) == a * c * (b * d);
  }

  /** Exponents commute. */
  lemma {:induction false} PowPow(b: nat, x: nat, y: nat)
    ensures Pow(Pow(b, x), y) == Pow(Pow(b, y), x)
  {
    if x == 0 {
      PowOfOne(y);
    } else {
      PowPow(b, x - 1, y);
      PowOfProduct(b, Pow(b, x - 1), y);
    }
  }

  lemma {:induction false} PowOfOne(e: nat)
    ensures Pow(1, e) == 1
  {
    if e > 0 {
      PowOfOne(e - 1);
    }
  }

  /** Reducing one factor first changes nothing. */
  lemma ModFactor(a: nat, b: nat, m: nat)
    requires m > 0
    ensures (a % m * b) % m == (a * b) % m
  {
    var q, r := a / m, a % m;
    var p := r * b;
    assert a == q * m + r;
    assert a * b == q * b * m + p by {
      assert (q * m + r) * b == q * m * b + r * b;
      assert q * m * b == q * b * m;
    }
    assert a * b == (q * b + p / m) * m + p % m by {
      assert p == p / m * m + p % m;
      assert (q * b + p / m) * m == q * b * m + p / m * m;
    }
    DivModUnique(a * b, q * b + p / m, p % m, m);
  }

  /** Reducing the base first changes nothing. */
  lemma {:induction false} ModBase(b: nat, e: nat, m: nat)
    requires m > 0
    ensures Pow(b % m, e) % m == Pow(b, e) % m
  {
    if e > 0 {
      var p, p' := Pow(b, e - 1), Pow(b % m, e - 1);
      ModBase(b, e - 1, m);
      ModFactor(b, p', m);
      ModFactor(p', b, m);
      ModFactor(p, b, m);
      assert b * p' == p' * b && b * p == p * b;
    }
  }

  /** Both sides of the exchange reach the same number. */
  lemma SharedSecret(g: nat, x: nat, y: nat, p: nat)
    requires p > 0
    ensures Pow(Pow(g, y) % p, x) % p == Pow(Pow(g, x) % p, y) % p
  {
    hide Pow;
    ModBase(Pow(g, y), x, p);
    ModBase(Pow(g, x), y, p);
    PowPow(g, x, y);
  }

  // ---- Parameters ---------------------------------------------------------

  datatype Params = Params(p: seq<byte>, g: seq<byte>, ys: seq<byte>)

  function PrintParams(d: Params): (r: seq<byte>)
  {
    Prefixed(d.p, 2) + (Prefixed(d.g, 2) + Prefixed(d.ys, 2))
  }

  function ParseParams(b: seq<byte>): (r: Option<Params>)
  {
    var (p, b1) :- ReadPrefixed(b, 2);
    var (g, b2) :- ReadPrefixed(b1, 2);
    var (ys, rest) :- ReadPrefixed(b2, 2);
    :- Need(rest == []);
    Some(Params(p, g, ys))
  }

  /** The other parser, used to find where the signature starts: it only skips
      three fields and cuts the parameters off in front of the rest. */
  function CutParams(body: seq<byte>): (r: Option<(seq<byte>, seq<byte>)>)
  {
    var (_, b1) :- ReadPrefixed(body, 2);
    var (_, b2) :- ReadPrefixed(b1, 2);
    var (_, rest) :- ReadPrefixed(b2, 2);
    Some((body[..|body| - |rest|], rest))
  }

  /** Whatever the skipping parser cuts off the strict one accepts, with no
      bytes left over. */
  lemma CutIsParsed(body: seq<byte>)
    requires CutParams(body).Some?
    ensures var (params, rest) := CutParams(body).value;
            body == params + rest && ParseParams(params).Some? && PrintParams(ParseParams(params).value) == params
  {
    hide ReadPrefixed, Prefixed;
    var (p, b1) := ReadPrefixed(body, 2).Extract();
    var (g, b2) := ReadPrefixed(b1, 2).Extract();
    var (ys, rest) := ReadPrefixed(b2, 2).Extract();
    ReadPrefixedIsPrinted(body, 2);
    ReadPrefixedIsPrinted(b1, 2);
    ReadPrefixedIsPrinted(b2, 2);
    var d := Params(p, g, ys);
    var params := PrintParams(d);
    assert body == params + rest;
    assert body[..|params|] == params;
    ParsePrintedParams(d);
  }

  /** Printed parameters are cut off in front of anything. */
  lemma CutPrinted(d: Params, rest: seq<byte>)
    requires |d.p| < Pow256(2) && |d.g| < Pow256(2) && |d.ys| < Pow256(2)
    ensures CutParams(PrintParams(d) + rest) == Some((PrintParams(d), rest))
  {
    hide ReadPrefixed, Prefixed;
    var ys := Prefixed(d.ys, 2) + rest;
    var g := Prefixed(d.g, 2) + ys;
    var body := PrintParams(d) + rest;
    assert body == Prefixed(d.p, 2) + g;
    ReadPrefixedPrinted(d.p, 2, g);
    ReadPrefixedPrinted(d.g, 2, ys);
    ReadPrefixedPrinted(d.ys, 2, rest);
    assert body[..|body| - |rest|] == PrintParams(d);
  }

  lemma ParsePrintedParams(d: Params)
    requires |d.p| < Pow256(2) && |d.g| < Pow256(2) && |d.ys| < Pow256(2)
    ensures ParseParams(PrintParams(d)) == Some(d)
  {
    hide ReadPrefixed, Prefixed;
    ReadPrefixedPrinted(d.p, 2, Prefixed(d.g, 2) + Prefixed(d.ys, 2));
    ReadPrefixedPrinted(d.g, 2, Prefixed(d.ys, 2));
    ReadPrefixedPrinted(d.ys, 2, []);
    assert Prefixed(d.ys, 2) + [] == Prefixed(d.ys, 2);
  }

  /** Prime, generator and public value, each behind its length. */
  predicate ParamsAt(b: seq<byte>, d: Params)
  {
    var n, k := |d.p|, |d.g|;
    && |b| == 6 + n + k + |d.ys|
    && FieldAt(b, 0, 2, n) && BytesAt(b, 2, d.p)
    && FieldAt(b, 2 + n, 2, k) && BytesAt(b, 4 + n, d.g)
    && FieldAt(b, 4 + n + k, 2, |d.ys|) && BytesAt(b, 6 + n + k, d.ys)
  }

  lemma ParamsIff(b: seq<byte>, d: Params)
    ensures ParseParams(b) == Some(d) <==> ParamsAt(b, d)
  {
    hide Prefixed, ReadPrefixed, Pow256, FieldAt, BytesAt;
    if ParamsAt(b, d) {
      FieldBelow(b, 0, 2, |d.p|);
      FieldBelow(b, 2 + |d.p|, 2, |d.g|);
      FieldBelow(b, 4 + |d.p| + |d.g|, 2, |d.ys|);
      ParamsBytes(b, d);
      ParsePrintedParams(d);
    }
    if ParseParams(b) == Some(d) {
      ParsedIsPrinted(b);
      ParamsBytes(b, d);
    }
  }

  lemma ParsedIsPrinted(b: seq<byte>)
    requires ParseParams(b).Some?
    ensures var d := ParseParams(b).value;
            b == PrintParams(d) && |d.p| < Pow256(2) && |d.g| < Pow256(2) && |d.ys| < Pow256(2)
  {
    hide ReadPrefixed, Prefixed, Pow256;
    var (p, b1) := ReadPrefixed(b, 2).Extract();
    var (g, b2) := ReadPrefixed(b1, 2).Extract();
    ReadPrefixedIsPrinted(b, 2);
    ReadPrefixedIsPrinted(b1, 2);
    ReadPrefixedIsPrinted(b2, 2);
    var ys := ReadPrefixed(b2, 2).value;
    assert Prefixed(ys, 2) + [] == Prefixed(ys, 2);
  }

  lemma ParamsBytes(b: seq<byte>, d: Params)
    requires |d.p| < Pow256(2) && |d.g| < Pow256(2) && |d.ys| < Pow256(2)
    ensures b == PrintParams(d) <==> ParamsAt(b, d)
  {
    hide Prefixed, Pow256, FieldAt, BytesAt;
    var n, k := |d.p|, |d.g|;
    WholeAt(b, PrintParams(d));
    ConcatAt(b, 0, Prefixed(d.p, 2), Prefixed(d.g, 2) + Prefixed(d.ys, 2));
    ConcatAt(b, 2 + n, Prefixed(d.g, 2), Prefixed(d.ys, 2));
    PrefixedAt(b, 0, d.p, 2);
    PrefixedAt(b, 2 + n, d.g, 2);
    PrefixedAt(b, 4 + n + k, d.ys, 2);
  }

  /** The accepted parameters; the size of p is that of its encoding. */
  predicate ValidParams(d: Params)
  {
    && |d.p| * 8 >= 2048
    && d.p[|d.p| - 1] % 2 == 1
    && FromBigEndian(d.g) >= 2
    && 1 < FromBigEndian(d.ys) < FromBigEndian(d.p) - 1
  }

  /** In numbers: at least 256 bytes encode an odd p, g is at least 2, and the
      public value lies strictly between 1 and p - 1. */
  lemma ValidIff(d: Params)
    ensures ValidParams(d) <==>
            var p, g, ys := FromBigEndian(d.p), FromBigEndian(d.g), FromBigEndian(d.ys);
            |d.p| >= 256 && p % 2 == 1 && 2 <= g && 2 <= ys <= p - 2
  {
    if d.p != [] {
      LowByteParity(d.p);
    }
  }

  lemma LowByteParity(s: seq<byte>)
    requires s != []
    ensures FromBigEndian(s) % 2 == s[|s| - 1] % 2
  {
    hide Pow256;
    var high := FromBigEndian(s[..|s| - 1]);
    assert FromBigEndian(s) == 2 * (high * 128) + s[|s| - 1];
  }

  // ---- The floor of 2048 bits ---------------------------------------------

  lemma {:induction false} BitLenAbove(n: nat, m: nat)
    ensures BitLen(n) > m <==> n >= Pow2(m)
  {
    if m > 0 && n > 0 {
      BitLenAbove(n / 2, m - 1);
    }
  }

  lemma FourBits(m: nat)
    ensures Pow2(m + 4) == 16 * Pow2(m)
  {
    assert Pow2(m + 2) == 4 * Pow2(m) by { assert Pow2(m + 1) == 2 * Pow2(m); }
    assert Pow2(m + 4) == 4 * Pow2(m + 2) by { assert Pow2(m + 3) == 2 * Pow2(m + 2); }
  }

  lemma {:induction false} TopBitWeight(k: nat)
    ensures Pow2(8 * k + 7) == 128 * Pow256(k)
  {
    if k == 0 {
      assert Pow2(7) == 128 by { assert Pow2(4) == 16; }
    } else {
      TopBitWeight(k - 1);
      var m := 8 * (k - 1) + 7;
      FourBits(m);
      FourBits(m + 4);
    }
  }

  lemma {:induction false} PositiveIff(s: seq<byte>)
    ensures FromBigEndian(s) > 0 <==> exists i :: 0 <= i < |s| && s[i] != 0
  {
    if s != [] {
      var front := s[..|s| - 1];
      PositiveIff(front);
      if i :| 0 <= i < |s| && s[i] != 0 {
        assert i < |front| ==> front[i] != 0;
      }
    }
  }

  /** Of the last `k` bytes the first has its top bit set, or some byte before
      them is not zero. */
  predicate FillsBytes(s: seq<byte>, k: nat)
    requires 1 <= k <= |s|
  {
    (exists i :: 0 <= i < |s| - k && s[i] != 0) || s[|s| - k] >= 128
  }

  lemma FillsBytesIff(s: seq<byte>, k: nat)
    requires 1 <= k <= |s|
    ensures BitLen(FromBigEndian(s)) >= 8 * k <==> FillsBytes(s, k)
  {
    hide BitLen, Pow2, Pow256, FromBigEndian;
    var high, top, low := s[..|s| - k], s[|s| - k], s[|s| - k + 1..];
    assert s == high + ([top] + low);
    FromBigEndianConcat(high, [top] + low);
    FromBigEndianConcat([top], low);
    OneByte(top);
    PositiveIff(high);
    assert forall i :: 0 <= i < |high| ==> high[i] == s[i];
    BitLenAbove(FromBigEndian(s), 8 * k - 1);
    TopBitWeight(k - 1);
    Threshold(FromBigEndian(high), top, FromBigEndian(low), Pow256(k - 1), Pow256(k)) by { PowStep(k); }
  }

  lemma OneByte(x: byte)
    ensures FromBigEndian([x]) == x
  {
    assert [x][..0] == [];
  }

  lemma PowStep(k: nat)
    requires k > 0
    ensures Pow256(k) == 256 * Pow256(k - 1)
  {
  }

  lemma Threshold(high: nat, top: byte, low: nat, p: nat, q: nat)
    requires q == 256 * p && low < p
    ensures high * q + (top * p + low) >= 128 * p <==> high > 0 || top >= 128
  {
    if high > 0 {
      Monotone(1, high, q);
    } else if top >= 128 {
      Monotone(128, top, p);
    } else {
      Monotone(top, 127, p);
    }
  }

  lemma Monotone(a: nat, b: nat, p: nat)
    requires a <= b
    ensures a * p <= b * p
  {
    assert (b - a) * p >= 0;
  }

  /** Parameters that pass have a prime of 2048 bits exactly when the encoding
      is not padded with zeros below that size. */
  lemma FloorIff(d: Params)
    requires ValidParams(d)
    ensures BitLen(FromBigEndian(d.p)) >= 2048 <==> FillsBytes(d.p, 256)
  {
    FillsBytesIff(d.p, 256);
  }

  /** Every odd number from 5 on passes as a prime if it is padded to 256 bytes. */
  lemma ShortPrimePasses(n: nat)
    requires n % 2 == 1 && 5 <= n < Pow256(256)
    ensures var d := Params(BigEndian(n, 256), [2], [2]);
            ValidParams(d) && FromBigEndian(d.p) == n
  {
    hide Pow256, BigEndian, FromBigEndian, ValidParams;
    BigEndianDecodes(n, 256);
    OneByte(2);
    ValidIff(Params(BigEndian(n, 256), [2], [2]));
  }

  /** For instance 7, a prime of three bits. */
  lemma SevenPasses()
    ensures exists d: Params :: ValidParams(d) && FromBigEndian(d.p) == 7 && BitLen(FromBigEndian(d.p)) == 3
  {
    hide FromBigEndian, BigEndian;
    PowStep(256);
    ShortPrimePasses(7);
    assert BitLen(7) == 3 by { assert BitLen(1) == 1; assert BitLen(3) == 2; }
  }

  // ---- The exchange -------------------------------------------------------

  function BitLen(n: nat): (k: nat)
  {
    if n == 0 then 0 else 1 + BitLen(n / 2)
  }

  function ByteLen(n: nat): (k: nat)
  {
    if n == 0 then 0 else 1 + ByteLen(n / 256)
  }

  lemma {:induction false} ByteLenFits(n: nat)
    ensures n < Pow256(ByteLen(n))
  {
    if n > 0 {
      ByteLenFits(n / 256);
    }
  }

  lemma {:induction false} ByteLenMinimal(n: nat, k: nat)
    requires n < Pow256(k)
    ensures ByteLen(n) <= k
  {
    if n > 0 {
      DivBelow(n, Pow256(k - 1));
      ByteLenMinimal(n / 256, k - 1);
    }
  }

  /** The unseen library may refuse a modulus, or a base for a modulus. */
  datatype Bigmod = Bigmod(refusesModulus: seq<byte> -> bool, refusesBase: (seq<byte>, seq<byte>) -> bool)

  /** The library's exponentiation: a base that is not refused is reduced; the
      result has the size of the modulus without leading zeros. */
  function ModExp(lib: Bigmod, base: seq<byte>, exp: seq<byte>, p: seq<byte>): (r: Option<seq<byte>>)
    requires FromBigEndian(p) > 0
  {
    var b, m := FromBigEndian(base), FromBigEndian(p);
    if lib.refusesBase(base, p) then None
    else Some(BigEndian(Pow(b % m, FromBigEndian(exp)) % m, ByteLen(m)))
  }

  lemma ModExpValue(lib: Bigmod, base: seq<byte>, exp: seq<byte>, p: seq<byte>)
    requires FromBigEndian(p) > 0 && ModExp(lib, base, exp, p).Some?
    ensures FromBigEndian(ModExp(lib, base, exp, p).value)
         == Pow(FromBigEndian(base), FromBigEndian(exp)) % FromBigEndian(p)
    ensures |ModExp(lib, base, exp, p).value| <= |p|
  {
    hide FromBigEndian, BigEndian, Pow, ByteLen, Pow256;
    var b, e, m := FromBigEndian(base), FromBigEndian(exp), FromBigEndian(p);
    ModBase(b, e, m);
    ByteLenFits(m);
    ByteLenMinimal(m, |p|);
    var v := Pow(b % m, e) % m;
    assert v < m;
    BigEndianDecodes(v, ByteLen(m));
  }

  method LeftPad(b: seq<byte>, n: nat) returns (r: seq<byte>)
    ensures r == Padded(b, n)
  {
    if |b| >= n {
      return b;
    }
    var padded := new byte[n](_ => 0);
    for i := 0 to |b|
      invariant forall k :: 0 <= k < n - |b| ==> padded[k] == 0
      invariant forall k :: 0 <= k < i ==> padded[n - |b| + k] == b[k]
    {
      padded[n - |b| + i] := b[i];
    }
    r := padded[..];
  }

  function Padded(b: seq<byte>, n: nat): (r: seq<byte>)
  {
    if |b| >= n then b else seq(n - |b|, _ => 0) + b
  }

  lemma {:induction false} PaddingKeepsValue(b: seq<byte>, n: nat)
    ensures FromBigEndian(Padded(b, n)) == FromBigEndian(b)
    decreases n
  {
    if |b| < n {
      if b == [] {
        ZerosAreZero(n);
        assert Padded(b, n) == seq(n, _ => 0);
      } else {
        var front := b[..|b| - 1];
        PaddingKeepsValue(front, n - 1);
        assert Padded(b, n)[..n - 1] == Padded(front, n - 1);
      }
    }
  }

  lemma {:induction false} ZerosAreZero(n: nat)
    ensures FromBigEndian(seq(n, _ => 0)) == 0
  {
    if n > 0 {
      ZerosAreZero(n - 1);
      assert seq(n, _ => 0)[..n - 1] == seq(n - 1, _ => 0);
    }
  }

  datatype Exchange = Exchange(cke: seq<byte>, preMaster: seq<byte>)

  /** `random` is the private exponent, drawn for the exchange unless that
      fails. */
  method ClientKeyExchange(lib: Bigmod, serverParams: seq<byte>, random: Option<seq<byte>>)
    returns (r: Option<Exchange>)
    ensures r.Some? ==> random.Some? && ParseParams(serverParams).Some?
    ensures r.Some? ==>
              var d := ParseParams(serverParams).value;
              var p := FromBigEndian(d.p);
              var cke := ReadPrefixed(r.value.cke, 2);
              && ValidParams(d)
              && cke.Got? && cke.rest == []
              && FromBigEndian(cke.value) == Pow(FromBigEndian(d.g), FromBigEndian(random.value)) % p
              && FromBigEndian(r.value.preMaster) == Pow(FromBigEndian(d.ys), FromBigEndian(random.value)) % p
              && |cke.value| == |r.value.preMaster| == |d.p|
    ensures r.None? <==>
              ParseParams(serverParams).None? || random.None? ||
              var d := ParseParams(serverParams).value;
              !ValidParams(d) || lib.refusesModulus(d.p) || lib.refusesBase(d.g, d.p) || lib.refusesBase(d.ys, d.p)
  {
    hide FromBigEndian, Pow, ReadPrefixed, Prefixed, ByteLen, Pow256;
    var d :- ParseParams(serverParams);
    var valid := Validate(d);
    if !valid {
      return None;
    }
    if lib.refusesModulus(d.p) {
      return None;
    }
    var x :- random;
    var yc :- ModExp(lib, d.g, x, d.p);
    var z :- ModExp(lib, d.ys, x, d.p);
    ModExpValue(lib, d.g, x, d.p);
    ModExpValue(lib, d.ys, x, d.p);
    var preMaster := LeftPad(z, |d.p|);
    var ycPadded := LeftPad(yc, |d.p|);
    PaddingKeepsValue(z, |d.p|);
    PaddingKeepsValue(yc, |d.p|);
    var cke := BigEndian(|ycPadded|, 2) + ycPadded;
    PrimeSize(serverParams);
    CkeReads(ycPadded);
    r := Some(Exchange(cke, preMaster));
  }

  lemma PrimeSize(b: seq<byte>)
    requires ParseParams(b).Some?
    ensures |ParseParams(b).value.p| < 0x1_0000
  {
    hide ReadPrefixed, Prefixed;
    ReadPrefixedIsPrinted(b, 2);
    Widths();
  }

  lemma CkeReads(y: seq<byte>)
    requires |y| < 0x1_0000
    ensures ReadPrefixed(BigEndian(|y|, 2) + y, 2) == Got(y, [])
  {
    Widths();
    ReadPrefixedPrinted(y, 2, []);
    assert Prefixed(y, 2) + [] == BigEndian(|y|, 2) + y;
  }

  method Validate(d: Params) returns (ok: bool)
    ensures ok == ValidParams(d)
  {
    hide FromBigEndian;
    if |d.p| * 8 < 2048 {
      return false;
    }
    if d.p[|d.p| - 1] % 2 == 0 {
      return false;
    }
    if FromBigEndian(d.g) < 2 {
      return false;
    }
    if FromBigEndian(d.ys) <= 1 {
      return false;
    }
    ok := FromBigEndian(d.ys) < FromBigEndian(d.p) - 1;
  }

  /** For a server that raised g to y, the client's secret is the server's: the
      client's public value raised to y, padded to the length of p. */
  method Agreement(lib: Bigmod, serverParams: seq<byte>, random: Option<seq<byte>>, y: nat)
    returns (r: Option<Exchange>)
    ensures r.Some? ==> ParseParams(serverParams).Some? && ReadPrefixed(r.value.cke, 2).Got?
    ensures r.Some? ==>
              var d := ParseParams(serverParams).value;
              var p := FromBigEndian(d.p);
              var yc := FromBigEndian(ReadPrefixed(r.value.cke, 2).value);
              p > 0 && (FromBigEndian(d.ys) == Pow(FromBigEndian(d.g), y) % p ==>
                && FromBigEndian(r.value.preMaster) == Pow(yc, y) % p
                && r.value.preMaster == BigEndian(Pow(yc, y) % p, |d.p|))
  {
    hide FromBigEndian, Pow, ReadPrefixed, ParseParams, BigEndian;
    r := ClientKeyExchange(lib, serverParams, random);
    if r.Some? {
      ghost var d := ParseParams(serverParams).value;
      SharedSecret(FromBigEndian(d.g), FromBigEndian(random.value), y, FromBigEndian(d.p));
      BigEndianEncodes(r.value.preMaster);
    }
  }
}
