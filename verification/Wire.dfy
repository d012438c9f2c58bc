/** Fixed-width and length-prefixed fields of the handshake encoding. */
module Wire {
  import opened Bytes

  type uint16 = n: int | 0 <= n < 0x1_0000

  /** What a reader leaves: the value and the bytes after it. */
  datatype Read<+T> = Short | Got(value: T, rest: seq<byte>) {
    predicate IsFailure() { Short? }

    function PropagateFailure<U>(): Option<U>
      requires Short?
    {
      None
    }

    function Extract(): (T, seq<byte>)
      requires Got?
    {
      (value, rest)
    }
  }

  function ReadUint8(b: seq<byte>): (r: Read<byte>)
  {
    if |b| < 1 then Short else Got(b[0], b[1..])
  }

  function ReadUint16(b: seq<byte>): (r: Read<uint16>)
  {
    if |b| < 2 then Short else Got(b[0] as int * 256 + b[1], b[2..])
  }

  function ReadBytes(b: seq<byte>, n: nat): (r: Read<seq<byte>>)
  {
    if |b| < n then Short else Got(b[..n], b[n..])
  }

  function Uint16(v: uint16): (r: seq<byte>)
    ensures |r| == 2
  {
    [v / 256, v % 256]
  }

  /** A length of `w` bytes and then that many bytes; `w` is 1, 2 or 3. */
  function ReadPrefixed(b: seq<byte>, w: nat): (r: Read<seq<byte>>)
    ensures r.Got? ==> |b| == w + |r.value| + |r.rest|
  {
    if |b| < w then Short else ReadBytes(b[w..], FromBigEndian(b[..w]))
  }

  /** The printer keeps only the low `w` bytes of the length. */
  function Prefixed(data: seq<byte>, w: nat): (r: seq<byte>)
    ensures |r| == w + |data|
  {
    BigEndian(|data|, w) + data
  }

  lemma ReadUint16Printed(v: uint16, rest: seq<byte>)
    ensures ReadUint16(Uint16(v) + rest) == Got(v, rest)
  {
    assert (Uint16(v) + rest)[2..] == rest;
  }

  lemma ReadBytesPrinted(data: seq<byte>, rest: seq<byte>)
    ensures ReadBytes(data + rest, |data|) == Got(data, rest)
  {
    assert (data + rest)[..|data|] == data && (data + rest)[|data|..] == rest;
  }

  /** Reading a printed field gives it back as long as its length fits. */
  lemma ReadPrefixedPrinted(data: seq<byte>, w: nat, rest: seq<byte>)
    requires |data| < Pow256(w)
    ensures ReadPrefixed(Prefixed(data, w) + rest, w) == Got(data, rest)
  {
    hide BigEndian, FromBigEndian, Pow256;
    var b := Prefixed(data, w) + rest;
    BigEndianDecodes(|data|, w);
    assert b[..w] == BigEndian(|data|, w) && b[w..] == data + rest;
    ReadBytesPrinted(data, rest);
  }

  /** Whatever was read is what the printer writes. */
  lemma ReadPrefixedIsPrinted(b: seq<byte>, w: nat)
    requires ReadPrefixed(b, w).Got?
    ensures var r := ReadPrefixed(b, w);
            b == Prefixed(r.value, w) + r.rest && |r.value| < Pow256(w)
  {
    hide BigEndian, FromBigEndian, Pow256;
    BigEndianEncodes(b[..w]);
    var n := FromBigEndian(b[..w]);
    assert b == b[..w] + b[w..][..n] + b[w..][n..];
  }

  lemma Widths()
    ensures Pow256(1) == 0x100 && Pow256(2) == 0x1_0000 && Pow256(3) == 0x100_0000
  {
    assert Pow256(0) == 1;
  }

  // ---- Lists of pairs -----------------------------------------------------

  /** The even-length list `b` as elements of two bytes each. */
  function DecodePairs<T>(f: (byte, byte) -> T, b: seq<byte>): (r: seq<T>)
    requires |b| % 2 == 0
    ensures |r| == |b| / 2
  {
    seq(|b| / 2, i requires 0 <= i < |b| / 2 => f(b[2 * i], b[2 * i + 1]))
  }

  function EncodePairs<T>(g: T -> (byte, byte), xs: seq<T>): (b: seq<byte>)
    ensures |b| == 2 * |xs|
  {
    seq(2 * |xs|, i requires 0 <= i < 2 * |xs| => if i % 2 == 0 then g(xs[i / 2]).0 else g(xs[i / 2]).1)
  }

  lemma DecodeEncodedPairs<T(!new)>(f: (byte, byte) -> T, g: T -> (byte, byte), xs: seq<T>)
    requires forall x :: f(g(x).0, g(x).1) == x
    ensures DecodePairs(f, EncodePairs(g, xs)) == xs
  {
    var b := EncodePairs(g, xs);
    forall i | 0 <= i < |xs| ensures DecodePairs(f, b)[i] == xs[i] {
      PairAt(g, xs, i);
    }
  }

  lemma PairAt<T>(g: T -> (byte, byte), xs: seq<T>, i: nat)
    requires i < |xs|
    ensures EncodePairs(g, xs)[2 * i] == g(xs[i]).0 && EncodePairs(g, xs)[2 * i + 1] == g(xs[i]).1
  {
    assert (2 * i) / 2 == i && (2 * i) % 2 == 0 && (2 * i + 1) / 2 == i && (2 * i + 1) % 2 == 1;
  }

  method DecodePairsLoop<T(0)>(f: (byte, byte) -> T, b: seq<byte>) returns (r: seq<T>)
    requires |b| % 2 == 0
    ensures r == DecodePairs(f, b)
  {
    var out := new T[|b| / 2];
    for i := 0 to out.Length
      invariant forall k :: 0 <= k < i ==> out[k] == f(b[2 * k], b[2 * k + 1])
    {
      out[i] := f(b[2 * i], b[2 * i + 1]);
    }
    r := out[..];
  }

  method EncodePairsLoop<T>(g: T -> (byte, byte), xs: seq<T>) returns (b: seq<byte>)
    ensures b == EncodePairs(g, xs)
  {
    b := [];
    for i := 0 to |xs|
      invariant b == EncodePairs(g, xs[..i])
    {
      var (hi, lo) := g(xs[i]);
      b := b + [hi] + [lo];
      EncodePairsSnoc(g, xs[..i], xs[i]);
      assert xs[..i] + [xs[i]] == xs[..i + 1];
    }
    assert xs[..|xs|] == xs;
  }

  lemma EncodePairsSnoc<T>(g: T -> (byte, byte), xs: seq<T>, x: T)
    ensures EncodePairs(g, xs + [x]) == EncodePairs(g, xs) + [g(x).0] + [g(x).1]
  {
  }

  // ---- Lists of length-prefixed entries -----------------------------------

  function Prepend<T>(xs: seq<T>, r: Option<seq<T>>): (s: Option<seq<T>>)
  {
    match r
    case None => None
    case Some(ys) => Some(xs + ys)
  }

  lemma PrependNothing<T>(r: Option<seq<T>>)
    ensures Prepend([], r) == r
  {
    if r.Some? {
      assert [] + r.value == r.value;
    }
  }

  lemma PrependTwice<T>(xs: seq<T>, ys: seq<T>, r: Option<seq<T>>)
    ensures Prepend(xs, Prepend(ys, r)) == Prepend(xs + ys, r)
  {
    if r.Some? {
      assert xs + ys + r.value == xs + (ys + r.value);
    }
  }

  /** Entries with a `w`-byte length each, up to the end of `b`. */
  function ReadVector(b: seq<byte>, w: nat, emptyOk: bool): (r: Option<seq<seq<byte>>>)
    requires w > 0
    decreases |b|
  {
    if b == [] then Some([])
    else match ReadPrefixed(b, w)
      case Short => None
      case Got(entry, rest) =>
        if entry == [] && !emptyOk then None
        else Prepend([entry], ReadVector(rest, w, emptyOk))
  }

  function Vector(xs: seq<seq<byte>>, w: nat): (r: seq<byte>)
  {
    if xs == [] then [] else Prefixed(xs[0], w) + Vector(xs[1..], w)
  }

  predicate VectorFits(xs: seq<seq<byte>>, w: nat, emptyOk: bool)
  {
    forall i :: 0 <= i < |xs| ==> |xs[i]| < Pow256(w) && (emptyOk || xs[i] != [])
  }

  /** The reader accepts exactly the printed lists. */
  lemma {:induction false} ReadVectorPrinted(xs: seq<seq<byte>>, w: nat, emptyOk: bool)
    requires w > 0 && VectorFits(xs, w, emptyOk)
    ensures ReadVector(Vector(xs, w), w, emptyOk) == Some(xs)
    decreases |xs|
  {
    hide ReadPrefixed, Prefixed, Pow256;
    if xs != [] {
      ReadPrefixedPrinted(xs[0], w, Vector(xs[1..], w));
      ReadVectorPrinted(xs[1..], w, emptyOk);
      assert |Vector(xs, w)| >= w && [xs[0]] + xs[1..] == xs;
    }
  }

  lemma {:induction false} ReadVectorIsPrinted(b: seq<byte>, w: nat, emptyOk: bool)
    requires w > 0 && ReadVector(b, w, emptyOk).Some?
    ensures var xs := ReadVector(b, w, emptyOk).value;
            b == Vector(xs, w) && VectorFits(xs, w, emptyOk)
    decreases |b|
  {
    hide Prefixed, Pow256;
    if b != [] {
      ReadPrefixedIsPrinted(b, w);
      var r := ReadPrefixed(b, w);
      ReadVectorIsPrinted(r.rest, w, emptyOk);
      assert ([r.value] + ReadVector(r.rest, w, emptyOk).value)[1..] == ReadVector(r.rest, w, emptyOk).value;
    }
  }

  method ReadVectorLoop(b: seq<byte>, w: nat, emptyOk: bool) returns (r: Option<seq<seq<byte>>>)
    requires w > 0
    ensures r == ReadVector(b, w, emptyOk)
  {
    var list, out := b, [];
    PrependNothing(ReadVector(b, w, emptyOk));
    while list != []
      invariant ReadVector(b, w, emptyOk) == Prepend(out, ReadVector(list, w, emptyOk))
      decreases |list|
    {
      match ReadPrefixed(list, w)
      case Short => return None;
      case Got(entry, rest) =>
        if entry == [] && !emptyOk {
          return None;
        }
        PrependTwice(out, [entry], ReadVector(rest, w, emptyOk));
        out := out + [entry];
        list := rest;
    }
    assert out + [] == out;
    r := Some(out);
  }

  method VectorLoop(xs: seq<seq<byte>>, w: nat) returns (b: seq<byte>)
    ensures b == Vector(xs, w)
  {
    b := [];
    for i := 0 to |xs|
      invariant Vector(xs, w) == b + Vector(xs[i..], w)
    {
      b := b + BigEndian(|xs[i]|, w);
      b := b + xs[i];
      assert xs[i..][1..] == xs[i + 1..];
    }
  }

  // ---- Fields by position -------------------------------------------------

  /** The bytes from `at` on are `x`. */
  predicate BytesAt(b: seq<byte>, at: nat, x: seq<byte>)
  {
    at + |x| <= |b| && b[at..at + |x|] == x
  }

  /** The `w` bytes from `at` on are the number `n`. */
  predicate FieldAt(b: seq<byte>, at: nat, w: nat, n: nat)
  {
    at + w <= |b| && FromBigEndian(b[at..at + w]) == n
  }

  lemma ConcatAt(b: seq<byte>, at: nat, x: seq<byte>, y: seq<byte>)
    ensures BytesAt(b, at, x + y) <==> BytesAt(b, at, x) && BytesAt(b, at + |x|, y)
  {
    if at + |x + y| <= |b| {
      var whole := b[at..at + |x + y|];
      assert whole == b[at..at + |x|] + b[at + |x|..at + |x| + |y|];
      assert whole[..|x|] == b[at..at + |x|] && whole[|x|..] == b[at + |x|..at + |x| + |y|];
      assert (x + y)[..|x|] == x && (x + y)[|x|..] == y;
    }
  }

  lemma WholeAt(b: seq<byte>, x: seq<byte>)
    ensures b == x <==> |b| == |x| && BytesAt(b, 0, x)
  {
  }

  /** A string is its front and what follows it. */
  lemma FrontAt(b: seq<byte>, x: seq<byte>, y: seq<byte>)
    ensures b == x + y <==> BytesAt(b, 0, x) && b[|x|..] == y
  {
    if b == x + y {
      assert b[0..|x|] == x && b[|x|..] == y;
    } else if BytesAt(b, 0, x) {
      assert b == b[0..|x|] + b[|x|..];
    }
  }

  lemma FieldBelow(b: seq<byte>, at: nat, w: nat, n: nat)
    requires FieldAt(b, at, w, n)
    ensures n < Pow256(w)
  {
  }

  lemma NumberAt(b: seq<byte>, at: nat, w: nat, n: nat)
    requires n < Pow256(w)
    ensures BytesAt(b, at, BigEndian(n, w)) <==> FieldAt(b, at, w, n)
  {
    hide BigEndian, FromBigEndian, Pow256;
    BigEndianDecodes(n, w);
    if FieldAt(b, at, w, n) {
      BigEndianEncodes(b[at..at + w]);
    }
  }

  lemma PrefixedAt(b: seq<byte>, at: nat, data: seq<byte>, w: nat)
    requires |data| < Pow256(w)
    ensures BytesAt(b, at, Prefixed(data, w)) <==> FieldAt(b, at, w, |data|) && BytesAt(b, at + w, data)
  {
    hide BytesAt, FieldAt, BigEndian, Pow256;
    ConcatAt(b, at, BigEndian(|data|, w), data);
    NumberAt(b, at, w, |data|);
  }

  lemma Uint16At(b: seq<byte>, at: nat, v: uint16)
    ensures BytesAt(b, at, Uint16(v)) <==> FieldAt(b, at, 2, v)
  {
    hide BytesAt, FieldAt;
    assert BigEndian(v, 2) == BigEndian(v / 256, 1) + [v % 256];
    assert BigEndian(v / 256, 1) == BigEndian(v / 256 / 256, 0) + [v / 256 % 256] == [v / 256];
    assert Uint16(v) == BigEndian(v, 2);
    Widths();
    NumberAt(b, at, 2, v);
  }

  lemma ByteAt(b: seq<byte>, at: nat, x: byte)
    ensures BytesAt(b, at, [x]) <==> FieldAt(b, at, 1, x)
  {
    if at + 1 <= |b| {
      assert b[at..at + 1] == [b[at]] && [b[at]][..0] == [];
      assert FromBigEndian([b[at]]) == b[at];
    }
  }

  /** Element `i` of a list of pairs. */
  lemma {:induction false} PairsAt<T>(b: seq<byte>, at: nat, g: T -> (byte, byte), xs: seq<T>)
    ensures BytesAt(b, at, EncodePairs(g, xs)) <==>
            && at + 2 * |xs| <= |b|
            && forall i :: 0 <= i < |xs| ==>
                 FieldAt(b, at + 2 * i, 1, g(xs[i]).0) && FieldAt(b, at + 2 * i + 1, 1, g(xs[i]).1)
    decreases |xs|
  {
    hide EncodePairs;
    if xs == [] {
      EmptyAt(b, at);
      assert EncodePairs(g, xs) == [];
    } else {
      var front, x := xs[..|xs| - 1], xs[|xs| - 1];
      assert xs == front + [x];
      PairsAt(b, at, g, front);
      EncodePairsSnoc(g, front, x);
      var p := EncodePairs(g, front);
      ConcatAt(b, at, p + [g(x).0], [g(x).1]);
      ConcatAt(b, at, p, [g(x).0]);
      ByteAt(b, at + |p|, g(x).0);
      ByteAt(b, at + |p| + 1, g(x).1);
    }
  }

  /** Where entry `i` of a list of length-prefixed entries starts. */
  function Offset(xs: seq<seq<byte>>, w: nat, i: nat): (n: nat)
    requires i <= |xs|
  {
    if i == 0 then 0 else Offset(xs, w, i - 1) + w + |xs[i - 1]|
  }

  /** Length and contents of every entry. */
  predicate EntriesAt(b: seq<byte>, at: nat, xs: seq<seq<byte>>, w: nat)
  {
    && at + Offset(xs, w, |xs|) <= |b|
    && forall i :: 0 <= i < |xs| ==> EntryAt(b, at, xs, w, i)
  }

  predicate EntryAt(b: seq<byte>, at: nat, xs: seq<seq<byte>>, w: nat, i: nat)
    requires i < |xs|
  {
    FieldAt(b, at + Offset(xs, w, i), w, |xs[i]|) && BytesAt(b, at + Offset(xs, w, i) + w, xs[i])
  }

  lemma {:induction false} VectorSnoc(xs: seq<seq<byte>>, w: nat, x: seq<byte>)
    ensures Vector(xs + [x], w) == Vector(xs, w) + Prefixed(x, w)
    decreases |xs|
  {
    hide Prefixed;
    if xs == [] {
      assert xs + [x] == [x] && [x][1..] == [];
      assert Vector([x][1..], w) == [];
    } else {
      assert (xs + [x])[0] == xs[0] && (xs + [x])[1..] == xs[1..] + [x];
      VectorSnoc(xs[1..], w, x);
    }
  }

  lemma VectorAt(b: seq<byte>, at: nat, xs: seq<seq<byte>>, w: nat)
    requires forall i :: 0 <= i < |xs| ==> |xs[i]| < Pow256(w)
    ensures |Vector(xs, w)| == Offset(xs, w, |xs|)
    ensures BytesAt(b, at, Vector(xs, w)) <==> EntriesAt(b, at, xs, w)
  {
    hide Vector, Pow256, Offset, EntryAt, BytesAt;
    VectorUpTo(b, at, xs, w, |xs|);
    assert xs[..|xs|] == xs;
  }

  /** The same of the first `n` entries. */
  lemma {:induction false} VectorUpTo(b: seq<byte>, at: nat, xs: seq<seq<byte>>, w: nat, n: nat)
    requires n <= |xs| && forall i :: 0 <= i < |xs| ==> |xs[i]| < Pow256(w)
    ensures |Vector(xs[..n], w)| == Offset(xs, w, n)
    ensures BytesAt(b, at, Vector(xs[..n], w)) <==>
            at + Offset(xs, w, n) <= |b| && forall i :: 0 <= i < n ==> EntryAt(b, at, xs, w, i)
    decreases n
  {
    hide Vector, Pow256, Prefixed, BytesAt, EntryAt, Offset;
    if n == 0 {
      EmptyVectorAt(b, at, xs, w);
      assert xs[..0] == [];
    } else {
      var front, x := xs[..n - 1], xs[n - 1];
      assert xs[..n] == front + [x];
      VectorUpTo(b, at, xs, w, n - 1);
      VectorSnoc(front, w, x);
      ConcatAt(b, at, Vector(front, w), Prefixed(x, w));
      PrefixedAt(b, at + |Vector(front, w)|, x, w);
      EntryFits(b, at, xs, w, n - 1);
    }
  }

  lemma EmptyVectorAt(b: seq<byte>, at: nat, xs: seq<seq<byte>>, w: nat)
    ensures Vector([], w) == [] && Offset(xs, w, 0) == 0 && (BytesAt(b, at, []) <==> at <= |b|)
  {
    EmptyAt(b, at);
  }

  lemma EmptyAt(b: seq<byte>, at: nat)
    ensures BytesAt(b, at, []) <==> at <= |b|
  {
  }

  lemma EntryFits(b: seq<byte>, at: nat, xs: seq<seq<byte>>, w: nat, n: nat)
    requires n < |xs|
    ensures Offset(xs, w, n + 1) == Offset(xs, w, n) + w + |xs[n]|
    ensures EntryAt(b, at, xs, w, n) <==>
            FieldAt(b, at + Offset(xs, w, n), w, |xs[n]|) && BytesAt(b, at + Offset(xs, w, n) + w, xs[n])
    ensures EntryAt(b, at, xs, w, n) ==> at + Offset(xs, w, n + 1) <= |b|
  {
  }
}
