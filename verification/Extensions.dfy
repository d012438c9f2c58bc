/** The hello extensions: parsers, canonical printer, and how they invert each
    other. */
module Extensions {
  import opened Bytes
  import opened Wire

  const SERVER_NAME: uint16 := 0x0000
  const SUPPORTED_GROUPS: uint16 := 0x000A
  const EC_POINT_FORMATS: uint16 := 0x000B
  const SIGNATURE_ALGORITHMS: uint16 := 0x000D
  const EXTENDED_MASTER_SECRET: uint16 := 0x0017
  const RENEGOTIATION_INFO: uint16 := 0xFF01

  datatype SigAndHash = SigAndHash(hash: byte, sig: byte)

  /** An absent extension and an empty one have the same value. */
  datatype Ext = Ext(
    serverName: seq<byte>,
    groups: seq<uint16>,
    formats: seq<byte>,
    sigAlgs: seq<SigAndHash>,
    ems: bool,
    ri: bool)

  const NO_EXT: Ext := Ext([], [], [], [], false, false)

  // ---- Parsers ------------------------------------------------------------

  function ToUint16(hi: byte, lo: byte): (v: uint16)
  {
    hi as int * 256 + lo
  }

  function OfUint16(v: uint16): (r: (byte, byte))
  {
    (v / 256, v % 256)
  }

  function ToAlg(hi: byte, lo: byte): (a: SigAndHash)
  {
    SigAndHash(hi, lo)
  }

  function OfAlg(a: SigAndHash): (r: (byte, byte))
  {
    (a.hash, a.sig)
  }

  /** The last host name of a list; every entry must be a host name. */
  function LastName(list: seq<byte>, name: seq<byte>): (r: Option<seq<byte>>)
    decreases |list|
  {
    if list == [] then Some(name)
    else match ReadPrefixed(list[1..], 2)
      case Short => None
      case Got(next, rest) => if list[0] != 0 then None else LastName(rest, next)
  }

  function ParseServerName(b: seq<byte>): (r: Option<seq<byte>>)
  {
    if b == [] then Some([])
    else match ReadPrefixed(b, 2)
      case Short => None
      case Got(list, _) => LastName(list, [])
  }

  /** Bytes after the list are ignored. */
  function ParsePairList<T>(f: (byte, byte) -> T, b: seq<byte>): (r: Option<seq<T>>)
  {
    match ReadPrefixed(b, 2)
    case Short => None
    case Got(list, _) => if |list| % 2 != 0 then None else Some(DecodePairs(f, list))
  }

  /** One extension of a known type stored into its field. */
  function SetExt(out: Ext, t: uint16, body: seq<byte>): (r: Option<Ext>)
  {
    if t == SERVER_NAME then
      match ParseServerName(body) case None => None case Some(n) => Some(out.(serverName := n))
    else if t == SUPPORTED_GROUPS then
      match ParsePairList(ToUint16, body) case None => None case Some(gs) => Some(out.(groups := gs))
    else if t == EC_POINT_FORMATS then
      match ReadPrefixed(body, 1) case Short => None case Got(fs, _) => Some(out.(formats := fs))
    else if t == SIGNATURE_ALGORITHMS then
      match ParsePairList(ToAlg, body) case None => None case Some(algs) => Some(out.(sigAlgs := algs))
    else if t == EXTENDED_MASTER_SECRET then
      if body != [] then None else Some(out.(ems := true))
    else if t == RENEGOTIATION_INFO then
      if body != [0] then None else Some(out.(ri := true))
    else None
  }

  datatype Parsed = Parsed(ext: Ext, types: seq<uint16>)

  function ParseExts(data: seq<byte>, seen: seq<uint16>, out: Ext): (r: Option<Parsed>)
    decreases |data|
  {
    if data == [] then Some(Parsed(out, seen))
    else match ReadUint16(data)
      case Short => None
      case Got(t, d1) =>
        if t in seen then None
        else match ReadPrefixed(d1, 2)
          case Short => None
          case Got(body, rest) =>
            match SetExt(out, t, body)
            case None => None
            case Some(out') => ParseExts(rest, seen + [t], out')
  }

  // ---- Printer ------------------------------------------------------------

  datatype Piece = Piece(t: uint16, body: seq<byte>)

  function NamePiece(e: Ext): (r: seq<Piece>)
  {
    if e.serverName == [] then []
    else [Piece(SERVER_NAME, Prefixed([0] + Prefixed(e.serverName, 2), 2))]
  }

  function GroupsPiece(e: Ext): (r: seq<Piece>)
  {
    if e.groups == [] then []
    else [Piece(SUPPORTED_GROUPS, Prefixed(EncodePairs(OfUint16, e.groups), 2))]
  }

  function FormatsPiece(e: Ext): (r: seq<Piece>)
  {
    if e.formats == [] then [] else [Piece(EC_POINT_FORMATS, Prefixed(e.formats, 1))]
  }

  function AlgsPiece(e: Ext): (r: seq<Piece>)
  {
    if e.sigAlgs == [] then []
    else [Piece(SIGNATURE_ALGORITHMS, Prefixed(EncodePairs(OfAlg, e.sigAlgs), 2))]
  }

  function EmsPiece(e: Ext): (r: seq<Piece>)
  {
    if e.ems then [Piece(EXTENDED_MASTER_SECRET, [])] else []
  }

  function RiPiece(e: Ext): (r: seq<Piece>)
  {
    if e.ri then [Piece(RENEGOTIATION_INFO, [0])] else []
  }

  /** The present extensions in canonical order. */
  function Pieces(e: Ext): (r: seq<Piece>)
  {
    NamePiece(e) + GroupsPiece(e) + FormatsPiece(e) + AlgsPiece(e) + EmsPiece(e) + RiPiece(e)
  }

  function PrintPieces(ps: seq<Piece>): (r: seq<byte>)
  {
    if ps == [] then [] else Uint16(ps[0].t) + Prefixed(ps[0].body, 2) + PrintPieces(ps[1..])
  }

  function Types(ps: seq<Piece>): (r: seq<uint16>)
    ensures |r| == |ps|
  {
    seq(|ps|, i requires 0 <= i < |ps| => ps[i].t)
  }

  function MarshalExtensions(e: Ext): (r: seq<byte>)
  {
    var list := PrintPieces(Pieces(e));
    if list == [] then [] else Prefixed(list, 2)
  }

  // ---- Parsing what was printed -------------------------------------------

  function Store(out: Ext, ps: seq<Piece>): (r: Option<Ext>)
    decreases |ps|
  {
    if ps == [] then Some(out)
    else match SetExt(out, ps[0].t, ps[0].body)
      case None => None
      case Some(out') => Store(out', ps[1..])
  }

  lemma {:induction false} StoreConcat(out: Ext, a: seq<Piece>, b: seq<Piece>)
    ensures Store(out, a + b) == match Store(out, a) case None => None case Some(mid) => Store(mid, b)
    decreases |a|
  {
    hide SetExt;
    if a == [] {
      assert a + b == b;
    } else {
      assert (a + b)[0] == a[0] && (a + b)[1..] == a[1..] + b;
      var r := SetExt(out, a[0].t, a[0].body);
      if r.Some? {
        StoreConcat(r.value, a[1..], b);
      }
    }
  }

  predicate Distinct(ts: seq<uint16>)
  {
    forall i, j :: 0 <= i < j < |ts| ==> ts[i] != ts[j]
  }

  predicate BodiesFit(ps: seq<Piece>)
  {
    forall i :: 0 <= i < |ps| ==> |ps[i].body| < 0x1_0000
  }

  lemma {:induction false} ParsePrinted(ps: seq<Piece>, seen: seq<uint16>, out: Ext)
    requires Distinct(seen + Types(ps)) && BodiesFit(ps)
    ensures ParseExts(PrintPieces(ps), seen, out) ==
            match Store(out, ps) case None => None case Some(e) => Some(Parsed(e, seen + Types(ps)))
    decreases |ps|
  {
    hide SetExt, ReadUint16, ReadPrefixed, Prefixed;
    if ps == [] {
      assert seen + Types(ps) == seen;
    } else {
      var p, rest := ps[0], PrintPieces(ps[1..]);
      var after := Prefixed(p.body, 2) + rest;
      assert PrintPieces(ps) == Uint16(p.t) + after;
      ReadUint16Printed(p.t, after);
      Widths();
      ReadPrefixedPrinted(p.body, 2, rest);
      assert p.t !in seen by {
        assert (seen + Types(ps))[|seen|] == p.t;
        assert forall i :: 0 <= i < |seen| ==> (seen + Types(ps))[i] == seen[i];
      }
      assert seen + [p.t] + Types(ps[1..]) == seen + Types(ps);
      var r := SetExt(out, p.t, p.body);
      if r.Some? {
        ParsePrinted(ps[1..], seen + [p.t], r.value);
      }
    }
  }

  /** Every length of the printed form fits its prefix. */
  predicate InRange(e: Ext)
  {
    FieldsFit(e) && Size(e) < 0x1_0000
  }

  predicate FieldsFit(e: Ext)
  {
    && |e.serverName| + 5 < 0x1_0000 && 2 * |e.groups| + 2 < 0x1_0000
    && |e.formats| < 0x100 && 2 * |e.sigAlgs| + 2 < 0x1_0000
  }

  function Size(e: Ext): (n: nat)
  {
    (if e.serverName == [] then 0 else 9 + |e.serverName|)
    + (if e.groups == [] then 0 else 6 + 2 * |e.groups|)
    + (if e.formats == [] then 0 else 5 + |e.formats|)
    + (if e.sigAlgs == [] then 0 else 6 + 2 * |e.sigAlgs|)
    + (if e.ems then 4 else 0) + (if e.ri then 5 else 0)
  }

  lemma {:induction false} PrintConcat(a: seq<Piece>, b: seq<Piece>)
    ensures PrintPieces(a + b) == PrintPieces(a) + PrintPieces(b)
    decreases |a|
  {
    hide Prefixed;
    if a == [] {
      assert a + b == b;
    } else {
      assert (a + b)[0] == a[0] && (a + b)[1..] == a[1..] + b;
      PrintConcat(a[1..], b);
    }
  }

  lemma PrintOne(p: Piece)
    ensures |PrintPieces([p])| == 4 + |p.body|
  {
    assert PrintPieces([p][1..]) == [];
  }

  lemma PrintedSize(e: Ext)
    ensures |PrintPieces(Pieces(e))| == Size(e)
  {
    hide PrintPieces, NamePiece, GroupsPiece, FormatsPiece, AlgsPiece, EmsPiece, RiPiece;
    var a, b, c, d, f, g := NamePiece(e), GroupsPiece(e), FormatsPiece(e), AlgsPiece(e), EmsPiece(e), RiPiece(e);
    PrintConcat(a, b);
    PrintConcat(a + b, c);
    PrintConcat(a + b + c, d);
    PrintConcat(a + b + c + d, f);
    PrintConcat(a + b + c + d + f, g);
    PieceSizes(e);
  }

  lemma PieceSizes(e: Ext)
    ensures |PrintPieces(NamePiece(e))| == if e.serverName == [] then 0 else 9 + |e.serverName|
    ensures |PrintPieces(GroupsPiece(e))| == if e.groups == [] then 0 else 6 + 2 * |e.groups|
    ensures |PrintPieces(FormatsPiece(e))| == if e.formats == [] then 0 else 5 + |e.formats|
    ensures |PrintPieces(AlgsPiece(e))| == if e.sigAlgs == [] then 0 else 6 + 2 * |e.sigAlgs|
    ensures |PrintPieces(EmsPiece(e))| == if e.ems then 4 else 0
    ensures |PrintPieces(RiPiece(e))| == if e.ri then 5 else 0
  {
    hide Prefixed, PrintPieces, EncodePairs;
    PieceSize(NamePiece(e));
    PieceSize(GroupsPiece(e));
    PieceSize(FormatsPiece(e));
    PieceSize(AlgsPiece(e));
    PieceSize(EmsPiece(e));
    PieceSize(RiPiece(e));
  }

  lemma PieceSize(ps: seq<Piece>)
    requires |ps| <= 1
    ensures |PrintPieces(ps)| == if ps == [] then 0 else 4 + |ps[0].body|
  {
    if |ps| == 1 {
      assert ps == [ps[0]];
      PrintOne(ps[0]);
    }
  }

  lemma StoreName(out: Ext, e: Ext)
    requires FieldsFit(e) && out.serverName == []
    ensures Store(out, NamePiece(e)) == Some(out.(serverName := e.serverName))
  {
    hide ReadPrefixed, Prefixed;
    if e.serverName != [] {
      var entry := Prefixed(e.serverName, 2);
      var list := [0] + entry;
      Widths();
      ReadPrefixedPrinted(e.serverName, 2, []);
      assert entry + [] == entry && list[1..] == entry;
      assert LastName(list, []) == LastName([], e.serverName);
      ReadPrefixedPrinted(list, 2, []);
      assert Prefixed(list, 2) + [] == Prefixed(list, 2);
      StoreOne(out, Piece(SERVER_NAME, Prefixed(list, 2)));
    }
  }

  lemma StoreOne(out: Ext, p: Piece)
    ensures Store(out, [p]) == SetExt(out, p.t, p.body)
  {
    hide SetExt;
    assert [p][1..] == [];
  }

  lemma ParsePairListPrinted<T(!new)>(f: (byte, byte) -> T, g: T -> (byte, byte), xs: seq<T>)
    requires forall x :: f(g(x).0, g(x).1) == x
    requires 2 * |xs| < 0x1_0000
    ensures ParsePairList(f, Prefixed(EncodePairs(g, xs), 2)) == Some(xs)
  {
    hide ReadPrefixed, Prefixed, DecodePairs, EncodePairs;
    var list := EncodePairs(g, xs);
    Widths();
    ReadPrefixedPrinted(list, 2, []);
    assert Prefixed(list, 2) + [] == Prefixed(list, 2);
    DecodeEncodedPairs(f, g, xs);
  }

  lemma StoreGroups(out: Ext, e: Ext)
    requires FieldsFit(e) && out.groups == []
    ensures Store(out, GroupsPiece(e)) == Some(out.(groups := e.groups))
  {
    hide Prefixed, EncodePairs, ParsePairList;
    if e.groups != [] {
      ParsePairListPrinted(ToUint16, OfUint16, e.groups);
      StoreOne(out, GroupsPiece(e)[0]);
    }
  }

  lemma StoreFormats(out: Ext, e: Ext)
    requires FieldsFit(e) && out.formats == []
    ensures Store(out, FormatsPiece(e)) == Some(out.(formats := e.formats))
  {
    hide Prefixed, ReadPrefixed;
    if e.formats != [] {
      Widths();
      ReadPrefixedPrinted(e.formats, 1, []);
      assert Prefixed(e.formats, 1) + [] == Prefixed(e.formats, 1);
      StoreOne(out, FormatsPiece(e)[0]);
    }
  }

  lemma StoreAlgs(out: Ext, e: Ext)
    requires FieldsFit(e) && out.sigAlgs == []
    ensures Store(out, AlgsPiece(e)) == Some(out.(sigAlgs := e.sigAlgs))
  {
    hide Prefixed, EncodePairs, ParsePairList;
    if e.sigAlgs != [] {
      ParsePairListPrinted(ToAlg, OfAlg, e.sigAlgs);
      StoreOne(out, AlgsPiece(e)[0]);
    }
  }

  lemma StoreEms(out: Ext, e: Ext)
    requires !out.ems
    ensures Store(out, EmsPiece(e)) == Some(out.(ems := e.ems))
  {
    if e.ems {
      StoreOne(out, EmsPiece(e)[0]);
    }
  }

  lemma StorePieces(e: Ext)
    requires FieldsFit(e)
    ensures Store(NO_EXT, Pieces(e)) == Some(e)
  {
    hide SetExt, Store, NamePiece, GroupsPiece, FormatsPiece, AlgsPiece, EmsPiece, RiPiece;
    var a, b, c, d, f, g := NamePiece(e), GroupsPiece(e), FormatsPiece(e), AlgsPiece(e), EmsPiece(e), RiPiece(e);
    StoreConcat(NO_EXT, a + b + c + d + f, g);
    StoreConcat(NO_EXT, a + b + c + d, f);
    StoreConcat(NO_EXT, a + b + c, d);
    StoreConcat(NO_EXT, a + b, c);
    StoreConcat(NO_EXT, a, b);
    var e1 := NO_EXT.(serverName := e.serverName);
    var e2 := e1.(groups := e.groups);
    var e3 := e2.(formats := e.formats);
    var e4 := e3.(sigAlgs := e.sigAlgs);
    var e5 := e4.(ems := e.ems);
    StoreName(NO_EXT, e);
    StoreGroups(e1, e);
    StoreFormats(e2, e);
    StoreAlgs(e3, e);
    StoreEms(e4, e);
    StoreRi(e5, e);
  }

  lemma StoreRi(out: Ext, e: Ext)
    requires !out.ri
    ensures Store(out, RiPiece(e)) == Some(out.(ri := e.ri))
  {
    if e.ri {
      StoreOne(out, RiPiece(e)[0]);
    }
  }

  /** Types strictly ascending from `lo` to below `hi`, and bodies that fit. */
  predicate Ascending(ps: seq<Piece>, lo: int, hi: int)
  {
    && (forall i :: 0 <= i < |ps| ==> lo <= ps[i].t < hi && |ps[i].body| < 0x1_0000)
    && (forall i, j :: 0 <= i < j < |ps| ==> ps[i].t < ps[j].t)
  }

  lemma AscendingConcat(a: seq<Piece>, b: seq<Piece>, lo: int, mid: int, hi: int)
    requires Ascending(a, lo, mid) && Ascending(b, mid, hi) && lo <= mid <= hi
    ensures Ascending(a + b, lo, hi)
  {
  }

  lemma PiecesShape(e: Ext)
    requires FieldsFit(e)
    ensures Distinct(Types(Pieces(e))) && BodiesFit(Pieces(e))
  {
    var a, b, c, d, f, g := NamePiece(e), GroupsPiece(e), FormatsPiece(e), AlgsPiece(e), EmsPiece(e), RiPiece(e);
    PiecesInOrder(e);
    hide NamePiece, GroupsPiece, FormatsPiece, AlgsPiece, EmsPiece, RiPiece;
    AscendingConcat(a, b, 0, 0xA, 0xB);
    AscendingConcat(a + b, c, 0, 0xB, 0xC);
    AscendingConcat(a + b + c, d, 0, 0xC, 0x17);
    AscendingConcat(a + b + c + d, f, 0, 0x17, 0xFF01);
    AscendingConcat(a + b + c + d + f, g, 0, 0xFF01, 0x1_0000);
  }

  lemma PiecesInOrder(e: Ext)
    requires FieldsFit(e)
    ensures Ascending(NamePiece(e), 0, 0xA) && Ascending(GroupsPiece(e), 0xA, 0xB)
    ensures Ascending(FormatsPiece(e), 0xB, 0xC) && Ascending(AlgsPiece(e), 0xC, 0x17)
    ensures Ascending(EmsPiece(e), 0x17, 0xFF01) && Ascending(RiPiece(e), 0xFF01, 0x1_0000)
  {
    hide Prefixed, EncodePairs;
  }

  /** The printed extension list parses to the same extensions, and the types
      are reported in canonical order. */
  lemma ParseMarshalled(e: Ext)
    requires FieldsFit(e)
    ensures ParseExts(PrintPieces(Pieces(e)), [], NO_EXT) == Some(Parsed(e, Types(Pieces(e))))
  {
    hide Pieces, ParseExts, PrintPieces, Store, Distinct, BodiesFit;
    PiecesShape(e);
    assert [] + Types(Pieces(e)) == Types(Pieces(e));
    ParsePrinted(Pieces(e), [], NO_EXT);
    StorePieces(e);
  }

  // ---- Which name is kept -------------------------------------------------

  /** All host names of a list. */
  function Names(list: seq<byte>): (r: Option<seq<seq<byte>>>)
    decreases |list|
  {
    if list == [] then Some([])
    else match ReadPrefixed(list[1..], 2)
      case Short => None
      case Got(next, rest) =>
        if list[0] != 0 then None
        else match Names(rest)
          case None => None
          case Some(ns) => Some([next] + ns)
  }

  function PrintNames(ns: seq<seq<byte>>): (r: seq<byte>)
  {
    if ns == [] then [] else [0] + (Prefixed(ns[0], 2) + PrintNames(ns[1..]))
  }

  lemma {:induction false} NamesPrinted(ns: seq<seq<byte>>)
    requires forall i :: 0 <= i < |ns| ==> |ns[i]| < 0x1_0000
    ensures Names(PrintNames(ns)) == Some(ns)
    decreases |ns|
  {
    if ns != [] {
      var name, more := ns[0], ns[1..];
      assert ns == [name] + more;
      NamesPrinted(more);
      NamesCons(name, PrintNames(more), more);
      hide Names, Prefixed;
      assert PrintNames(ns) == [0] + (Prefixed(name, 2) + PrintNames(more));
    }
  }

  lemma NamesCons(name: seq<byte>, rest: seq<byte>, ns: seq<seq<byte>>)
    requires |name| < 0x1_0000 && Names(rest) == Some(ns)
    ensures Names([0] + (Prefixed(name, 2) + rest)) == Some([name] + ns)
  {
    hide ReadPrefixed, Prefixed;
    Widths();
    ReadPrefixedPrinted(name, 2, rest);
    assert ([0] + (Prefixed(name, 2) + rest))[1..] == Prefixed(name, 2) + rest;
  }

  function LastOr(ns: seq<seq<byte>>, name: seq<byte>): (r: seq<byte>)
  {
    if ns == [] then name else ns[|ns| - 1]
  }

  lemma {:induction false} LastNameOf(list: seq<byte>, name: seq<byte>)
    ensures LastName(list, name).Some? <==> Names(list).Some?
    ensures Names(list).Some? ==> LastName(list, name) == Some(LastOr(Names(list).value, name))
    decreases |list|
  {
    hide ReadPrefixed;
    if list != [] {
      var r := ReadPrefixed(list[1..], 2);
      if r.Got? && list[0] == 0 {
        LastNameOf(r.rest, r.value);
      }
    }
  }

  /** The loop over the list runs at most once. */
  predicate OneEntry(list: seq<byte>)
  {
    list == [] || (|list| >= 3 && |list| == 3 + FromBigEndian(list[1..3]))
  }

  lemma OneEntryIff(list: seq<byte>)
    requires Names(list).Some?
    ensures |Names(list).value| <= 1 <==> OneEntry(list)
  {
    hide FromBigEndian, BigEndian;
    if list != [] {
      var r := ReadPrefixed(list[1..], 2);
      ReadPrefixedIsPrinted(list[1..], 2);
      assert list[1..][..2] == list[1..3];
      assert |list| == 3 + |r.value| + |r.rest|;
      assert |r.rest| > 0 ==> |Names(r.rest).value| > 0;
    }
  }

  /** An accepted name list yields its first name exactly when it has at most
      one entry or its last entry repeats the first. */
  lemma KeptIsFirst(b: seq<byte>)
    requires b != [] && ParseServerName(b).Some?
    ensures ReadPrefixed(b, 2).Got? && Names(ReadPrefixed(b, 2).value).Some?
    ensures var list := ReadPrefixed(b, 2).value;
            var ns := Names(list).value;
            var first := if ns == [] then [] else ns[0];
            ParseServerName(b).value == first <==> OneEntry(list) || ns[|ns| - 1] == ns[0]
    ensures var list := ReadPrefixed(b, 2).value;
            var ns := Names(list).value;
            (forall i, j :: 0 <= i < j < |ns| ==> ns[i] != ns[j]) ==>
              (ParseServerName(b).value == (if ns == [] then [] else ns[0]) <==> OneEntry(list))
  {
    hide ReadPrefixed, Names, OneEntry;
    var list := ReadPrefixed(b, 2).value;
    LastNameOf(list, []);
    OneEntryIff(list);
  }

  /** Of the two names "a" and "b" the second is kept. */
  lemma SecondNameKept()
    ensures var list := PrintNames([[97], [98]]);
            Names(list) == Some([[97], [98]]) && ParseServerName(Prefixed(list, 2)) == Some([98])
  {
    hide ReadPrefixed, Names;
    var ns: seq<seq<byte>> := [[97], [98]];
    var list := PrintNames(ns);
    NamesPrinted(ns);
    Widths();
    assert |list| == 8 by {
      assert ns[1..] == [[98]] && ns[1..][1..] == [];
    }
    ReadPrefixedPrinted(list, 2, []);
    assert Prefixed(list, 2) + [] == Prefixed(list, 2);
    LastNameOf(list, []);
  }

  // ---- Printing what was parsed -------------------------------------------

  /** Fields whose extension has not been met are at their default. */
  predicate Clean(out: Ext, seen: seq<uint16>)
  {
    && (SERVER_NAME !in seen ==> out.serverName == [])
    && (SUPPORTED_GROUPS !in seen ==> out.groups == [])
    && (EC_POINT_FORMATS !in seen ==> out.formats == [])
    && (SIGNATURE_ALGORITHMS !in seen ==> out.sigAlgs == [])
    && (EXTENDED_MASTER_SECRET !in seen ==> !out.ems)
    && (RENEGOTIATION_INFO !in seen ==> !out.ri)
  }

  lemma {:induction false} LastNameBound(list: seq<byte>, name: seq<byte>)
    requires LastName(list, name).Some?
    ensures LastName(list, name).value == name || |LastName(list, name).value| + 3 <= |list|
    decreases |list|
  {
    if list != [] {
      var r := ReadPrefixed(list[1..], 2);
      LastNameBound(r.rest, r.value);
    }
  }

  /** One extension re-encodes in at most the bytes it took. */
  lemma SetExtGrowth(out: Ext, seen: seq<uint16>, t: uint16, body: seq<byte>)
    requires Clean(out, seen) && t !in seen && FieldsFit(out) && |body| < 0x1_0000
    requires SetExt(out, t, body).Some?
    ensures var out' := SetExt(out, t, body).value;
            Clean(out', seen + [t]) && FieldsFit(out') && Size(out') <= Size(out) + 4 + |body|
  {
    hide FromBigEndian, DecodePairs, ReadPrefixed, ParseServerName, ParsePairList, Size, FieldsFit;
    if t == SERVER_NAME {
      NameGrowth(out, seen, body);
    } else if t == SUPPORTED_GROUPS {
      GroupsGrowth(out, seen, body);
    } else if t == EC_POINT_FORMATS {
      FormatsGrowth(out, seen, body);
    } else if t == SIGNATURE_ALGORITHMS {
      AlgsGrowth(out, seen, body);
    } else {
      FlagsGrowth(out);
    }
  }

  lemma NameGrowth(out: Ext, seen: seq<uint16>, body: seq<byte>)
    requires Clean(out, seen) && SERVER_NAME !in seen && FieldsFit(out) && |body| < 0x1_0000
    requires ParseServerName(body).Some?
    ensures var out' := out.(serverName := ParseServerName(body).value);
            FieldsFit(out') && Size(out') <= Size(out) + 4 + |body|
  {
    hide FromBigEndian;
    if body != [] {
      LastNameBound(ReadPrefixed(body, 2).value, []);
    }
  }

  lemma GroupsGrowth(out: Ext, seen: seq<uint16>, body: seq<byte>)
    requires Clean(out, seen) && SUPPORTED_GROUPS !in seen && FieldsFit(out) && |body| < 0x1_0000
    requires ParsePairList(ToUint16, body).Some?
    ensures var out' := out.(groups := ParsePairList(ToUint16, body).value);
            FieldsFit(out') && Size(out') <= Size(out) + 4 + |body|
  {
    hide FromBigEndian, DecodePairs;
  }

  lemma FormatsGrowth(out: Ext, seen: seq<uint16>, body: seq<byte>)
    requires Clean(out, seen) && EC_POINT_FORMATS !in seen && FieldsFit(out) && |body| < 0x1_0000
    requires ReadPrefixed(body, 1).Got?
    ensures var out' := out.(formats := ReadPrefixed(body, 1).value);
            FieldsFit(out') && Size(out') <= Size(out) + 4 + |body|
  {
    hide FromBigEndian;
    ReadPrefixedIsPrinted(body, 1);
    Widths();
  }

  lemma AlgsGrowth(out: Ext, seen: seq<uint16>, body: seq<byte>)
    requires Clean(out, seen) && SIGNATURE_ALGORITHMS !in seen && FieldsFit(out) && |body| < 0x1_0000
    requires ParsePairList(ToAlg, body).Some?
    ensures var out' := out.(sigAlgs := ParsePairList(ToAlg, body).value);
            FieldsFit(out') && Size(out') <= Size(out) + 4 + |body|
  {
    hide FromBigEndian, DecodePairs;
  }

  lemma FlagsGrowth(out: Ext)
    ensures FieldsFit(out) ==> FieldsFit(out.(ems := true)) && FieldsFit(out.(ri := true))
    ensures Size(out.(ems := true)) <= Size(out) + 4 && Size(out.(ri := true)) <= Size(out) + 5
  {
  }

  lemma {:induction false} ParsedGrowth(data: seq<byte>, seen: seq<uint16>, out: Ext)
    requires |data| < 0x1_0000 && Clean(out, seen) && FieldsFit(out)
    requires ParseExts(data, seen, out).Some?
    ensures var e := ParseExts(data, seen, out).value.ext;
            FieldsFit(e) && Size(e) <= Size(out) + |data|
    decreases |data|
  {
    hide SetExt, FromBigEndian, Clean, FieldsFit, Size;
    if data != [] {
      var Got(t, d1) := ReadUint16(data);
      var Got(body, rest) := ReadPrefixed(d1, 2);
      SetExtGrowth(out, seen, t, body);
      ParsedGrowth(rest, seen + [t], SetExt(out, t, body).value);
    }
  }

  /** Whatever the parser accepts re-encodes in no more bytes, so its lengths
      fit again, and parses to the same extensions. */
  lemma ReparseExtensions(data: seq<byte>)
    requires |data| < 0x1_0000 && ParseExts(data, [], NO_EXT).Some?
    ensures var e := ParseExts(data, [], NO_EXT).value.ext;
            && |PrintPieces(Pieces(e))| <= |data|
            && InRange(e)
            && ParseExts(PrintPieces(Pieces(e)), [], NO_EXT) == Some(Parsed(e, Types(Pieces(e))))
  {
    hide ParseExts, PrintPieces, Pieces;
    ParsedGrowth(data, [], NO_EXT);
    var e := ParseExts(data, [], NO_EXT).value.ext;
    PrintedSize(e);
    ParseMarshalled(e);
  }

  // ---- The loops ----------------------------------------------------------

  method ParseServerNameLoop(b: seq<byte>) returns (r: Option<seq<byte>>)
    ensures r == ParseServerName(b)
  {
    if |b| == 0 {
      return Some([]);
    }
    match ReadPrefixed(b, 2)
    case Short => return None;
    case Got(first, _) =>
      var list, hostName := first, [];
      while |list| > 0
        invariant LastName(first, []) == LastName(list, hostName)
        decreases |list|
      {
        if |list| < 3 {
          return None;
        }
        match ReadPrefixed(list[1..], 2)
        case Short => return None;
        case Got(name, rest) =>
          if list[0] != 0 {
            return None;
          }
          hostName := name;
          list := rest;
      }
      r := Some(hostName);
  }

  method ParseExtensionsLoop(extData: seq<byte>) returns (r: Option<Parsed>)
    ensures r == ParseExts(extData, [], NO_EXT)
  {
    hide SetExt, FromBigEndian;
    var data, out, seen := extData, NO_EXT, [];
    while |data| > 0
      invariant ParseExts(extData, [], NO_EXT) == ParseExts(data, seen, out)
      decreases |data|
    {
      if |data| < 4 {
        return None;
      }
      var Got(t, d1) := ReadUint16(data);
      if t in seen {
        return None;
      }
      match ReadPrefixed(d1, 2)
      case Short => return None;
      case Got(body, rest) =>
        data := rest;
        match SetExt(out, t, body)
        case None => return None;
        case Some(out') =>
          out := out';
          seen := seen + [t];
    }
    r := Some(Parsed(out, seen));
  }
}
