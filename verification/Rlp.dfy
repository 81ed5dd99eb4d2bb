/**
 RLP (Appendix B of the Ethereum Yellow Paper): the recursive encoding that serves as reference,
 and the slice-splitting decoder of rlp/raw.go. Sizes are unsigned 64-bit numbers, so round trips
 are stated for encodings shorter than 2^64 bytes.
 */
module Rlp {
  import opened Bytes

  /** What RLP encodes: byte strings and lists, nested to any depth. */
  datatype Item = Str(s: bytes) | List(items: seq<Item>)

  // ---------------------------------------------------------------------------------------------
  // Big-endian numbers
  // ---------------------------------------------------------------------------------------------

  /** The shortest big-endian form; zero is the empty string. */
  function BigEndian(n: nat): (b: bytes)
    ensures n > 0 <==> |b| > 0
    ensures |b| > 0 ==> b[0] != 0
  {
    if n == 0 then [] else BigEndian(n / 256) + [n % 256]
  }

  function Number(b: bytes): nat {
    if b == [] then 0 else Number(b[..|b| - 1]) * 256 + b[|b| - 1]
  }

  function Pow256(k: nat): (p: nat)
    ensures p > 0
  {
    if k == 0 then 1 else 256 * Pow256(k - 1)
  }

  lemma Pow256Is()
    ensures Pow256(8) == TWO64
  {
    assert Pow256(2) == 0x1_0000;
    assert Pow256(4) == 0x1_0000_0000;
    assert Pow256(6) == 0x1_0000_0000_0000;
  }

  lemma {:induction false} NumberOfBigEndian(n: nat)
    ensures Number(BigEndian(n)) == n
  {
    if n > 0 {
      NumberOfBigEndian(n / 256);
      var b := BigEndian(n);
      assert b[..|b| - 1] == BigEndian(n / 256);
    }
  }

  lemma {:induction false} BigEndianOfNumber(b: bytes)
    requires b == [] || b[0] != 0
    ensures BigEndian(Number(b)) == b
    decreases |b|
  {
    if b != [] {
      var hi := b[..|b| - 1];
      BigEndianOfNumber(hi);
      NumberPositive(b);
      assert Number(b) / 256 == Number(hi) && Number(b) % 256 == b[|b| - 1];
      assert b == hi + [b[|b| - 1]];
    }
  }

  lemma {:induction false} NumberPositive(b: bytes)
    requires b != [] && b[0] != 0
    ensures Number(b) > 0
    decreases |b|
  {
    if |b| > 1 { NumberPositive(b[..|b| - 1]); }
  }

  lemma {:induction false} NumberBound(b: bytes)
    ensures Number(b) < Pow256(|b|)
    decreases |b|
  {
    if b != [] { NumberBound(b[..|b| - 1]); }
  }

  lemma {:induction false} BigEndianLength(n: nat, k: nat)
    requires n < Pow256(k)
    ensures |BigEndian(n)| <= k
    decreases k
  {
    if n > 0 { BigEndianLength(n / 256, k - 1); }
  }

  lemma SizeBytes(n: nat)
    requires 0 < n < TWO64
    ensures 1 <= |BigEndian(n)| <= 8
  {
    Pow256Is();
    BigEndianLength(n, 8);
  }

  // ---------------------------------------------------------------------------------------------
  // The encoding
  // ---------------------------------------------------------------------------------------------

  /** encode.go `puthead`: the tag and, from 56 bytes on, the size in big-endian form. */
  function Head(small: byte, large: byte, size: nat): (h: bytes)
    requires small <= 0xC0
    ensures |h| == HeadSize(size)
  {
    if size < 56 then [small + size]
    else [(large + |BigEndian(size)|) % 256] + BigEndian(size)
  }

  /** encode.go `headsize`. */
  function HeadSize(size: nat): nat {
    if size < 56 then 1 else 1 + |BigEndian(size)|
  }

  function EncodeString(s: bytes): (b: bytes)
    ensures |b| > 0
  {
    if |s| == 1 && s[0] <= 0x7F then s else Head(0x80, 0xB7, |s|) + s
  }

  function ListHead(size: nat): bytes { Head(0xC0, 0xF7, size) }

  function Encode(it: Item): (b: bytes)
    ensures |b| > 0
    decreases it
  {
    match it
    case Str(s) => EncodeString(s)
    case List(items) => ListHead(|EncodeAll(items)|) + EncodeAll(items)
  }

  function EncodeAll(items: seq<Item>): bytes
    decreases items
  {
    if items == [] then [] else Encode(items[0]) + EncodeAll(items[1..])
  }

  lemma {:induction false} EncodeAllAppend(a: seq<Item>, b: seq<Item>)
    ensures EncodeAll(a + b) == EncodeAll(a) + EncodeAll(b)
    decreases |a|
  {
    if a == [] {
      assert a + b == b;
    } else {
      EncodeAllAppend(a[1..], b);
      assert (a + b)[0] == a[0] && (a + b)[1..] == a[1..] + b;
      Assoc(Encode(a[0]), EncodeAll(a[1..]), EncodeAll(b));
    }
  }

  // ---------------------------------------------------------------------------------------------
  // The encoding, byte by byte
  // ---------------------------------------------------------------------------------------------

  /** The first byte of a number weighs most. */
  lemma {:induction false} NumberFront(x: byte, b: bytes)
    ensures Number([x] + b) == x * Pow256(|b|) + Number(b)
    decreases |b|
  {
    if b == [] {
      assert ([x] + b)[..0] == [];
    } else {
      var hi, last := b[..|b| - 1], b[|b| - 1];
      assert ([x] + b)[..|b|] == [x] + hi;
      NumberFront(x, hi);
      Shift(x, Pow256(|hi|), Number(hi), last);
    }
  }

  lemma Shift(x: int, p: int, n: int, last: int)
    ensures (x * p + n) * 256 + last == x * (256 * p) + (n * 256 + last)
  {
  }

  /** `e` is `p` behind a tag above `large` and the size of `p`, in as few bytes as it takes, of which the tag tells the number. */
  ghost predicate LongForm(e: bytes, p: bytes, large: nat) {
    && |e| > |p| + 1
    && var k := |e| - |p| - 1;
       k <= 8 && e[0] == large + k && e[1] != 0 && Number(e[1..k + 1]) == |p| && e[k + 1..] == p
  }

  lemma LongParts(large: byte, size: bytes, p: bytes)
    requires 1 <= |size| <= 8 && size[0] != 0 && Number(size) == |p| && large <= 0xF7
    ensures LongForm([large + |size|] + size + p, p, large)
  {
    var e := [large + |size|] + size + p;
    assert e[1..|size| + 1] == size && e[|size| + 1..] == p;
  }

  lemma LongHead(large: byte, p: bytes)
    requires 56 <= |p| < TWO64 && large <= 0xF7
    ensures LongForm(Head(0x80, large, |p|) + p, p, large) && Head(0xC0, large, |p|) == Head(0x80, large, |p|)
  {
    SizeBytes(|p|);
    NumberOfBigEndian(|p|);
    LongParts(large, BigEndian(|p|), p);
  }

  /** Appendix B of the Yellow Paper, on strings. */
  lemma StringForm(s: bytes)
    requires |s| < TWO64
    ensures |s| == 1 && s[0] < 0x80 ==> Encode(Str(s)) == s
    ensures |s| < 56 && !(|s| == 1 && s[0] < 0x80) ==> Encode(Str(s)) == [0x80 + |s|] + s
    ensures |s| >= 56 ==> LongForm(Encode(Str(s)), s, 0xB7)
  {
    if |s| >= 56 { LongHead(0xB7, s); }
  }

  /** Appendix B of the Yellow Paper, on lists: their payload is the encodings of the items in order. */
  lemma ListForm(items: seq<Item>)
    requires |EncodeAll(items)| < TWO64
    ensures var p := EncodeAll(items); if |p| < 56 then Encode(List(items)) == [0xC0 + |p|] + p else LongForm(Encode(List(items)), p, 0xF7)
    ensures items == [] ==> EncodeAll(items) == []
    ensures forall i :: 0 <= i < |items| ==> EncodeAll(items) == EncodeAll(items[..i]) + Encode(items[i]) + EncodeAll(items[i + 1..])
  {
    if |EncodeAll(items)| >= 56 { LongHead(0xF7, EncodeAll(items)); }
    forall i | 0 <= i < |items| ensures EncodeAll(items) == EncodeAll(items[..i]) + Encode(items[i]) + EncodeAll(items[i + 1..]) {
      assert items == items[..i] + items[i..];
      EncodeAllAppend(items[..i], items[i..]);
      Assoc(EncodeAll(items[..i]), Encode(items[i]), EncodeAll(items[i + 1..]));
    }
  }

  /** The empty list, the empty string, and the list of "cat" and "dog". */
  lemma Examples()
    ensures Encode(List([])) == [0xC0] && Encode(Str([])) == [0x80] && Encode(Str([0x0F])) == [0x0F]
    ensures Encode(List([Str([0x63, 0x61, 0x74]), Str([0x64, 0x6F, 0x67])])) == [0xC8, 0x83, 0x63, 0x61, 0x74, 0x83, 0x64, 0x6F, 0x67]
  {
    var cat, dog := Str([0x63, 0x61, 0x74]), Str([0x64, 0x6F, 0x67]);
    assert EncodeAll([dog]) == Encode(dog) + EncodeAll([]) by { assert [dog][1..] == []; }
    assert EncodeAll([cat, dog]) == Encode(cat) + EncodeAll([dog]) by { assert [cat, dog][1..] == [dog]; }
  }

  // ---------------------------------------------------------------------------------------------
  // raw.go
  // ---------------------------------------------------------------------------------------------

  datatype Kind = ByteKind | StringKind | ListKind

  datatype Error =
    | UnexpectedEOF | EOF | EOL
    | CanonSize | CanonInt | ValueTooLarge | ElemTooLarge
    | ExpectedString | ExpectedList | MoreThanOneValue
    | NotInList | NotAtEOL | UintOverflow

  datatype Result<+T> = Ok(value: T) | Err(error: Error)

  /** Kind of the value ahead, the bytes its tag takes and the bytes its content takes. */
  datatype Header = Header(kind: Kind, tag: nat, content: nat)

  /** raw.go `readSize`. */
  function ReadSize(b: bytes, slen: nat): Result<nat>
    requires 1 <= slen <= 8
  {
    if slen > |b| then Err(UnexpectedEOF)
    else
      var s := Number(b[..slen]);
      if s < 56 || b[0] == 0 then Err(CanonSize) else Ok(s)
  }

  /** The tag and size bytes of the value ahead; the checks both decoders make on them. */
  function ParseHead(buf: bytes): (r: Result<Header>)
    ensures r.Ok? ==> r.value.tag <= |buf| && (r.value.kind == ByteKind <==> r.value.tag == 0)
    ensures r.Ok? && r.value.kind == ByteKind ==> r.value.content == 1
  {
    if buf == [] then Err(UnexpectedEOF)
    else
      var b := buf[0];
      if b < 0x80 then Ok(Header(ByteKind, 0, 1))
      else if b < 0xB8 then Ok(Header(StringKind, 1, b - 0x80))
      else if b < 0xC0 then
        match ReadSize(buf[1..], b - 0xB7)
        case Err(e) => Err(e)
        case Ok(n) => Ok(Header(StringKind, b - 0xB7 + 1, n))
      else if b < 0xF8 then Ok(Header(ListKind, 1, b - 0xC0))
      else
        match ReadSize(buf[1..], b - 0xF7)
        case Err(e) => Err(e)
        case Ok(n) => Ok(Header(ListKind, b - 0xF7 + 1, n))
  }

  /** A one-byte string that should have been a single byte. */
  predicate NeedlessString(buf: bytes) {
    |buf| > 1 && buf[0] == 0x81 && buf[1] < 128
  }

  function ReadTag(buf: bytes): Result<Header> {
    if NeedlessString(buf) then Err(CanonSize) else ParseHead(buf)
  }

  /** raw.go `readKind`. */
  function ReadKind(buf: bytes): (r: Result<Header>)
    ensures r.Ok? ==> 0 < r.value.tag + r.value.content <= |buf|
    ensures r.Ok? && r.value.kind == ListKind ==> r.value.tag > 0
  {
    match ReadTag(buf)
    case Err(e) => Err(e)
    case Ok(h) => if h.content > |buf| - h.tag then Err(ValueTooLarge) else Ok(h)
  }

  datatype Piece = Piece(kind: Kind, content: bytes, rest: bytes)

  /** raw.go `Split`. */
  function Split(b: bytes): (r: Result<Piece>)
    ensures r.Ok? ==> |r.value.rest| < |b| && |r.value.content| + |r.value.rest| <= |b|
    ensures r.Ok? && r.value.kind == ListKind ==> |r.value.content| < |b|
  {
    match ReadKind(b)
    case Err(e) => Err(e)
    case Ok(h) => Ok(Piece(h.kind, b[h.tag..h.tag + h.content], b[h.tag + h.content..]))
  }

  /** raw.go `SplitString`. */
  function SplitString(b: bytes): (r: Result<Piece>)
    ensures r.Ok? ==> |r.value.rest| < |b|
  {
    match Split(b)
    case Err(e) => Err(e)
    case Ok(p) => if p.kind == ListKind then Err(ExpectedString) else Ok(p)
  }

  /** raw.go `SplitList`. */
  function SplitList(b: bytes): (r: Result<Piece>)
    ensures r.Ok? ==> |r.value.rest| < |b| && |r.value.content| < |b|
  {
    match Split(b)
    case Err(e) => Err(e)
    case Ok(p) => if p.kind != ListKind then Err(ExpectedList) else Ok(p)
  }

  // ---------------------------------------------------------------------------------------------
  // Splitting an encoding gives its parts back
  // ---------------------------------------------------------------------------------------------

  lemma ReadSizeOfBigEndian(n: nat, rest: bytes)
    requires 56 <= n < TWO64
    ensures 1 <= |BigEndian(n)| <= 8
    ensures ReadSize(BigEndian(n) + rest, |BigEndian(n)|) == Ok(n)
  {
    SizeBytes(n);
    NumberOfBigEndian(n);
    var b := BigEndian(n);
    assert (b + rest)[..|b|] == b;
    assert (b + rest)[0] == b[0];
  }

  lemma ReadListHead(size: nat, rest: bytes)
    requires size < TWO64
    ensures ReadTag(ListHead(size) + rest) == Ok(Header(ListKind, HeadSize(size), size))
  {
    if size >= 56 { ReadLongHead(0xF7, size, rest); }
  }

  lemma ReadStringHead(s: bytes, rest: bytes)
    requires |s| < TWO64 && !(|s| == 1 && s[0] <= 0x7F)
    ensures ReadTag(Head(0x80, 0xB7, |s|) + s + rest) == Ok(Header(StringKind, HeadSize(|s|), |s|))
  {
    Assoc(Head(0x80, 0xB7, |s|), s, rest);
    if |s| >= 56 {
      ReadLongHead(0xB7, |s|, s + rest);
    } else if |s| == 1 {
      assert (Head(0x80, 0xB7, |s|) + (s + rest))[1] == s[0];
    }
  }

  lemma ReadLongHead(large: byte, size: nat, rest: bytes)
    requires 56 <= size < TWO64 && (large == 0xF7 || large == 0xB7)
    ensures var k := |BigEndian(size)|;
            var b := Head(0, large, size) + rest;
            1 <= k <= 8 && b[0] == large + k && ReadSize(b[1..], k) == Ok(size)
  {
    SizeBytes(size);
    FirstAndRest(large + |BigEndian(size)|, BigEndian(size), rest);
    ReadSizeOfBigEndian(size, rest);
  }

  lemma SplitOfString(s: bytes, rest: bytes)
    requires |EncodeString(s)| < TWO64
    ensures Split(EncodeString(s) + rest).Ok?
    ensures Split(EncodeString(s) + rest).value.kind != ListKind
    ensures Split(EncodeString(s) + rest).value.kind == ByteKind <==> |s| == 1 && s[0] <= 0x7F
    ensures Split(EncodeString(s) + rest).value.content == s
    ensures Split(EncodeString(s) + rest).value.rest == rest
  {
    var b := EncodeString(s) + rest;
    if |s| == 1 && s[0] <= 0x7F {
      assert b[0] == s[0] && b[0..1] == s && b[1..] == rest;
    } else {
      ReadStringHead(s, rest);
      var n := HeadSize(|s|);
      assert b[n..n + |s|] == s && b[n + |s|..] == rest;
    }
  }

  lemma SplitOfList(payload: bytes, rest: bytes)
    requires |ListHead(|payload|) + payload| < TWO64
    ensures Split(ListHead(|payload|) + payload + rest) == Ok(Piece(ListKind, payload, rest))
  {
    var b := ListHead(|payload|) + payload + rest;
    assert b == ListHead(|payload|) + (payload + rest);
    ReadListHead(|payload|, payload + rest);
    var n := HeadSize(|payload|);
    assert b[n..n + |payload|] == payload && b[n + |payload|..] == rest;
  }

  // ---------------------------------------------------------------------------------------------
  // Whatever is split off has the canonical header
  // ---------------------------------------------------------------------------------------------

  lemma BigEndianOfSize(b: bytes, slen: nat)
    requires 1 <= slen <= 8 && ReadSize(b, slen).Ok?
    ensures BigEndian(ReadSize(b, slen).value) == b[..slen]
    ensures 56 <= ReadSize(b, slen).value < TWO64
  {
    BigEndianOfNumber(b[..slen]);
    NumberBound(b[..slen]);
    Pow256Is();
    assert Pow256(slen) <= Pow256(8) by { PowMonotone(slen, 8); }
  }

  lemma {:induction false} PowMonotone(a: nat, b: nat)
    requires a <= b
    ensures Pow256(a) <= Pow256(b)
    decreases b
  {
    if a < b { PowMonotone(a, b - 1); }
  }

  /** A tag that announces size bytes, and those bytes, are the header the encoder writes. */
  lemma LongTag(b: bytes, small: byte, large: byte)
    requires large <= 0xF7 && small <= 0xC0 && |b| > 0 && large < b[0] <= large + 8
    requires ReadSize(b[1..], b[0] - large).Ok?
    ensures 1 + b[0] - large <= |b|
    ensures b[..1 + b[0] - large] == Head(small, large, ReadSize(b[1..], b[0] - large).value)
    ensures ReadSize(b[1..], b[0] - large).value < TWO64
  {
    var k := b[0] - large;
    BigEndianOfSize(b[1..], k);
    assert b[..1 + k] == [b[0]] + b[1..][..k];
  }

  lemma ListTagIsCanonical(b: bytes)
    requires ReadKind(b).Ok? && ReadKind(b).value.kind == ListKind
    ensures ReadKind(b).value.content < TWO64
    ensures b[..ReadKind(b).value.tag] == ListHead(ReadKind(b).value.content)
  {
    if b[0] >= 0xF8 { LongTag(b, 0xC0, 0xF7); }
  }

  lemma StringTagIsCanonical(b: bytes)
    requires ReadKind(b).Ok? && ReadKind(b).value.kind == StringKind
    ensures ReadKind(b).value.content < TWO64
    ensures b[..ReadKind(b).value.tag] == Head(0x80, 0xB7, ReadKind(b).value.content)
  {
    if b[0] >= 0xB8 { LongTag(b, 0x80, 0xB7); }
  }

  lemma SplitIsCanonical(b: bytes)
    requires Split(b).Ok?
    ensures var p := Split(b).value;
            && |p.content| < TWO64
            && b == (if p.kind == ListKind then ListHead(|p.content|) + p.content
                     else EncodeString(p.content)) + p.rest
  {
    var h := ReadKind(b).value;
    assert b == b[..h.tag] + b[h.tag..h.tag + h.content] + b[h.tag + h.content..];
    match h.kind
    case ListKind => ListTagIsCanonical(b);
    case StringKind =>
      StringTagIsCanonical(b);
      if h.content == 1 { assert b[h.tag..h.tag + h.content] == [b[1]]; }
    case ByteKind => assert b[0..1] == [b[0]];
  }

  // ---------------------------------------------------------------------------------------------
  // Decoding nested items
  // ---------------------------------------------------------------------------------------------

  /** The first item of `b` and what follows it, if `b` starts with a canonical encoding. */
  function Decode(b: bytes): (r: Option<(Item, bytes)>)
    ensures r.Some? ==> |r.value.1| < |b|
    decreases |b|, 0
  {
    match Split(b)
    case Err(_) => None
    case Ok(p) =>
      if p.kind != ListKind then Some((Str(p.content), p.rest))
      else
        match DecodeAll(p.content)
        case None => None
        case Some(items) => Some((List(items), p.rest))
  }

  function DecodeAll(b: bytes): Option<seq<Item>>
    decreases |b|, 1
  {
    if b == [] then Some([])
    else
      match Decode(b)
      case None => None
      case Some((it, rest)) =>
        match DecodeAll(rest)
        case None => None
        case Some(items) => Some([it] + items)
  }

  lemma {:induction false} DecodeOfEncode(it: Item, rest: bytes)
    requires |Encode(it)| < TWO64
    ensures Decode(Encode(it) + rest) == Some((it, rest))
    decreases it, 0
  {
    match it
    case Str(s) => SplitOfString(s, rest);
    case List(items) =>
      SplitOfList(EncodeAll(items), rest);
      DecodeAllOfEncode(items);
  }

  lemma {:induction false} DecodeAllOfEncode(items: seq<Item>)
    requires |EncodeAll(items)| < TWO64
    ensures DecodeAll(EncodeAll(items)) == Some(items)
    decreases items, 1
  {
    if items != [] {
      DecodeOfEncode(items[0], EncodeAll(items[1..]));
      DecodeAllOfEncode(items[1..]);
      assert items == [items[0]] + items[1..];
    }
  }

  lemma {:induction false} EncodeOfDecode(b: bytes)
    requires Decode(b).Some?
    ensures b == Encode(Decode(b).value.0) + Decode(b).value.1
    decreases |b|, 0
  {
    SplitIsCanonical(b);
    var p := Split(b).value;
    if p.kind == ListKind { EncodeOfDecodeAll(p.content); }
  }

  lemma {:induction false} EncodeOfDecodeAll(b: bytes)
    requires DecodeAll(b).Some?
    ensures b == EncodeAll(DecodeAll(b).value)
    decreases |b|, 1
  {
    if b != [] {
      EncodeOfDecode(b);
      EncodeOfDecodeAll(Decode(b).value.1);
    }
  }

  /** No encoding is a proper prefix of another, and distinct items have distinct encodings. */
  lemma EncodeIsPrefixFree(a: Item, b: Item)
    requires |Encode(a)| < TWO64 && |Encode(b)| < TWO64 && Encode(a) <= Encode(b)
    ensures a == b
  {
    var rest := Encode(b)[|Encode(a)|..];
    assert Encode(b) == Encode(a) + rest && Encode(b) == Encode(b) + [];
    DecodeOfEncode(a, rest);
    DecodeOfEncode(b, []);
  }

  // ---------------------------------------------------------------------------------------------
  // CountValues
  // ---------------------------------------------------------------------------------------------

  /** Number of values in `b` by their headers alone, or the error `CountValues` reports. */
  function Count(b: bytes): Result<nat>
    decreases |b|
  {
    if b == [] then Ok(0)
    else
      match Split(b)
      case Err(e) => Err(e)
      case Ok(p) =>
        match Count(p.rest)
        case Err(e) => Err(e)
        case Ok(n) => Ok(n + 1)
  }

  /** raw.go `CountValues`. */
  method CountValues(buf: bytes) returns (r: Result<nat>)
    ensures r == Count(buf)
  {
    var b, i := buf, 0;
    while |b| > 0
      invariant Count(b).Err? ==> Count(buf) == Count(b)
      invariant Count(b).Ok? ==> Count(buf) == Ok(i + Count(b).value)
      decreases |b|
    {
      var h := ReadKind(b);
      if h.Err? { return Err(h.error); }
      assert Split(b).value.rest == b[h.value.tag + h.value.content..];
      b := b[h.value.tag + h.value.content..];
      i := i + 1;
    }
    r := Ok(i);
  }

  lemma {:induction false} CountOfEncodeAll(items: seq<Item>)
    requires |EncodeAll(items)| < TWO64
    ensures Count(EncodeAll(items)) == Ok(|items|)
    decreases items
  {
    if items != [] {
      CountOfEncodeAll(items[1..]);
      var rest := EncodeAll(items[1..]);
      match items[0]
      case Str(s) => SplitOfString(s, rest);
      case List(xs) => SplitOfList(EncodeAll(xs), rest);
    }
  }
}
