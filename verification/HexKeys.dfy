/**
 Key forms of trie/encoding.go: key bytes, nibbles closed by the terminator 16, and the compact
 hex-prefix form (Appendix C of the Ethereum Yellow Paper) nodes are stored with.
 */
module HexKeys {
  import opened Bytes
  import opened Patricia

  // ---------------------------------------------------------------------------------------------
  // Specifications
  // ---------------------------------------------------------------------------------------------

  /** The two nibbles of every byte, in order. */
  function Unpacked(s: bytes): (n: Key)
    ensures |n| == 2 * |s| && Nibbles(n)
  {
    if s == [] then [] else [s[0] / 16, s[0] % 16] + Unpacked(s[1..])
  }

  /** One byte for every two nibbles. */
  function Packed(n: Key): (s: bytes)
    requires |n| % 2 == 0 && Nibbles(n)
    ensures |s| == |n| / 2
  {
    if n == [] then [] else [n[0] * 16 + n[1]] + Packed(n[2..])
  }

  /** A short node's key: nibbles, with or without the terminator at the end. */
  predicate NodeKey(k: Key) {
    Nibbles(k) || HexKey(k)
  }

  predicate HasTerm(s: Key) {
    |s| > 0 && s[|s| - 1] == TERM
  }

  function HexOfBytes(key: bytes): (k: Key)
    ensures HexKey(k)
  {
    Unpacked(key) + [TERM]
  }

  function Compact(k: Key): (c: bytes)
    requires NodeKey(k)
    ensures |c| > 0
  {
    var n := if HasTerm(k) then k[..|k| - 1] else k;
    var flag := if HasTerm(k) then 32 else 0;
    if |n| % 2 == 1 then [flag + 16 + n[0]] + Packed(n[1..]) else [flag] + Packed(n)
  }

  function HexOfCompact(c: bytes): (k: Key)
    requires c != []
    ensures NodeKey(k)
  {
    Opened(Unpacked(c))
  }

  /** What the flag nibble leaves of the nibbles of a compact key. */
  function Opened(base: Key): (k: Key)
    requires |base| >= 2 && Nibbles(base)
    ensures NodeKey(k)
  {
    (base + Closing(base[0]))[2 - base[0] % 2..]
  }

  function Closing(flag: int): Key { if flag >= 2 then [TERM] else [] }

  // ---------------------------------------------------------------------------------------------
  // Round trips
  // ---------------------------------------------------------------------------------------------

  lemma {:induction false} UnpackedOfPacked(n: Key)
    requires |n| % 2 == 0 && Nibbles(n)
    ensures Unpacked(Packed(n)) == n
    decreases |n|
  {
    if n != [] {
      UnpackedOfPacked(n[2..]);
      ByteParts(n[0], n[1]);
      UnpackedHead(n[0] * 16 + n[1], Packed(n[2..]));
      assert n == [n[0], n[1]] + n[2..];
    }
  }

  lemma {:induction false} PackedOfUnpacked(s: bytes)
    ensures Packed(Unpacked(s)) == s
    decreases |s|
  {
    if s != [] {
      PackedOfUnpacked(s[1..]);
      assert Unpacked(s)[2..] == Unpacked(s[1..]);
    }
  }

  /** Different key bytes never share a hex key. */
  lemma HexIsInjective(a: bytes, b: bytes)
    requires HexOfBytes(a) == HexOfBytes(b)
    ensures a == b
  {
    assert Unpacked(a) == HexOfBytes(a)[..|HexOfBytes(a)| - 1];
    assert Unpacked(b) == HexOfBytes(b)[..|HexOfBytes(b)| - 1];
    PackedOfUnpacked(a);
    PackedOfUnpacked(b);
  }

  /** A byte made of two nibbles, before packed nibbles, unpacks to all of them. */
  lemma NibblePair(hi: int, lo: int, body: Key)
    requires 0 <= hi < 16 && 0 <= lo < 16 && |body| % 2 == 0 && Nibbles(body)
    ensures Unpacked([hi * 16 + lo] + Packed(body)) == [hi, lo] + body
  {
    ByteParts(hi, lo);
    UnpackedOfPacked(body);
    UnpackedHead(hi * 16 + lo, Packed(body));
  }

  lemma ByteParts(hi: int, lo: int)
    requires 0 <= hi < 16 && 0 <= lo < 16
    ensures 0 <= hi * 16 + lo < 256 && (hi * 16 + lo) / 16 == hi && (hi * 16 + lo) % 16 == lo
  {
  }

  lemma UnpackedHead(x: byte, s: bytes)
    ensures Unpacked([x] + s) == [x / 16, x % 16] + Unpacked(s)
  {
    assert ([x] + s)[1..] == s;
  }

  lemma DropTwo(x: int, y: int, body: Key, end: Key)
    ensures ([x, y] + body + end)[2..] == body + end && ([x, y] + body + end)[1..] == [y] + body + end
  {
  }

  /** The flag nibble tells whether the second nibble belongs to the key and whether it is closed. */
  lemma FlagByte(c: bytes, hi: int, lo: int, body: Key)
    requires 0 <= hi < 4 && 0 <= lo < 16 && |body| % 2 == 0 && Nibbles(body)
    requires c == [hi * 16 + lo] + Packed(body)
    ensures hi % 2 == 1 ==> HexOfCompact(c) == [lo] + body + Closing(hi)
    ensures hi % 2 == 0 ==> HexOfCompact(c) == body + Closing(hi)
  {
    NibblePair(hi, lo, body);
    DropTwo(hi, lo, body, Closing(hi));
  }

  /** The compact form of a node's key decodes to that key. */
  lemma CompactRoundTrip(k: Key)
    requires NodeKey(k)
    ensures HexOfCompact(Compact(k)) == k
  {
    var n := if HasTerm(k) then k[..|k| - 1] else k;
    var flag := if HasTerm(k) then 2 else 0;
    assert k == n + Closing(flag);
    if |n| % 2 == 1 {
      FlagByte(Compact(k), flag + 1, n[0], n[1..]);
      assert [n[0]] + n[1..] == n;
    } else {
      FlagByte(Compact(k), flag, 0, n);
    }
  }

  // ---------------------------------------------------------------------------------------------
  // The forms, byte by byte
  // ---------------------------------------------------------------------------------------------

  /** The `j`-th nibble of a byte string, the high one of a byte first. */
  function NibbleAt(s: bytes, j: nat): int
    requires j < 2 * |s|
  {
    if j % 2 == 0 then s[j / 2] / 16 else s[j / 2] % 16
  }

  lemma {:induction false} UnpackedAt(s: bytes, j: nat)
    requires j < 2 * |s|
    ensures Unpacked(s)[j] == NibbleAt(s, j)
    decreases |s|
  {
    if j >= 2 { UnpackedAt(s[1..], j - 2); }
  }

  lemma {:induction false} PackedAt(n: Key, j: nat)
    requires |n| % 2 == 0 && Nibbles(n) && 2 * j < |n|
    ensures j < |Packed(n)| && Packed(n)[j] == n[2 * j] * 16 + n[2 * j + 1]
    decreases j
  {
    if j > 0 { PackedAt(n[2..], j - 1); }
  }

  /** A hex key is the nibbles of the key bytes, then 16. */
  lemma HexForm(key: bytes)
    ensures |HexOfBytes(key)| == 2 * |key| + 1 && HexOfBytes(key)[2 * |key|] == 16
    ensures forall i :: 0 <= i < |key| ==> HexOfBytes(key)[2 * i] == key[i] / 16 && HexOfBytes(key)[2 * i + 1] == key[i] % 16
  {
    forall i | 0 <= i < |key| ensures HexOfBytes(key)[2 * i] == key[i] / 16 && HexOfBytes(key)[2 * i + 1] == key[i] % 16 {
      UnpackedAt(key, 2 * i);
      UnpackedAt(key, 2 * i + 1);
    }
  }

  /**
   Appendix C of the Yellow Paper. Of the first byte, bit 5 says whether the key is terminated and bit 4 whether its
   nibbles are odd in number; then the low half is the first of them, else 0. All others follow two by two.
   */
  lemma CompactForm(k: Key)
    requires NodeKey(k)
    ensures var c, closed := Compact(k), |k| > 0 && k[|k| - 1] == 16;
            var count := if closed then |k| - 1 else |k|;
            var odd := count % 2;
            && |c| == count / 2 + 1 && c[0] < 64
            && (c[0] >= 32 <==> closed) && ((c[0] / 16) % 2 == 1 <==> odd == 1)
            && (odd == 1 ==> c[0] % 16 == k[0]) && (odd == 0 ==> c[0] % 16 == 0)
            && forall j :: 1 <= j < |c| ==> c[j] == 16 * k[2 * j - 2 + odd] + k[2 * j - 1 + odd]
  {
    var c := Compact(k);
    var n := if HasTerm(k) then k[..|k| - 1] else k;
    var body := if |n| % 2 == 1 then n[1..] else n;
    forall j | 1 <= j < |c| ensures c[j] == 16 * body[2 * j - 2] + body[2 * j - 1] { PackedAt(body, j - 1); }
  }

  /** Any byte string that is not empty is read that way, whatever its first byte. */
  lemma ReadForm(c: bytes)
    requires c != []
    ensures var k, odd := HexOfCompact(c), (c[0] / 16) % 2;
            && |k| == 2 * |c| - 2 + odd + (if c[0] >= 32 then 1 else 0) && (c[0] >= 32 ==> k[|k| - 1] == 16)
            && forall i :: 0 <= i < 2 * |c| - 2 + odd ==> k[i] == NibbleAt(c, i + 2 - odd)
  {
    var base, odd := Unpacked(c), (c[0] / 16) % 2;
    UnpackedAt(c, 0);
    forall i | 0 <= i < 2 * |c| - 2 + odd ensures HexOfCompact(c)[i] == NibbleAt(c, i + 2 - odd) { UnpackedAt(c, i + 2 - odd); }
  }

  /** A closed key of six nibbles, and an open one of five. */
  lemma CompactExample()
    ensures Compact([0, 15, 1, 12, 11, 8, 16]) == [0x20, 0x0F, 0x1C, 0xB8]
  {
    CompactForm([0, 15, 1, 12, 11, 8, 16]);
  }

  lemma OddExample()
    ensures Compact([1, 2, 3, 4, 5]) == [0x11, 0x23, 0x45]
  {
    CompactForm([1, 2, 3, 4, 5]);
  }

  // ---------------------------------------------------------------------------------------------
  // The loops of encoding.go
  // ---------------------------------------------------------------------------------------------

  /** encoding.go `keybytesToHex`. */
  method KeybytesToHex(str: bytes) returns (nibbles: array<int>)
    ensures fresh(nibbles) && nibbles[..] == HexOfBytes(str)
  {
    var l := |str| * 2 + 1;
    nibbles := new int[l](_ => 0);
    for i := 0 to |str|
      invariant nibbles[..2 * i] + Unpacked(str[i..]) == Unpacked(str)
    {
      ghost var before := nibbles[..2 * i];
      assert str[i..][1..] == str[i + 1..];
      nibbles[i * 2] := str[i] / 16;
      nibbles[i * 2 + 1] := str[i] % 16;
      assert nibbles[..2 * (i + 1)] == before + [str[i] / 16, str[i] % 16];
      Assoc(before, [str[i] / 16, str[i] % 16], Unpacked(str[i + 1..]));
    }
    nibbles[l - 1] := TERM;
    assert nibbles[..] == nibbles[..2 * |str|] + [TERM];
  }

  /** encoding.go `decodeNibbles`: packs nibbles into `buf` from position `at` to its end. */
  method DecodeNibbles(nibbles: Key, buf: array<byte>, at: nat)
    requires |nibbles| % 2 == 0 && Nibbles(nibbles) && at + |nibbles| / 2 == buf.Length
    modifies buf
    ensures buf[..at] == old(buf[..at]) && buf[at..] == Packed(nibbles)
  {
    var bi, ni := at, 0;
    while ni < |nibbles|
      invariant at <= bi <= buf.Length && ni == 2 * (bi - at) <= |nibbles|
      invariant forall i :: 0 <= i < at ==> buf[i] == old(buf[i])
      invariant forall i :: at <= i < bi ==> buf[i] == Packed(nibbles)[i - at]
    {
      PackedAt(nibbles, bi - at);
      ByteParts(nibbles[ni], nibbles[ni + 1]);
      buf[bi] := nibbles[ni] * 16 + nibbles[ni + 1];
      bi, ni := bi + 1, ni + 2;
    }
  }

  /** encoding.go `hexToCompact`. */
  method HexToCompact(k: Key) returns (buf: array<byte>)
    requires NodeKey(k)
    ensures fresh(buf) && buf[..] == Compact(k)
  {
    var hex, flag: byte := k, 0;
    assert NodeKey(k);
    if HasTerm(hex) {
      flag := 32;
      hex := hex[..|hex| - 1];
    }
    buf := new byte[|hex| / 2 + 1](_ => 0);
    buf[0] := flag;
    if |hex| % 2 == 1 {
      buf[0] := flag + 16 + hex[0];
      hex := hex[1..];
    }
    ghost var first := buf[0];
    assert buf[..1] == [first];
    DecodeNibbles(hex, buf, 1);
    assert buf[..] == buf[..1] + buf[1..];
  }

  /** encoding.go `prefixLen`. */
  method CommonPrefix(a: Key, b: Key) returns (i: nat)
    ensures i == PrefixLen(a, b)
  {
    var length := if |b| < |a| then |b| else |a|;
    i := 0;
    while i < length && a[i] == b[i]
      invariant i <= length && i + PrefixLen(a[i..], b[i..]) == PrefixLen(a, b)
    {
      assert a[i..][1..] == a[i + 1..] && b[i..][1..] == b[i + 1..];
      i := i + 1;
    }
  }
}
