/**
 The two-phase encoder of rlp/encode.go: string data and list headers are collected apart, a
 header's size is filled in when its list ends, and the parts are woven together on output.
 Where a contract says `P(...) == true`, the predicate is meant as one fact, not as the list of its parts.
 */
module RlpEncoder {
  import opened Bytes
  import opened Rlp

  /** encode.go `listhead`: where a header belongs in the string data, and its payload size. */
  datatype ListMark = ListMark(offset: nat, size: nat)

  // ---------------------------------------------------------------------------------------------
  // What the two buffers hold, and what they are woven into
  // ---------------------------------------------------------------------------------------------

  /** The string data of an item: its encoding without any list header. */
  ghost function Strings(it: Item): bytes
    decreases it
  {
    match it
    case Str(s) => EncodeString(s)
    case List(items) => StringsAll(items)
  }

  ghost function StringsAll(items: seq<Item>): bytes
    decreases items
  {
    if items == [] then [] else Strings(items[0]) + StringsAll(items[1..])
  }

  /** The headers of an item whose string data starts at `off`, in the order they are opened. */
  ghost function Marks(it: Item, off: nat): seq<ListMark>
    decreases it
  {
    match it
    case Str(_) => []
    case List(items) => [ListMark(off, |EncodeAll(items)|)] + MarksAll(items, off)
  }

  ghost function MarksAll(items: seq<Item>, off: nat): seq<ListMark>
    decreases items
  {
    if items == [] then []
    else Marks(items[0], off) + MarksAll(items[1..], off + |Strings(items[0])|)
  }

  /** Offsets are in order, none before `pos` and none after the data. */
  ghost predicate Ordered(len: nat, marks: seq<ListMark>, pos: nat) {
    if marks == [] then pos <= len
    else pos <= marks[0].offset && Ordered(len, marks[1..], marks[0].offset)
  }

  /** The bytes from position `pos` of the string data on, every header written at its offset. */
  ghost function Weave(str: bytes, marks: seq<ListMark>, pos: nat): bytes
    requires Ordered(|str|, marks, pos)
    decreases marks
  {
    OrderedBound(|str|, marks, pos);
    if marks == [] then str[pos..]
    else
      var m := marks[0];
      OrderedBound(|str|, marks[1..], m.offset);
      str[pos..m.offset] + ListHead(m.size) + Weave(str, marks[1..], m.offset)
  }

  lemma {:induction false} OrderedBound(len: nat, marks: seq<ListMark>, pos: nat)
    requires Ordered(len, marks, pos)
    ensures pos <= len
    decreases marks
  {
    if marks != [] { OrderedBound(len, marks[1..], marks[0].offset); }
  }

  ghost function HeadsSize(marks: seq<ListMark>): nat {
    if marks == [] then 0 else HeadSize(marks[0].size) + HeadsSize(marks[1..])
  }

  lemma {:induction false} HeadsSizeAppend(a: seq<ListMark>, b: seq<ListMark>)
    ensures HeadsSize(a + b) == HeadsSize(a) + HeadsSize(b)
    decreases |a|
  {
    if a == [] {
      assert a + b == b;
    } else {
      HeadsSizeAppend(a[1..], b);
      assert (a + b)[0] == a[0] && (a + b)[1..] == a[1..] + b;
    }
  }

  /** `size()` is exact: what is woven is as long as the data and all headers together. */
  lemma {:induction false} WeaveLength(str: bytes, marks: seq<ListMark>, pos: nat)
    requires Ordered(|str|, marks, pos)
    ensures pos <= |str|
    ensures |Weave(str, marks, pos)| == |str| - pos + HeadsSize(marks)
    decreases marks
  {
    OrderedBound(|str|, marks, pos);
    if marks != [] {
      OrderedBound(|str|, marks[1..], marks[0].offset);
      WeaveLength(str, marks[1..], marks[0].offset);
    }
  }

  // ---------------------------------------------------------------------------------------------
  // Weaving the parts of an item gives its recursive encoding
  // ---------------------------------------------------------------------------------------------

  lemma Regroup(str: bytes, p: nat, q: nat, o: nat, h: bytes, w: bytes)
    requires p <= q <= o <= |str|
    ensures str[p..o] + h + w == str[p..q] + (str[q..o] + h + w)
  {
    assert str[p..o] == str[p..q] + str[q..o];
  }

  lemma WeaveSkip(str: bytes, marks: seq<ListMark>, p: nat, q: nat)
    requires p <= q && Ordered(|str|, marks, q)
    ensures Ordered(|str|, marks, p) && q <= |str|
    ensures Weave(str, marks, p) == str[p..q] + Weave(str, marks, q)
  {
    OrderedBound(|str|, marks, q);
    if marks == [] {
      assert str[p..] == str[p..q] + str[q..];
    } else {
      OrderedBound(|str|, marks[1..], marks[0].offset);
      var o, h := marks[0].offset, ListHead(marks[0].size);
      var w := Weave(str, marks[1..], o);
      assert Weave(str, marks, p) == str[p..o] + h + w;
      assert Weave(str, marks, q) == str[q..o] + h + w;
      Regroup(str, p, q, o, h, w);
    }
  }

  /** Writing out the data before header `k` and the header moves the weaving one header on. */
  lemma WeaveStep(str: bytes, marks: seq<ListMark>, k: nat, pos: nat, out: bytes)
    requires k < |marks| && Ordered(|str|, marks[k..], pos)
    ensures pos <= marks[k].offset <= |str|
    ensures Ordered(|str|, marks[k + 1..], marks[k].offset)
    ensures out + Weave(str, marks[k..], pos)
         == out + str[pos..marks[k].offset] + ListHead(marks[k].size) + Weave(str, marks[k + 1..], marks[k].offset)
  {
    var m, rest := marks[k], marks[k + 1..];
    assert marks[k..][0] == m && marks[k..][1..] == rest;
    OrderedBound(|str|, rest, m.offset);
    var s, h, w := str[pos..m.offset], ListHead(m.size), Weave(str, rest, m.offset);
    assert Weave(str, marks[k..], pos) == s + h + w;
    Assoc(out, s + h, w);
    Assoc(out, s, h);
  }

  /** The bytes `s` stand at position `p`. */
  ghost predicate Stands(str: bytes, p: nat, s: bytes) { p + |s| <= |str| && str[p..p + |s|] == s }

  lemma StandApart(str: bytes, p: nat, s: bytes, t: bytes, q: nat)
    requires Stands(str, p, s + t) && q == p + |s|
    ensures Stands(str, p, s) && Stands(str, q, t)
  {
    assert str[p..p + |s|] == str[p..p + |s + t|][..|s|];
    assert str[p + |s|..p + |s| + |t|] == str[p..p + |s + t|][|s|..];
  }

  /** Weaving from `p` with the headers `marks` first gives the bytes `enc`, and goes on from `q` with the rest. */
  ghost predicate Woven(str: bytes, marks: seq<ListMark>, p: nat, enc: bytes, rest: seq<ListMark>, q: nat) {
    && Ordered(|str|, rest, q) && Ordered(|str|, marks + rest, p)
    && Weave(str, marks + rest, p) == enc + Weave(str, rest, q)
  }

  lemma WovenData(str: bytes, rest: seq<ListMark>, p: nat, s: bytes, q: nat)
    requires q == p + |s| && Stands(str, p, s) && Ordered(|str|, rest, q)
    ensures Woven(str, [], p, s, rest, q) == true
  {
    WeaveSkip(str, rest, p, q);
    assert str[p..q] == s;
    WovenNothing(str, [], p, s, rest, q);
  }

  lemma WovenNothing(str: bytes, none: seq<ListMark>, p: nat, s: bytes, rest: seq<ListMark>, q: nat)
    requires none == [] && Ordered(|str|, rest, p) && Ordered(|str|, rest, q) && Weave(str, rest, p) == s + Weave(str, rest, q)
    ensures Woven(str, none, p, s, rest, q) == true
  {
    assert none + rest == rest;
  }

  /** A header at the current position is written first. */
  lemma WovenHead(str: bytes, size: nat, marks: seq<ListMark>, p: nat, enc: bytes, rest: seq<ListMark>, q: nat)
    requires Woven(str, marks, p, enc, rest, q)
    ensures Woven(str, [ListMark(p, size)] + marks, p, ListHead(size) + enc, rest, q) == true
  {
    var below := marks + rest;
    OrderedBound(|str|, below, p);
    FirstAndRest(ListMark(p, size), marks, rest);
    assert str[p..p] + ListHead(size) == ListHead(size);
    Assoc(ListHead(size), enc, Weave(str, rest, q));
  }

  lemma WovenTogether(str: bytes, a: seq<ListMark>, p: nat, x: bytes, b: seq<ListMark>, q: nat, y: bytes,
                      rest: seq<ListMark>, r: nat)
    requires Woven(str, a, p, x, b + rest, q) && Woven(str, b, q, y, rest, r)
    ensures Woven(str, a + b, p, x + y, rest, r) == true
  {
    Assoc(a, b, rest);
    Assoc(x, y, Weave(str, rest, r));
  }

  lemma {:induction false} WeaveItem(it: Item, str: bytes, rest: seq<ListMark>, p: nat, q: nat)
    requires Stands(str, p, Strings(it)) && q == p + |Strings(it)| && Ordered(|str|, rest, q)
    ensures Woven(str, Marks(it, p), p, Encode(it), rest, q) == true
    decreases it, 0
  {
    match it
    case Str(s) =>
      WovenData(str, rest, p, Strings(it), q);
    case List(items) =>
      WeaveItems(items, str, rest, p, q);
      WovenHead(str, |EncodeAll(items)|, MarksAll(items, p), p, EncodeAll(items), rest, q);
  }

  lemma {:induction false} WeaveItems(items: seq<Item>, str: bytes, rest: seq<ListMark>, p: nat, r: nat)
    requires Stands(str, p, StringsAll(items)) && r == p + |StringsAll(items)| && Ordered(|str|, rest, r)
    ensures Woven(str, MarksAll(items, p), p, EncodeAll(items), rest, r) == true
    decreases items, 1
  {
    if items == [] {
      WovenData(str, rest, p, [], r);
    } else {
      WeaveFirst(items, str, rest, p, p + |Strings(items[0])|, r);
    }
  }

  lemma {:induction false} WeaveFirst(items: seq<Item>, str: bytes, rest: seq<ListMark>, p: nat, q: nat, r: nat)
    requires items != [] && Stands(str, p, Strings(items[0]) + StringsAll(items[1..])) && Ordered(|str|, rest, r)
    requires q == p + |Strings(items[0])| && r == q + |StringsAll(items[1..])|
    ensures Woven(str, Marks(items[0], p) + MarksAll(items[1..], q), p, Encode(items[0]) + EncodeAll(items[1..]), rest, r) == true
    decreases items, 0
  {
    var later := MarksAll(items[1..], q);
    StandApart(str, p, Strings(items[0]), StringsAll(items[1..]), q);
    WeaveItems(items[1..], str, rest, q, r);
    WeaveItem(items[0], str, later + rest, p, q);
    WovenTogether(str, Marks(items[0], p), p, Encode(items[0]), later, q, EncodeAll(items[1..]), rest, r);
  }

  lemma MarkClosed(before: seq<ListMark>, first: ListMark, final: ListMark, below: seq<ListMark>)
    ensures |before| < |before + [first] + below| && (before + [first] + below)[|before|] == first
    ensures (before + [first] + below)[|before| := final] == before + ([final] + below)
  {
  }

  lemma HeadsSizeFirst(items: seq<Item>, off: nat)
    ensures HeadsSize(Marks(List(items), off)) == HeadSize(|EncodeAll(items)|) + HeadsSize(MarksAll(items, off))
  {
    assert Marks(List(items), off)[1..] == MarksAll(items, off);
  }

  lemma {:induction false} SizeOfItem(it: Item, off: nat)
    ensures |Encode(it)| == |Strings(it)| + HeadsSize(Marks(it, off))
    decreases it, 0
  {
    match it
    case Str(_) =>
    case List(items) =>
      SizeOfItems(items, off);
      assert Marks(it, off)[1..] == MarksAll(items, off);
  }

  lemma {:induction false} SizeOfItems(items: seq<Item>, off: nat)
    ensures |EncodeAll(items)| == |StringsAll(items)| + HeadsSize(MarksAll(items, off))
    decreases items, 1
  {
    if items != [] {
      var q := off + |Strings(items[0])|;
      assert EncodeAll(items) == Encode(items[0]) + EncodeAll(items[1..]);
      assert StringsAll(items) == Strings(items[0]) + StringsAll(items[1..]);
      assert MarksAll(items, off) == Marks(items[0], off) + MarksAll(items[1..], q);
      SizeOfItem(items[0], off);
      SizeOfItems(items[1..], q);
      HeadsSizeAppend(Marks(items[0], off), MarksAll(items[1..], q));
    }
  }

  // ---------------------------------------------------------------------------------------------
  // Writing numbers and headers into a buffer
  // ---------------------------------------------------------------------------------------------

  /** encode.go `intsize`. */
  method IntSize(n: nat) returns (size: nat)
    ensures n > 0 ==> size == |BigEndian(n)|
    ensures n == 0 ==> size == 1
  {
    var i := n;
    size := 1;
    i := i / 256;
    while i != 0
      invariant n > 0 ==> size + |BigEndian(i)| == |BigEndian(n)|
      invariant n == 0 ==> size == 1 && i == 0
      decreases i
    {
      size := size + 1;
      i := i / 256;
    }
  }

  /** The low `s` bytes of `i`, the most significant first: `byte(i >> 8*(s-1))`, ..., `byte(i)`. */
  function LowBytes(i: nat, s: nat): (b: bytes)
    ensures |b| == s
  {
    if s == 0 then [] else LowBytes(i / 256, s - 1) + [i % 256]
  }

  /** encode.go `putint`: the bytes it writes for a 64-bit number, one case for each length. */
  function PutInt(i: nat): bytes
    requires i < TWO64
  {
    if i < 0x100 then LowBytes(i, 1)
    else if i < 0x1_0000 then LowBytes(i, 2)
    else if i < 0x100_0000 then LowBytes(i, 3)
    else if i < 0x1_0000_0000 then LowBytes(i, 4)
    else if i < 0x100_0000_0000 then LowBytes(i, 5)
    else if i < 0x1_0000_0000_0000 then LowBytes(i, 6)
    else if i < 0x100_0000_0000_0000 then LowBytes(i, 7)
    else LowBytes(i, 8)
  }

  lemma {:induction false} LowBytesAreBigEndian(i: nat, s: nat)
    requires s > 0 && Pow256(s - 1) <= i < Pow256(s)
    ensures LowBytes(i, s) == BigEndian(i)
    decreases s
  {
    if s == 1 {
      assert i / 256 == 0;
    } else {
      LowBytesAreBigEndian(i / 256, s - 1);
    }
  }

  /** `putint` writes the shortest big-endian form. */
  lemma PutIntIsBigEndian(i: nat)
    requires 0 < i < TWO64
    ensures PutInt(i) == BigEndian(i)
  {
    assert Pow256(1) == 0x100 && Pow256(2) == 0x1_0000 && Pow256(3) == 0x100_0000;
    assert Pow256(4) == 0x1_0000_0000 && Pow256(5) == 0x100_0000_0000;
    assert Pow256(6) == 0x1_0000_0000_0000 && Pow256(7) == 0x100_0000_0000_0000;
    Pow256Is();
    LowBytesAreBigEndian(i, |PutInt(i)|);
  }

  /** encode.go `puthead`. */
  function PutHead(small: byte, large: byte, size: nat): (h: bytes)
    requires small <= 0xC0 && large <= 0xF7 && size < TWO64
    ensures h == Head(small, large, size)
  {
    if size < 56 then [small + size]
    else
      PutIntIsBigEndian(size);
      SizeBytes(size);
      [large + |PutInt(size)|] + PutInt(size)
  }

  // ---------------------------------------------------------------------------------------------
  // encbuf
  // ---------------------------------------------------------------------------------------------

  /** Every payload size is one a 64-bit number holds. */
  ghost predicate Small(marks: seq<ListMark>) {
    forall i :: 0 <= i < |marks| ==> marks[i].size < TWO64
  }

  class EncBuf {
    var str: bytes
    var lheads: seq<ListMark>
    var lhsize: nat

    constructor ()
      ensures str == [] && lheads == [] && lhsize == 0
    {
      str, lheads, lhsize := [], [], 0;
    }

    /** All lists are closed: header offsets are in order and `lhsize` accounts for every header. */
    ghost predicate Complete()
      reads this
    {
      Ordered(|str|, lheads, 0) && Small(lheads) && lhsize == HeadsSize(lheads)
    }

    /** The bytes this buffer stands for. */
    ghost function Output(): bytes
      requires Complete()
      reads this
    {
      Weave(str, lheads, 0)
    }

    /** encode.go `size`. */
    function Size(): nat
      reads this
    {
      |str| + lhsize
    }

    /** encode.go `encodeString`. */
    method WriteString(b: bytes)
      requires |b| < TWO64
      modifies this`str
      ensures str == old(str) + EncodeString(b)
    {
      if |b| == 1 && b[0] <= 0x7F {
        str := str + [b[0]];
      } else {
        str := str + PutHead(0x80, 0xB7, |b|);
        str := str + b;
      }
    }

    /** encode.go `writeUint`. */
    method WriteUint(i: nat)
      requires i < TWO64
      modifies this`str
      ensures str == old(str) + Encode(Str(BigEndian(i)))
    {
      if i == 0 {
        str := str + [0x80];
      } else if i < 128 {
        assert BigEndian(i) == BigEndian(0) + [i];
        str := str + [i];
      } else {
        PutIntIsBigEndian(i);
        SizeBytes(i);
        var s := PutInt(i);
        if i < 256 { assert BigEndian(i) == BigEndian(0) + [i]; }
        else { assert |BigEndian(i)| > |BigEndian(i / 256)| > 0; }
        str := str + [0x80 + |s|] + s;
      }
    }

    /** encode.go `list`: opens a header and hands out its place in `lheads`. */
    method OpenList() returns (lh: nat)
      modifies this`lheads
      ensures lh == |old(lheads)|
      ensures lheads == old(lheads) + [ListMark(|str|, lhsize)]
    {
      lh := |lheads|;
      lheads := lheads + [ListMark(|str|, lhsize)];
    }

    /** encode.go `listEnd`. */
    method CloseList(lh: nat)
      requires lh < |lheads| && lheads[lh].offset + lheads[lh].size <= |str| + lhsize
      modifies this`lheads, this`lhsize
      ensures var size := |str| + old(lhsize) - old(lheads[lh].offset) - old(lheads[lh].size);
              && lheads == old(lheads)[lh := ListMark(old(lheads[lh].offset), size)]
              && lhsize == old(lhsize) + HeadSize(size)
    {
      var size := Size() - lheads[lh].offset - lheads[lh].size;
      lheads := lheads[lh := ListMark(lheads[lh].offset, size)];
      if size < 56 {
        lhsize := lhsize + 1;
      } else {
        var n := IntSize(size);
        lhsize := lhsize + 1 + n;
      }
    }

    /** The loop over a list's elements (encode.go `makeSliceWriter`). */
    method WriteElems(items: seq<Item>)
      requires |EncodeAll(items)| < TWO64
      modifies this
      ensures str == old(str) + StringsAll(items)
      ensures lheads == old(lheads) + MarksAll(items, |old(str)|)
      ensures lhsize == old(lhsize) + HeadsSize(MarksAll(items, |old(str)|))
      decreases items, 1
    {
      ghost var at := |str|;
      var k := 0;
      assert items[0..] == items;
      while k < |items|
        invariant 0 <= k <= |items|
        invariant str + StringsAll(items[k..]) == old(str) + StringsAll(items)
        invariant lheads + MarksAll(items[k..], |str|) == old(lheads) + MarksAll(items, at)
        invariant lhsize + HeadsSize(MarksAll(items[k..], |str|)) == old(lhsize) + HeadsSize(MarksAll(items, at))
      {
        MemberFits(items, k);
        Unfold(items, k, str, lheads);
        WriteItem(items[k]);
        k := k + 1;
      }
    }

    /** `encode` of a nested item: a byte string, or a list between `list` and `listEnd`. */
    method WriteItem(it: Item)
      requires |Encode(it)| < TWO64
      modifies this
      ensures str == old(str) + Strings(it)
      ensures lheads == old(lheads) + Marks(it, |old(str)|)
      ensures lhsize == old(lhsize) + HeadsSize(Marks(it, |old(str)|))
      decreases it, 0
    {
      match it
      case Str(s) =>
        WriteString(s);
      case List(items) =>
        ghost var at := |str|;
        var lh := OpenList();
        WriteElems(items);
        SizeOfItems(items, at);
        ghost var before := old(lheads);
        MarkClosed(before, ListMark(at, old(lhsize)), ListMark(at, |EncodeAll(items)|), MarksAll(items, at));
        CloseList(lh);
        HeadsSizeFirst(items, at);
    }

    /** A fresh buffer that took one item stands for that item's encoding, with its exact size. */
    lemma OutputOf(it: Item)
      requires |Encode(it)| < TWO64
      requires str == Strings(it) && lheads == Marks(it, 0) && lhsize == HeadsSize(Marks(it, 0))
      ensures Complete() && Output() == Encode(it) && Size() == |Encode(it)|
    {
      MarksAreSmall(it, 0);
      WeaveItem(it, str, [], 0, |str|);
      assert Marks(it, 0) + [] == Marks(it, 0);
      assert Weave(str, [], |str|) == [];
      SizeOfItem(it, 0);
    }

    /** encode.go `toBytes`. */
    method ToBytes() returns (out: bytes)
      requires Complete()
      ensures out == Output() && |out| == Size()
    {
      out := [];
      var strpos: nat, k: nat := 0, 0;
      assert lheads[0..] == lheads;
      while k < |lheads|
        invariant 0 <= k <= |lheads|
        invariant Ordered(|str|, lheads[k..], strpos)
        invariant Output() == out + Weave(str, lheads[k..], strpos)
      {
        var head := lheads[k];
        WeaveStep(str, lheads, k, strpos, out);
        out := out + str[strpos..head.offset];
        strpos := head.offset;
        out := out + PutHead(0xC0, 0xF7, head.size);
        k := k + 1;
      }
      OrderedBound(|str|, lheads[k..], strpos);
      out := out + str[strpos..];
      WeaveLength(str, lheads, 0);
    }

    /** encode.go `toWriter`; `out` collects what the writer is given. */
    method ToWriter() returns (out: bytes)
      requires Complete()
      ensures out == Output()
    {
      out := [];
      var strpos: nat, k: nat := 0, 0;
      assert lheads[0..] == lheads;
      while k < |lheads|
        invariant 0 <= k <= |lheads|
        invariant Ordered(|str|, lheads[k..], strpos)
        invariant Output() == out + Weave(str, lheads[k..], strpos)
      {
        var head := lheads[k];
        WeaveStep(str, lheads, k, strpos, out);
        if head.offset - strpos > 0 {
          out := out + str[strpos..head.offset];
          strpos := head.offset;
        } else {
          assert out + str[strpos..head.offset] == out;
        }
        out := out + PutHead(0xC0, 0xF7, head.size);
        k := k + 1;
      }
      OrderedBound(|str|, lheads[k..], strpos);
      assert Weave(str, lheads[k..], strpos) == str[strpos..];
      if strpos < |str| {
        out := out + str[strpos..];
      }
    }
  }

  lemma {:induction false} MarksAreSmall(it: Item, off: nat)
    requires |Encode(it)| < TWO64
    ensures Small(Marks(it, off))
    decreases it, 0
  {
    match it
    case Str(_) =>
    case List(items) => AllMarksAreSmall(items, off);
  }

  lemma {:induction false} AllMarksAreSmall(items: seq<Item>, off: nat)
    requires |EncodeAll(items)| < TWO64
    ensures Small(MarksAll(items, off))
    decreases items, 1
  {
    if items != [] {
      MarksAreSmall(items[0], off);
      AllMarksAreSmall(items[1..], off + |Strings(items[0])|);
    }
  }

  /** One step of the element loop: what is still to be written, seen before and after `items[k]`. */
  lemma Unfold(items: seq<Item>, k: nat, str: bytes, marks: seq<ListMark>)
    requires k < |items|
    ensures str + StringsAll(items[k..]) == (str + Strings(items[k])) + StringsAll(items[k + 1..])
    ensures var at := |str + Strings(items[k])|;
            && marks + MarksAll(items[k..], |str|) ==
               (marks + Marks(items[k], |str|)) + MarksAll(items[k + 1..], at)
            && HeadsSize(MarksAll(items[k..], |str|)) ==
               HeadsSize(Marks(items[k], |str|)) + HeadsSize(MarksAll(items[k + 1..], at))
  {
    var at := |str + Strings(items[k])|;
    assert items[k..][0] == items[k] && items[k..][1..] == items[k + 1..];
    assert StringsAll(items[k..]) == Strings(items[k]) + StringsAll(items[k + 1..]);
    assert MarksAll(items[k..], |str|) == Marks(items[k], |str|) + MarksAll(items[k + 1..], at);
    Assoc(str, Strings(items[k]), StringsAll(items[k + 1..]));
    Assoc(marks, Marks(items[k], |str|), MarksAll(items[k + 1..], at));
    HeadsSizeAppend(Marks(items[k], |str|), MarksAll(items[k + 1..], at));
  }

  lemma {:induction false} MemberFits(items: seq<Item>, k: nat)
    requires k < |items| && |EncodeAll(items)| < TWO64
    ensures |Encode(items[k])| < TWO64
    decreases items
  {
    if k > 0 { MemberFits(items[1..], k - 1); }
  }

  /** encode.go `EncodeToBytes`: the two phases produce the recursive encoding. */
  method EncodeToBytes(it: Item) returns (out: bytes)
    requires |Encode(it)| < TWO64
    ensures out == Encode(it)
  {
    var eb := new EncBuf();
    eb.WriteItem(it);
    eb.OutputOf(it);
    out := eb.ToBytes();
  }

  // ---------------------------------------------------------------------------------------------
  // encReader
  // ---------------------------------------------------------------------------------------------

  lemma DataPiece(str: bytes, marks: seq<ListMark>, k: nat, pos: nat, off: nat)
    requires k < |marks| && off == marks[k].offset && pos <= off && Ordered(|str|, marks[k..], pos)
    ensures Ordered(|str|, marks[k..], off) && off <= |str|
    ensures Weave(str, marks[k..], pos) == str[pos..off] + Weave(str, marks[k..], off)
  {
    assert marks[k..][0] == marks[k];
    WeaveSkip(str, marks[k..], pos, off);
  }

  lemma HeadPiece(str: bytes, marks: seq<ListMark>, k: nat, pos: nat, next: nat)
    requires k < |marks| && next == k + 1 && marks[k].offset <= pos && Ordered(|str|, marks[k..], pos)
    ensures Ordered(|str|, marks[next..], pos)
    ensures Weave(str, marks[k..], pos) == ListHead(marks[k].size) + Weave(str, marks[next..], pos)
  {
    assert marks[k..][0] == marks[k] && marks[k..][1..] == marks[next..];
    OrderedBound(|str|, marks[next..], pos);
    assert str[pos..pos] + ListHead(marks[k].size) == ListHead(marks[k].size);
  }

  /** The next piece: the data before the next header, else that header, else the data after the last one. */
  method NextPiece(str: bytes, marks: seq<ListMark>, lhpos: nat, strpos: nat) returns (piece: Option<bytes>, l: nat, s: nat)
    requires lhpos <= |marks| && Small(marks) && Ordered(|str|, marks[lhpos..], strpos)
    ensures l <= |marks| && Ordered(|str|, marks[l..], s)
    ensures piece.None? ==> Weave(str, marks[lhpos..], strpos) == [] == Weave(str, marks[l..], s)
    ensures piece.Some? ==> piece.value != [] && Weave(str, marks[lhpos..], strpos) == piece.value + Weave(str, marks[l..], s)
  {
    l, s := lhpos, strpos;
    if lhpos < |marks| {
      var head := marks[lhpos];
      if head.offset > strpos {
        DataPiece(str, marks, lhpos, strpos, head.offset);
        s := head.offset;
        piece := Some(str[strpos..s]);
      } else {
        l := lhpos + 1;
        HeadPiece(str, marks, lhpos, strpos, l);
        piece := Some(PutHead(0xC0, 0xF7, head.size));
      }
    } else {
      OrderedBound(|str|, marks[lhpos..], strpos);
      if strpos < |str| {
        s := |str|;
        piece := Some(str[strpos..]);
        assert str[s..] == [];
      } else {
        piece := None;
      }
    }
  }

  class EncReader {
    var buf: EncBuf?
    var lhpos: nat
    var strpos: nat
    var piece: Option<bytes>

    ghost predicate Valid()
      reads this, buf
    {
      && (piece.Some? ==> piece.value != [])
      && (buf == null ==> piece.None?)
      && (buf != null ==>
            && lhpos <= |buf.lheads| && Small(buf.lheads)
            && Ordered(|buf.str|, buf.lheads[lhpos..], strpos))
    }

    /** The bytes not yet handed out. */
    ghost function Remaining(): bytes
      requires Valid()
      reads this, buf
    {
      if buf == null then []
      else (if piece.Some? then piece.value else []) + Weave(buf.str, buf.lheads[lhpos..], strpos)
    }

    constructor (eb: EncBuf)
      requires eb.Complete()
      ensures Valid() && buf == eb && Remaining() == eb.Output()
    {
      buf, lhpos, strpos, piece := eb, 0, 0, None;
      new;
      assert eb.lheads[0..] == eb.lheads;
      assert Remaining() == [] + Weave(eb.str, eb.lheads, 0);
    }

    /** encode.go `next`: moves the next piece out of the buffers; no piece means end of data. */
    method Next()
      requires Valid()
      modifies this`lhpos, this`strpos, this`piece
      ensures Valid() && buf == old(buf) && Remaining() == old(Remaining())
      ensures piece.None? <==> Remaining() == []
      ensures piece.Some? ==> piece.value <= Remaining()
    {
      if buf == null {
        piece := None;
      } else if piece.None? {
        piece, lhpos, strpos := NextPiece(buf.str, buf.lheads, lhpos, strpos);
      }
    }

    /** Hands out the first `n` bytes of the current piece and keeps what is left of it. */
    method Take(n: nat) returns (data: bytes)
      requires Valid() && piece.Some? && n <= |piece.value|
      modifies this`piece
      ensures Valid() && |data| == n
      ensures data + Remaining() == old(Remaining())
      ensures n == |old(piece).value| <==> piece.None?
    {
      var p := piece.value;
      ghost var rest := Weave(buf.str, buf.lheads[lhpos..], strpos);
      data := p[..n];
      assert p + rest == p[..n] + (p[n..] + rest);
      if n < |p| {
        piece := Some(p[n..]);
      } else {
        piece := None;
        assert p[n..] + rest == [] + rest;
      }
    }

    /** One round of `Read`: the next piece as far as there is room; a piece is left only when there is no more. */
    method TakeSome(room: nat) returns (d: bytes, end: bool)
      requires Valid()
      modifies this`lhpos, this`strpos, this`piece
      ensures Valid() && buf == old(buf) && (end <==> old(Remaining()) == [])
      ensures |d| <= room && d + Remaining() == old(Remaining()) && (end ==> d == [])
      ensures !end && piece.Some? ==> |d| == room && Remaining() != []
      ensures !end && piece.None? ==> |d| > 0
    {
      Next();
      if piece.None? { return [], true; }
      d := Take(if room < |piece.value| then room else |piece.value|);
      end := false;
    }

    /** encode.go `Read` into a buffer of `n` bytes. */
    method Read(n: nat) returns (data: bytes, eof: bool)
      requires Valid()
      modifies this
      ensures Valid()
      ensures data + Remaining() == old(Remaining())
      ensures |data| == if n < |old(Remaining())| then n else |old(Remaining())|
      ensures eof <==> |old(Remaining())| <= n
      ensures buf == old(buf) || buf == null
    {
      data := [];
      while true
        invariant Valid() && |data| <= n
        invariant data + Remaining() == old(Remaining())
        invariant buf == old(buf)
        decreases |Remaining()|
      {
        var d, end := TakeSome(n - |data|);
        if end {
          buf := null;
          return data, true;
        }
        Assoc(data, d, Remaining());
        data := data + d;
        if piece.Some? {
          return data, false;
        }
      }
    }
  }

  ghost function Sum(sizes: seq<nat>): nat {
    if sizes == [] then 0 else sizes[0] + Sum(sizes[1..])
  }

  function Min(a: nat, b: nat): nat { if a < b then a else b }

  /** However the reads are sized, together they return the encoding from its start on. */
  method ReadAll(r: EncReader, sizes: seq<nat>) returns (out: bytes)
    requires r.Valid()
    modifies r
    ensures r.Valid() && out + r.Remaining() == old(r.Remaining())
    ensures |out| == Min(Sum(sizes), |old(r.Remaining())|)
    decreases |sizes|
  {
    if sizes == [] {
      out := [];
    } else {
      var d, _ := r.Read(sizes[0]);
      var rest := ReadAll(r, sizes[1..]);
      out := d + rest;
      Assoc(d, rest, r.Remaining());
    }
  }
}
