/**
 The streaming decoder of rlp/decode.go over a byte slice: a cursor, a cached header and a stack of
 open lists. Its results are compared with `Rlp.Decode`, which works on values.
 Where a contract says `P(...) == true`, the predicate is meant as one fact, not as the list of its parts.
 */
module RlpStream {
  import opened Bytes
  import opened Rlp

  /** decode.go `listpos`: how far into a list of `size` payload bytes the cursor is. */
  datatype ListPos = ListPos(pos: nat, size: nat)

  /** The stack with `n` more bytes of the innermost list read. */
  function Advance(stack: seq<ListPos>, n: nat): (r: seq<ListPos>)
    ensures |r| == |stack|
  {
    if stack == [] then []
    else
      var top := stack[|stack| - 1];
      stack[|stack| - 1 := ListPos(top.pos + n, top.size)]
  }

  /** decode.go `ListEnd`: the stack once the innermost list is closed. */
  function Pop(stack: seq<ListPos>): seq<ListPos>
    requires stack != []
  {
    Advance(stack[..|stack| - 1], stack[|stack| - 1].size)
  }

  /** The cursor is inside the innermost list, whose end is known. */
  ghost predicate Nested(len: nat, pos: nat, stack: seq<ListPos>, ends: seq<nat>) {
    && pos <= len && |ends| == |stack|
    && (stack != [] ==>
          var top := stack[|stack| - 1];
          top.pos <= top.size && pos + (top.size - top.pos) == ends[|ends| - 1] <= len)
  }

  lemma NestedAdvance(len: nat, pos: nat, n: nat, stack: seq<ListPos>, ends: seq<nat>, next: nat)
    requires Nested(len, pos, stack, ends) && next == pos + n <= (if stack == [] then len else ends[|ends| - 1])
    ensures Nested(len, next, Advance(stack, n), ends)
  {
  }

  /** The value ahead has a header, and its content fits the list or the input. */
  predicate Fits(w: bytes) {
    var h := ParseHead(w);
    h.Ok? && h.value.tag + h.value.content <= |w|
  }

  /** The content of the value ahead, and what follows it. */
  ghost function ContentOf(w: bytes): bytes
    requires Fits(w)
  {
    var h := ParseHead(w).value;
    w[h.tag..h.tag + h.content]
  }

  ghost function Following(w: bytes): bytes
    requires Fits(w)
  {
    var h := ParseHead(w).value;
    w[h.tag + h.content..]
  }

  /** What the value-level splitter says of a window whose header fits, and of one whose does not. */
  lemma SplitFits(w: bytes)
    ensures !Fits(w) ==> Split(w).Err?
    ensures Fits(w) ==>
              var h := ParseHead(w).value;
              && (NeedlessString(w) <==> h.kind == StringKind && h.content == 1 && w[h.tag] < 128)
              && (NeedlessString(w) ==> Split(w).Err?)
              && (!NeedlessString(w) ==> Split(w) == Ok(Piece(h.kind, ContentOf(w), Following(w))))
  {
  }

  class Stream {
    const input: bytes
    var pos: nat
    var remaining: nat
    var kind: Option<Kind>
    var size: nat
    var byteval: byte
    var kinderr: Option<Error>
    var stack: seq<ListPos>

    /** Where in the input each open list ends. */
    ghost var ends: seq<nat>

    ghost predicate Valid()
      reads this
    {
      |input| < TWO64 && remaining == |input| - pos && Nested(|input|, pos, stack, ends)
    }

    /** The end of the innermost open list, or of the input. */
    ghost function End(): nat
      requires Valid()
      reads this
    {
      if stack == [] then |input| else ends[|ends| - 1]
    }

    /** The bytes the next value may be read from. */
    ghost function Window(): (w: bytes)
      requires Valid()
      reads this
      ensures |w| == End() - pos
    {
      input[pos..End()]
    }

    constructor (b: bytes)
      requires |b| < TWO64
      ensures Valid() && input == b && pos == 0 && stack == [] && kind.None?
    {
      input, pos, remaining := b, 0, |b|;
      kind, size, byteval, kinderr, stack, ends := None, 0, 0, None, [], [];
    }

    /** decode.go `willRead`, `readByte` and `readFull`: the next `n` bytes, if list and input hold them. */
    method ReadFull(n: nat) returns (r: Result<bytes>)
      requires Valid()
      modifies this`kind, this`stack, this`remaining, this`pos
      ensures kind == None
      ensures r.Ok? <==> old(pos) + n <= old(End())
      ensures r.Ok? ==> Valid() && pos == old(pos) + n <= End() && r.value == input[old(pos)..pos]
      ensures r.Ok? ==> stack == Advance(old(stack), n) && End() == old(End())
      ensures r.Err? ==> r.error == (if old(stack) != [] then ElemTooLarge else ValueTooLarge)
    {
      kind := None;
      if |stack| > 0 {
        var tos := stack[|stack| - 1];
        if n > tos.size - tos.pos {
          return Err(ElemTooLarge);
        }
        stack := stack[|stack| - 1 := ListPos(tos.pos + n, tos.size)];
      }
      if n > remaining {
        return Err(ValueTooLarge);
      }
      remaining := remaining - n;
      r := Ok(input[pos..pos + n]);
      pos := pos + n;
    }

    /** decode.go `readUint` of one to eight bytes: big-endian, no leading zero from two bytes on. */
    method ReadUint(n: nat) returns (r: Result<nat>)
      requires Valid() && 1 <= n <= 8
      modifies this`kind, this`stack, this`remaining, this`pos
      ensures kind == None
      ensures r.Ok? ==> Valid() && pos == old(pos) + n <= End() == old(End()) && stack == Advance(old(stack), n)
      ensures r.Ok? ==> r.value == Number(input[old(pos)..pos])
      ensures r.Ok? <==> old(pos) + n <= old(End()) && (n == 1 || old(Window())[0] != 0)
      ensures r.Err? ==> r.error != EOL
    {
      ghost var w := Window();
      var b := ReadFull(n);
      if b.Err? { return Err(b.error); }
      assert w[0] == b.value[0];
      if n > 1 && b.value[0] == 0 {
        return Err(CanonSize);
      }
      r := Ok(Number(b.value));
    }

    /** The size bytes of a long header, as `readKind` reads and checks them. */
    method ReadLongSize(n: nat) returns (r: Result<nat>)
      requires Valid() && 1 <= n <= 8
      modifies this`kind, this`stack, this`remaining, this`pos
      ensures r.Ok? <==> ReadSize(old(Window()), n).Ok?
      ensures r.Ok? ==> r.value == ReadSize(old(Window()), n).value
      ensures r.Ok? ==> Valid() && pos == old(pos) + n <= End() == old(End()) && stack == Advance(old(stack), n)
      ensures r.Err? ==> r.error != EOL
    {
      assert pos + n <= End() ==> Window()[..n] == input[pos..pos + n];
      r := ReadUint(n);
      if r.Ok? && r.value < 56 {
        r := Err(CanonSize);
      }
    }

    /** The bytes a header takes; a single byte is its own header. */
    static function HeadLength(h: Header): nat {
      if h.kind == ByteKind then 1 else h.tag
    }

    /** The part of `readKind` after the tag byte `b` was read. */
    method ReadAfterTag(b: byte) returns (r: Result<(Kind, nat)>)
      requires Valid()
      modifies this`kind, this`stack, this`remaining, this`pos, this`byteval
      ensures r.Ok? <==> ParseHead([b] + old(Window())).Ok?
      ensures r.Ok? ==>
                var h := ParseHead([b] + old(Window())).value;
                && r.value == (h.kind, if h.kind == ByteKind then 0 else h.content)
                && Valid() && End() == old(End()) && pos + 1 == old(pos) + HeadLength(h)
                && stack == Advance(old(stack), HeadLength(h) - 1)
                && (h.kind == ByteKind ==> byteval == b)
      ensures r.Err? ==> r.error != EOL
    {
      assert ([b] + Window())[1..] == Window();
      assert Advance(stack, 0) == stack;
      byteval := 0;
      if b < 0x80 {
        byteval := b;
        r := Ok((ByteKind, 0));
      } else if b < 0xB8 {
        r := Ok((StringKind, b - 0x80));
      } else if b < 0xC0 {
        var n := ReadLongSize(b - 0xB7);
        r := if n.Err? then Err(n.error) else Ok((StringKind, n.value));
      } else if b < 0xF8 {
        r := Ok((ListKind, b - 0xC0));
      } else {
        var n := ReadLongSize(b - 0xF7);
        r := if n.Err? then Err(n.error) else Ok((ListKind, n.value));
      }
    }

    /** decode.go `readKind`: the tag of the next value and its size bytes. */
    method ReadKind() returns (r: Result<(Kind, nat)>)
      requires Valid()
      modifies this`kind, this`stack, this`remaining, this`pos, this`byteval
      ensures r.Ok? <==> ParseHead(old(Window())).Ok?
      ensures r.Ok? ==>
                var h := ParseHead(old(Window())).value;
                && r.value == (h.kind, if h.kind == ByteKind then 0 else h.content)
                && Valid() && End() == old(End()) && pos == old(pos) + HeadLength(h)
                && stack == Advance(old(stack), HeadLength(h))
                && (h.kind == ByteKind ==> byteval == input[old(pos)])
      ensures r.Err? ==> r.error != EOL
    {
      ghost var w, was := Window(), stack;
      var b0 := ReadFull(1);
      if b0.Err? {
        return Err(if |stack| == 0 then EOF else b0.error);
      }
      assert w == [b0.value[0]] + Window();
      r := ReadAfterTag(b0.value[0]);
      if r.Ok? {
        ghost var n := HeadLength(ParseHead(w).value);
        AdvanceTwice(was, 1, n - 1, n);
      }
    }

    /** A header is cached and the content it announces is there to be read. */
    ghost predicate Ahead()
      reads this
    {
      && Valid() && kind.Some? && kinderr.None?
      && pos + size <= End() && (kind == Some(ByteKind) ==> size == 0)
    }

    /** decode.go `Kind`: reads the header of the next value, or repeats what is cached. */
    method Kind(ghost w: bytes) returns (r: Result<(Kind, nat)>)
      requires Valid() && w == Window()
      modifies this`kind, this`size, this`kinderr, this`stack, this`remaining, this`pos, this`byteval
      ensures old(kind).Some? ==>
                && unchanged(this)
                && r == (if kinderr.Some? then Err(kinderr.value) else Ok((kind.value, size)))
      ensures old(kind).None? ==> (r == Err(EOL) <==> old(stack) != [] && w == [])
      ensures old(kind).None? && r == Err(EOL) ==> Valid() && kind.None? && stack == old(stack) && pos == old(pos)
      ensures old(kind).None? ==> (r.Ok? <==> Fits(w))
      ensures old(kind).None? && r.Ok? ==>
                var h := ParseHead(w).value;
                && Ahead() && r.value == (kind.value, size)
                && kind == Some(h.kind) && size == (if h.kind == ByteKind then 0 else h.content)
                && pos == old(pos) + HeadLength(h) && stack == Advance(old(stack), HeadLength(h))
                && (h.kind == ByteKind ==> byteval == w[0])
    {
      if kind.None? {
        kinderr := None;
        if |stack| > 0 && stack[|stack| - 1].pos == stack[|stack| - 1].size {
          return Err(EOL);
        }
        var k := ReadKind();
        if k.Err? {
          kind, kinderr := Some(ByteKind), Some(k.error);
          return Err(k.error);
        }
        kind, size := Some(k.value.0), k.value.1;
        if |stack| == 0 {
          if size > remaining { kinderr := Some(ValueTooLarge); }
        } else {
          var tos := stack[|stack| - 1];
          if size > tos.size - tos.pos { kinderr := Some(ElemTooLarge); }
        }
      }
      r := if kinderr.Some? then Err(kinderr.value) else Ok((kind.value, size));
    }

    /** decode.go `Bytes` once `Kind` has answered. */
    method Bytes() returns (r: Result<bytes>)
      requires Ahead()
      modifies this`kind, this`stack, this`remaining, this`pos
      ensures r.Ok? <==> old(kind) == Some(ByteKind) ||
                         (old(kind) == Some(StringKind) && !(size == 1 && input[old(pos)] < 128))
      ensures r.Ok? ==>
                && Valid() && kind.None? && pos == old(pos) + size
                && stack == Advance(old(stack), size)
                && r.value == (if old(kind) == Some(ByteKind) then [byteval] else input[old(pos)..pos])
      ensures r.Err? ==> r.error != EOL
    {
      match kind.value
      case ByteKind =>
        kind := None;
        r := Ok([byteval]);
        assert Advance(stack, 0) == stack;
      case StringKind =>
        r := ReadFull(size);
        if size == 1 && r.value[0] < 128 {
          r := Err(CanonSize);
        }
      case ListKind =>
        r := Err(ExpectedString);
    }

    /** decode.go `List` once `Kind` has answered: the list becomes the innermost one. */
    method List() returns (r: Result<nat>)
      requires Ahead()
      modifies this`kind, this`size, this`stack, this`ends
      ensures r.Ok? <==> old(kind) == Some(ListKind)
      ensures r.Ok? ==>
                && Valid() && kind.None? && r.value == old(size) && End() == pos + r.value
                && stack == old(stack) + [ListPos(0, r.value)] && ends == old(ends) + [pos + r.value]
      ensures r.Err? ==> r.error == ExpectedList
    {
      if kind.value != ListKind {
        return Err(ExpectedList);
      }
      r := Ok(size);
      stack := stack + [ListPos(0, size)];
      ends := ends + [pos + size];
      kind := None;
      size := 0;
    }

    /** decode.go `ListEnd`. */
    method ListEnd() returns (err: Option<Error>)
      requires Valid() && kind.None?
      modifies this`kind, this`size, this`stack, this`ends
      ensures err.None? <==> old(stack) != [] && pos == old(End())
      ensures err.Some? ==> err.value != EOL
      ensures err.None? ==> kind.None? && stack == Pop(old(stack)) && ends == old(ends)[..|old(ends)| - 1]
    {
      if |stack| == 0 { return Some(NotInList); }
      var tos := stack[|stack| - 1];
      if tos.pos != tos.size { return Some(NotAtEOL); }
      stack := stack[..|stack| - 1];
      if |stack| > 0 {
        var k := |stack| - 1;
        stack := stack[k := ListPos(stack[k].pos + tos.size, stack[k].size)];
      }
      ends := ends[..|ends| - 1];
      kind := None;
      size := 0;
      err := None;
    }

    /** The cursor moved on from `from` inside the lists that were open there. */
    ghost predicate Passed(from: nat, below: seq<ListPos>, e0: seq<nat>)
      reads this
    {
      Valid() && kind.None? && ends == e0 && from <= pos && stack == Advance(below, pos - from)
    }

    /** decode.go `decodeInterface`: the next value of the innermost list, or of the input. */
    method DecodeInterface(ghost w: bytes) returns (r: Result<Item>)
      requires Valid() && kind.None? && w == Window()
      modifies this
      ensures r == Err(EOL) <==> old(stack) != [] && w == []
      ensures r == Err(EOL) ==> pos == old(pos) && Passed(old(pos), old(stack), old(ends)) == true
      ensures r.Ok? <==> Decode(w).Some?
      ensures r.Ok? ==>
                && r.value == Decode(w).value.0
                && pos + |Decode(w).value.1| == old(pos) + |w|
                && Passed(old(pos), old(stack), old(ends)) == true
      decreases |input| - pos, 0
    {
      ghost var from, below := pos, stack;
      var k := Kind(w);
      if k.Err? {
        AdvanceZero(below);
        DecodeUnfit(w);
        return Err(k.error);
      }
      r := DecodeFound(w, from, below);
    }

    /** The part of `decodeInterface` after `Kind`. */
    method DecodeFound(ghost w: bytes, ghost from: nat, ghost below: seq<ListPos>) returns (r: Result<Item>)
      requires Ahead() && Fits(w) && from < pos && from + |w| <= |input| && w == input[from..from + |w|]
      requires HeadRead(w, from) && stack == Advance(below, pos - from)
      modifies this
      ensures r.Ok? <==> Decode(w).Some?
      ensures r.Ok? ==>
                && r.value == Decode(w).value.0
                && pos + |Decode(w).value.1| == from + |w|
                && Passed(from, below, old(ends)) == true
      ensures r.Err? ==> r.error != EOL
      decreases |input| - pos, 5
    {
      ghost var head, body := pos - from, size;
      AdvanceTwice(below, head, body, head + body);
      ContentIs(w, from);
      r := DecodeAhead(ContentOf(w));
      DecodedIs(w, r, from, pos);
    }

    /** The header of the value at `from` is cached and the cursor is behind it. */
    ghost predicate HeadRead(w: bytes, from: nat)
      requires Fits(w)
      reads this
    {
      var h := ParseHead(w).value;
      && kind == Some(h.kind) && pos == from + HeadLength(h)
      && if h.kind == ByteKind then byteval == w[0] else size == h.content
    }

    lemma ContentIs(w: bytes, from: nat)
      requires Ahead() && Fits(w) && from + |w| <= |input| && w == input[from..from + |w|]
      requires HeadRead(w, from)
      ensures Content(ContentOf(w))
    {
      var h := ParseHead(w).value;
      if h.kind == ByteKind {
        assert w[0..1] == [w[0]];
      } else {
        SubSlice(input, from, from + |w|, h.tag, h.tag + h.content, pos, pos + size);
      }
    }

    /** `c` is the content of the value whose header is cached. */
    ghost predicate Content(c: bytes)
      requires Ahead()
      reads this
    {
      c == if kind.value == ByteKind then [byteval] else input[pos..pos + size]
    }

    /** The two branches of `decodeInterface`, taken once the header is known. */
    method DecodeAhead(ghost c: bytes) returns (r: Result<Item>)
      requires Ahead() && pos > 0 && Content(c)
      modifies this
      ensures r.Ok? <==> ItemOf(old(kind).value, c).Some?
      ensures r.Ok? ==>
                && Some(r.value) == ItemOf(old(kind).value, c)
                && pos == old(pos) + old(size) && Passed(old(pos), old(stack), old(ends)) == true
      ensures r.Err? ==> r.error != EOL
      decreases |input| - pos, 4
    {
      if kind.value == ListKind {
        var items := DecodeListSlice(c);
        r := if items.Err? then Err(items.error) else Ok(Item.List(items.value));
      } else {
        var b := Bytes();
        r := if b.Err? then Err(b.error) else Ok(Str(b.value));
      }
    }

    /** `ListEnd` of a list read to its end. */
    method CloseList(ghost from: nat, ghost below: seq<ListPos>, ghost e0: seq<nat>, ghost n0: nat)
      requires pos == from + n0 && Passed(from, below + [ListPos(0, n0)], e0 + [pos])
      requires Nested(|input|, pos, Advance(below, n0), e0)
      modifies this`kind, this`size, this`stack, this`ends
      ensures Passed(from, below, e0) == true
    {
      PopAdvanced(below, n0);
      var e := ListEnd();
      assert (e0 + [pos])[..|e0|] == e0;
    }

    /** decode.go `decodeListSlice`: the elements between `List` and `ListEnd`. */
    method DecodeListSlice(ghost c: bytes) returns (r: Result<seq<Item>>)
      requires Ahead() && kind == Some(ListKind) && pos > 0 && Content(c)
      modifies this
      ensures r.Ok? <==> DecodeAll(c).Some?
      ensures r.Ok? ==>
                && Some(r.value) == DecodeAll(c)
                && pos == old(pos) + old(size) && Passed(old(pos), old(stack), old(ends)) == true
      ensures r.Err? ==> r.error != EOL
      decreases |input| - pos, 3
    {
      ghost var from, below, e0, n0 := pos, stack, ends, size;
      NestedAdvance(|input|, from, n0, below, e0, from + n0);
      r := DecodeOpened(c);
      if r.Ok? { CloseList(from, below, e0, n0); }
    }

    /** The part of `decodeListSlice` up to `ListEnd`. */
    method DecodeOpened(ghost c: bytes) returns (r: Result<seq<Item>>)
      requires Ahead() && kind == Some(ListKind) && pos > 0 && Content(c)
      modifies this
      ensures r.Ok? <==> DecodeAll(c).Some?
      ensures r.Ok? ==>
                && Some(r.value) == DecodeAll(c) && pos == old(pos) + old(size)
                && Passed(old(pos), old(stack) + [ListPos(0, old(size))], old(ends) + [pos]) == true
      ensures r.Err? ==> r.error != EOL
      decreases |input| - pos, 3, 0
    {
      var n := List();
      if n.value == 0 {
        AdvanceZero(stack);
        r := Ok([]);
      } else {
        r := DecodeSliceElems(c);
      }
    }

    /** decode.go `uint`: an integer is a string in shortest big-endian form. */
    method Uint(maxbits: nat, ghost w: bytes) returns (r: Result<nat>)
      requires Valid() && kind.None? && w == Window() && 8 <= maxbits <= 64
      modifies this
      ensures r.Ok? <==> UintContent(w, maxbits).Some?
      ensures r.Ok? ==> BigEndian(r.value) == UintContent(w, maxbits).value
    {
      UintFits(w);
      ghost var from := pos;
      var k := Kind(w);
      if k.Err? { return Err(k.error); }
      ContentIs(w, from);
      r := UintAhead(maxbits, ContentOf(w));
    }

    /** The switch of `uint`, taken once the header is known. */
    method UintAhead(maxbits: nat, ghost c: bytes) returns (r: Result<nat>)
      requires Ahead() && Content(c) && 8 <= maxbits <= 64
      modifies this`kind, this`stack, this`remaining, this`pos
      ensures r.Ok? <==>
                && old(kind).value != ListKind && |c| <= maxbits / 8 && (c == [] || c[0] != 0)
                && !(old(kind).value == StringKind && |c| == 1 && c[0] < 128)
      ensures r.Ok? ==> BigEndian(r.value) == c
    {
      match kind.value
      case ByteKind =>
        if byteval == 0 { return Err(CanonInt); }
        kind := None;
        OneByte(byteval);
        r := Ok(byteval);
      case StringKind =>
        if size > maxbits / 8 { return Err(UintOverflow); }
        if size == 0 {
          kind := None;
          return Ok(0);
        }
        r := UintString(c);
      case ListKind =>
        r := Err(ExpectedString);
    }

    method UintString(ghost c: bytes) returns (r: Result<nat>)
      requires Ahead() && kind == Some(StringKind) && Content(c) && 1 <= size <= 8
      modifies this`kind, this`stack, this`remaining, this`pos
      ensures r.Ok? <==> c[0] != 0 && !(|c| == 1 && c[0] < 128)
      ensures r.Ok? ==> BigEndian(r.value) == c
    {
      FirstOf(input, pos, pos + size);
      FirstOf(input, pos, End());
      r := ReadUint(size);
      assert r.Ok? ==> r.value == Number(c);
      UintBytes(c);
      if r == Err(CanonSize) {
        r := Err(CanonInt);
      } else if r.Ok? && r.value < 128 {
        r := Err(CanonSize);
      }
    }

    /** Inside `decodeSliceElems`: `w` is left of the list's payload `w0`. */
    ghost predicate AtElem(w0: bytes, s0: seq<ListPos>, p0: nat, e0: seq<nat>, w: bytes)
      reads this
    {
      && Valid() && kind.None? && ends == e0 && stack != [] && w == Window()
      && p0 <= pos && p0 + |w0| == pos + |w| && stack == Advance(s0, pos - p0)
    }

    /** The call of the element decoder in the loop of `decodeSliceElems`. */
    method DecodeElem(ghost w0: bytes, ghost s0: seq<ListPos>, ghost p0: nat, ghost e0: seq<nat>, ghost w: bytes)
      returns (r: Result<Item>, ghost w': bytes)
      requires AtElem(w0, s0, p0, e0, w)
      modifies this
      ensures r.Ok? ==> AtElem(w0, s0, p0, e0, w') == true && pos > old(pos) && w != [] && Decode(w) == Some((r.value, w'))
      ensures r == Err(EOL) ==> w == [] && AtElem(w0, s0, p0, e0, []) == true
      ensures r.Err? && r.error != EOL ==> w != [] && Decode(w).None?
      decreases |input| - pos, 1
    {
      ghost var at, s1 := pos, stack;
      r := DecodeInterface(w);
      w' := w;
      if r.Ok? {
        ElemRead(w0, s0, p0, e0, w, at, s1);
        w' := Decode(w).value.1;
      } else {
        AdvanceZero(s1);
      }
    }

    /** Behind an element the loop is where it was, one element on. */
    lemma ElemRead(w0: bytes, s0: seq<ListPos>, p0: nat, e0: seq<nat>, w: bytes, at: nat, s1: seq<ListPos>)
      requires e0 != [] && at <= e0[|e0| - 1] <= |input| && w == input[at..e0[|e0| - 1]]
      requires p0 <= at && p0 + |w0| == at + |w| && s1 == Advance(s0, at - p0) && Passed(at, s1, e0)
      requires Decode(w).Some? && pos + |Decode(w).value.1| == at + |w|
      ensures AtElem(w0, s0, p0, e0, Decode(w).value.1) == true && pos > at && w != []
    {
      NextWindow(input, at, w, pos, at + |w|);
      AdvanceTwice(s0, at - p0, pos - at, pos - p0);
    }

    /** decode.go `decodeSliceElems`: values until the list reports its end. */
    method DecodeSliceElems(ghost w0: bytes) returns (r: Result<seq<Item>>)
      requires Valid() && kind.None? && stack != [] && w0 == Window()
      modifies this
      ensures r.Ok? <==> DecodeAll(w0).Some?
      ensures r.Ok? ==>
                && Some(r.value) == DecodeAll(w0)
                && pos == old(pos) + |w0| && Passed(old(pos), old(stack), old(ends)) == true
      ensures r.Err? ==> r.error != EOL
      decreases |input| - pos, 2
    {
      var items := [];
      ghost var w, s0, p0, e0 := w0, stack, pos, ends;
      AdvanceZero(stack);
      PrependNothing(DecodeAll(w0));
      while true
        invariant AtElem(w0, s0, p0, e0, w) && pos >= old(pos)
        invariant DecodeAll(w0) == Prepend(items, DecodeAll(w))
        decreases |w|
      {
        DecodeAllStep(items, w);
        var e;
        e, w := DecodeElem(w0, s0, p0, e0, w);
        if e == Err(EOL) {
          return Ok(items);
        } else if e.Err? {
          return Err(e.error);
        }
        items := items + [e.value];
      }
    }
  }

  /** The content of a string value that is a number of at most `maxbits` bits in shortest form. */
  ghost function UintContent(w: bytes, maxbits: nat): Option<bytes> {
    match SplitString(w)
    case Err(_) => None
    case Ok(p) =>
      if |p.content| <= maxbits / 8 && (p.content == [] || p.content[0] != 0) then Some(p.content) else None
  }

  lemma UintFits(w: bytes)
    ensures !Fits(w) ==> SplitString(w).Err?
    ensures Fits(w) ==>
              var h := ParseHead(w).value;
              var c := ContentOf(w);
              && (SplitString(w).Ok? <==> h.kind == ByteKind || (h.kind == StringKind && !(|c| == 1 && c[0] < 128)))
              && (SplitString(w).Ok? ==> SplitString(w).value.content == c)
  {
    SplitFits(w);
  }

  lemma OneByte(b: byte)
    requires b != 0
    ensures BigEndian(b) == [b]
  {
    assert BigEndian(b) == BigEndian(0) + [b];
  }

  /** A string of two bytes or more without leading zero is a number of 256 or more. */
  lemma UintBytes(c: bytes)
    requires c != []
    ensures |c| == 1 ==> Number(c) == c[0]
    ensures c[0] != 0 ==> BigEndian(Number(c)) == c
    ensures c[0] != 0 && |c| > 1 ==> Number(c) >= 256
  {
    if |c| == 1 { assert c[..0] == []; }
    if c[0] != 0 {
      BigEndianOfNumber(c);
      if |c| > 1 { NumberPositive(c[..|c| - 1]); }
    }
  }

  ghost function Prepend(items: seq<Item>, o: Option<seq<Item>>): Option<seq<Item>> {
    if o.None? then None else Some(items + o.value)
  }

  lemma PrependNothing(o: Option<seq<Item>>)
    ensures Prepend([], o) == o
  {
    if o.Some? { assert [] + o.value == o.value; }
  }

  /** What is still to be decoded of a list, before and after one more element. */
  lemma DecodeAllStep(items: seq<Item>, w: bytes)
    ensures w == [] ==> Prepend(items, DecodeAll(w)) == Some(items)
    ensures w != [] && Decode(w).None? ==> Prepend(items, DecodeAll(w)).None?
    ensures w != [] && Decode(w).Some? ==>
              Prepend(items, DecodeAll(w)) == Prepend(items + [Decode(w).value.0], DecodeAll(Decode(w).value.1))
  {
    if w == [] {
      assert items + [] == items;
    } else if Decode(w).Some? {
      var (it, rest) := Decode(w).value;
      if DecodeAll(rest).Some? { Assoc(items, [it], DecodeAll(rest).value); }
    }
  }

  /** The item a kind and its content make, if the content is canonical. */
  ghost function ItemOf(kind: Kind, content: bytes): Option<Item> {
    match kind
    case ByteKind => Some(Str(content))
    case StringKind => if |content| == 1 && content[0] < 128 then None else Some(Str(content))
    case ListKind => if DecodeAll(content).None? then None else Some(Item.List(DecodeAll(content).value))
  }

  /** `Rlp.Decode` of a window, by what its header says. */
  lemma DecodeFits(w: bytes)
    requires Fits(w)
    ensures var h := ParseHead(w).value;
            var it := ItemOf(h.kind, ContentOf(w));
            && (it.None? ==> Decode(w).None?)
            && (it.Some? ==> Decode(w) == Some((it.value, Following(w))))
  {
    SplitFits(w);
  }

  lemma DecodedIs(w: bytes, r: Result<Item>, from: nat, pos: nat)
    requires Fits(w) && (r.Ok? <==> ItemOf(ParseHead(w).value.kind, ContentOf(w)).Some?)
    requires r.Ok? ==> var h := ParseHead(w).value;
                       Some(r.value) == ItemOf(h.kind, ContentOf(w)) && pos == from + h.tag + h.content
    ensures r.Ok? <==> Decode(w).Some?
    ensures r.Ok? ==> r.value == Decode(w).value.0 && pos + |Decode(w).value.1| == from + |w|
  {
    DecodeFits(w);
  }

  lemma DecodeUnfit(w: bytes)
    ensures !Fits(w) ==> Decode(w).None?
  {
    SplitFits(w);
  }

  /** What decoding leaves of a window is the window from the new cursor on. */
  lemma NextWindow(input: bytes, at: nat, w: bytes, pos: nat, end: nat)
    requires at <= end <= |input| && w == input[at..end]
    requires Decode(w).Some? && pos + |Decode(w).value.1| == end
    ensures at < pos <= end && Decode(w).value.1 == input[pos..end]
  {
    DecodeUnfit(w);
    DecodeFits(w);
    SubSlice(input, at, end, pos - at, |w|, pos, end);
  }

  lemma FirstOf(s: bytes, i: nat, j: nat)
    requires i < j <= |s|
    ensures s[i..j][0] == s[i]
  {
  }

  lemma AdvanceZero(stack: seq<ListPos>)
    ensures Advance(stack, 0) == stack
  {
  }

  lemma PopAdvanced(stack: seq<ListPos>, n: nat)
    ensures Pop(Advance(stack + [ListPos(0, n)], n)) == Advance(stack, n)
  {
    assert Advance(stack + [ListPos(0, n)], n)[..|stack|] == stack;
  }

  lemma SubSlice(s: bytes, from: nat, to: nat, i: nat, j: nat, a: nat, b: nat)
    requires from <= to <= |s| && i <= j <= to - from && a == from + i && b == from + j
    ensures s[from..to][i..j] == s[a..b]
  {
    forall k | 0 <= k < j - i ensures s[from..to][i..j][k] == s[a..b][k] { assert s[from..to][i + k] == s[a + k]; }
  }

  lemma AdvanceTwice(stack: seq<ListPos>, m: nat, n: nat, all: nat)
    requires all == m + n
    ensures Advance(Advance(stack, m), n) == Advance(stack, all)
  {
  }

  /** decode.go `DecodeBytes` into an interface value: exactly one value and nothing after it. */
  method DecodeBytes(b: bytes) returns (r: Result<Item>)
    requires |b| < TWO64
    ensures r.Ok? ==> b == Encode(r.value)
    ensures forall it :: b == Encode(it) ==> r == Ok(it)
  {
    var s := new Stream(b);
    assert s.Window() == b;
    r := s.DecodeInterface(b);
    if r.Ok? {
      EncodeOfDecode(b);
      if |b| > s.pos { r := Err(MoreThanOneValue); }
    }
    forall it | b == Encode(it) ensures r == Ok(it) {
      DecodeOfEncode(it, []);
      assert Encode(it) + [] == b;
    }
  }
}
