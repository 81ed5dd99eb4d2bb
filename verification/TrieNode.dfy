/**
 Trie nodes: how a subtrie is encoded and referred to from its parent (hasher.go `hashChildren`
 and `store`), and how a stored node is decoded again (node.go). The hash function is a parameter.
 */
module TrieNode {
  import opened Bytes
  import opened Patricia
  import opened HexKeys
  import Rlp

  // ---------------------------------------------------------------------------------------------
  // Encoding
  // ---------------------------------------------------------------------------------------------

  /** The stored form of a short node's key; only well-formed keys occur in a trie. */
  function KeyString(k: Key): bytes {
    if NodeKey(k) then Compact(k) else []
  }

  /** The item a node is encoded as: a pair, a list of seventeen, or a plain string. */
  function NodeItem(H: bytes -> Hash, t: Tree): Rlp.Item
    decreases t, 0
  {
    match t
    case Nil => Rlp.Str([])
    case Value(v) => Rlp.Str(v)
    case Short(k, c) => Rlp.List([Rlp.Str(KeyString(k)), RefItem(H, c)])
    case Full(cs) => Rlp.List(RefItems(H, cs))
  }

  /** The item a parent holds for a child: the child itself if it is short, else its hash. */
  function RefItem(H: bytes -> Hash, t: Tree): Rlp.Item
    decreases t, 2
  {
    if Embedded(H, t) then NodeItem(H, t) else Rlp.Str(H(Enc(H, t)))
  }

  predicate Embedded(H: bytes -> Hash, t: Tree)
    decreases t, 1
  {
    t.Nil? || t.Value? || |Rlp.Encode(NodeItem(H, t))| < 32
  }

  function RefItems(H: bytes -> Hash, cs: seq<Tree>): (items: seq<Rlp.Item>)
    decreases cs
  {
    seq(|cs|, i requires 0 <= i < |cs| => RefItem(H, cs[i]))
  }

  function Enc(H: bytes -> Hash, t: Tree): bytes
    decreases t, 1
  {
    Rlp.Encode(NodeItem(H, t))
  }

  /** The root hash of a trie; the empty trie has the hash of the empty string's encoding. */
  function RootHash(H: bytes -> Hash, t: Tree): Hash
  {
    H(Enc(H, t))
  }

  // ---------------------------------------------------------------------------------------------
  // The stored form, byte by byte
  // ---------------------------------------------------------------------------------------------

  /** What a parent's encoding holds for a child: an empty string, a value, a short child as it is, or a hash. */
  ghost function RefBytes(H: bytes -> Hash, c: Tree): bytes {
    match c
    case Nil => [0x80]
    case Value(v) => Rlp.Encode(Rlp.Str(v))
    case _ => if |Enc(H, c)| < 32 then Enc(H, c) else [0xA0] + H(Enc(H, c))
  }

  ghost function AllRefBytes(H: bytes -> Hash, cs: seq<Tree>): bytes {
    if cs == [] then [] else RefBytes(H, cs[0]) + AllRefBytes(H, cs[1..])
  }

  ghost function Payload(H: bytes -> Hash, t: Tree): bytes {
    match t
    case Short(k, c) => Rlp.Encode(Rlp.Str(KeyString(k))) + RefBytes(H, c)
    case Full(cs) => AllRefBytes(H, cs)
    case _ => []
  }

  lemma RefForm(H: bytes -> Hash, c: Tree)
    ensures Rlp.Encode(RefItem(H, c)) == RefBytes(H, c)
  {
    if c.Short? || c.Full? { Rlp.StringForm(H(Enc(H, c))); }
  }

  lemma {:induction false} FirstAndOthers(H: bytes -> Hash, cs: seq<Tree>)
    requires cs != []
    ensures RefItems(H, cs)[0] == RefItem(H, cs[0]) && RefItems(H, cs)[1..] == RefItems(H, cs[1..])
  {
  }

  lemma {:induction false} RefsForm(H: bytes -> Hash, cs: seq<Tree>)
    ensures Rlp.EncodeAll(RefItems(H, cs)) == AllRefBytes(H, cs)
    decreases |cs|
  {
    if cs != [] {
      RefForm(H, cs[0]);
      RefsForm(H, cs[1..]);
      FirstAndOthers(H, cs);
    }
  }

  /**
   Appendix D of the Yellow Paper: a short node is stored as the list of its compact key and its child, a full node as
   the list of its seventeen children; a child whose own form takes 32 bytes or more is held by its hash.
   */
  lemma {:induction false} StoredForm(H: bytes -> Hash, t: Tree)
    requires (t.Short? || t.Full?) && |Payload(H, t)| < TWO64
    ensures var p := Payload(H, t); if |p| < 56 then Enc(H, t) == [0xC0 + |p|] + p else Rlp.LongForm(Enc(H, t), p, 0xF7)
  {
    match t
    case Short(k, c) =>
      RefForm(H, c);
      PairEncoding(Rlp.Str(KeyString(k)), RefItem(H, c));
      Rlp.ListForm([Rlp.Str(KeyString(k)), RefItem(H, c)]);
    case Full(cs) =>
      RefsForm(H, cs);
      Rlp.ListForm(RefItems(H, cs));
  }

  /** The trie that holds "verb" under "do": the key, the two strings and the node. */
  lemma ExampleKey()
    ensures HexOfBytes([0x64, 0x6F]) == [6, 4, 6, 15, 16]
  {
    HexForm([0x64, 0x6F]);
  }

  lemma ExampleCompact()
    ensures KeyString([6, 4, 6, 15, 16]) == [0x20, 0x64, 0x6F]
  {
    CompactForm([6, 4, 6, 15, 16]);
  }

  lemma StoredExample(H: bytes -> Hash, t: Tree, v: bytes)
    requires v == [0x76, 0x65, 0x72, 0x62] && t == Short([6, 4, 6, 15, 16], Value(v))
    ensures Enc(H, t) == [0xC9, 0x83, 0x20, 0x64, 0x6F, 0x84, 0x76, 0x65, 0x72, 0x62]
  {
    ExampleCompact();
    Rlp.StringForm([0x20, 0x64, 0x6F]);
    Rlp.StringForm(v);
    var p := Payload(H, t);
    assert p == [0x83, 0x20, 0x64, 0x6F] + ([0x84] + v);
    StoredForm(H, t);
  }

  // ---------------------------------------------------------------------------------------------
  // Nodes in memory
  // ---------------------------------------------------------------------------------------------

  /** node.go `nodeFlag`. */
  datatype Flag = Flag(hash: Option<Hash>, gen: nat, dirty: bool)

  /** node.go: a subtrie in memory, parts of which may be known by their hash alone. */
  datatype Node =
    | NilNode
    | ValueNode(v: bytes)
    | HashNode(h: Hash)
    | ShortNode(key: Key, val: Node, flags: Flag)
    | FullNode(children: seq<Node>, flags: Flag)

  // ---------------------------------------------------------------------------------------------
  // node.go: decoding. `None` stands for an error, and for the panic on an empty compact key; `NodePanics`
  // tells them apart.
  // ---------------------------------------------------------------------------------------------

  /** node.go `decodeNode`. */
  function DecodeNode(hash: Option<Hash>, buf: bytes, gen: nat): Option<Node>
    decreases |buf|, 0
  {
    match Rlp.SplitList(buf)
    case Err(_) => None
    case Ok(p) =>
      var n := Rlp.Count(p.content);
      if n == Rlp.Ok(2) then DecodeShort(hash, p.content, gen)
      else if n == Rlp.Ok(17) then DecodeFull(hash, p.content, gen)
      else None
  }

  /** node.go `decodeShort`. */
  function DecodeShort(hash: Option<Hash>, elems: bytes, gen: nat): Option<Node>
    decreases |elems|, 2
  {
    match Rlp.SplitString(elems)
    case Err(_) => None
    case Ok(k) =>
      if k.content == [] then None
      else
        var key := HexOfCompact(k.content);
        if HasTerm(key) then
          match Rlp.SplitString(k.rest)
          case Err(_) => None
          case Ok(v) => Some(ShortNode(key, ValueNode(v.content), Flag(hash, gen, false)))
        else
          match DecodeRef(k.rest, gen)
          case None => None
          case Some((c, _)) => Some(ShortNode(key, c, Flag(hash, gen, false)))
  }

  /** node.go `decodeFull`. */
  function DecodeFull(hash: Option<Hash>, elems: bytes, gen: nat): Option<Node>
    decreases |elems|, 3
  {
    match DecodeRefs(elems, 16, gen)
    case None => None
    case Some((cs, rest)) =>
      match Rlp.SplitString(rest)
      case Err(_) => None
      case Ok(v) =>
        Some(FullNode(cs + [if |v.content| > 0 then ValueNode(v.content) else NilNode], Flag(hash, gen, false)))
  }

  function DecodeRefs(elems: bytes, n: nat, gen: nat): Option<(seq<Node>, bytes)>
    decreases |elems|, 2, n
  {
    if n == 0 then Some(([], elems))
    else
      match DecodeRef(elems, gen)
      case None => None
      case Some((c, rest)) =>
        if |rest| >= |elems| then None
        else
          match DecodeRefs(rest, n - 1, gen)
          case None => None
          case Some((cs, end)) => Some(([c] + cs, end))
  }

  /** node.go `decodeRef`. */
  function DecodeRef(buf: bytes, gen: nat): Option<(Node, bytes)>
    decreases |buf|, 1
  {
    match Rlp.Split(buf)
    case Err(_) => None
    case Ok(p) =>
      if p.kind == Rlp.ListKind then
        if |buf| - |p.rest| > 32 then None
        else
          match DecodeNode(None, buf, gen)
          case None => None
          case Some(n) => Some((n, p.rest))
      else if p.kind == Rlp.StringKind && p.content == [] then Some((NilNode, p.rest))
      else if p.kind == Rlp.StringKind && |p.content| == 32 then Some((HashNode(p.content), p.rest))
      else None
  }

  /** A reference is an empty string, a hash, or a node of at most 32 bytes; nothing else decodes. */
  lemma RefIsSmall(buf: bytes, gen: nat)
    requires DecodeRef(buf, gen).Some?
    ensures var (n, rest) := DecodeRef(buf, gen).value;
            && Rlp.Split(buf).Ok? && rest == Rlp.Split(buf).value.rest
            && (n.NilNode? ==> buf[0] == 0x80) && (n.HashNode? ==> buf[0] == 0xA0 && |buf| == |rest| + 33 && n.h == buf[1..33])
            && (n.ShortNode? || n.FullNode? ==> |buf| <= |rest| + 32) && !n.ValueNode?
  {
    var p := Rlp.Split(buf).value;
    Rlp.SplitIsCanonical(buf);
    if p.kind == Rlp.ListKind { NodeIsNode(None, buf, gen); }
  }

  lemma NodeIsNode(hash: Option<Hash>, buf: bytes, gen: nat)
    requires DecodeNode(hash, buf, gen).Some?
    ensures DecodeNode(hash, buf, gen).value.ShortNode? || DecodeNode(hash, buf, gen).value.FullNode?
  {
    var elems := Rlp.SplitList(buf).value.content;
    if Rlp.Count(elems) == Rlp.Ok(2) { assert DecodeShort(hash, elems, gen).Some?; } else { assert DecodeFull(hash, elems, gen).Some?; }
  }

  /** Decoding ends in `compactToHex` reading the first nibble of an empty key. */
  ghost predicate NodePanics(buf: bytes, gen: nat)
    decreases |buf|, 0
  {
    match Rlp.SplitList(buf)
    case Err(_) => false
    case Ok(p) =>
      var n := Rlp.Count(p.content);
      if n == Rlp.Ok(2) then ShortPanics(p.content, gen) else n == Rlp.Ok(17) && RefsPanic(p.content, 16, gen)
  }

  ghost predicate ShortPanics(elems: bytes, gen: nat)
    decreases |elems|, 2
  {
    match Rlp.SplitString(elems)
    case Err(_) => false
    case Ok(k) => k.content == [] || (!HasTerm(HexOfCompact(k.content)) && RefPanics(k.rest, gen))
  }

  ghost predicate RefsPanic(elems: bytes, n: nat, gen: nat)
    decreases |elems|, 2, n
  {
    n > 0 && (RefPanics(elems, gen) ||
              (DecodeRef(elems, gen).Some? && |DecodeRef(elems, gen).value.1| < |elems| && RefsPanic(DecodeRef(elems, gen).value.1, n - 1, gen)))
  }

  ghost predicate RefPanics(buf: bytes, gen: nat)
    decreases |buf|, 1
  {
    match Rlp.Split(buf)
    case Err(_) => false
    case Ok(p) => p.kind == Rlp.ListKind && |buf| - |p.rest| <= 32 && NodePanics(buf, gen)
  }

  /** Data that makes the decoder panic decodes to nothing, so what decodes never does. */
  lemma {:induction false} PanicIsNone(buf: bytes, gen: nat)
    ensures NodePanics(buf, gen) ==> forall hash :: DecodeNode(hash, buf, gen).None?
    decreases |buf|, 0
  {
    var l := Rlp.SplitList(buf);
    if l.Ok? {
      ShortPanicIsNone(l.value.content, gen);
      RefsPanicIsNone(l.value.content, 16, gen);
    }
  }

  lemma {:induction false} ShortPanicIsNone(elems: bytes, gen: nat)
    ensures ShortPanics(elems, gen) ==> forall hash :: DecodeShort(hash, elems, gen).None?
    decreases |elems|, 2
  {
    var k := Rlp.SplitString(elems);
    if k.Ok? { RefPanicIsNone(k.value.rest, gen); }
  }

  lemma {:induction false} RefsPanicIsNone(elems: bytes, n: nat, gen: nat)
    ensures RefsPanic(elems, n, gen) ==> DecodeRefs(elems, n, gen).None?
    decreases |elems|, 2, n
  {
    if n > 0 {
      RefPanicIsNone(elems, gen);
      var r := DecodeRef(elems, gen);
      if r.Some? && |r.value.1| < |elems| { RefsPanicIsNone(r.value.1, n - 1, gen); }
    }
  }

  lemma {:induction false} RefPanicIsNone(buf: bytes, gen: nat)
    ensures RefPanics(buf, gen) ==> DecodeRef(buf, gen).None?
    decreases |buf|, 1
  {
    PanicIsNone(buf, gen);
  }

  /** An empty string in the place of the key is enough, whatever follows it. */
  lemma EmptyKeyPanics(it: Rlp.Item, gen: nat)
    requires |Rlp.Encode(Rlp.List([Rlp.Str([]), it]))| < TWO64
    ensures NodePanics(Rlp.Encode(Rlp.List([Rlp.Str([]), it])), gen)
  {
    var items := [Rlp.Str([]), it];
    Rlp.SplitOfList(Rlp.EncodeAll(items), []);
    Rlp.CountOfEncodeAll(items);
    PairEncoding(Rlp.Str([]), it);
    Rlp.SplitOfString([], Rlp.Encode(it));
    assert Rlp.Encode(Rlp.List(items)) + [] == Rlp.Encode(Rlp.List(items));
  }

  /** The loop of `decodeFull`. */
  method DecodeFullNode(hash: Option<Hash>, buf: bytes, gen: nat) returns (r: Option<Node>)
    ensures r == DecodeFull(hash, buf, gen)
  {
    var children: seq<Node>, elems := [], buf;
    AfterNone(DecodeRefs(buf, 16, gen));
    for i := 0 to 16
      invariant |children| == i
      invariant DecodeRefs(buf, 16, gen) == After(children, DecodeRefs(elems, 16 - i, gen))
    {
      var ref := DecodeRef(elems, gen);
      if ref.None? { return None; }
      RefShrinks(elems, gen);
      AfterOne(children, ref.value.0, DecodeRefs(ref.value.1, 16 - (i + 1), gen));
      children, elems := children + [ref.value.0], ref.value.1;
    }
    var val := Rlp.SplitString(elems);
    if val.Err? { return None; }
    assert children + [] == children;
    children := children + [if |val.value.content| > 0 then ValueNode(val.value.content) else NilNode];
    r := Some(FullNode(children, Flag(hash, gen, false)));
  }

  /** A decoding of further children, put after those already decoded. */
  ghost function After(done: seq<Node>, r: Option<(seq<Node>, bytes)>): Option<(seq<Node>, bytes)> {
    if r.None? then None else Some((done + r.value.0, r.value.1))
  }

  lemma AfterNone(r: Option<(seq<Node>, bytes)>)
    ensures After([], r) == r
  {
    if r.Some? { assert [] + r.value.0 == r.value.0; }
  }

  lemma AfterOne(done: seq<Node>, c: Node, r: Option<(seq<Node>, bytes)>)
    ensures After(done, After([c], r)) == After(done + [c], r)
  {
    if r.Some? { Assoc(done, [c], r.value.0); }
  }

  lemma RefShrinks(buf: bytes, gen: nat)
    requires DecodeRef(buf, gen).Some?
    ensures |DecodeRef(buf, gen).value.1| < |buf|
  {
  }

  // ---------------------------------------------------------------------------------------------
  // Decoding undoes encoding
  // ---------------------------------------------------------------------------------------------

  /** What decoding a node's encoding gives: long children by hash, short ones in full. */
  function Loaded(H: bytes -> Hash, t: Tree, hash: Option<Hash>, gen: nat): Node
    decreases t, 0
  {
    match t
    case Nil => NilNode
    case Value(v) => ValueNode(v)
    case Short(k, c) => ShortNode(k, LoadedRef(H, c, gen), Flag(hash, gen, false))
    case Full(cs) => FullNode(LoadedRefs(H, cs, gen), Flag(hash, gen, false))
  }

  function LoadedRef(H: bytes -> Hash, t: Tree, gen: nat): Node
    decreases t, 1
  {
    if Embedded(H, t) then Loaded(H, t, None, gen) else HashNode(H(Enc(H, t)))
  }

  function LoadedRefs(H: bytes -> Hash, cs: seq<Tree>, gen: nat): seq<Node>
    decreases cs
  {
    seq(|cs|, i requires 0 <= i < |cs| => LoadedRef(H, cs[i], gen))
  }

  /** A stored node decodes to itself, whatever bytes follow it. */
  lemma {:induction false} DecodeOfEnc(H: bytes -> Hash, t: Tree, hash: Option<Hash>, gen: nat, rest: bytes)
    requires Minimal(t) && (t.Short? || t.Full?) && |Enc(H, t)| < TWO64
    ensures DecodeNode(hash, Enc(H, t) + rest, gen) == Some(Loaded(H, t, hash, gen))
    decreases t, 0
  {
    var items := NodeItem(H, t).items;
    Rlp.SplitOfList(Rlp.EncodeAll(items), rest);
    Rlp.CountOfEncodeAll(items);
    match t
    case Short(k, c) => DecodeShortOfEnc(H, k, c, hash, gen);
    case Full(cs) => DecodeFullOfEnc(H, cs, hash, gen);
  }

  lemma {:induction false} DecodeShortOfEnc(H: bytes -> Hash, k: Key, c: Tree, hash: Option<Hash>, gen: nat)
    requires Minimal(Short(k, c)) && |Enc(H, Short(k, c))| < TWO64
    ensures DecodeShort(hash, Rlp.EncodeAll([Rlp.Str(KeyString(k)), RefItem(H, c)]), gen)
         == Some(Loaded(H, Short(k, c), hash, gen))
    decreases c, 2
  {
    PairEncoding(Rlp.Str(KeyString(k)), RefItem(H, c));
    var tail := Rlp.Encode(RefItem(H, c));
    CompactRoundTrip(k);
    if c.Value? {
      assert RefItem(H, c) == Rlp.Str(c.v);
      DecodeLeaf(Compact(k), c.v, hash, gen);
      assert HasTerm(k) && LoadedRef(H, c, gen) == ValueNode(c.v);
    } else {
      assert !HasTerm(k);
      assert tail + [] == tail;
      DecodeRefOfEnc(H, c, gen, []);
      DecodeExtension(Compact(k), tail, LoadedRef(H, c, gen), hash, gen);
    }
  }

  lemma DecodeLeaf(key: bytes, v: bytes, hash: Option<Hash>, gen: nat)
    requires key != [] && HasTerm(HexOfCompact(key)) && |Rlp.EncodeString(key)| < TWO64 && |Rlp.EncodeString(v)| < TWO64
    ensures DecodeShort(hash, Rlp.EncodeString(key) + Rlp.EncodeString(v), gen)
         == Some(ShortNode(HexOfCompact(key), ValueNode(v), Flag(hash, gen, false)))
  {
    Rlp.SplitOfString(key, Rlp.EncodeString(v));
    Rlp.SplitOfString(v, []);
    assert Rlp.EncodeString(v) + [] == Rlp.EncodeString(v);
  }

  lemma DecodeExtension(key: bytes, tail: bytes, c: Node, hash: Option<Hash>, gen: nat)
    requires key != [] && !HasTerm(HexOfCompact(key)) && |Rlp.EncodeString(key)| < TWO64 && DecodeRef(tail, gen) == Some((c, []))
    ensures DecodeShort(hash, Rlp.EncodeString(key) + tail, gen) == Some(ShortNode(HexOfCompact(key), c, Flag(hash, gen, false)))
  {
    Rlp.SplitOfString(key, tail);
  }

  lemma PairEncoding(a: Rlp.Item, b: Rlp.Item)
    ensures Rlp.EncodeAll([a, b]) == Rlp.Encode(a) + Rlp.Encode(b)
    ensures |Rlp.Encode(Rlp.List([a, b]))| > |Rlp.Encode(a)| + |Rlp.Encode(b)|
  {
    assert [a, b][1..] == [b] && [b][1..] == [];
    assert Rlp.EncodeAll([b]) == Rlp.Encode(b) + Rlp.EncodeAll([]);
  }

  lemma {:induction false} DecodeRefOfEnc(H: bytes -> Hash, t: Tree, gen: nat, rest: bytes)
    requires Minimal(t) && !t.Value?
    ensures DecodeRef(Rlp.Encode(RefItem(H, t)) + rest, gen) == Some((LoadedRef(H, t, gen), rest))
    decreases t, 1
  {
    if t.Nil? {
      Rlp.SplitOfString([], rest);
    } else if Embedded(H, t) {
      Rlp.SplitOfList(Rlp.EncodeAll(NodeItem(H, t).items), rest);
      DecodeOfEnc(H, t, None, gen, rest);
    } else {
      Rlp.SplitOfString(H(Enc(H, t)), rest);
    }
  }

  lemma {:induction false} DecodeFullOfEnc(H: bytes -> Hash, cs: seq<Tree>, hash: Option<Hash>, gen: nat)
    requires Minimal(Full(cs)) && |Enc(H, Full(cs))| < TWO64
    ensures DecodeFull(hash, Rlp.EncodeAll(RefItems(H, cs)), gen) == Some(Loaded(H, Full(cs), hash, gen))
    decreases cs, 1
  {
    var items, refs := RefItems(H, cs), LoadedRefs(H, cs, gen);
    forall i | 0 <= i < 16 ensures Reads(items[i], refs[i], gen) { ReadsChild(H, cs, i, gen); }
    ChildRefs(H, cs, 16, gen);
    ValueRef(H, cs[16], gen);
    DecodeItems(items, refs, if cs[16].Value? then cs[16].v else [], hash, gen);
  }

  lemma {:induction false} ReadsChild(H: bytes -> Hash, cs: seq<Tree>, i: nat, gen: nat)
    requires Minimal(Full(cs)) && i < 16
    ensures Reads(RefItems(H, cs)[i], LoadedRefs(H, cs, gen)[i], gen)
    decreases cs, 0
  {
    ChildRefs(H, cs, i, gen);
    ReadsRef(H, cs[i], gen);
  }

  lemma DecodeItems(items: seq<Rlp.Item>, refs: seq<Node>, v: bytes, hash: Option<Hash>, gen: nat)
    requires |items| == |refs| == 17 && forall i :: 0 <= i < 16 ==> Reads(items[i], refs[i], gen)
    requires items[16] == Rlp.Str(v) && refs[16] == (if |v| > 0 then ValueNode(v) else NilNode)
    requires |Rlp.Encode(Rlp.List(items))| < TWO64
    ensures DecodeFull(hash, Rlp.EncodeAll(items), gen) == Some(FullNode(refs, Flag(hash, gen, false)))
  {
    LastPart(items);
    DecodeRefsOfItems(items[..16], refs[..16], 16, Rlp.Encode(items[16]), gen);
    DecodeFullValue(hash, Rlp.EncodeAll(items), refs[..16], v, gen);
    assert refs[..16] + [refs[16]] == refs;
  }

  lemma ChildRefs(H: bytes -> Hash, cs: seq<Tree>, i: nat, gen: nat)
    requires i < |cs|
    ensures RefItems(H, cs)[i] == RefItem(H, cs[i])
    ensures LoadedRefs(H, cs, gen)[i] == LoadedRef(H, cs[i], gen)
  {
  }

  lemma ValueRef(H: bytes -> Hash, t: Tree, gen: nat)
    requires t.Nil? || t.Value?
    ensures RefItem(H, t) == Rlp.Str(if t.Value? then t.v else [])
    ensures LoadedRef(H, t, gen) == if t.Value? then ValueNode(t.v) else NilNode
  {
  }

  lemma {:induction false} ReadsRef(H: bytes -> Hash, t: Tree, gen: nat)
    requires Minimal(t) && !t.Value?
    ensures Reads(RefItem(H, t), LoadedRef(H, t, gen), gen)
    decreases t, 2
  {
    forall rest { DecodeRefOfEnc(H, t, gen, rest); }
  }

  lemma DecodeFullValue(hash: Option<Hash>, elems: bytes, refs: seq<Node>, v: bytes, gen: nat)
    requires DecodeRefs(elems, 16, gen) == Some((refs, Rlp.EncodeString(v))) && |Rlp.EncodeString(v)| < TWO64
    ensures DecodeFull(hash, elems, gen)
         == Some(FullNode(refs + [if |v| > 0 then ValueNode(v) else NilNode], Flag(hash, gen, false)))
  {
    Rlp.SplitOfString(v, []);
    assert Rlp.EncodeString(v) + [] == Rlp.EncodeString(v);
  }

  lemma LastPart(items: seq<Rlp.Item>)
    requires |items| == 17
    ensures Rlp.EncodeAll(items) == Rlp.EncodeAll(items[..16]) + Rlp.Encode(items[16])
    ensures |Rlp.Encode(items[16])| < |Rlp.Encode(Rlp.List(items))|
  {
    assert items == items[..16] + [items[16]];
    assert [items[16]][1..] == [];
    assert Rlp.EncodeAll([items[16]]) == Rlp.Encode(items[16]) + Rlp.EncodeAll([]);
    Rlp.EncodeAllAppend(items[..16], [items[16]]);
  }

  lemma DecodeRefsStep(b: bytes, c: Node, rest: bytes, n: nat, cs: seq<Node>, end: bytes, gen: nat)
    requires DecodeRef(b, gen) == Some((c, rest)) && DecodeRefs(rest, n, gen) == Some((cs, end))
    ensures DecodeRefs(b, n + 1, gen) == Some(([c] + cs, end))
  {
    RefShrinks(b, gen);
  }

  /** The item `it` is a reference that decodes to `n`, whatever follows it. */
  ghost predicate Reads(it: Rlp.Item, n: Node, gen: nat) {
    forall rest :: DecodeRef(Rlp.Encode(it) + rest, gen) == Some((n, rest))
  }

  lemma ReadsFirst(it: Rlp.Item, n: Node, gen: nat, rest: bytes)
    requires Reads(it, n, gen)
    ensures DecodeRef(Rlp.Encode(it) + rest, gen) == Some((n, rest))
  {
  }

  lemma {:induction false} DecodeRefsOfItems(items: seq<Rlp.Item>, refs: seq<Node>, n: nat, last: bytes, gen: nat)
    requires |items| == |refs| == n && forall i :: 0 <= i < |items| ==> Reads(items[i], refs[i], gen)
    ensures DecodeRefs(Rlp.EncodeAll(items) + last, n, gen) == Some((refs, last))
    decreases n
  {
    if items != [] {
      DecodeRefsOfItems(items[1..], refs[1..], n - 1, last, gen);
      var rest := Rlp.EncodeAll(items[1..]) + last;
      Assoc(Rlp.Encode(items[0]), Rlp.EncodeAll(items[1..]), last);
      ReadsFirst(items[0], refs[0], gen, rest);
      DecodeRefsStep(Rlp.Encode(items[0]) + rest, refs[0], rest, n - 1, refs[1..], last, gen);
      assert [refs[0]] + refs[1..] == refs;
    } else {
      assert Rlp.EncodeAll(items) + last == last;
    }
  }

  // ---------------------------------------------------------------------------------------------
  // The root hash fixes the trie
  // ---------------------------------------------------------------------------------------------

  /** The encodings of all nodes of a subtrie. */
  ghost function Encodings(H: bytes -> Hash, t: Tree): set<bytes>
    decreases t
  {
    match t
    case Nil => {}
    case Value(_) => {}
    case Short(_, c) => {Enc(H, t)} + Encodings(H, c)
    case Full(cs) => {Enc(H, t)} + set i, e | 0 <= i < |cs| && e in Encodings(H, cs[i]) :: e
  }

  /** Every encoding is short enough for a 64-bit length. */
  ghost predicate Sized(es: set<bytes>) {
    forall e :: e in es ==> |e| < TWO64
  }

  /** The hash function tells the given encodings apart. */
  ghost predicate NoCollision(H: bytes -> Hash, es: set<bytes>) {
    forall a, b :: a in es && b in es && H(a) == H(b) ==> a == b
  }

  lemma ChildEncodings(H: bytes -> Hash, cs: seq<Tree>, i: nat)
    requires i < |cs|
    ensures Encodings(H, cs[i]) <= Encodings(H, Full(cs))
  {
  }

  /** Without collisions among their nodes, two tries with one root hash are the same trie. */
  lemma RootHashFixesTrie(H: bytes -> Hash, a: Tree, b: Tree)
    requires Trie(a) && Trie(b) && RootHash(H, a) == RootHash(H, b)
    requires Sized(Encodings(H, a) + Encodings(H, b))
    requires NoCollision(H, Encodings(H, a) + Encodings(H, b) + {Enc(H, Nil)})
    ensures a == b
  {
    assert !a.Nil? ==> Enc(H, a) in Encodings(H, a);
    assert !b.Nil? ==> Enc(H, b) in Encodings(H, b);
    SameEncoding(H, a, b, Encodings(H, a) + Encodings(H, b));
  }

  lemma {:induction false} SameEncoding(H: bytes -> Hash, a: Tree, b: Tree, es: set<bytes>)
    requires Trie(a) && Trie(b) && Enc(H, a) == Enc(H, b)
    requires Encodings(H, a) <= es && Encodings(H, b) <= es && Sized(es) && NoCollision(H, es)
    ensures a == b
    decreases a, 0
  {
    assert !a.Nil? ==> Enc(H, a) in es;
    Rlp.EncodeIsPrefixFree(NodeItem(H, a), NodeItem(H, b));
    ItemCount(H, a);
    ItemCount(H, b);
    match (a, b)
    case (Short(j, c), Short(k, d)) =>
      PairItems(H, j, c, k, d);
      SameRef(H, c, d, es);
    case (Full(cs), Full(ds)) =>
      forall i | 0 <= i < 17 ensures cs[i] == ds[i] {
        ChildEncodings(H, cs, i);
        ChildEncodings(H, ds, i);
        ChildRefs(H, cs, i, 0);
        ChildRefs(H, ds, i, 0);
        SameRef(H, cs[i], ds[i], es);
      }
    case _ =>
  }

  lemma ItemCount(H: bytes -> Hash, t: Tree)
    requires Trie(t)
    ensures !t.Nil? ==> NodeItem(H, t).List? && |NodeItem(H, t).items| == if t.Short? then 2 else 17
    ensures t.Nil? ==> NodeItem(H, t).Str?
  {
  }

  lemma PairItems(H: bytes -> Hash, j: Key, c: Tree, k: Key, d: Tree)
    requires NodeKey(j) && NodeKey(k) && NodeItem(H, Short(j, c)) == NodeItem(H, Short(k, d))
    ensures j == k && RefItem(H, c) == RefItem(H, d)
  {
    CompactRoundTrip(j);
    CompactRoundTrip(k);
    var x, y := NodeItem(H, Short(j, c)), NodeItem(H, Short(k, d));
    assert x.items[0] == y.items[0] && x.items[1] == y.items[1];
  }

  lemma {:induction false} SameRef(H: bytes -> Hash, a: Tree, b: Tree, es: set<bytes>)
    requires Minimal(a) && Minimal(b) && RefItem(H, a) == RefItem(H, b)
    requires (a.Value? || b.Value?) ==> (a.Nil? || a.Value?) && (b.Nil? || b.Value?)
    requires Encodings(H, a) <= es && Encodings(H, b) <= es && Sized(es) && NoCollision(H, es)
    ensures a == b
    decreases a, 1
  {
    if a.Value? || b.Value? {
      ValueRef(H, a, 0);
      ValueRef(H, b, 0);
    } else if Embedded(H, a) && Embedded(H, b) {
      SameEncoding(H, a, b, es);
    } else if !Embedded(H, a) && !Embedded(H, b) {
      assert Enc(H, a) in es && Enc(H, b) in es;
      SameEncoding(H, a, b, es);
    } else {
      EmbeddedRef(H, a);
      EmbeddedRef(H, b);
    }
  }

  /** A reference is a 32-byte string exactly when the child is not embedded. */
  lemma EmbeddedRef(H: bytes -> Hash, t: Tree)
    requires !t.Value?
    ensures Embedded(H, t) <==> !(RefItem(H, t).Str? && |RefItem(H, t).s| == 32)
  {
  }
}
