/**
 crypto/sha3/sha3.go: the sponge of section 4 of FIPS 202 with the padding of its section 5.1, and the
 buffered, in-place form of it. The permutation is a parameter; a state is its 200 bytes.
 */
module Sponge {
  import opened Bytes

  type octets = seq<bv8>

  const WIDTH := 200
  const MAX_RATE := 168

  datatype Kind = Kind(f: octets -> octets, rate: nat, dsbyte: bv8)

  /** The permutation keeps the width, and a block fits the buffer. */
  ghost predicate Fit(k: Kind) {
    1 <= k.rate <= MAX_RATE && forall s {:trigger k.f(s)} :: |s| == WIDTH ==> |k.f(s)| == WIDTH
  }

  function Zeros(n: nat): octets { seq(n, _ => 0) }

  function XorIn(s: octets, block: octets): (r: octets)
    requires |block| <= |s|
    ensures |r| == |s|
  {
    seq(|s|, i requires 0 <= i < |s| => if i < |block| then s[i] ^ block[i] else s[i])
  }

  // ---------------------------------------------------------------------------------------------
  // One-shot sponge
  // ---------------------------------------------------------------------------------------------

  /** pad10*1 in whole octets: the domain bits with the first one bit, zeros, and a last one bit. */
  ghost function Padding(k: Kind, n: nat): (p: octets)
    requires k.rate >= 1
  {
    var q := k.rate - n % k.rate;
    if q == 1 then [k.dsbyte ^ 0x80] else [k.dsbyte] + Zeros(q - 2) + [0x80]
  }

  ghost function Absorb(k: Kind, s: octets, p: octets): (r: octets)
    requires Fit(k) && |s| == WIDTH
    ensures |r| == WIDTH
    decreases |p|
  {
    if |p| < k.rate then s else Absorb(k, k.f(XorIn(s, p[..k.rate])), p[k.rate..])
  }

  /** The state from which a message is squeezed. */
  ghost function Loaded(k: Kind, msg: octets): (r: octets)
    requires Fit(k)
    ensures |r| == WIDTH
  {
    Absorb(k, Zeros(WIDTH), msg + Padding(k, |msg|))
  }

  ghost function Squeeze(k: Kind, s: octets, n: nat): (r: octets)
    requires Fit(k) && |s| == WIDTH
    ensures |r| == n
    decreases n
  {
    if n <= k.rate then s[..n] else s[..k.rate] + Squeeze(k, k.f(s), n - k.rate)
  }

  ghost function Digest(k: Kind, msg: octets, n: nat): octets
    requires Fit(k)
  {
    Squeeze(k, Loaded(k, msg), n)
  }

  /** `n` octets of the digest after the first `at`. */
  ghost function DigestFrom(k: Kind, msg: octets, at: nat, n: nat): octets
    requires Fit(k)
  {
    Digest(k, msg, at + n)[at..]
  }

  /** Xoring a block in twice gives the state back; into zeros, it gives the block. */
  lemma XorTwice(s: octets, block: octets)
    requires |block| <= |s|
    ensures XorIn(XorIn(s, block), block) == s
    ensures XorIn(Zeros(|s|), block) == block + Zeros(|s| - |block|)
    ensures forall i :: |block| <= i < |s| ==> XorIn(s, block)[i] == s[i]
  {
    forall i | 0 <= i < |block| ensures (s[i] ^ block[i]) ^ block[i] == s[i] && 0 ^ block[i] == block[i] { XorBack(s[i], block[i]); }
  }

  lemma XorBack(x: bv8, y: bv8)
    ensures (x ^ y) ^ y == x && 0 ^ y == y
  {
  }

  lemma AbsorbOne(k: Kind, s: octets, p: octets, rest: octets)
    requires Fit(k) && |s| == WIDTH && |p| == k.rate
    ensures Absorb(k, s, p + rest) == Absorb(k, k.f(XorIn(s, p)), rest)
    ensures Absorb(k, s, p) == k.f(XorIn(s, p))
  {
    assert (p + rest)[..k.rate] == p && (p + rest)[k.rate..] == rest;
    assert p[..k.rate] == p && p[k.rate..] == [];
  }

  /** A message that leaves room for both ends of the padding is permuted once, behind it the domain byte and the last bit. */
  lemma OneBlock(k: Kind, msg: octets, p: octets, n: nat)
    requires Fit(k) && |msg| + 2 <= k.rate && n <= k.rate && p == msg + [k.dsbyte] + Zeros(k.rate - |msg| - 2) + [0x80]
    ensures |k.f(p + Zeros(WIDTH - k.rate))| == WIDTH && Digest(k, msg, n) == k.f(p + Zeros(WIDTH - k.rate))[..n]
  {
    SmallMod(|msg|, k.rate);
    assert msg + Padding(k, |msg|) == p;
    AbsorbOne(k, Zeros(WIDTH), p, []);
    XorTwice(Zeros(WIDTH), p);
  }

  /** A message that fills a block but for one octet has both ends of the padding in that octet; a full block is followed by padding alone. */
  lemma FullBlock(k: Kind, msg: octets)
    requires Fit(k) && k.rate >= 2
    ensures |msg| == k.rate - 1 ==> Loaded(k, msg) == k.f(XorIn(Zeros(WIDTH), msg + [k.dsbyte ^ 0x80]))
    ensures |msg| == k.rate ==>
              Loaded(k, msg) == k.f(XorIn(k.f(XorIn(Zeros(WIDTH), msg)), [k.dsbyte] + Zeros(k.rate - 2) + [0x80]))
  {
    if |msg| == k.rate - 1 {
      SmallMod(|msg|, k.rate);
      AbsorbOne(k, Zeros(WIDTH), msg + [k.dsbyte ^ 0x80], []);
    } else if |msg| == k.rate {
      ModStep(|msg|, k.rate);
      SmallMod(0, k.rate);
      var pad := [k.dsbyte] + Zeros(k.rate - 2) + [0x80];
      AbsorbOne(k, Zeros(WIDTH), msg, pad);
      AbsorbOne(k, k.f(XorIn(Zeros(WIDTH), msg)), pad, []);
    }
  }

  /** What does not fit one block comes from the state permuted again. */
  lemma {:induction false} TwoSqueezes(k: Kind, s: octets, n: nat)
    requires Fit(k) && |s| == WIDTH && 1 <= n <= k.rate
    ensures |k.f(s)| == WIDTH && Squeeze(k, s, n) == s[..n] && Squeeze(k, s, k.rate + n) == s[..k.rate] + k.f(s)[..n]
  {
    assert Squeeze(k, k.f(s), n) == k.f(s)[..n];
    assert k.rate + n - k.rate == n;
  }

  // ---------------------------------------------------------------------------------------------
  // Absorbing in pieces
  // ---------------------------------------------------------------------------------------------

  /** The state and the unfilled block a message leaves behind. */
  ghost function Taken(k: Kind, s: octets, msg: octets): (r: (octets, octets))
    requires Fit(k) && |s| == WIDTH
    ensures |r.0| == WIDTH && |r.1| < k.rate
    decreases |msg|
  {
    if |msg| < k.rate then (s, msg) else Taken(k, k.f(XorIn(s, msg[..k.rate])), msg[k.rate..])
  }

  lemma {:induction false} TakenMore(k: Kind, s: octets, msg: octets, p: octets)
    requires Fit(k) && |s| == WIDTH
    ensures var (a, buf) := Taken(k, s, msg); Taken(k, s, msg + p) == Taken(k, a, buf + p)
    decreases |msg|
  {
    if |msg| >= k.rate {
      assert (msg + p)[..k.rate] == msg[..k.rate] && (msg + p)[k.rate..] == msg[k.rate..] + p;
      TakenMore(k, k.f(XorIn(s, msg[..k.rate])), msg[k.rate..], p);
    }
  }

  lemma ModStep(n: nat, r: nat)
    requires 1 <= r <= n
    ensures (n - r) % r == n % r
  {
    var x, y, m, l := n / r, (n - r) / r, n % r, (n - r) % r;
    assert n == r * x + m && n - r == r * y + l;
    NoMultipleBetween(r, x, y + 1, l, m);
  }

  lemma NoMultipleBetween(r: nat, x: int, y: int, l: nat, m: nat)
    requires l < r && m < r && r * x + m == r * y + l
    ensures l == m
  {
    MultiplesApart(r, x, y);
    MultiplesApart(r, y, x);
  }

  lemma MultiplesApart(r: nat, x: int, y: int)
    ensures x > y ==> r * x >= r * y + r
  {
    if x > y { assert r * x >= r * (y + 1) == r * y + r; }
  }

  lemma {:induction false} TailLength(k: Kind, s: octets, msg: octets)
    requires Fit(k) && |s| == WIDTH
    ensures |Taken(k, s, msg).1| == |msg| % k.rate
    decreases |msg|
  {
    if |msg| >= k.rate {
      TailLength(k, k.f(XorIn(s, msg[..k.rate])), msg[k.rate..]);
      ModStep(|msg|, k.rate);
    } else {
      SmallMod(|msg|, k.rate);
    }
  }

  lemma {:induction false} AbsorbTaken(k: Kind, s: octets, msg: octets, p: octets)
    requires Fit(k) && |s| == WIDTH
    ensures var (a, buf) := Taken(k, s, msg); Absorb(k, s, msg + p) == Absorb(k, a, buf + p)
    decreases |msg|
  {
    if |msg| >= k.rate {
      assert (msg + p)[..k.rate] == msg[..k.rate] && (msg + p)[k.rate..] == msg[k.rate..] + p;
      AbsorbTaken(k, k.f(XorIn(s, msg[..k.rate])), msg[k.rate..], p);
    }
  }

  /** Padding the unfilled block and permuting once gives the state the standard asks for. */
  lemma LoadedFromTail(k: Kind, msg: octets)
    requires Fit(k)
    ensures var (a, buf) := Taken(k, Zeros(WIDTH), msg);
            var last := buf + Padding(k, |buf|);
            |last| == k.rate && Loaded(k, msg) == k.f(XorIn(a, last))
  {
    var (a, buf) := Taken(k, Zeros(WIDTH), msg);
    TailLength(k, Zeros(WIDTH), msg);
    SmallMod(|buf|, k.rate);
    var last := buf + Padding(k, |buf|);
    AbsorbTaken(k, Zeros(WIDTH), msg, Padding(k, |msg|));
    assert last[..k.rate] == last && last[k.rate..] == [];
  }

  lemma SmallMod(n: nat, r: nat)
    requires n < r
    ensures n % r == n
  {
  }

  // ---------------------------------------------------------------------------------------------
  // Squeezing in pieces
  // ---------------------------------------------------------------------------------------------

  /** The next `n` octets of a state of which `lo` octets are gone. */
  ghost function Out(k: Kind, s: octets, lo: nat, n: nat): (r: octets)
    requires Fit(k) && |s| == WIDTH && lo < k.rate
    ensures |r| == n
    decreases n
  {
    if n < k.rate - lo then s[lo..lo + n] else s[lo..k.rate] + Out(k, k.f(s), 0, n - (k.rate - lo))
  }

  ghost function After(k: Kind, s: octets, lo: nat, n: nat): (r: (octets, nat))
    requires Fit(k) && |s| == WIDTH && lo < k.rate
    ensures |r.0| == WIDTH && r.1 < k.rate
    decreases n
  {
    if n < k.rate - lo then (s, lo + n) else After(k, k.f(s), 0, n - (k.rate - lo))
  }

  /** However the octets are asked for, they are the same octets. */
  lemma {:induction false} OutSplit(k: Kind, s: octets, lo: nat, n: nat, m: nat, all: nat)
    requires Fit(k) && |s| == WIDTH && lo < k.rate && all == n + m
    ensures var (t, at) := After(k, s, lo, n);
            Out(k, s, lo, all) == Out(k, s, lo, n) + Out(k, t, at, m) && After(k, s, lo, all) == After(k, t, at, m)
    decreases n
  {
    var here := k.rate - lo;
    if n < here {
      OutWithin(k, s, lo, n, m, all, lo + n);
    } else {
      var (t, at) := After(k, s, lo, n);
      OutSplit(k, k.f(s), 0, n - here, m, all - here);
      Assoc(s[lo..k.rate], Out(k, k.f(s), 0, n - here), Out(k, t, at, m));
    }
  }

  lemma OutWithin(k: Kind, s: octets, lo: nat, n: nat, m: nat, all: nat, at: nat)
    requires Fit(k) && |s| == WIDTH && lo < k.rate && n < k.rate - lo && all == n + m && at == lo + n
    ensures Out(k, s, lo, all) == s[lo..at] + Out(k, s, at, m)
    ensures After(k, s, lo, all) == After(k, s, at, m)
  {
    if all < k.rate - lo {
      assert s[lo..lo + all] == s[lo..at] + s[at..at + m];
    } else {
      assert all - (k.rate - lo) == m - (k.rate - at);
      assert s[lo..k.rate] == s[lo..at] + s[at..k.rate];
    }
  }

  /** One round of squeezing: what the buffer still holds, or as much of it as is wanted. */
  lemma OutStep(k: Kind, s: octets, lo: nat, m: nat, n: nat)
    requires Fit(k) && |s| == WIDTH && lo < k.rate && m <= k.rate - lo && m <= n
    ensures var (t, at) := if lo + m < k.rate then (s, lo + m) else (k.f(s), 0);
            Out(k, s, lo, n) == s[lo..lo + m] + Out(k, t, at, n - m) && After(k, s, lo, n) == After(k, t, at, n - m)
  {
    if lo + m < k.rate { OutWithin(k, s, lo, m, n - m, n, lo + m); }
  }

  lemma {:induction false} SqueezeIsOut(k: Kind, s: octets, n: nat)
    requires Fit(k) && |s| == WIDTH
    ensures Squeeze(k, s, n) == Out(k, s, 0, n)
    decreases n
  {
    if n > k.rate {
      SqueezeIsOut(k, k.f(s), n - k.rate);
    } else if n == k.rate {
      assert Out(k, k.f(s), 0, 0) == [];
    }
  }

  /** Where reading stands in a block. */
  lemma {:induction false} AfterIndex(k: Kind, s: octets, n: nat)
    requires Fit(k) && |s| == WIDTH
    ensures After(k, s, 0, n).1 == n % k.rate
    decreases n
  {
    if n >= k.rate {
      AfterIndex(k, k.f(s), n - k.rate);
      ModStep(n, k.rate);
    } else {
      SmallMod(n, k.rate);
    }
  }

  /** Going back within a block is having read less. */
  lemma {:induction false} Rewind(k: Kind, s: octets, n: nat, d: nat)
    requires Fit(k) && |s| == WIDTH && d <= After(k, s, 0, n).1
    ensures d <= n && After(k, s, 0, n - d) == (After(k, s, 0, n).0, After(k, s, 0, n).1 - d)
    decreases n
  {
    if n >= k.rate {
      Rewind(k, k.f(s), n - k.rate, d);
    }
  }

  lemma DigestPrefix(k: Kind, msg: octets, n: nat, m: nat)
    requires Fit(k) && m <= n
    ensures Digest(k, msg, n)[..m] == Digest(k, msg, m)
  {
    var s := Loaded(k, msg);
    SqueezeIsOut(k, s, n);
    SqueezeIsOut(k, s, m);
    OutSplit(k, s, 0, m, n - m, n);
  }

  /** What was read before the last `back` octets, all of the current block. */
  lemma Rewound(k: Kind, msg: octets, given: octets, a: octets, lo: nat, back: nat, at: nat) returns (less: octets)
    requires Fit(k) && given == Digest(k, msg, |given|) && (a, lo) == After(k, Loaded(k, msg), 0, |given|) && at + back == lo
    ensures |less| + back == |given| && less == Digest(k, msg, |less|) && (a, at) == After(k, Loaded(k, msg), 0, |less|)
  {
    Rewind(k, Loaded(k, msg), |given|, back);
    less := given[..|given| - back];
    DigestPrefix(k, msg, |given|, |less|);
  }

  // ---------------------------------------------------------------------------------------------
  // The buffered sponge
  // ---------------------------------------------------------------------------------------------

  method CopyIn(src: octets, dst: array<bv8>, at: nat)
    requires at + |src| <= dst.Length
    modifies dst
    ensures dst[..at + |src|] == old(dst[..at]) + src
  {
    for i := 0 to |src|
      invariant dst[..at] == old(dst[..at])
      invariant dst[at..at + i] == src[..i]
    {
      dst[at + i] := src[i];
    }
    assert dst[..at + |src|] == dst[..at] + dst[at..at + |src|];
  }

  method CopyOut(a: octets, storage: array<bv8>, rate: nat)
    requires rate <= storage.Length <= |a|
    modifies storage
    ensures Mirrors(a, storage, 0, rate)
  {
    for i := 0 to rate
      invariant forall j :: 0 <= j < i ==> storage[j] == a[j]
    {
      storage[i] := a[i];
    }
  }

  /** The filled buffer of sha3.go `padAndPermute`: the domain byte, zeros, then the top bit of the last byte. */
  method PadBlock(k: Kind, storage: array<bv8>, len: nat)
    requires len < k.rate <= storage.Length
    modifies storage
    ensures storage[..k.rate] == old(storage[..len]) + Padding(k, len)
  {
    ghost var was := storage[..len];
    storage[len] := k.dsbyte;
    for i := len + 1 to k.rate
      invariant storage[..i] == was + [k.dsbyte] + Zeros(i - (len + 1))
    {
      storage[i] := 0;
    }
    ghost var filled := storage[..k.rate];
    storage[k.rate - 1] := storage[k.rate - 1] ^ 0x80;
    assert storage[..k.rate] == filled[k.rate - 1 := filled[k.rate - 1] ^ 0x80];
    PaddedIs(k, was, filled);
  }

  lemma PaddedIs(k: Kind, was: octets, filled: octets)
    requires |was| < k.rate && filled == was + [k.dsbyte] + Zeros(k.rate - (|was| + 1))
    ensures filled[k.rate - 1 := filled[k.rate - 1] ^ 0x80] == was + Padding(k, |was|)
  {
    SmallMod(|was|, k.rate);
    var zero: bv8 := 0;
    assert zero ^ 0x80 == 0x80;
  }

  ghost predicate Mirrors(a: octets, storage: array<bv8>, lo: nat, hi: nat)
    reads storage
  {
    lo <= hi <= storage.Length <= |a| && forall i :: lo <= i < hi ==> storage[i] == a[i]
  }

  class State {
    const kind: Kind
    const outputLen: nat
    var a: octets
    const storage: array<bv8>
    // The buffer is storage[lo..hi].
    var lo: nat
    var hi: nat
    var squeezing: bool
    // Everything written, and everything read, since the last reset.
    ghost var written: octets
    ghost var given: octets

    ghost predicate Valid()
      reads this, storage
    {
      && Fit(kind) && storage.Length == MAX_RATE && |a| == WIDTH && lo <= hi <= kind.rate
      && (squeezing ==> lo < hi == kind.rate && Mirrors(a, storage, 0, hi) &&
                        (a, lo) == After(kind, Loaded(kind, written), 0, |given|) &&
                        given == Digest(kind, written, |given|))
      && (!squeezing ==> lo == 0 && given == [] && (a, storage[..hi]) == Taken(kind, Zeros(WIDTH), written))
    }

    constructor (k: Kind, outputLen: nat)
      requires Fit(k)
      ensures Valid() && kind == k && this.outputLen == outputLen && !squeezing && written == [] && fresh(storage)
    {
      kind, this.outputLen, a, lo, hi, squeezing, written, given := k, outputLen, Zeros(WIDTH), 0, 0, false, [], [];
      storage := new bv8[MAX_RATE](_ => 0);
    }

    method Reset()
      requires Valid()
      modifies this
      ensures Valid() && !squeezing && written == []
    {
      a, lo, hi, squeezing, written, given := Zeros(WIDTH), 0, 0, false, [], [];
    }

    /** sha3.go `Write`: absorbing in any pieces absorbs the concatenation. */
    method Write(p: octets)
      requires Valid() && !squeezing
      modifies `a, `hi, `written, storage
      ensures Valid() && written == old(written) + p
    {
      ghost var goal := Taken(kind, Zeros(WIDTH), written + p);
      TakenMore(kind, Zeros(WIDTH), written, p);
      var rest := p;
      while |rest| > 0
        invariant storage.Length == MAX_RATE && |a| == WIDTH && hi < kind.rate
        invariant Taken(kind, a, storage[..hi] + rest) == goal
        invariant written == old(written)
        decreases |rest|
      {
        if hi == 0 && |rest| >= kind.rate {
          assert storage[..hi] + rest == rest;
          a := kind.f(XorIn(a, rest[..kind.rate]));
          rest := rest[kind.rate..];
          assert storage[..hi] + rest == rest;
        } else {
          rest := AbsorbSome(rest);
        }
      }
      assert storage[..hi] + rest == storage[..hi];
      written := written + p;
    }

    /** The buffered path of the loop: fill the block as far as the input goes, and permute a full one. */
    method AbsorbSome(rest: octets) returns (left: octets)
      requires Fit(kind) && storage.Length == MAX_RATE && |a| == WIDTH && hi < kind.rate && |rest| > 0
      modifies `a, `hi, storage
      ensures |a| == WIDTH && hi < kind.rate && |left| < |rest|
      ensures Taken(kind, a, storage[..hi] + left) == old(Taken(kind, a, storage[..hi] + rest))
    {
      var todo := kind.rate - hi;
      if todo > |rest| { todo := |rest|; }
      ghost var buf := storage[..hi];
      CopyIn(rest[..todo], storage, hi);
      hi := hi + todo;
      left := rest[todo..];
      assert storage[..hi] == buf + rest[..todo];
      assert storage[..hi] + left == buf + rest;
      if hi == kind.rate {
        assert (buf + rest)[..kind.rate] == storage[..hi] && (buf + rest)[kind.rate..] == left;
        a := kind.f(XorIn(a, storage[..hi]));
        hi := 0;
        assert storage[..hi] + left == left;
      }
    }

    /** sha3.go `padAndPermute`. */
    method PadAndPermute()
      requires Valid() && !squeezing
      modifies `a, `lo, `hi, `squeezing, storage
      ensures Valid() && squeezing && lo == 0 && a == Loaded(kind, written)
    {
      LoadedFromTail(kind, written);
      PadBlock(kind, storage, hi);
      a := kind.f(XorIn(a, storage[..kind.rate]));
      squeezing, lo, hi := true, 0, kind.rate;
      CopyOut(a, storage, kind.rate);
    }

    /** sha3.go `Read`: the octets read so far are always a prefix of the digest of what was written. */
    method Read(n: nat) returns (out: octets)
      requires Valid()
      modifies `a, `lo, `hi, `squeezing, `given, storage
      ensures Valid() && squeezing && |out| == n
      ensures given == old(given) + out && given == Digest(kind, written, |given|)
    {
      if !squeezing { PadAndPermute(); }
      ghost var s := Loaded(kind, written);
      SqueezeIsOut(kind, s, |given|);
      SqueezeIsOut(kind, s, |given| + n);
      OutSplit(kind, s, 0, |given|, n, |given| + n);
      out := Drain(n);
      given := given + out;
    }

    /** What is read next is the digest from where reading stands. */
    method ReadOn(n: nat) returns (out: octets)
      requires Valid()
      modifies `a, `lo, `hi, `squeezing, `given, storage
      ensures out == DigestFrom(kind, written, |old(given)|, n)
      ensures old(given) == [] ==> out == Digest(kind, written, n)
    {
      ghost var had := given;
      out := Read(n);
      assert |had + out| == |had| + n && out == (had + out)[|had|..];
      assert had == [] ==> had + out == out;
    }

    /** The squeezing loop. */
    method Drain(n: nat) returns (out: octets)
      requires Fit(kind) && storage.Length == MAX_RATE && |a| == WIDTH && lo < hi == kind.rate
      requires Mirrors(a, storage, 0, hi)
      modifies `a, `lo, storage
      ensures |a| == WIDTH && lo < hi && Mirrors(a, storage, 0, hi)
      ensures out == old(Out(kind, a, lo, n)) && (a, lo) == old(After(kind, a, lo, n))
    {
      out := [];
      var left := n;
      ghost var all, last := Out(kind, a, lo, n), After(kind, a, lo, n);
      while left > 0
        invariant 0 <= left && |a| == WIDTH && lo < hi && Mirrors(a, storage, 0, hi)
        invariant out + Out(kind, a, lo, left) == all
        invariant After(kind, a, lo, left) == last
      {
        ghost var had := out;
        var chunk := DrainSome(left);
        left := left - |chunk|;
        out := out + chunk;
        Assoc(had, chunk, Out(kind, a, lo, left));
      }
    }

    method DrainSome(left: nat) returns (chunk: octets)
      requires Fit(kind) && storage.Length == MAX_RATE && |a| == WIDTH && lo < hi == kind.rate && left > 0
      requires Mirrors(a, storage, 0, hi)
      modifies `a, `lo, storage
      ensures |a| == WIDTH && lo < hi && Mirrors(a, storage, 0, hi) && 0 < |chunk| <= left
      ensures old(Out(kind, a, lo, left)) == chunk + Out(kind, a, lo, left - |chunk|)
      ensures old(After(kind, a, lo, left)) == After(kind, a, lo, left - |chunk|)
    {
      var m := if left < hi - lo then left else hi - lo;
      OutStep(kind, a, lo, m, left);
      chunk := storage[lo..lo + m];
      assert chunk == a[lo..lo + m];
      lo := lo + m;
      if lo == hi {
        a := kind.f(a);
        lo := 0;
        CopyOut(a, storage, kind.rate);
      }
    }

    /**
     sha3.go `Sum`: the digest of all that was written, and the sponge stays as it was. Once octets were read
     it goes on from there only if the rate is that of the buffer; else it gives the last ones again, as
     many as the buffer is longer than the rate, or panics where the block does not have so many.
     */
    method Sum(prefix: octets) returns (r: Option<octets>)
      requires Valid()
      ensures r.None? <==> squeezing && lo + kind.rate < MAX_RATE
      ensures r.Some? && !squeezing ==> r.value == prefix + Digest(kind, written, outputLen)
      ensures r.Some? && squeezing ==> |given| + kind.rate >= MAX_RATE
      ensures r.Some? && squeezing ==> r.value == prefix + DigestFrom(kind, written, |given| + kind.rate - MAX_RATE, outputLen)
    {
      var dup := Clone();
      if dup == null { return None; }
      var hash := dup.ReadOn(outputLen);
      r := Some(prefix + hash);
    }

    /** The place in the block is what was read, modulo the rate. */
    lemma Stands()
      requires Valid() && squeezing
      ensures lo == |given| % kind.rate
    {
      AfterIndex(kind, Loaded(kind, written), |given|);
    }

    /** sha3.go `clone`, null where slicing the buffer panics: its start is computed as if the buffer ended with the block. */
    method Clone() returns (c: State?)
      requires Valid()
      ensures c == null <==> squeezing && lo + kind.rate < MAX_RATE
      ensures c != null ==> fresh(c) && fresh(c.storage) && c.Valid() && c.kind == kind && c.outputLen == outputLen
      ensures c != null ==> c.squeezing == squeezing && c.written == written
      ensures c != null ==> |c.given| == if squeezing then |given| + kind.rate - MAX_RATE else 0
    {
      if !squeezing {
        c := CloneAbsorbing();
      } else if lo + kind.rate < MAX_RATE {
        c := null;
      } else {
        c := CloneSqueezing(MAX_RATE - kind.rate);
      }
    }

    method CloneAbsorbing() returns (c: State)
      requires Valid() && !squeezing
      ensures fresh(c) && fresh(c.storage) && c.Valid() && !c.squeezing
      ensures c.kind == kind && c.outputLen == outputLen && c.written == written
    {
      c := new State(kind, outputLen);
      CopyIn(storage[..hi], c.storage, 0);
      c.a, c.hi, c.written := a, hi, written;
      assert c.storage[..hi] == storage[..hi];
    }

    method CloneSqueezing(back: nat) returns (c: State)
      requires Valid() && squeezing && back <= lo
      ensures fresh(c) && fresh(c.storage) && c.Valid() && c.squeezing
      ensures c.kind == kind && c.outputLen == outputLen && c.written == written && |c.given| == |given| - back
    {
      ghost var less := Rewound(kind, written, given, a, lo, back, lo - back);
      c := new State(kind, outputLen);
      CopyIn(storage[..hi], c.storage, 0);
      SameMirror(a, storage, c.storage, hi);
      c.a, c.lo, c.hi, c.written, c.squeezing, c.given := a, lo - back, hi, written, true, less;
    }
  }

  lemma SameMirror(a: octets, s: array<bv8>, t: array<bv8>, hi: nat)
    requires Mirrors(a, s, 0, hi) && t.Length == s.Length && t[..hi] == s[..hi]
    ensures Mirrors(a, t, 0, hi)
  {
    forall i | 0 <= i < hi ensures t[i] == a[i] { assert t[..hi][i] == s[..hi][i]; }
  }

  // ---------------------------------------------------------------------------------------------
  // Any pieces
  // ---------------------------------------------------------------------------------------------

  ghost function Concat(parts: seq<octets>): octets {
    if |parts| == 0 then [] else Concat(parts[..|parts| - 1]) + parts[|parts| - 1]
  }

  lemma ConcatSnoc(parts: seq<octets>, x: octets)
    ensures Concat(parts + [x]) == Concat(parts) + x
  {
    assert (parts + [x])[..|parts|] == parts;
  }

  method WriteAll(s: State, parts: seq<octets>)
    requires s.Valid() && !s.squeezing && s.written == []
    modifies s, s.storage
    ensures s.Valid() && !s.squeezing && s.written == Concat(parts)
  {
    for i := 0 to |parts|
      invariant s.Valid() && !s.squeezing && s.written == Concat(parts[..i])
    {
      s.Write(parts[i]);
      ConcatSnoc(parts[..i], parts[i]);
      assert parts[..i + 1] == parts[..i] + [parts[i]];
    }
    assert parts[..|parts|] == parts;
  }

  /** However a message is cut into writes, the digest is that of the whole message. */
  method HashInPieces(k: Kind, parts: seq<octets>, outputLen: nat) returns (sum: octets)
    requires Fit(k)
    ensures sum == Digest(k, Concat(parts), outputLen)
  {
    var s := new State(k, outputLen);
    WriteAll(s, parts);
    var r := s.Sum([]);
    sum := r.value;
  }

  /** However the reads are cut, the pieces make up one long read. */
  method ReadInPieces(s: State, sizes: seq<nat>) returns (pieces: seq<octets>)
    requires s.Valid() && !s.squeezing
    modifies s, s.storage
    ensures |pieces| == |sizes| && forall i :: 0 <= i < |sizes| ==> |pieces[i]| == sizes[i]
    ensures Concat(pieces) == Digest(s.kind, old(s.written), |Concat(pieces)|)
  {
    pieces := [];
    for i := 0 to |sizes|
      invariant s.Valid() && s.written == old(s.written) && s.given == Concat(pieces)
      invariant s.given == Digest(s.kind, s.written, |s.given|)
      invariant |pieces| == i && forall j :: 0 <= j < i ==> |pieces[j]| == sizes[j]
    {
      var out := s.Read(sizes[i]);
      ConcatSnoc(pieces, out);
      pieces := pieces + [out];
    }
  }
}
