/** Block keys for prefix caching: canonical CBOR (RFC 8949) of parent and tokens, hashed into a
    chain. The hash itself is a parameter. */
module KvHash {
  import opened Bytes
  import opened Options

  type Digest = d: seq<Byte> | |d| == 32 witness seq(32, _ => 0)
  type Token = n: nat | n < 0x1_0000_0000
  type U64 = n: nat | n < 0x1_0000_0000_0000_0000
  type Major = m: nat | m < 8
  type Hash = seq<Byte> -> Digest

  // ---------- big-endian numbers ----------

  function Pow256(n: nat): nat {
    if n == 0 then 1 else 256 * Pow256(n - 1)
  }

  function BigEndian(v: nat, n: nat): (bs: seq<Byte>)
    ensures |bs| == n
  {
    if n == 0 then [] else BigEndian(v / 256, n - 1) + [v % 256]
  }

  function FromBigEndian(bs: seq<Byte>): nat {
    if bs == [] then 0 else 256 * FromBigEndian(bs[..|bs| - 1]) + bs[|bs| - 1]
  }

  lemma {:induction false} BigEndianInverse(v: nat, n: nat)
    requires v < Pow256(n)
    ensures FromBigEndian(BigEndian(v, n)) == v
  {
    if n > 0 {
      BigEndianInverse(v / 256, n - 1);
      assert BigEndian(v, n)[..n - 1] == BigEndian(v / 256, n - 1);
    }
  }

  lemma {:induction false} FromBigEndianBound(bs: seq<Byte>)
    ensures FromBigEndian(bs) < Pow256(|bs|)
  {
    if bs != [] { FromBigEndianBound(bs[..|bs| - 1]); }
  }

  lemma Pow256Values()
    ensures Pow256(1) == 0x100 && Pow256(2) == 0x1_0000 && Pow256(4) == 0x1_0000_0000
    ensures Pow256(8) == 0x1_0000_0000_0000_0000
  {
    assert Pow256(2) == 256 * Pow256(1);
    assert Pow256(4) == 256 * (256 * Pow256(2));
    assert Pow256(6) == 256 * (256 * Pow256(4));
    assert Pow256(8) == 256 * (256 * Pow256(6));
  }

  // ---------- heads ----------

  /** How many bytes follow the initial byte: 0, 1, 2, 4 or 8 (section 3 of RFC 8949). */
  function ArgumentLen(v: U64): nat {
    if v < 24 then 0 else if v <= 0xff then 1 else if v <= 0xffff then 2 else if v <= 0xffff_ffff then 4 else 8
  }

  /** The low five bits of the initial byte. */
  function Info(v: U64): (i: nat)
    ensures i < 28
  {
    if v < 24 then v else if v <= 0xff then 24 else if v <= 0xffff then 25 else if v <= 0xffff_ffff then 26 else 27
  }

  function Head(major: Major, v: U64): seq<Byte> {
    [major * 32 + Info(v)] + BigEndian(v, ArgumentLen(v))
  }

  /** The argument length announced by an initial byte, none for reserved values. */
  function AnnouncedLen(info: nat): Option<nat> {
    if info < 24 then Some(0) else if info == 24 then Some(1) else if info == 25 then Some(2)
    else if info == 26 then Some(4) else if info == 27 then Some(8) else None
  }

  datatype HeadRead = HeadRead(major: Major, value: nat, len: nat)

  /** Read one head, in shortest form or not. */
  function ReadHead(bs: seq<Byte>): (r: Option<HeadRead>)
    ensures r.Some? ==> 1 <= r.value.len <= |bs|
  {
    if bs == [] then None
    else
      var info := bs[0] % 32;
      match AnnouncedLen(info)
      case None => None
      case Some(n) =>
        if |bs| < 1 + n then None
        else Some(HeadRead(bs[0] / 32, if n == 0 then info else FromBigEndian(bs[1..1 + n]), 1 + n))
  }

  lemma ArgumentFits(v: U64)
    requires v >= 24
    ensures v < Pow256(ArgumentLen(v))
  {
    Pow256Values();
  }

  lemma InitialByte(major: Major, info: nat)
    requires info < 32
    ensures (major * 32 + info) % 32 == info && (major * 32 + info) / 32 == major
  {
  }

  /** A head is read back, whatever follows. */
  lemma ReadWritten(major: Major, v: U64, rest: seq<Byte>)
    ensures ReadHead(Head(major, v) + rest) == Some(HeadRead(major, v, |Head(major, v)|))
  {
    var bs, n := Head(major, v) + rest, ArgumentLen(v);
    assert bs[0] == major * 32 + Info(v);
    InitialByte(major, Info(v));
    if v >= 24 {
      assert bs[1..1 + n] == BigEndian(v, n);
      ArgumentFits(v);
      BigEndianInverse(v, n);
    }
  }

  /** No head is a proper prefix of another. */
  lemma HeadsPrefixFree(m: Major, v: U64, m': Major, v': U64)
    requires Head(m, v) <= Head(m', v')
    ensures m == m' && v == v'
  {
    var rest := Head(m', v')[|Head(m, v)|..];
    assert Head(m', v') == Head(m, v) + rest;
    ReadWritten(m, v, rest);
    ReadWritten(m', v', []);
    assert Head(m', v') + [] == Head(m', v');
  }

  /** Shortest form (section 4.2.1 of RFC 8949): no head that reads as the same value is shorter. */
  lemma ShortestForm(bs: seq<Byte>)
    requires ReadHead(bs).Some? && ReadHead(bs).value.value < 0x1_0000_0000_0000_0000
    ensures var r := ReadHead(bs).value; |Head(r.major, r.value)| <= r.len
  {
    var r := ReadHead(bs).value;
    var n := r.len - 1;
    Pow256Values();
    if n > 0 {
      FromBigEndianBound(bs[1..1 + n]);
    }
  }

  // ---------- messages ----------

  function TokenHeads(tokens: seq<Token>): seq<Byte> {
    if tokens == [] then [] else TokenHeads(tokens[..|tokens| - 1]) + Head(0, tokens[|tokens| - 1])
  }

  /** CBOR of the array [parent, [tokens...], null]. */
  function BlockMessage(parent: Digest, tokens: seq<Token>): seq<Byte>
    requires |tokens| < 0x1_0000_0000_0000_0000
  {
    Head(4, 3) + Head(2, 32) + parent + Head(4, |tokens|) + TokenHeads(tokens) + [0xf6]
  }

  function Decimal(n: nat): (ds: seq<Byte>)
    ensures ds != []
  {
    if n < 10 then [48 + n] else Decimal(n / 10) + [48 + n % 10]
  }

  lemma {:induction false} DecimalLen(n: nat, k: nat)
    requires k > 0 && n < Pow10(k)
    ensures |Decimal(n)| <= k
  {
    if n >= 10 { DecimalLen(n / 10, k - 1); }
  }

  function Pow10(n: nat): nat {
    if n == 0 then 1 else 10 * Pow10(n - 1)
  }

  /** The number a string of digits stands for, the first digit weighing most. */
  function FromDecimal(ds: seq<Byte>): int {
    if ds == [] then 0 else 10 * FromDecimal(ds[..|ds| - 1]) + (ds[|ds| - 1] as int - 48)
  }

  /** The decimal text of a number: digits only, no leading zero, and it reads as the number. */
  lemma {:induction false} DecimalReads(n: nat)
    ensures FromDecimal(Decimal(n)) == n
    ensures forall i :: 0 <= i < |Decimal(n)| ==> 48 <= Decimal(n)[i] < 58
    ensures n > 0 ==> Decimal(n)[0] != 48
  {
    if n >= 10 {
      DecimalReads(n / 10);
      var ds := Decimal(n);
      assert ds[..|ds| - 1] == Decimal(n / 10);
    } else {
      assert Decimal(n)[..0] == [];
    }
  }

  /** CBOR of the decimal text of the seed. */
  function SeedMessage(seed: Token): seq<Byte> {
    SeedLen(seed);
    Head(3, |Decimal(seed)|) + Decimal(seed)
  }

  lemma SeedLen(seed: Token)
    ensures 1 <= |Decimal(seed)| <= 10
  {
    assert Pow10(5) == 10_0000;
    assert Pow10(10) == 10 * (10 * (10 * (10 * (10 * Pow10(5)))));
    DecimalLen(seed, 10);
  }

  // ---------- reading messages back ----------

  function ReadTokens(bs: seq<Byte>, n: nat): Option<(seq<nat>, seq<Byte>)> {
    if n == 0 then Some(([], bs))
    else match ReadHead(bs)
      case None => None
      case Some(r) =>
        if r.major != 0 then None
        else match ReadTokens(bs[r.len..], n - 1)
          case None => None
          case Some((ts, rest)) => Some(([r.value] + ts, rest))
  }

  /** An array of numbers followed by null. */
  function ReadArray(bs: seq<Byte>): Option<seq<nat>> {
    match ReadHead(bs)
    case None => None
    case Some(r) =>
      if r.major != 4 then None
      else match ReadTokens(bs[r.len..], r.value)
        case None => None
        case Some((ts, rest)) => if rest == [0xf6] then Some(ts) else None
  }

  /** A byte string and what follows it. */
  function ReadBytes(bs: seq<Byte>): Option<(seq<Byte>, seq<Byte>)> {
    match ReadHead(bs)
    case None => None
    case Some(r) =>
      if r.major != 2 || |bs| < r.len + r.value then None
      else Some((bs[r.len..r.len + r.value], bs[r.len + r.value..]))
  }

  /** The parent and the tokens of a block message. */
  function ReadBlock(bs: seq<Byte>): Option<(seq<Byte>, seq<nat>)> {
    match ReadHead(bs)
    case None => None
    case Some(r) =>
      if r.major != 4 || r.value != 3 then None
      else match ReadBytes(bs[r.len..])
        case None => None
        case Some((parent, rest)) =>
          match ReadArray(rest)
          case None => None
          case Some(ts) => Some((parent, ts))
  }

  function TokenHeadsFront(tokens: seq<Token>): seq<Byte> {
    if tokens == [] then [] else Head(0, tokens[0]) + TokenHeadsFront(tokens[1..])
  }

  lemma {:induction false} TokenHeadsBothWays(tokens: seq<Token>)
    ensures TokenHeads(tokens) == TokenHeadsFront(tokens)
  {
    if |tokens| == 1 {
      assert tokens[..0] == [] && tokens[1..] == [];
    } else if |tokens| > 1 {
      var n := |tokens|;
      TokenHeadsBothWays(tokens[..n - 1]);
      TokenHeadsBothWays(tokens[1..]);
      TokenHeadsBothWays(tokens[1..][..n - 2]);
      assert tokens[..n - 1][1..] == tokens[1..][..n - 2];
    }
  }

  lemma ReadOneWritten(v: Token, tail: seq<Byte>, n: nat)
    requires ReadTokens(tail, n).Some?
    ensures var (ts, rest) := ReadTokens(tail, n).value;
            ReadTokens(Head(0, v) + tail, n + 1) == Some(([v] + ts, rest))
  {
    var h := Head(0, v);
    ReadWritten(0, v, tail);
    assert (h + tail)[|h|..] == tail;
  }

  lemma {:induction false} ReadTokensWritten(tokens: seq<Token>, rest: seq<Byte>)
    ensures ReadTokens(TokenHeadsFront(tokens) + rest, |tokens|) == Some((tokens, rest))
  {
    if tokens == [] {
      assert TokenHeadsFront(tokens) + rest == rest;
    } else {
      var h, tail := Head(0, tokens[0]), TokenHeadsFront(tokens[1..]) + rest;
      assert TokenHeadsFront(tokens) + rest == h + tail;
      ReadTokensWritten(tokens[1..], rest);
      ReadOneWritten(tokens[0], tail, |tokens| - 1);
      assert tokens == [tokens[0]] + tokens[1..];
    }
  }

  lemma ReadArrayWritten(tokens: seq<Token>)
    requires |tokens| < 0x1_0000_0000_0000_0000
    ensures ReadArray(Head(4, |tokens|) + (TokenHeads(tokens) + [0xf6])) == Some(tokens)
  {
    var h, ts := Head(4, |tokens|), TokenHeads(tokens) + [0xf6];
    ReadWritten(4, |tokens|, ts);
    assert (h + ts)[|h|..] == ts;
    TokenHeadsBothWays(tokens);
    ReadTokensWritten(tokens, [0xf6]);
  }

  lemma ReadBytesWritten(parent: Digest, rest: seq<Byte>)
    ensures ReadBytes(Head(2, 32) + (parent + rest)) == Some((parent, rest))
  {
    var h := Head(2, 32);
    var bs := h + (parent + rest);
    ReadWritten(2, 32, parent + rest);
    assert bs[|h|..|h| + 32] == parent;
    assert bs[|h| + 32..] == rest;
  }

  /** Every block message is read back exactly. */
  lemma ReadBlockWritten(parent: Digest, tokens: seq<Token>)
    requires |tokens| < 0x1_0000_0000_0000_0000
    ensures ReadBlock(BlockMessage(parent, tokens)) == Some((parent, tokens))
  {
    var h, arr := Head(4, 3), Head(4, |tokens|) + (TokenHeads(tokens) + [0xf6]);
    var bs, rest := BlockMessage(parent, tokens), Head(2, 32) + (parent + arr);
    assert bs == h + rest;
    ReadWritten(4, 3, rest);
    assert bs[|h|..] == rest;
    ReadBytesWritten(parent, arr);
    ReadArrayWritten(tokens);
  }

  /** The number in a text of digits that fills the rest of the message. */
  function ReadSeed(bs: seq<Byte>): Option<int> {
    match ReadHead(bs)
    case None => None
    case Some(r) => if r.major != 3 || r.len + r.value != |bs| then None else Some(FromDecimal(bs[r.len..]))
  }

  /** The seed is read back from its message. */
  lemma ReadSeedWritten(seed: Token)
    ensures ReadSeed(SeedMessage(seed)) == Some(seed)
  {
    SeedLen(seed);
    DecimalReads(seed);
    var ds, h := Decimal(seed), Head(3, |Decimal(seed)|);
    ReadWritten(3, |ds|, ds);
    assert (h + ds)[|h|..] == ds;
  }

  lemma SeedIsNoBlock(seed: Token, parent: Digest, tokens: seq<Token>)
    requires |tokens| < 0x1_0000_0000_0000_0000
    ensures SeedMessage(seed) != BlockMessage(parent, tokens)
  {
    SeedLen(seed);
    assert SeedMessage(seed)[0] == 96 + |Decimal(seed)|;
    assert BlockMessage(parent, tokens)[0] == Head(4, 3)[0] == 131;
  }

  // ---------- blocks ----------

  /** The complete blocks of a token list; a trailing partial block is dropped. */
  function Chunks(tokens: seq<Token>, size: nat): seq<seq<Token>>
    requires size > 0
  {
    if |tokens| < size then [] else [tokens[..size]] + Chunks(tokens[size..], size)
  }

  function Concat(blocks: seq<seq<Token>>): seq<Token> {
    if blocks == [] then [] else blocks[0] + Concat(blocks[1..])
  }

  lemma {:induction false} ChunksCount(tokens: seq<Token>, size: nat)
    requires size > 0
    ensures |Chunks(tokens, size)| == |tokens| / size
    ensures forall b :: b in Chunks(tokens, size) ==> |b| == size
  {
    if |tokens| >= size {
      ChunksCount(tokens[size..], size);
      QuotientStep(|tokens|, size);
    }
  }

  lemma QuotientStep(n: nat, size: nat)
    requires 0 < size <= n
    ensures n / size == (n - size) / size + 1
  {
    var q := (n - size) / size;
    assert n - size == q * size + (n - size) % size;
    assert n == (q + 1) * size + (n - size) % size;
    Quotient(n, size, q + 1, (n - size) % size);
  }

  lemma Quotient(n: nat, size: nat, q: nat, r: nat)
    requires 0 <= r < size && n == q * size + r
    ensures n / size == q
  {
    var p := n / size;
    var d := p - q;
    assert d * size == r - n % size;
    assert d >= 1 ==> d * size >= size;
    assert d <= -1 ==> d * size <= 0 - size;
  }

  /** The first `k` blocks are the first `k * size` tokens. */
  lemma {:induction false} ChunksPrefix(tokens: seq<Token>, size: nat, k: nat)
    requires size > 0 && k <= |Chunks(tokens, size)|
    ensures k * size <= |tokens| && Concat(Chunks(tokens, size)[..k]) == tokens[..k * size]
    decreases k
  {
    if k > 0 {
      var cs, rest := Chunks(tokens, size), tokens[size..];
      ChunksPrefix(rest, size, k - 1);
      assert cs[..k][1..] == Chunks(rest, size)[..k - 1];
      assert k * size == size + (k - 1) * size;
      assert tokens[..size] + rest[..(k - 1) * size] == tokens[..k * size];
    }
  }

  /** More tokens only add blocks. */
  lemma {:induction false} ChunksStable(tokens: seq<Token>, more: seq<Token>, size: nat)
    requires size > 0
    ensures Chunks(tokens, size) <= Chunks(tokens + more, size)
    decreases |tokens|
  {
    if |tokens| >= size {
      assert (tokens + more)[..size] == tokens[..size];
      assert (tokens + more)[size..] == tokens[size..] + more;
      ChunksStable(tokens[size..], more, size);
    }
  }

  // ---------- the chain ----------

  /** One block further along the chain. */
  lemma ChunkStep(all: Blocks, done: Blocks, rest: seq<Token>, size: nat) returns (next: Blocks)
    requires 0 < size <= |rest| && all == done + Chunks(rest, size)
    ensures |next| == |done| + 1 && Front(next) == done && Last(next) == rest[..size]
    ensures size < 0x1_0000_0000_0000_0000
    ensures all == next + Chunks(rest[size..], size) && next == all[..|next|]
  {
    var block, more := rest[..size], Chunks(rest[size..], size);
    assert all == (done + [block]) + more;
    assert forall b :: b in done + [block] ==> b in all;
    assert block in all;
    next := done + [block];
  }

  type Blocks = bs: seq<seq<Token>> | forall b :: b in bs ==> |b| < 0x1_0000_0000_0000_0000

  function Front(blocks: Blocks): Blocks
    requires blocks != []
  {
    blocks[..|blocks| - 1]
  }

  function Last(blocks: Blocks): seq<Token>
    requires blocks != []
  {
    blocks[|blocks| - 1]
  }

  /** The digest a chain ends in; without blocks it is the digest of the seed. */
  function ChainKey(hash: Hash, seed: Token, blocks: Blocks): Digest
    decreases |blocks|, 1
  {
    if blocks == [] then hash(SeedMessage(seed)) else hash(LastMessage(hash, seed, blocks))
  }

  /** What is hashed for the last block. */
  function LastMessage(hash: Hash, seed: Token, blocks: Blocks): seq<Byte>
    requires blocks != []
    decreases |blocks|, 0
  {
    assert Last(blocks) in blocks;
    BlockMessage(ChainKey(hash, seed, Front(blocks)), Last(blocks))
  }

  /** `m` is among the byte strings hashed along the chain. */
  ghost predicate HashedFor(hash: Hash, seed: Token, blocks: Blocks, m: seq<Byte>)
    decreases |blocks|
  {
    || m == SeedMessage(seed)
    || (blocks != [] && (m == LastMessage(hash, seed, blocks) || HashedFor(hash, seed, Front(blocks), m)))
  }

  ghost predicate Collide(hash: Hash, x: seq<Byte>, y: seq<Byte>) {
    x != y && hash(x) == hash(y)
  }

  lemma MessageParts(hash: Hash, seed: Token, a: Blocks, b: Blocks)
    requires a != [] && b != [] && LastMessage(hash, seed, a) == LastMessage(hash, seed, b)
    ensures ChainKey(hash, seed, Front(a)) == ChainKey(hash, seed, Front(b)) && Last(a) == Last(b)
  {
    assert Last(a) in a && Last(b) in b;
    ReadBlockWritten(ChainKey(hash, seed, Front(a)), Last(a));
    ReadBlockWritten(ChainKey(hash, seed, Front(b)), Last(b));
  }

  lemma SameBlocks(a: Blocks, b: Blocks)
    requires a != [] && b != []
    ensures Front(a) == Front(b) && Last(a) == Last(b) ==> a == b
  {
    assert a == Front(a) + [Last(a)] && b == Front(b) + [Last(b)];
  }

  lemma MessageNotSeed(hash: Hash, seed: Token, a: Blocks)
    requires a != []
    ensures LastMessage(hash, seed, a) != SeedMessage(seed)
  {
    assert Last(a) in a;
    SeedIsNoBlock(seed, ChainKey(hash, seed, Front(a)), Last(a));
  }

  /** Equal chain keys mean equal block lists, or else two distinct byte strings hashed along the
      two chains have the same digest. */
  lemma {:induction false} ChainInjective(hash: Hash, seed: Token, a: Blocks, b: Blocks)
    returns (x: seq<Byte>, y: seq<Byte>)
    requires ChainKey(hash, seed, a) == ChainKey(hash, seed, b)
    ensures HashedFor(hash, seed, a, x) && HashedFor(hash, seed, b, y)
    ensures a == b || Collide(hash, x, y)
    decreases |a|
  {
    x := if a == [] then SeedMessage(seed) else LastMessage(hash, seed, a);
    y := if b == [] then SeedMessage(seed) else LastMessage(hash, seed, b);
    if a == [] && b != [] {
      MessageNotSeed(hash, seed, b);
    } else if a != [] && b == [] {
      MessageNotSeed(hash, seed, a);
    } else if a != [] && x == y {
      MessageParts(hash, seed, a, b);
      x, y := ChainInjective(hash, seed, Front(a), Front(b));
      SameBlocks(a, b);
    }
  }

  /** The blocks of a token list as a chain. */
  function ChainOf(tokens: seq<Token>, size: nat): Blocks
    requires 0 < size < 0x1_0000_0000_0000_0000
  {
    ChunksCount(tokens, size);
    Chunks(tokens, size)
  }

  /** The blocks that key `i` stands for. */
  function Upto(tokens: seq<Token>, size: nat, i: nat): (bs: Blocks)
    requires 0 < size < 0x1_0000_0000_0000_0000 && i < |tokens| / size
    ensures |bs| == i + 1
  {
    ChunksCount(tokens, size);
    ChainOf(tokens, size)[..i + 1]
  }

  lemma UptoTokens(tokens: seq<Token>, size: nat, i: nat)
    requires 0 < size < 0x1_0000_0000_0000_0000 && i < |tokens| / size
    ensures (i + 1) * size <= |tokens| && Concat(Upto(tokens, size, i)) == tokens[..(i + 1) * size]
  {
    ChunksCount(tokens, size);
    ChunksPrefix(tokens, size, i + 1);
  }

  /** Key `i` of a token list. */
  function KeyAt(hash: Hash, seed: Token, size: nat, tokens: seq<Token>, i: nat): Digest
    requires 0 < size < 0x1_0000_0000_0000_0000 && i < |tokens| / size
  {
    ChainKey(hash, seed, Upto(tokens, size, i))
  }

  /** Equal keys of two token lists mean equal positions and equal tokens up to there, or a
      collision between two byte strings hashed for them. */
  lemma KeysSound(hash: Hash, seed: Token, size: nat, a: seq<Token>, i: nat, b: seq<Token>, j: nat)
    returns (x: seq<Byte>, y: seq<Byte>)
    requires 0 < size < 0x1_0000_0000_0000_0000 && i < |a| / size && j < |b| / size
    requires KeyAt(hash, seed, size, a, i) == KeyAt(hash, seed, size, b, j)
    ensures HashedFor(hash, seed, Upto(a, size, i), x) && HashedFor(hash, seed, Upto(b, size, j), y)
    ensures (i + 1) * size <= |a| && (j + 1) * size <= |b|
    ensures (i == j && a[..(i + 1) * size] == b[..(j + 1) * size]) || Collide(hash, x, y)
  {
    var p, q := Upto(a, size, i), Upto(b, size, j);
    x, y := ChainInjective(hash, seed, p, q);
    UptoTokens(a, size, i);
    UptoTokens(b, size, j);
  }

  /** More tokens leave the existing keys unchanged. */
  lemma KeysStable(hash: Hash, seed: Token, size: nat, tokens: seq<Token>, more: seq<Token>, i: nat)
    requires 0 < size < 0x1_0000_0000_0000_0000 && i < |tokens| / size
    ensures i < |tokens + more| / size
    ensures KeyAt(hash, seed, size, tokens + more, i) == KeyAt(hash, seed, size, tokens, i)
  {
    ChunksCount(tokens, size);
    ChunksCount(tokens + more, size);
    ChunksStable(tokens, more, size);
    assert Upto(tokens + more, size, i) == Upto(tokens, size, i);
  }

  // ---------- the code ----------

  class Buffer {
    var bytes: seq<Byte>

    constructor ()
      ensures bytes == []
    {
      bytes := [];
    }

    method EncodeMajor(major: Major, value: U64)
      modifies this
      ensures bytes == old(bytes) + Head(major, value)
    {
      var prefix := major * 32;
      if value <= 23 {
        bytes := bytes + [prefix + value];
      } else if value <= 0xff {
        bytes := bytes + [prefix + 24];
        bytes := bytes + [value];
        assert BigEndian(value, 1) == [value];
      } else if value <= 0xffff {
        bytes := bytes + [prefix + 25];
        bytes := bytes + BigEndian(value, 2);
      } else if value <= 0xffff_ffff {
        bytes := bytes + [prefix + 26];
        bytes := bytes + BigEndian(value, 4);
      } else {
        bytes := bytes + [prefix + 27];
        bytes := bytes + BigEndian(value, 8);
      }
    }
  }

  method HashBlock(hash: Hash, parent: Digest, tokens: seq<Token>) returns (d: Digest)
    requires |tokens| < 0x1_0000_0000_0000_0000
    ensures d == hash(BlockMessage(parent, tokens))
  {
    var encoded := new Buffer();
    encoded.EncodeMajor(4, 3);
    encoded.EncodeMajor(2, |parent|);
    encoded.bytes := encoded.bytes + parent;
    encoded.EncodeMajor(4, |tokens|);
    ghost var prefix := encoded.bytes;
    var i := 0;
    while i < |tokens|
      invariant i <= |tokens| && encoded.bytes == prefix + TokenHeads(tokens[..i])
    {
      encoded.EncodeMajor(0, tokens[i]);
      assert tokens[..i + 1][..i] == tokens[..i];
      i := i + 1;
    }
    assert tokens[..i] == tokens;
    encoded.bytes := encoded.bytes + [0xf6];
    assert prefix == Head(4, 3) + Head(2, 32) + parent + Head(4, |tokens|);
    d := hash(encoded.bytes);
  }

  datatype Generator = Generator(blockSize: nat, noneHash: Digest)

  /** A generator, or nothing where the constructor would refuse its arguments. */
  method NewGenerator(hash: Hash, blockSize: nat, seed: U64) returns (g: Option<Generator>)
    ensures g.Some? <==> blockSize > 0 && seed <= 0xffff_ffff
    ensures g.Some? ==> g.value == Generator(blockSize, hash(SeedMessage(seed)))
  {
    if blockSize == 0 || seed > 0xffff_ffff {
      return None;
    }
    SeedLen(seed);
    var encoded := new Buffer();
    encoded.EncodeMajor(3, |Decimal(seed)|);
    encoded.bytes := encoded.bytes + Decimal(seed);
    assert encoded.bytes == SeedMessage(seed);
    g := Some(Generator(blockSize, hash(encoded.bytes)));
  }

  /** One key per complete block, each the chain key of its position. */
  method GenerateBlockKeys(hash: Hash, g: Generator, ghost seed: Token, tokens: seq<Token>) returns (keys: seq<Digest>)
    requires 0 < g.blockSize < 0x1_0000_0000_0000_0000 && g.noneHash == hash(SeedMessage(seed))
    ensures |keys| == |tokens| / g.blockSize
    ensures forall i :: 0 <= i < |keys| ==> keys[i] == KeyAt(hash, seed, g.blockSize, tokens, i)
  {
    var size, parent, rest := g.blockSize, g.noneHash, tokens;
    keys := [];
    ghost var all, done: Blocks := ChainOf(tokens, size), [];
    while |rest| >= size
      invariant all == done + Chunks(rest, size) && |keys| == |done|
      invariant parent == ChainKey(hash, seed, done)
      invariant forall i :: 0 <= i < |keys| ==> keys[i] == ChainKey(hash, seed, all[..i + 1])
      decreases |rest|
    {
      var block := rest[..size];
      ghost var next := ChunkStep(all, done, rest, size);
      parent := HashBlock(hash, parent, block);
      keys := keys + [parent];
      rest := rest[size..];
      done := next;
    }
    ChunksCount(tokens, size);
    assert done == all;
  }
}
