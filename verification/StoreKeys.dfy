/**
 Database keys (cita-chain/core/src/libchain/extras.rs): byte strings built by
 hand from block numbers, hashes and bloom group positions.
 */
module StoreKeys {

  type Byte = x: int | 0 <= x < 0x100
  type U32 = x: int | 0 <= x < 0x1_0000_0000
  type U64 = x: int | 0 <= x < 0x1_0000_0000_0000_0000

  /** A hash is 32 bytes long. */
  type H256 = s: seq<Byte> | |s| == 32 witness seq(32, i => 0)

  /** What is stored, by what it is looked up with. */
  datatype Key =
    | HeaderAt(number: U64)
    | BodyAt(number: U64)
    | HeightOf(block: H256)
    | AddressOf(tx: H256)
    | ReceiptsOf(block: H256)
    | BloomsAt(level: Byte, index: U32)
    | CurrentHash
    | CurrentProof
    | CurrentHeight

  const COL_HEADERS: nat := 1
  const COL_BODIES: nat := 2
  const COL_EXTRA: nat := 3

  function Column(k: Key): nat {
    if k.HeaderAt? then COL_HEADERS else if k.BodyAt? then COL_BODIES else COL_EXTRA
  }

  // ---------------------------------------------------------------------
  // Numbers as bytes
  // ---------------------------------------------------------------------

  /** The `k` low bytes of `n`, highest first: bits are dropped, not checked. */
  function LowBytes(n: nat, k: nat): (bytes: seq<Byte>)
    ensures |bytes| == k
  {
    if k == 0 then [] else LowBytes(n / 0x100, k - 1) + [n % 0x100]
  }

  function FromBytes(bytes: seq<Byte>): nat {
    if bytes == [] then 0 else FromBytes(bytes[..|bytes| - 1]) * 0x100 + bytes[|bytes| - 1]
  }

  function Pow256(k: nat): nat {
    if k == 0 then 1 else 0x100 * Pow256(k - 1)
  }

  lemma {:induction false} BytesRoundTrip(n: nat, k: nat)
    ensures Pow256(k) > 0 && FromBytes(LowBytes(n, k)) == n % Pow256(k)
  {
    if k > 0 {
      BytesRoundTrip(n / 0x100, k - 1);
      assert LowBytes(n, k)[..k - 1] == LowBytes(n / 0x100, k - 1);
      ShiftRemainder(n, Pow256(k - 1));
    }
  }

  lemma {:induction false} NumberRoundTrip(bytes: seq<Byte>)
    ensures LowBytes(FromBytes(bytes), |bytes|) == bytes
  {
    if bytes != [] {
      var n := |bytes| - 1;
      NumberRoundTrip(bytes[..n]);
      assert bytes == bytes[..n] + [bytes[n]];
    }
  }

  lemma ShiftRemainder(n: nat, p: nat)
    requires p > 0
    ensures n % (0x100 * p) == ((n / 0x100) % p) * 0x100 + n % 0x100
  {
    var q, r := n / 0x100, n % 0x100;
    var u, v := q / p, q % p;
    assert 0x100 * q == (0x100 * p) * u + 0x100 * v;
    RemainderUnique(n, 0x100 * p, u, 0x100 * v + r);
  }

  lemma RemainderUnique(n: nat, d: nat, u: nat, rest: nat)
    requires d > 0 && rest < d && n == d * u + rest
    ensures n % d == rest
  {
    var q := n / d;
    assert n == d * q + n % d;
    assert d * (q - u) == rest - n % d;
    if q > u {
      MultipleIsFar(d, q - u);
    } else if q < u {
      MultipleIsFar(d, u - q);
    }
  }

  lemma {:induction false} MultipleIsFar(d: nat, k: nat)
    requires k > 0
    ensures d * k >= d
  {
    if k > 1 {
      MultipleIsFar(d, k - 1);
    }
  }

  lemma PowersOf256()
    ensures Pow256(4) == 0x1_0000_0000
    ensures Pow256(8) == 0x1_0000_0000_0000_0000
  {
    assert Pow256(2) == 0x1_0000;
    assert Pow256(4) == 0x100 * (0x100 * Pow256(2));
    assert Pow256(6) == 0x100 * (0x100 * Pow256(4));
    assert Pow256(8) == 0x100 * (0x100 * Pow256(6));
  }

  // ---------------------------------------------------------------------
  // Keys as bytes
  // ---------------------------------------------------------------------

  /** The three reserved keys differ in their last byte. */
  const RESERVED: seq<Byte> :=
    [0x7c, 0xab, 0xfb, 0x77, 0x09, 0xb2, 0x9c, 0x16, 0xd9, 0xe8, 0x76, 0xe8, 0x76, 0xc9, 0x98, 0x8d,
     0x03, 0xf9, 0xc3, 0x41, 0x4e, 0x1d, 0x3f, 0xf7, 0x7e, 0xc1, 0xde, 0x2d, 0x0e, 0xe5, 0x9f]

  function Encode(k: Key): seq<Byte> {
    match k
    case HeaderAt(n) => [4] + LowBytes(n, 8)
    case BodyAt(n) => [5] + LowBytes(n, 8)
    case HeightOf(h) => h
    case AddressOf(h) => [0] + h
    case ReceiptsOf(h) => [1] + h
    case BloomsAt(level, index) => [2, level] + LowBytes(index, 4)
    case CurrentHash => RESERVED + [0x66]
    case CurrentProof => RESERVED + [0x67]
    case CurrentHeight => RESERVED + [0x68]
  }

  /** Block hashes share a column and a length with the reserved keys. */
  predicate Legal(k: Key) {
    k.HeightOf? ==> k.block !in {RESERVED + [0x66], RESERVED + [0x67], RESERVED + [0x68]}
  }

  lemma NumbersApart(m: nat, n: nat, k: nat)
    requires m < Pow256(k) && n < Pow256(k)
    requires LowBytes(m, k) == LowBytes(n, k)
    ensures m == n
  {
    BytesRoundTrip(m, k);
    BytesRoundTrip(n, k);
  }

  /** Within a column no two keys have the same bytes. */
  lemma KeysApart(a: Key, b: Key)
    requires Legal(a) && Legal(b)
    requires Column(a) == Column(b) && Encode(a) == Encode(b)
    ensures a == b
  {
    PowersOf256();
    var x, y := Encode(a), Encode(b);
    if |x| == 9 {
      assert x[1..] == LowBytes(a.number, 8) && y[1..] == LowBytes(b.number, 8);
      NumbersApart(a.number, b.number, 8);
    } else if |x| == 33 {
      assert x[0] == y[0] && x[1..] == y[1..];
      assert a.AddressOf? ==> a.tx == x[1..];
      assert a.ReceiptsOf? ==> a.block == x[1..];
      assert b.AddressOf? ==> b.tx == y[1..];
      assert b.ReceiptsOf? ==> b.block == y[1..];
    } else if |x| == 6 {
      assert x[1] == a.level && y[1] == b.level;
      assert x[2..] == LowBytes(a.index, 4) && y[2..] == LowBytes(b.index, 4);
      NumbersApart(a.index, b.index, 4);
    } else {
      assert |x| == 32;
      assert x[31] == y[31];
    }
  }

  /** The five-byte key that maps a block number to its hash keeps 32 bits of the
      number: two numbers share it exactly when they agree modulo 2^32. */
  function NumberKey(n: U64): seq<Byte> {
    [3] + LowBytes(n, 4)
  }

  lemma NumberKeyDropsHighBits(m: U64, n: U64)
    ensures NumberKey(m) == NumberKey(n) <==> m % 0x1_0000_0000 == n % 0x1_0000_0000
  {
    PowersOf256();
    BytesRoundTrip(m, 4);
    BytesRoundTrip(n, 4);
    NumberRoundTrip(LowBytes(m, 4));
    NumberRoundTrip(LowBytes(n, 4));
    assert NumberKey(m)[1..] == LowBytes(m, 4) && NumberKey(n)[1..] == LowBytes(n, 4);
  }

  /** The first byte is the most significant one. */
  lemma {:induction false} MostSignificantFirst(b: Byte, bytes: seq<Byte>)
    ensures FromBytes([b] + bytes) == b * Pow256(|bytes|) + FromBytes(bytes)
  {
    if bytes == [] {
      assert [b] + bytes == [b] && [b][..0] == [];
    } else {
      var n := |bytes| - 1;
      assert ([b] + bytes)[..n + 1] == [b] + bytes[..n];
      MostSignificantFirst(b, bytes[..n]);
      Distribute(b, Pow256(n), FromBytes(bytes[..n]), bytes[n]);
    }
  }

  lemma Distribute(b: nat, p: nat, q: nat, r: nat)
    ensures (b * p + q) * 0x100 + r == b * (0x100 * p) + (q * 0x100 + r)
  {
    assert b * (0x100 * p) == 0x100 * (b * p);
  }

  /** The bytes of each kind of key: a tag, then the number highest byte first or the hash. */
  lemma NumberKeyFormats(n: U64)
    ensures |Encode(HeaderAt(n))| == 9 && Encode(HeaderAt(n))[0] == 4 && FromBytes(Encode(HeaderAt(n))[1..]) == n
    ensures |Encode(BodyAt(n))| == 9 && Encode(BodyAt(n))[0] == 5 && FromBytes(Encode(BodyAt(n))[1..]) == n
    ensures |NumberKey(n)| == 5 && NumberKey(n)[0] == 3
  {
    PowersOf256();
    BytesRoundTrip(n, 8);
    hide LowBytes, FromBytes;
    assert Encode(HeaderAt(n))[1..] == LowBytes(n, 8) && Encode(BodyAt(n))[1..] == LowBytes(n, 8);
  }

  lemma HashKeyFormats(h: H256)
    ensures Encode(HeightOf(h)) == h
    ensures Encode(AddressOf(h))[0] == 0 && Encode(AddressOf(h))[1..] == h
    ensures Encode(ReceiptsOf(h))[0] == 1 && Encode(ReceiptsOf(h))[1..] == h
  {
  }

  lemma BloomKeyFormat(level: Byte, index: U32)
    ensures
      var bytes := Encode(BloomsAt(level, index));
      |bytes| == 6 && bytes[0] == 2 && bytes[1] == level && FromBytes(bytes[2..]) == index
  {
    PowersOf256();
    BytesRoundTrip(index, 4);
    hide LowBytes, FromBytes;
    assert Encode(BloomsAt(level, index))[2..] == LowBytes(index, 4);
  }
}
