/** The byte layer of the HIST encoding (zega/src/history.rs, `put` to
    `Input::blob`): varints in the unsigned LEB128 form of DWARF 5, section 7.6,
    zigzag, exclusive or, and length-prefixed blobs.

    Readers are functions from the bytes ahead to a value and the bytes left;
    `Input` and `Output` are the structures the program reads and writes with. */
module HistBytes {
  import opened Machine
  import opened Wrappers

  datatype Error =
    | Truncated
    | VarintOverflow
    | InvalidVarint
    | LengthExceedsInput
    | UnsupportedVersion
    | NotText
    | NodeOverflow
    | DictionaryIndex
    | EmptyHistory
    | UnsortedTimes
    | InvalidValueTag
    | Undecodable
    | DuplicateKey
    | TrailingBytes
    | KindIndex
    | DuplicateRelationship
    | RelationshipOverflow
    | ReversedInterval
    | InvalidIntervalTag
    | DuplicateLifetime
    | LifetimeOverflow

  datatype Parsed<+T> = Parsed(value: T, rest: seq<byte>)

  type Outcome<+T> = Result<Parsed<T>, Error>

  // What a caller of `Input` sees of an outcome.
  function Seen<T>(o: Outcome<T>): Result<T, Error> {
    match o
    case Ok(p) => Ok(p.value)
    case Err(e) => Err(e)
  }

  // ----- varints -----

  function Varint(n: nat): (b: seq<byte>)
    ensures b != []
  {
    if n < 128 then [n] else [128 + n % 128] + Varint(n / 128)
  }

  function Pow128(k: nat): (p: nat)
    ensures p > 0
  {
    if k == 0 then 1 else 128 * Pow128(k - 1)
  }

  function Take(b: seq<byte>, n: nat): Outcome<seq<byte>> {
    if n > |b| then Err(Truncated) else Ok(Parsed(b[..n], b[n..]))
  }

  lemma {:induction false} Pow128Grows(j: nat, k: nat)
    requires j <= k
    ensures Pow128(j) <= Pow128(k)
    decreases k - j
  {
    if j < k {
      Pow128Grows(j + 1, k);
    }
  }

  lemma {:induction false} GroupFits(k: nat, n: nat, low: nat)
    requires k < 10 && n < Pow128(k) && low < 128 && (k == 9 ==> low < 2)
    ensures n + low * Pow128(k) < if k == 9 then TWO_64 else Pow128(k + 1)
    ensures k < 9 ==> n + low * Pow128(k) < TWO_64
  {
    assert Pow128(9) == TWO_63;
    Pow128Grows(k, 9);
    var p := Pow128(k);
    assert low * p <= 127 * p;
    if k < 9 {
      Pow128Grows(k + 1, 9);
    }
  }

  // `n | u64::from(b & 127) << 7 * k`, the bits of `n` lying below.
  function Joined(k: nat, n: nat, b: byte): (m: u64)
    requires k < 10 && n < Pow128(k) && (k == 9 ==> b < 2)
    ensures k < 9 ==> m < Pow128(k + 1)
  {
    GroupFits(k, n, b as int % 128);
    n + b as int % 128 * Pow128(k)
  }

  // The varint whose byte `k` is next, `n` being what the bytes before it hold.
  function VarFrom(b: seq<byte>, k: nat, n: nat): (r: Outcome<u64>)
    requires k < 10 ==> n < Pow128(k)
    requires k <= 10
    ensures r.Ok? ==> |r.value.rest| < |b|
    decreases 10 - k
  {
    if k == 10 then Err(InvalidVarint)
    else if b == [] then Err(Truncated)
    else if k == 9 && b[0] > 1 then Err(VarintOverflow)
    else
      var m := Joined(k, n, b[0]);
      if b[0] < 128 then Ok(Parsed(m, b[1..])) else VarFrom(b[1..], k + 1, m)
  }

  function Var(b: seq<byte>): Outcome<u64> {
    VarFrom(b, 0, 0)
  }

  // A length, refused when more than the bytes left.
  function Len(b: seq<byte>): Outcome<nat> {
    var p :- Var(b);
    if p.value > |p.rest| then Err(LengthExceedsInput) else Ok(Parsed(p.value, p.rest))
  }

  function ReadBlob(b: seq<byte>): Outcome<seq<byte>> {
    var p :- Len(b);
    Take(p.rest, p.value)
  }

  function Blob(b: seq<byte>): (r: seq<byte>)
    ensures r != []
  {
    Varint(|b|) + b
  }

  lemma {:induction false} GroupSplit(k: nat, n: nat, m: nat)
    requires k < 10 && n < Pow128(k) && n + m * Pow128(k) < TWO_64
    ensures k == 9 ==> m < 2
    ensures m < 128 ==> Joined(k, n, m) == n + m * Pow128(k)
    ensures m >= 128 ==>
      Joined(k, n, 128 + m % 128) + m / 128 * Pow128(k + 1) == n + m * Pow128(k)
  {
    var p := Pow128(k);
    if k == 9 {
      assert Pow128(9) == TWO_63;
      assert m < 2;
    }
    Distribute(m / 128, m % 128, p);
  }

  lemma {:induction false} Distribute(high: nat, low: nat, p: nat)
    ensures (high * 128 + low) * p == high * (128 * p) + low * p
  {
  }

  lemma {:induction false} VarSurvivesFrom(m: nat, rest: seq<byte>, k: nat, n: nat)
    requires k < 10 && n < Pow128(k) && n + m * Pow128(k) < TWO_64
    ensures VarFrom(Varint(m) + rest, k, n) == Ok(Parsed(n + m * Pow128(k), rest))
    decreases 10 - k
  {
    hide Joined, Pow128;
    var b := Varint(m) + rest;
    GroupSplit(k, n, m);
    if m < 128 {
      assert b[1..] == rest;
    } else {
      assert b[1..] == Varint(m / 128) + rest;
      VarSurvivesFrom(m / 128, rest, k + 1, Joined(k, n, 128 + m % 128));
    }
  }

  lemma {:induction false} VarSurvives(n: nat, rest: seq<byte>)
    requires n < TWO_64
    ensures Var(Varint(n) + rest) == Ok(Parsed(n, rest))
  {
    VarSurvivesFrom(n, rest, 0, 0);
  }

  lemma {:induction false} LenSurvives(n: nat, rest: seq<byte>)
    requires n < TWO_64 && n <= |rest|
    ensures Len(Varint(n) + rest) == Ok(Parsed(n, rest))
  {
    VarSurvives(n, rest);
  }

  lemma {:induction false} BlobSurvives(b: seq<byte>, rest: seq<byte>)
    requires |b| < TWO_64
    ensures ReadBlob(Blob(b) + rest) == Ok(Parsed(b, rest))
  {
    hide Var, Varint;
    LenSurvives(|b|, b + rest);
    assert Blob(b) + rest == Varint(|b|) + (b + rest);
    assert (b + rest)[..|b|] == b && (b + rest)[|b|..] == rest;
  }

  // The value of groups of seven bits, lowest first, the highest bit of a byte
  // saying whether another follows.
  function Leb128(b: seq<byte>): nat {
    if b == [] then 0 else b[0] % 128 + 128 * Leb128(b[1..])
  }

  // A varint is the shortest form of its number.
  lemma {:induction false} VarintIsLeb128(n: nat)
    ensures var b := Varint(n); var last := |b| - 1;
      && Leb128(b) == n && b[last] < 128 && (forall i | 0 <= i < last :: b[i] >= 128)
      && (last > 0 ==> b[last] > 0)
    decreases n
  {
    if n >= 128 {
      VarintIsLeb128(n / 128);
      var b, rest := Varint(n), Varint(n / 128);
      assert b[1..] == rest && forall i | 1 <= i < |b| :: b[i] == rest[i - 1];
    }
  }

  // ----- zigzag and exclusive or -----

  // `(n << 1) ^ (n >> 63)`: the sign moves to the lowest bit.
  function Zig(n: i64): u64 {
    if n >= 0 then 2 * n else -2 * n - 1
  }

  // `(n >> 1) ^ -(n & 1)`.
  function Unzig(n: u64): i64 {
    if n % 2 == 0 then n / 2 else -(n / 2) - 1
  }

  lemma {:induction false} ZigSurvives(n: i64)
    ensures Unzig(Zig(n)) == n
  {
  }

  function Xor(a: nat, b: nat): nat {
    if a == 0 && b == 0 then 0
    else (if a % 2 == b % 2 then 0 else 1) + 2 * Xor(a / 2, b / 2)
  }

  lemma {:induction false} XorCancels(a: nat, b: nat)
    ensures Xor(b, Xor(a, b)) == a
    decreases a + b
  {
    assert Xor(0, 0) == 0;
    if a != 0 || b != 0 {
      XorCancels(a / 2, b / 2);
      var x := Xor(a, b);
      assert x / 2 == Xor(a / 2, b / 2);
      assert x % 2 == if a % 2 == b % 2 then 0 else 1;
    }
  }

  function Pow2(k: nat): nat {
    if k == 0 then 1 else 2 * Pow2(k - 1)
  }

  lemma {:induction false} XorFits(a: nat, b: nat, k: nat)
    requires a < Pow2(k) && b < Pow2(k)
    ensures Xor(a, b) < Pow2(k)
  {
    if k > 0 && (a != 0 || b != 0) {
      XorFits(a / 2, b / 2, k - 1);
    }
  }

  lemma {:induction false} Pow2Sum(j: nat, k: nat)
    ensures Pow2(j + k) == Pow2(j) * Pow2(k)
    decreases k
  {
    if k > 0 {
      Pow2Sum(j, k - 1);
    }
  }

  lemma {:induction false} Pow2Squares(j: nat, k: nat, p: nat)
    requires k == j + j && Pow2(j) == p
    ensures Pow2(k) == p * p
  {
    Pow2Sum(j, j);
  }

  lemma {:induction false} Pow2Of64(k: nat)
    requires k == 4
    ensures Pow2(16 * k) == TWO_64
  {
    assert Pow2(k) == 16;
    hide Pow2;
    Pow2Squares(k, 2 * k, 16);
    Pow2Squares(2 * k, 4 * k, 256);
    Pow2Squares(4 * k, 8 * k, 65536);
    Pow2Squares(8 * k, 16 * k, 0x1_0000_0000);
  }

  lemma {:induction false} XorOfWords(a: u64, b: u64)
    ensures Xor(a, b) < TWO_64
  {
    hide Xor, Pow2;
    Pow2Of64(4);
    XorFits(a, b, 64);
  }

  function Xor64(a: u64, b: u64): u64 {
    XorOfWords(a, b);
    Xor(a, b)
  }

  // ----- the structures the program reads and writes with -----

  class Output {
    var bytes: seq<byte>

    constructor ()
      ensures bytes == []
    {
      bytes := [];
    }

    method Push(b: byte)
      modifies this
      ensures bytes == old(bytes) + [b]
    {
      bytes := bytes + [b];
    }

    method Extend(b: seq<byte>)
      modifies this
      ensures bytes == old(bytes) + b
    {
      bytes := bytes + b;
    }

    method Put(number: nat)
      modifies this
      ensures bytes == old(bytes) + Varint(number)
    {
      var n := number;
      while n >= 128
        invariant bytes + Varint(n) == old(bytes) + Varint(number)
      {
        ghost var before := bytes;
        Push(128 + n % 128);
        assert before + Varint(n) == bytes + Varint(n / 128);
        n := n / 128;
      }
      Push(n);
    }

    method PutBlob(b: seq<byte>)
      modifies this
      ensures bytes == old(bytes) + Blob(b)
    {
      Put(|b|);
      Extend(b);
    }
  }

  class Input {
    var rest: seq<byte>

    constructor (b: seq<byte>)
      ensures rest == b
    {
      rest := b;
    }

    method TakeBytes(n: nat) returns (r: Result<seq<byte>, Error>)
      modifies this
      ensures r == Seen(Take(old(rest), n))
      ensures r.Ok? ==> rest == Take(old(rest), n).value.rest
    {
      if n > |rest| {
        return Err(Truncated);
      }
      r := Ok(rest[..n]);
      rest := rest[n..];
    }

    method Byte() returns (r: Result<byte, Error>)
      modifies this
      ensures r == if old(rest) == [] then Err(Truncated) else Ok(old(rest)[0])
      ensures r.Ok? ==> rest == old(rest)[1..]
    {
      var b :- TakeBytes(1);
      r := Ok(b[0]);
    }

    method ReadVar() returns (r: Result<u64, Error>)
      modifies this
      ensures r == Seen(Var(old(rest)))
      ensures r.Ok? ==> rest == Var(old(rest)).value.rest
    {
      assert Pow128(0) == 1;
      hide Joined, Pow128;
      var k, n := 0, 0;
      while k < 10
        invariant 0 <= k <= 10 && 0 <= n && (k < 10 ==> n < Pow128(k))
        invariant VarFrom(rest, k, n) == Var(old(rest))
      {
        var b :- Byte();
        if k == 9 && b > 1 {
          return Err(VarintOverflow);
        }
        n := Joined(k, n, b);
        if b < 128 {
          return Ok(n);
        }
        k := k + 1;
      }
      r := Err(InvalidVarint);
    }

    method ReadLen() returns (r: Result<nat, Error>)
      modifies this
      ensures r == Seen(Len(old(rest)))
      ensures r.Ok? ==> rest == Len(old(rest)).value.rest
    {
      var n :- ReadVar();
      if n > |rest| {
        return Err(LengthExceedsInput);
      }
      r := Ok(n);
    }

    method TakeBlob() returns (r: Result<seq<byte>, Error>)
      modifies this
      ensures r == Seen(ReadBlob(old(rest)))
      ensures r.Ok? ==> rest == ReadBlob(old(rest)).value.rest
    {
      var n :- ReadLen();
      r := TakeBytes(n);
    }
  }
}
