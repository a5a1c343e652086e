/** Bytes, 64-bit words and their little-endian image in memory, as every component of the system writes them. */
module Wire {

  /** A value that may be missing; also the outcome of an operation that may throw. */
  datatype Option<+T> = None | Some(value: T) {
    predicate IsFailure() {
      None?
    }

    function PropagateFailure<U>(): Option<U>
      requires None?
    {
      None
    }

    function Extract(): T
      requires Some?
    {
      value
    }
  }

  function Min(a: nat, b: nat): nat {
    if a <= b then a else b
  }

  type byte = b: int | 0 <= b < 256

  type bytes = seq<byte>

  const U64_LIMIT: int := 0x1_0000_0000_0000_0000

  type u64 = n: int | 0 <= n < U64_LIMIT

  /** The `width` bytes of `n` in memory, least significant first; higher bytes are cut off. */
  function LittleEndian(n: nat, width: nat): (s: bytes)
    ensures |s| == width
  {
    if width == 0 then [] else [n % 256] + LittleEndian(n / 256, width - 1)
  }

  function FromLittleEndian(s: bytes): nat {
    if s == [] then 0 else s[0] + 256 * FromLittleEndian(s[1..])
  }

  /** Numbers below `Limit(w)` fit in `w` bytes. */
  function Limit(width: nat): (l: nat)
    ensures l > 0
  {
    if width == 0 then 1 else 256 * Limit(width - 1)
  }

  lemma LimitOfWord()
    ensures Limit(8) == U64_LIMIT
  {
    assert Limit(2) == 0x1_0000;
    assert Limit(4) == 0x1_0000_0000;
    assert Limit(6) == 0x1_0000_0000_0000;
  }

  lemma {:induction false} ReadsBack(n: nat, width: nat)
    requires n < Limit(width)
    ensures FromLittleEndian(LittleEndian(n, width)) == n
  {
    if width > 0 {
      ReadsBack(n / 256, width - 1);
      assert LittleEndian(n, width)[1..] == LittleEndian(n / 256, width - 1);
    }
  }

  lemma {:induction false} WritesBack(s: bytes)
    ensures FromLittleEndian(s) < Limit(|s|)
    ensures LittleEndian(FromLittleEndian(s), |s|) == s
  {
    if s != [] {
      WritesBack(s[1..]);
      assert s == [s[0]] + s[1..];
    }
  }

  lemma Regroup<T>(a: seq<T>, b: seq<T>, c: seq<T>)
    ensures a + b + c == a + (b + c)
  {
  }

  /** The eight bytes of a number in a 64-bit word: of the number modulo 2^64. */
  function Size(n: nat): (s: bytes)
    ensures |s| == 8
  {
    LittleEndian(n, 8)
  }

  function Word(n: u64): (s: bytes)
    ensures |s| == 8
  {
    Size(n)
  }

  function FromWord(s: bytes): (n: u64)
    requires |s| == 8
    ensures Word(n) == s
  {
    WritesBack(s);
    LimitOfWord();
    FromLittleEndian(s)
  }

  lemma WordReadsBack(n: u64)
    ensures FromWord(Word(n)) == n
  {
    LimitOfWord();
    ReadsBack(n, 8);
  }
}
