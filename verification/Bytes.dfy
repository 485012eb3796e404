/** Bytes and the fixed-width integer codecs shared by the WAL and the continuation tokens. */
module Bytes {

  type Byte = b: int | 0 <= b < 256

  const U32_LIMIT: nat := 0x1_0000_0000
  const U64_LIMIT: nat := 0x1_0000_0000_0000_0000

  datatype Option<+T> = None | Some(value: T)

  datatype Result<+T> = Ok(value: T) | Err(error: string)

  /** The number of values that fit in `width` bytes. */
  function Capacity(width: nat): (c: nat)
    ensures c > 0
  {
    if width == 0 then 1 else 256 * Capacity(width - 1)
  }

  lemma CapacityOfWords()
    ensures Capacity(4) == U32_LIMIT
    ensures Capacity(8) == U64_LIMIT
  {
    assert Capacity(1) == 256;
    assert Capacity(2) == 65536;
    assert Capacity(3) == 16777216;
    assert Capacity(4) == U32_LIMIT;
    assert Capacity(5) == 256 * U32_LIMIT;
    assert Capacity(6) == 65536 * U32_LIMIT;
    assert Capacity(7) == 16777216 * U32_LIMIT;
  }

  /** `to_le_bytes`: least significant byte first. */
  function ToLE(n: nat, width: nat): (bytes: seq<Byte>)
    ensures |bytes| == width
  {
    if width == 0 then [] else [n % 256] + ToLE(n / 256, width - 1)
  }

  /** `from_le_bytes`. */
  function FromLE(bytes: seq<Byte>): (n: nat)
  {
    if |bytes| == 0 then 0 else bytes[0] + 256 * FromLE(bytes[1..])
  }

  lemma {:induction false} LERoundTrip(n: nat, width: nat)
    requires n < Capacity(width)
    ensures FromLE(ToLE(n, width)) == n
  {
    if width > 0 {
      LERoundTrip(n / 256, width - 1);
      assert ToLE(n, width)[1..] == ToLE(n / 256, width - 1);
    }
  }

  /** Reading a concatenation weighs the second part by the capacity of the first. */
  lemma {:induction false} FromLEConcat(a: seq<Byte>, b: seq<Byte>)
    ensures FromLE(a + b) == FromLE(a) + Capacity(|a|) * FromLE(b)
  {
    if |a| == 0 {
      assert a + b == b;
    } else {
      FromLEConcat(a[1..], b);
      assert (a + b)[1..] == a[1..] + b;
      calc {
        FromLE(a + b);
        a[0] + 256 * (FromLE(a[1..]) + Capacity(|a| - 1) * FromLE(b));
        a[0] + 256 * FromLE(a[1..]) + 256 * (Capacity(|a| - 1) * FromLE(b));
        { Associate(Capacity(|a| - 1), FromLE(b)); }
        FromLE(a) + Capacity(|a|) * FromLE(b);
      }
    }
  }

  lemma Associate(c: nat, n: nat)
    ensures 256 * (c * n) == (256 * c) * n
  {}

  lemma {:induction false} FromLEBound(bytes: seq<Byte>)
    ensures FromLE(bytes) < Capacity(|bytes|)
  {
    if |bytes| > 0 {
      FromLEBound(bytes[1..]);
    }
  }

  /** The first four bytes of an encoded u64 read as zero only when it is a multiple of 2^32. */
  lemma LowWordZero(n: nat)
    requires n < U64_LIMIT
    requires FromLE(ToLE(n, 8)[..4]) == 0
    ensures n % U32_LIMIT == 0
  {
    var bytes := ToLE(n, 8);
    CapacityOfWords();
    LERoundTrip(n, 8);
    FromLEConcat(bytes[..4], bytes[4..]);
    assert bytes[..4] + bytes[4..] == bytes;
  }
}
