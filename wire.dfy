/** Bytes on the wire: octets, big-endian unsigned 32-bit integers with Go's
    uint32 wrap-around, and Go strings viewed as byte strings. */
module Wire {

  /** One octet. */
  type Byte = x: int | 0 <= x < 256

  /** 2^32: Go's uint32 arithmetic and conversions work modulo this. */
  const U32_MOD: int := 0x1_0000_0000

  datatype Option<T> = None | Some(value: T)

  /** A Go `(value, error)` pair where the value is meaningless on error. */
  datatype Result<T> = Ok(value: T) | Err(msg: string)

  /** `binary.Write(buf, binary.BigEndian, uint32(n))`: the conversion to
      uint32 keeps the low 32 bits, then the four bytes go out most
      significant first. */
  function BeU32(n: nat): (r: seq<Byte>)
    ensures |r| == 4
  {
    var w := n % U32_MOD;
    [w / 0x100_0000, (w / 0x1_0000) % 256, (w / 0x100) % 256, w % 256]
  }

  /** The reader's side: the value of four big-endian bytes. */
  function ReadBeU32(b: seq<Byte>): (n: nat)
    requires |b| >= 4
    ensures n < U32_MOD
  {
    (b[0] as int) * 0x100_0000 + (b[1] as int) * 0x1_0000 + (b[2] as int) * 0x100 + b[3] as int
  }

  /** Reading back what BeU32 wrote gives the value modulo 2^32. */
  lemma ReadBeU32OfBeU32(n: nat)
    ensures ReadBeU32(BeU32(n)) == n % U32_MOD
    ensures n < U32_MOD ==> ReadBeU32(BeU32(n)) == n
  {
    var w := n % U32_MOD;
    var b := BeU32(n);
    assert b[0] * 0x100_0000 + (w / 0x1_0000) % 256 * 0x1_0000 == (w / 0x1_0000) * 0x1_0000;
    assert (w / 0x1_0000) * 0x1_0000 + (w / 0x100) % 256 * 0x100 == (w / 0x100) * 0x100;
  }

  lemma AppendAssoc<T>(a: seq<T>, b: seq<T>, c: seq<T>)
    ensures (a + b) + c == a + (b + c)
  {
  }

  /** Go strings are byte strings; in this model every char of a `string`
      stands for one byte, so a string is a byte string when every char is
      below 256. */
  predicate IsByteString(s: string)
  {
    forall i | 0 <= i < |s| :: s[i] as int < 256
  }

  /** `[]byte(s)`. */
  function Octets(s: string): (r: seq<Byte>)
    ensures |r| == |s|
  {
    seq(|s|, i requires 0 <= i < |s| => (s[i] as int) % 256)
  }

  /** `string(b)`. */
  function Chars(b: seq<Byte>): (s: string)
    ensures |s| == |b|
    ensures IsByteString(s)
  {
    seq(|b|, i requires 0 <= i < |b| => b[i] as char)
  }

  lemma CharsOfOctets(s: string)
    requires IsByteString(s)
    ensures Chars(Octets(s)) == s
  {
    forall i | 0 <= i < |s| ensures Chars(Octets(s))[i] == s[i] {
      assert Octets(s)[i] == s[i] as int;
    }
  }

  lemma OctetsConcat(a: string, b: string)
    ensures Octets(a + b) == Octets(a) + Octets(b)
  {
  }

  lemma ByteStringConcat(a: string, b: string)
    requires IsByteString(a) && IsByteString(b)
    ensures IsByteString(a + b)
  {
    forall i | 0 <= i < |a + b| ensures (a + b)[i] as int < 256 {
      if i >= |a| { assert (a + b)[i] == b[i - |a|]; }
    }
  }
}
