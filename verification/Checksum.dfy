/** The incremental checksum computer: its CRC arms, and the composite form for multipart objects. */
module Checksum {
  import opened Bits
  import opened Crc
  import opened Option

  datatype Algorithm = Crc32 | Crc32c | Crc64Nvme {
    function Polynomial(): (p: nat)
      ensures p < Pow2(8 * Length())
    {
      PowersAtByteWidths();
      match this
      case Crc32 => CRC32_POLYNOMIAL
      case Crc32c => CRC32C_POLYNOMIAL
      case Crc64Nvme => CRC64_NVME_POLYNOMIAL
    }

    /** Raw digest length in bytes. */
    function Length(): nat {
      if Crc64Nvme? then 8 else 4
    }

    /** All ones: the start value, and what the register is inverted with at the end. */
    function Ones(): (ones: nat)
      ensures ones == Pow2(8 * Length()) - 1
    {
      PowersAtByteWidths();
      if Crc64Nvme? then 0xFFFF_FFFF_FFFF_FFFF else 0xFFFF_FFFF
    }
  }

  lemma PowersAtByteWidths()
    ensures Pow2(32) == 0x1_0000_0000 && Pow2(64) == 0x1_0000_0000_0000_0000
  {
    Pow2OfByte();
    hide Pow2;
    Pow2Adds(8, 8);
    Pow2Adds(16, 16);
    Pow2Adds(32, 32);
  }

  /** The checksum of a message, straight from the bit-at-a-time definition. */
  function Digest(algorithm: Algorithm, message: seq<byte>): seq<byte> {
    var register := Register(algorithm.Polynomial(), algorithm.Ones(), message);
    BigEndian(Xor(register, algorithm.Ones()), algorithm.Length())
  }

  function BigEndian(value: nat, size: nat): (bytes: seq<byte>)
    ensures |bytes| == size
    decreases size
  {
    if size == 0 then [] else BigEndian(value / 256, size - 1) + [value % 256]
  }

  function FromBigEndian(bytes: seq<byte>): nat {
    if bytes == [] then 0 else 256 * FromBigEndian(bytes[..|bytes| - 1]) + bytes[|bytes| - 1]
  }

  lemma {:induction false} BigEndianRoundTrip(value: nat, size: nat)
    requires value < Pow2(8 * size)
    ensures FromBigEndian(BigEndian(value, size)) == value
    decreases size
  {
    if size > 0 {
      Pow2Adds(8 * (size - 1), 8);
      assert Pow2(8) == 256;
      assert value < 256 * Pow2(8 * (size - 1));
      BigEndianRoundTrip(value / 256, size - 1);
      var bytes := BigEndian(value, size);
      assert bytes[..size - 1] == BigEndian(value / 256, size - 1);
    }
  }

  /** Nothing of the register is lost in the digest: it can be read back out of it. */
  lemma DigestHoldsRegister(algorithm: Algorithm, message: seq<byte>)
    ensures |Digest(algorithm, message)| == algorithm.Length()
    ensures Xor(FromBigEndian(Digest(algorithm, message)), algorithm.Ones())
         == Register(algorithm.Polynomial(), algorithm.Ones(), message)
  {
    var w, ones := 8 * algorithm.Length(), algorithm.Ones();
    var register := Register(algorithm.Polynomial(), ones, message);
    FeedBitsFits(algorithm.Polynomial(), ones, MessageBits(message), w);
    XorFits(register, ones, w);
    BigEndianRoundTrip(Xor(register, ones), algorithm.Length());
    XorAssociates(register, ones, ones);
    XorIsZero(ones, ones);
    XorZero(register);
  }

  method ToBigEndian(value: nat, size: nat) returns (out: seq<byte>)
    ensures out == BigEndian(value, size)
  {
    var buffer := new byte[size];
    var rest := value;
    for i := 0 to size
      invariant BigEndian(value, size) == BigEndian(rest, size - i) + buffer[size - i..]
    {
      buffer[size - 1 - i] := rest % 256;
      assert buffer[size - 1 - i..] == [rest % 256] + buffer[size - i..];
      assert BigEndian(rest, size - i) == BigEndian(rest / 256, size - i - 1) + [rest % 256];
      rest := rest / 256;
    }
    out := buffer[..];
  }

  class ChecksumComputer {
    const algorithm: Algorithm
    var crc32: nat
    var crc64: nat

    /** Everything `Update` has been given, in order. */
    ghost var message: seq<byte>

    ghost predicate Valid()
      reads this
    {
      (if algorithm.Crc64Nvme? then crc64 else crc32)
        == Register(algorithm.Polynomial(), algorithm.Ones(), message)
    }

    constructor (algorithm: Algorithm)
      ensures Valid() && this.algorithm == algorithm && message == []
    {
      this.algorithm := algorithm;
      crc32 := if algorithm.Crc64Nvme? then 0 else 0xFFFF_FFFF;
      crc64 := if algorithm.Crc64Nvme? then 0xFFFF_FFFF_FFFF_FFFF else 0;
      message := [];
    }

    method Update(data: seq<byte>)
      requires Valid()
      modifies this
      ensures Valid() && message == old(message) + data
    {
      SplitIndependent(algorithm.Polynomial(), algorithm.Ones(), message, data);
      message := message + data;
      if data == [] {
        assert message == old(message);
        return;
      }
      match algorithm {
        case Crc32 => crc32 := Crc.Update(CRC32_POLYNOMIAL, crc32, data);
        case Crc32c => crc32 := Crc.Update(CRC32C_POLYNOMIAL, crc32, data);
        case Crc64Nvme => crc64 := Crc.Update(CRC64_NVME_POLYNOMIAL, crc64, data);
      }
    }

    method Finish() returns (out: seq<byte>)
      requires Valid()
      ensures out == Digest(algorithm, message)
    {
      match algorithm {
        case Crc64Nvme => out := ToBigEndian(Xor(crc64, 0xFFFF_FFFF_FFFF_FFFF), 8);
        case _ => out := ToBigEndian(Xor(crc32, 0xFFFF_FFFF), 4);
      }
    }
  }

  function Concat(parts: seq<seq<byte>>): seq<byte> {
    if parts == [] then [] else Concat(parts[..|parts| - 1]) + parts[|parts| - 1]
  }

  lemma ConcatNothing()
    ensures Concat([]) == []
  {
  }

  lemma ConcatStep(parts: seq<seq<byte>>, i: nat)
    requires i < |parts|
    ensures Concat(parts[..i + 1]) == Concat(parts[..i]) + parts[i]
  {
    assert parts[..i + 1][..i] == parts[..i];
  }

  /** A checksum over part checksums says how many there were, in 32 bits. */
  datatype Composite = Composite(algorithm: Algorithm, value: seq<byte>, parts: nat)

  /** The composite form: the parts' raw digests run together and checksummed again. */
  method CompositeChecksum(algorithm: Algorithm, parts: seq<seq<byte>>) returns (r: Option<Composite>)
    ensures r.Some? <==> forall i :: 0 <= i < |parts| ==> |parts[i]| == algorithm.Length()
    ensures r.Some? ==> r.value == Composite(algorithm, Digest(algorithm, Concat(parts)), |parts| % 0x1_0000_0000)
  {
    hide Digest, ChecksumComputer.Valid, Concat;
    var computer := new ChecksumComputer(algorithm);
    ConcatNothing();
    for i := 0 to |parts|
      invariant fresh(computer) && computer.Valid() && computer.algorithm == algorithm
      invariant computer.message == Concat(parts[..i])
      invariant forall k :: 0 <= k < i ==> |parts[k]| == algorithm.Length()
    {
      if |parts[i]| != algorithm.Length() {
        return None;
      }
      computer.Update(parts[i]);
      ConcatStep(parts, i);
    }
    assert parts[..|parts|] == parts;
    var digest := computer.Finish();
    return Some(Composite(algorithm, digest, |parts| % 0x1_0000_0000));
  }
}
