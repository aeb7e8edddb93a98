/** Packets of the KSU protocol and their raw form: address, length, command, payload, CRC-16. */
module DataPackets {
  import opened Bits
  import opened Crc16

  const KSU_ADDRESS: byte := 0x36
  const HEADER_SIZE := 4
  const ENVELOPE_SIZE := 6

  datatype PacketType = TypeCmd | TypeAck

  /** What the checksum covers. The length counts the command byte, in 16 bits. */
  function Covered(address: byte, cmd: byte, payload: seq<byte>): seq<byte> {
    var length := |payload| + 1;
    [address, length / 0x100 % 0x100, length % 0x100, cmd] + payload
  }

  function RawPacket(address: byte, cmd: byte, payload: seq<byte>): (raw: seq<byte>)
    ensures |raw| == |payload| + ENVELOPE_SIZE
  {
    var covered := Covered(address, cmd, payload);
    var crc := Checksum(covered);
    covered + [Msb(crc), Lsb(crc)]
  }

  /** What stands at each place of the raw form; the checksum, high byte first, covers all that is before it. */
  predicate IsRaw(raw: seq<byte>, address: byte, cmd: byte, payload: seq<byte>) {
    var n := |payload| + 4;
    |raw| == n + 2 &&
    var length1: int, length0: int, crc1: int, crc0: int := raw[1], raw[2], raw[n], raw[n + 1];
    && raw[0] == address && length1 * 0x100 + length0 == (|payload| + 1) % 0x1_0000 && raw[3] == cmd
    && raw[4..n] == payload && crc1 * 0x100 + crc0 == Checksum(raw[..n])
  }

  lemma {:induction false} LowWord(n: nat)
    ensures n / 0x100 % 0x100 * 0x100 + n % 0x100 == n % 0x1_0000
  {
    assert n == n / 0x1_0000 * 0x1_0000 + n / 0x100 % 0x100 * 0x100 + n % 0x100;
  }

  lemma {:induction false} RawPacketIs(address: byte, cmd: byte, payload: seq<byte>)
    ensures IsRaw(RawPacket(address, cmd, payload), address, cmd, payload)
  {
    var raw, n, covered := RawPacket(address, cmd, payload), |payload| + 4, Covered(address, cmd, payload);
    var crc := Checksum(covered);
    LowWord(|payload| + 1);
    LowWord(crc);
    assert raw == covered + [Msb(crc), Lsb(crc)];
    assert raw[..n] == covered && covered[4..] == payload;
  }

  lemma {:induction false} Seal(filled: seq<byte>, address: byte, cmd: byte, payload: seq<byte>, crc: word)
    requires |filled| == |payload| + ENVELOPE_SIZE
    requires filled[..|payload| + HEADER_SIZE] == Covered(address, cmd, payload)
    requires crc == Checksum(Covered(address, cmd, payload))
    ensures var n := |payload| + HEADER_SIZE;
            filled[n := Msb(crc)][n + 1 := Lsb(crc)] == RawPacket(address, cmd, payload)
  {
  }

  class DataPacket {
    const kind: PacketType
    const address: byte
    const cmd: word
    var size: nat
    var data: array?<byte>

    ghost predicate Valid()
      reads this
    {
      size < 0x1_0000 && (size > 0 ==> data != null && data.Length == size)
    }

    ghost function Payload(): (p: seq<byte>)
      requires Valid()
      reads this, data
      ensures |p| == size
    {
      if size == 0 then [] else data[..]
    }

    constructor (kind: PacketType, address: byte, cmd: word)
      ensures Valid() && this.kind == kind && this.address == address && this.cmd == cmd
      ensures Payload() == []
    {
      this.kind, this.address, this.cmd := kind, address, cmd;
      size, data := 0, null;
    }

    method Allocate(size: nat) returns (p: array<byte>)
      requires 0 < size < 0x1_0000
      modifies this
      ensures Valid() && this.size == size && data == p && fresh(p)
    {
      p := new byte[size](_ => 0);
      data := p;
      this.size := size;
    }

    /** CreateRawPacket up to the checksum. */
    method FillRaw(raw: array<byte>)
      requires Valid() && raw.Length == size + ENVELOPE_SIZE && raw != data
      modifies raw
      ensures raw[..size + HEADER_SIZE] == Covered(address, Lsb(cmd), Payload())
    {
      var length := size + 1;
      raw[0] := address;
      raw[1] := length / 0x100 % 0x100;
      raw[2] := length % 0x100;
      raw[3] := Lsb(cmd);
      if size > 0 {
        forall i | 0 <= i < size {
          raw[HEADER_SIZE + i] := data[i];
        }
      }
    }

    method CreateRawPacket() returns (raw: array<byte>)
      requires Valid()
      ensures fresh(raw)
      ensures raw[..] == RawPacket(address, Lsb(cmd), Payload())
    {
      raw := new byte[size + ENVELOPE_SIZE](_ => 0);
      ghost var covered := Covered(address, Lsb(cmd), Payload());
      FillRaw(raw);
      var crc := Crc16Buffer(0, raw, size + HEADER_SIZE);
      assert crc == Checksum(covered) by {
        DigitsOfZero(16);
        ChecksumUnique(covered, crc);
      }
      ghost var filled: seq<byte> := raw[..];
      raw[size + HEADER_SIZE] := Msb(crc);
      raw[size + HEADER_SIZE + 1] := Lsb(crc);
      Seal(filled, address, Lsb(cmd), Payload(), crc);
    }
  }
}
