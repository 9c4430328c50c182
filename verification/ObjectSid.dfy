/** Reading a group's RID out of its binary objectSid. */
module ObjectSid {
  newtype byte = x: int | 0 <= x < 256

  /** An unsigned 32-bit number. */
  type uint32 = x: int | 0 <= x < 0x1_0000_0000

  /** The bytes of a sub-authority, section 2.4.2.2 of MS-DTYP: little-endian. */
  function LittleEndian(x: uint32): seq<byte> {
    [(x % 0x100) as byte, (x / 0x100 % 0x100) as byte, (x / 0x1_0000 % 0x100) as byte, (x / 0x100_0000) as byte]
  }

  function SubAuthorities(subs: seq<uint32>): (r: seq<byte>)
    ensures |r| == 4 * |subs|
  {
    if subs == [] then [] else SubAuthorities(subs[..|subs| - 1]) + LittleEndian(subs[|subs| - 1])
  }

  /** Revision, sub-authority count, six bytes of identifier authority, sub-authorities. */
  function Encode(authority: seq<byte>, subs: seq<uint32>): seq<byte>
    requires |subs| <= 255
  {
    [1, |subs| as byte] + authority + SubAuthorities(subs)
  }

  /** Four bytes shifted into place; their bits do not overlap, so "or" is addition. */
  function Word(a: byte, b: byte, c: byte, d: byte): uint32 {
    a as int + b as int * 0x100 + c as int * 0x1_0000 + d as int * 0x100_0000
  }

  predicate Readable(raw: seq<byte>) {
    |raw| >= 8 && raw[1] != 0 && |raw| >= 8 + raw[1] as int * 4
  }

  /** The decoder; every byte it reads lies within the value, and anything too short or
      without sub-authorities leaves the RID at -1. */
  method DecodeRid(raw: seq<byte>) returns (rid: int)
    ensures Readable(raw) ==>
              var last := 4 + raw[1] as int * 4;
              0 <= rid && rid == Word(raw[last], raw[last + 1], raw[last + 2], raw[last + 3])
    ensures rid == -1 <==> !Readable(raw)
  {
    rid := -1;
    if |raw| >= 8 {
      var subCount := raw[1] as int;
      var expectLen := 8 + subCount * 4;
      if subCount > 0 && |raw| >= expectLen {
        var p := 8 + (subCount - 1) * 4;
        rid := Word(raw[p], raw[p + 1], raw[p + 2], raw[p + 3]);
      }
    }
  }

  /** Little-endian bytes spell the number they were made from. */
  lemma WordOfBytes(x: uint32)
    ensures var p := LittleEndian(x);
            Word(p[0], p[1], p[2], p[3]) == x
  {
    assert x == x % 0x100 + x / 0x100 * 0x100;
    assert x / 0x100 == x / 0x100 % 0x100 + x / 0x1_0000 * 0x100;
    assert x / 0x1_0000 == x / 0x1_0000 % 0x100 + x / 0x100_0000 * 0x100;
  }

  /** A small number and one beyond the signed range, byte by byte. */
  lemma KnownWords()
    ensures LittleEndian(500) == [0xF4, 1, 0, 0] && Word(0xF4, 1, 0, 0) == 500
    ensures LittleEndian(0xFFFF_FFFE) == [0xFE, 0xFF, 0xFF, 0xFF] && Word(0xFE, 0xFF, 0xFF, 0xFF) == 0xFFFF_FFFE
  {
  }

  /** From any well-formed SID, with or without trailing bytes, the decoder returns the
      last sub-authority as an unsigned 32-bit number. */
  method DecodeEncoded(authority: seq<byte>, subs: seq<uint32>, trailing: seq<byte>) returns (rid: int)
    requires |authority| == 6 && 1 <= |subs| <= 255
    ensures rid == subs[|subs| - 1]
  {
    var n := |subs|;
    var raw := Encode(authority, subs) + trailing;
    assert raw[1] as int == n;
    var last := LittleEndian(subs[n - 1]);
    var at := 4 + n * 4;
    assert SubAuthorities(subs)[at - 8..] == last;
    assert raw[at] == last[0] && raw[at + 1] == last[1] && raw[at + 2] == last[2] && raw[at + 3] == last[3];
    WordOfBytes(subs[n - 1]);
    rid := DecodeRid(raw);
  }
}
