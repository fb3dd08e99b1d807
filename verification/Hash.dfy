/** The 32-bit hash of a lower-cased name that filters every lookup. */
module Hash {
  import opened Defines
  import opened CStrings

  datatype Mixer = Mixer(a: bv32, b: bv32, c: bv32)

  function Rot(x: bv32, k: nat): bv32
    requires 0 < k < 32
  {
    (x << k) | (x >> (32 - k))
  }

  /** One line of `mix`, with the roles of the three words passed on. */
  function Turn(m: Mixer, k: nat): Mixer
    requires 0 < k < 32
  {
    Mixer(m.b, m.c + m.b, (m.a - m.c) ^ Rot(m.c, k))
  }

  function Mix(m: Mixer): Mixer {
    Turn(Turn(Turn(Turn(Turn(Turn(m, 4), 6), 8), 16), 19), 4)
  }

  /** One line of `final`: c is changed by b, and the roles are passed on. */
  function Press(m: Mixer, k: nat): Mixer
    requires 0 < k < 32
  {
    Mixer(m.b, (m.c ^ m.b) - Rot(m.b, k), m.a)
  }

  function Final(m: Mixer): bv32 {
    Press(Press(Press(Press(Press(Press(Press(m, 14), 11), 25), 16), 4), 14), 24).b
  }

  /** Four bytes, the first one lowest; bytes behind the end count as zero. */
  function Word(k: seq<bv8>, at: nat): bv32 {
    Byte(k, at) + (Byte(k, at + 1) << 8) + (Byte(k, at + 2) << 16) + (Byte(k, at + 3) << 24)
  }

  function Byte(k: seq<bv8>, at: nat): bv32 {
    if at < |k| then k[at] as bv32 else 0
  }

  function Absorb(m: Mixer, k: seq<bv8>): Mixer {
    Mixer(m.a + Word(k, 0), m.b + Word(k, 4), m.c + Word(k, 8))
  }

  /** All blocks of twelve bytes, then the rest. */
  function Digest(m: Mixer, k: seq<bv8>): bv32
    decreases |k|
  {
    if |k| > 12 then Digest(Mix(Absorb(m, k)), k[12..])
    else if k == [] then m.c
    else Final(Absorb(m, k))
  }

  function Seed(length: nat, initval: bv32): bv32
    requires length < COMMAND_LEN
  {
    0xdeadbeef + length as bv32 + initval
  }

  method Jenkins(key: seq<bv8>, initval: bv32) returns (h: bv32)
    requires |key| < COMMAND_LEN
    ensures var s := Seed(|key|, initval); h == Digest(Mixer(s, s, s), key)
  {
    var s := Seed(|key|, initval);
    var m, k := Mixer(s, s, s), key;
    while |k| > 12
      invariant Digest(m, k) == Digest(Mixer(s, s, s), key)
    {
      m := Mix(Absorb(m, k));
      k := k[12..];
    }
    h := if k == [] then m.c else Final(Absorb(m, k));
  }

  function Bytes(s: string): (k: seq<bv8>)
    ensures |k| == |s|
  {
    seq(|s|, i requires 0 <= i < |s| => (s[i] as int % 256) as bv8)
  }

  function OfLower(low: string): bv32
    requires |low| < COMMAND_LEN
  {
    var s := Seed(|low|, 42);
    Digest(Mixer(s, s, s), Bytes(low))
  }

  /** `Hash` of a name. */
  function Of(name: string): bv32 {
    OfLower(Lower(Cut(name, COMMAND_LEN)))
  }

  /** `ngt_LowerStr` on its buffer. */
  method LowerInPlace(buffer: array<char>)
    modifies buffer
    ensures buffer[..] == Lower(old(buffer[..]))
  {
    var i := 0;
    while i < buffer.Length
      invariant 0 <= i <= buffer.Length
      invariant forall k :: 0 <= k < i ==> buffer[k] == LowerChar(old(buffer[k]))
      invariant forall k :: i <= k < buffer.Length ==> buffer[k] == old(buffer[k])
    {
      buffer[i] := LowerChar(buffer[i]);
      i := i + 1;
    }
  }

  /** `h` is the hash of `name`. The bound variable keeps the arithmetic out of
      proofs that only need to know that equal names have equal hashes. */
  ghost predicate IsHash(h: bv32, name: string) {
    forall n :: n == name ==> h == Of(n)
  }

  method Compute(name: string) returns (h: bv32)
    ensures IsHash(h, name)
  {
    var cut := Cut(name, COMMAND_LEN);
    var buffer := new char[|cut|](i requires 0 <= i < |cut| => cut[i]);
    assert buffer[..] == cut;
    LowerInPlace(buffer);
    h := Jenkins(Bytes(buffer[..]), 42);
    assert h == Of(name);
  }

  /** Names equal ignoring case have the same hash, also when they are longer
      than the buffer. */
  lemma SameHash(a: string, g: bv32, b: string, h: bv32)
    requires SameNoCase(a, b) && IsHash(g, a) && IsHash(h, b)
    ensures g == h
  {
    SameOf(a, b);
  }

  lemma SameOf(a: string, b: string)
    requires SameNoCase(a, b)
    ensures Of(a) == Of(b)
  {
    LowerCut(a, b, COMMAND_LEN);
  }

  /** The empty name does not hash to the zero of a fresh structure. */
  lemma EmptyHash(h: bv32)
    requires IsHash(h, "")
    ensures h == 0xdeadbf19 && h != 0
  {
    assert Lower(Cut("", COMMAND_LEN)) == "";
    assert Bytes("") == [];
    assert Of("") == Seed(0, 42);
  }

  // ------------------------------------------------------- a known value

  /** "Four score and seven years ago" */
  const SAMPLE: seq<bv8> :=
    [70, 111, 117, 114, 32, 115, 99, 111, 114, 101, 32, 97]
    + [110, 100, 32, 115, 101, 118, 101, 110, 32, 121, 101, 97]
    + [114, 115, 32, 97, 103, 111]

  lemma FirstTurns()
    ensures Turn(Mixer(0x51232e53, 0x4e11322d, 0x3fce247f), 4) == Mixer(0x4e11322d, 0x8ddf56ac, 0xedb74e27)
    ensures Turn(Mixer(0x4e11322d, 0x8ddf56ac, 0xedb74e27), 6) == Mixer(0x8ddf56ac, 0x7b96a4d3, 0x0d8a6dfd)
    ensures Turn(Mixer(0x8ddf56ac, 0x7b96a4d3, 0x0d8a6dfd), 8) == Mixer(0x7b96a4d3, 0x892112d0, 0x0a3915a2)
    ensures Turn(Mixer(0x7b96a4d3, 0x892112d0, 0x0a3915a2), 16) == Mixer(0x892112d0, 0x935a2872, 0x64ff8508)
    ensures Turn(Mixer(0x892112d0, 0x935a2872, 0x64ff8508), 19) == Mixer(0x935a2872, 0xf859ad7a, 0x0c62aa34)
    ensures Turn(Mixer(0x935a2872, 0xf859ad7a, 0x0c62aa34), 4) == Mixer(0xf859ad7a, 0x04bc57ae, 0x40dddd7e)
  {}

  lemma SecondTurns()
    ensures Turn(Mixer(0x6b7a11e8, 0x7321ce13, 0xa243569e), 4) == Mixer(0x7321ce13, 0x156524b1, 0xed03d2a0)
    ensures Turn(Mixer(0x7321ce13, 0x156524b1, 0xed03d2a0), 6) == Mixer(0x156524b1, 0x0268f751, 0xc6e95348)
    ensures Turn(Mixer(0x156524b1, 0x0268f751, 0xc6e95348), 8) == Mixer(0x0268f751, 0xc9524a99, 0xa72899af)
    ensures Turn(Mixer(0x0268f751, 0xc9524a99, 0xa72899af), 16) == Mixer(0xc9524a99, 0x707ae448, 0xc2effa8a)
    ensures Turn(Mixer(0xc9524a99, 0x707ae448, 0xc2effa8a), 19) == Mixer(0x707ae448, 0x336aded2, 0xd2344770)
    ensures Turn(Mixer(0x707ae448, 0x336aded2, 0xd2344770), 4) == Mixer(0x336aded2, 0x059f2642, 0xbd02ebd5)
  {}

  lemma Presses()
    ensures Press(Mixer(0x948b5244, 0x059f95a9, 0xbd02ebd5), 14) == Mixer(0x059f95a9, 0xd3333d15, 0x948b5244)
    ensures Press(Mixer(0x059f95a9, 0xd3333d15, 0x948b5244), 11) == Mixer(0xd3333d15, 0xadcfc0b8, 0x059f95a9)
    ensures Press(Mixer(0xd3333d15, 0xadcfc0b8, 0x059f95a9), 25) == Mixer(0xadcfc0b8, 0x36f4b590, 0xd3333d15)
    ensures Press(Mixer(0xadcfc0b8, 0x36f4b590, 0xd3333d15), 16) == Mixer(0x36f4b590, 0x30375191, 0xadcfc0b8)
    ensures Press(Mixer(0x36f4b590, 0x30375191, 0xadcfc0b8), 4) == Mixer(0x30375191, 0x9a837816, 0x36f4b590)
    ensures Press(Mixer(0x30375191, 0x9a837816, 0x36f4b590), 14) == Mixer(0x9a837816, 0xce7226e6, 0x30375191)
    ensures Press(Mixer(0x9a837816, 0xce7226e6, 0x30375191), 24) == Mixer(0xce7226e6, 0x17770551, 0x9a837816)
  {}

  lemma FirstMix()
    ensures Mix(Mixer(0x51232e53, 0x4e11322d, 0x3fce247f)) == Mixer(0xf859ad7a, 0x04bc57ae, 0x40dddd7e)
  {
    FirstTurns();
  }

  lemma SecondMix()
    ensures Mix(Mixer(0x6b7a11e8, 0x7321ce13, 0xa243569e)) == Mixer(0x336aded2, 0x059f2642, 0xbd02ebd5)
  {
    SecondTurns();
  }

  lemma LastPress()
    ensures Final(Mixer(0x948b5244, 0x059f95a9, 0xbd02ebd5)) == 0x17770551
  {
    Presses();
  }

  lemma WordOf(k: seq<bv8>, at: nat, w: bv32)
    requires at + 4 <= |k|
    requires w == k[at] as bv32 + (k[at + 1] as bv32 << 8) + (k[at + 2] as bv32 << 16) + (k[at + 3] as bv32 << 24)
    ensures Word(k, at) == w
  {}

  lemma Blocks()
    ensures Absorb(Mixer(0xdeadbf0d, 0xdeadbf0d, 0xdeadbf0d), SAMPLE) == Mixer(0x51232e53, 0x4e11322d, 0x3fce247f)
    ensures Absorb(Mixer(0xf859ad7a, 0x04bc57ae, 0x40dddd7e), SAMPLE[12..]) == Mixer(0x6b7a11e8, 0x7321ce13, 0xa243569e)
    ensures Absorb(Mixer(0x336aded2, 0x059f2642, 0xbd02ebd5), SAMPLE[24..]) == Mixer(0x948b5244, 0x059f95a9, 0xbd02ebd5)
  {
    var s, t, u := SAMPLE, SAMPLE[12..], SAMPLE[24..];
    WordOf(s, 0, 0x72756f46);
    WordOf(s, 4, 0x6f637320);
    WordOf(s, 8, 0x61206572);
    WordOf(t, 0, 0x7320646e);
    WordOf(t, 4, 0x6e657665);
    WordOf(t, 8, 0x61657920);
    WordOf(u, 0, 0x61207372);
  }

  lemma Rest()
    ensures Digest(Mixer(0x336aded2, 0x059f2642, 0xbd02ebd5), SAMPLE[24..]) == 0x17770551
  {
    LastPress();
    Blocks();
  }

  lemma Middle()
    ensures Digest(Mixer(0xf859ad7a, 0x04bc57ae, 0x40dddd7e), SAMPLE[12..]) == 0x17770551
  {
    SecondMix();
    Blocks();
    Rest();
    assert SAMPLE[12..][12..] == SAMPLE[24..];
  }

  /** The value published with the hash function for this text. */
  lemma KnownDigest()
    ensures var s := Seed(30, 0); |SAMPLE| == 30 && Digest(Mixer(s, s, s), SAMPLE) == 0x17770551
  {
    FirstMix();
    Blocks();
    Middle();
    assert Seed(30, 0) == 0xdeadbf0d;
  }
}
