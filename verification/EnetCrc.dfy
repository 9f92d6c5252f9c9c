/** The table-driven checksum of toxtun/packet.c and the bit-serial CRC-32 of section 8 of
    RFC 1952. */
module EnetCrc {
  import opened BitWords
  import opened Words

  const POLYNOMIAL := 0x04C1_1DB7
  const REFLECTED := 0xEDB8_8320

  // ---------- The reference: bit by bit, least significant first ----------

  function Step(c: Word): (r: Word)
  {
    if c[0] then Xor(ShiftRight(c, 1), WordOf(REFLECTED)) else ShiftRight(c, 1)
  }

  function Steps(c: Word, n: nat): (r: Word)
  {
    if n == 0 then c else Step(Steps(c, n - 1))
  }

  /** One more byte of the message. */
  function Feed(c: Word, b: u8): (r: Word)
  {
    Steps(Xor(c, WordOf(b)), 8)
  }

  function Running(c: Word, data: seq<u8>): (r: Word)
  {
    if data == [] then c else Feed(Running(c, data[..|data| - 1]), data[|data| - 1])
  }

  function Crc32(data: seq<u8>): (r: Word)
  {
    Xor(Running(Ones(32), data), Ones(32))
  }

  lemma {:induction false} RunningParts(c: Word, a: seq<u8>, b: seq<u8>)
    ensures Running(c, a + b) == Running(Running(c, a), b)
    decreases |b|
  {
    hide Feed;
    if b == [] {
      assert a + b == a;
    } else {
      assert (a + b)[..|a + b| - 1] == a + b[..|b| - 1];
      RunningParts(c, a, b[..|b| - 1]);
    }
  }

  // ---------- The table: most significant bit first, then reflected ----------

  function Reversed(s: seq<bool>): (r: seq<bool>)
    ensures |r| == |s| && forall i :: 0 <= i < |s| ==> r[i] == s[|s| - 1 - i]
  {
    if s == [] then [] else Reversed(s[1..]) + [s[0]]
  }

  function Mirror(w: Word): (r: Word)
    ensures forall i :: 0 <= i < 32 ==> r[i] == w[31 - i]
  {
    Reversed(w)
  }

  /** What reflect_crc computes: the low bits in opposite order, the others clear. */
  ghost predicate ReflectionOf(r: Word, w: Word, bits: nat)
    requires bits <= 32
  {
    && (forall i :: 0 <= i < bits ==> r[i] == w[bits - 1 - i])
    && (forall i :: bits <= i < 32 ==> !r[i])
  }

  method ReflectCrc(w: Word, bits: nat) returns (r: Word)
    requires bits <= 32
    ensures ReflectionOf(r, w, bits)
  {
    r := Zeroes(32);
    var val := w;
    var bit := 0;
    while bit < bits
      invariant 0 <= bit <= bits
      invariant forall i :: 0 <= i < 32 - bit ==> val[i] == w[i + bit]
      invariant forall i :: bits - bit <= i < bits ==> r[i] == w[bits - 1 - i]
      invariant forall i :: 0 <= i < 32 && !(bits - bit <= i < bits) ==> !r[i]
    {
      if val[0] {
        r := r[bits - 1 - bit := true];
      }
      val := ShiftRight(val, 1);
      bit := bit + 1;
    }
  }

  function MsbStep(c: Word): (r: Word)
  {
    if c[31] then Xor(ShiftLeft(c, 1), WordOf(POLYNOMIAL)) else ShiftLeft(c, 1)
  }

  function MsbSteps(c: Word, n: nat): (r: Word)
  {
    if n == 0 then c else MsbStep(MsbSteps(c, n - 1))
  }

  lemma ReversedParts(a: seq<bool>, b: seq<bool>)
    ensures Reversed(a + b) == Reversed(b) + Reversed(a)
  {
  }

  /** A number's bits, a hexadecimal digit at a time. */
  lemma BitsDigit(v: nat, n: nat)
    requires n >= 4
    ensures Bits(v, n) == Bits(v % 16, 4) + Bits(v / 16, n - 4)
  {
    BitsOne(v, n);
    BitsOne(v / 2, n - 1);
    BitsOne(v / 2 / 2, n - 2);
    BitsOne(v / 2 / 2 / 2, n - 3);
    BitsFour(v % 16);
    DigitBits(v);
  }

  lemma DigitBits(v: nat)
    ensures v % 16 % 2 == v % 2 && v % 16 / 2 % 2 == v / 2 % 2 && v % 16 / 2 / 2 % 2 == v / 2 / 2 % 2
    ensures v % 16 / 2 / 2 / 2 % 2 == v / 2 / 2 / 2 % 2 && v / 2 / 2 / 2 / 2 == v / 16
  {
    var q, d := v / 16, v % 16;
    HalfOfSum(8 * q, d);
    HalfOfSum(4 * q, d / 2);
    HalfOfSum(2 * q, d / 2 / 2);
    HalfOfSum(q, d / 2 / 2 / 2);
  }

  lemma HalfOfSum(a: nat, d: nat)
    ensures (2 * a + d) / 2 == a + d / 2 && (2 * a + d) % 2 == d % 2
  {
  }

  lemma BitsOne(v: nat, n: nat)
    requires n > 0
    ensures Bits(v, n) == [v % 2 == 1] + Bits(v / 2, n - 1)
  {
  }

  lemma BitsFour(v: nat)
    ensures Bits(v, 4) == [v % 2 == 1, v / 2 % 2 == 1, v / 2 / 2 % 2 == 1, v / 2 / 2 / 2 % 2 == 1]
  {
    BitsOne(v, 4);
    BitsOne(v / 2, 3);
    BitsOne(v / 2 / 2, 2);
    BitsOne(v / 2 / 2 / 2, 1);
  }

  lemma ReversedDigit(v: nat, w: nat)
    requires [v % 2 == 1, v / 2 % 2 == 1, v / 2 / 2 % 2 == 1, v / 2 / 2 / 2 % 2 == 1]
          == [w / 2 / 2 / 2 % 2 == 1, w / 2 / 2 % 2 == 1, w / 2 % 2 == 1, w % 2 == 1]
    ensures Reversed(Bits(v, 4)) == Bits(w, 4)
  {
    hide Bits, Reversed;
    BitsFour(v);
    BitsFour(w);
    ReversedFour(v % 2 == 1, v / 2 % 2 == 1, v / 2 / 2 % 2 == 1, v / 2 / 2 / 2 % 2 == 1);
    ReversedFour(w % 2 == 1, w / 2 % 2 == 1, w / 2 / 2 % 2 == 1, w / 2 / 2 / 2 % 2 == 1);
    SameFour(v % 2 == 1, v / 2 % 2 == 1, v / 2 / 2 % 2 == 1, v / 2 / 2 / 2 % 2 == 1,
             w / 2 / 2 / 2 % 2 == 1, w / 2 / 2 % 2 == 1, w / 2 % 2 == 1, w % 2 == 1);
  }

  lemma ReversedFour(a: bool, b: bool, c: bool, d: bool)
    ensures Reversed([a, b, c, d]) == [d, c, b, a]
  {
  }

  lemma SameFour(a: bool, b: bool, c: bool, d: bool, e: bool, f: bool, g: bool, h: bool)
    requires [a, b, c, d] == [e, f, g, h]
    ensures a == e && b == f && c == g && d == h
  {
    var l, m := [a, b, c, d], [e, f, g, h];
    assert l[0] == m[0] && l[1] == m[1] && l[2] == m[2] && l[3] == m[3];
  }

  /** The digits of the polynomials, from the low end. */
  lemma PolynomialDigits()
    ensures Bits(POLYNOMIAL, 32) == Bits(0x7, 4) + (Bits(0xB, 4) + (Bits(0xD, 4) + (Bits(0x1, 4)
                                    + (Bits(0x1, 4) + (Bits(0xC, 4) + (Bits(0x4, 4) + Bits(0x0, 4)))))))
    ensures Bits(REFLECTED, 32) == ((((((Bits(0x0, 4) + Bits(0x2, 4)) + Bits(0x3, 4)) + Bits(0x8, 4))
                                    + Bits(0x8, 4)) + Bits(0xB, 4)) + Bits(0xD, 4)) + Bits(0xE, 4)
  {
    hide Bits;
    BitsDigit(0x04C1_1DB7, 32);
    BitsDigit(0x4C1_1DB, 28);
    BitsDigit(0x4C_11D, 24);
    BitsDigit(0x4_C11, 20);
    BitsDigit(0x4C1, 16);
    BitsDigit(0x4C, 12);
    BitsDigit(0x4, 8);
    BitsDigit(0xEDB8_8320, 32);
    BitsDigit(0xEDB_8832, 28);
    BitsDigit(0xED_B883, 24);
    BitsDigit(0xE_DB88, 20);
    BitsDigit(0xEDB8, 16);
    BitsDigit(0xEDB, 12);
    BitsDigit(0xED, 8);
    assert Bits(REFLECTED, 32) == Bits(0x0, 4) + (Bits(0x2, 4) + (Bits(0x3, 4) + (Bits(0x8, 4)
                                    + (Bits(0x8, 4) + (Bits(0xB, 4) + (Bits(0xD, 4) + Bits(0xE, 4)))))));
  }

  lemma PolynomialsMirror()
    ensures Mirror(WordOf(POLYNOMIAL)) == WordOf(REFLECTED)
  {
    hide Bits, Reversed;
    PolynomialDigits();
    var d0, d1, d2, d3, d4, d5, d6, d7 := Bits(0x7, 4), Bits(0xB, 4), Bits(0xD, 4), Bits(0x1, 4), Bits(0x1, 4),
      Bits(0xC, 4), Bits(0x4, 4), Bits(0x0, 4);
    ReversedParts(d0, d1 + (d2 + (d3 + (d4 + (d5 + (d6 + d7))))));
    ReversedParts(d1, d2 + (d3 + (d4 + (d5 + (d6 + d7)))));
    ReversedParts(d2, d3 + (d4 + (d5 + (d6 + d7))));
    ReversedParts(d3, d4 + (d5 + (d6 + d7)));
    ReversedParts(d4, d5 + (d6 + d7));
    ReversedParts(d5, d6 + d7);
    ReversedParts(d6, d7);
    ReversedDigit(0x7, 0xE);
    ReversedDigit(0xB, 0xD);
    ReversedDigit(0xD, 0xB);
    ReversedDigit(0x1, 0x8);
    ReversedDigit(0xC, 0x3);
    ReversedDigit(0x4, 0x2);
    ReversedDigit(0x0, 0x0);
    assert Reversed(WordOf(POLYNOMIAL)) == WordOf(REFLECTED);
  }

  /** The step that shifts to the left is the mirror of the one that shifts to the right. */
  lemma MirrorStep(c: Word)
    ensures Mirror(MsbStep(c)) == Step(Mirror(c))
  {
    hide WordOf, Mirror, Xor, ShiftLeft, ShiftRight;
    PolynomialsMirror();
    MirrorShift(c);
    if c[31] {
      MirrorXor(ShiftLeft(c, 1), WordOf(POLYNOMIAL));
    }
  }

  lemma MirrorShift(c: Word)
    ensures Mirror(ShiftLeft(c, 1)) == ShiftRight(Mirror(c), 1)
  {
  }

  lemma MirrorXor(a: Word, b: Word)
    ensures Mirror(Xor(a, b)) == Xor(Mirror(a), Mirror(b))
  {
  }

  lemma {:induction false} MirrorSteps(c: Word, n: nat)
    ensures Mirror(MsbSteps(c, n)) == Steps(Mirror(c), n)
    decreases n
  {
    hide Mirror, MsbStep, Step;
    if n > 0 {
      MirrorSteps(c, n - 1);
      MirrorStep(MsbSteps(c, n - 1));
    }
  }

  // ---------- A byte at a time ----------

  lemma StepXor(a: Word, b: Word)
    ensures Step(Xor(a, b)) == Xor(Step(a), Step(b))
  {
    hide WordOf;
  }

  lemma {:induction false} StepsXor(a: Word, b: Word, n: nat)
    ensures Steps(Xor(a, b), n) == Xor(Steps(a, n), Steps(b, n))
    decreases n
  {
    hide Step, Xor;
    if n > 0 {
      StepsXor(a, b, n - 1);
      StepXor(Steps(a, n - 1), Steps(b, n - 1));
    }
  }

  /** With the low n bits clear, n steps only shift. */
  lemma {:induction false} StepsShift(c: Word, n: nat)
    requires n <= 32 && forall i :: 0 <= i < n ==> !c[i]
    ensures Steps(c, n) == ShiftRight(c, n)
    decreases n
  {
    hide Step, ShiftRight;
    if n > 0 {
      StepsShift(c, n - 1);
      ShiftMore(c, n - 1);
      StepClear(Steps(c, n - 1));
    } else {
      ShiftNone(c);
    }
  }

  lemma StepClear(c: Word)
    requires !c[0]
    ensures Step(c) == ShiftRight(c, 1)
  {
  }

  lemma ShiftMore(c: Word, n: nat)
    requires n < 32
    ensures ShiftRight(ShiftRight(c, n), 1) == ShiftRight(c, n + 1) && ShiftRight(c, n)[0] == c[n]
  {
  }

  lemma ShiftNone(c: Word)
    ensures ShiftRight(c, 0) == c
  {
  }

  /** The low byte of a word, and the rest. */
  function Low(c: Word): (r: Word)
  {
    c[..8] + Zeroes(24)
  }

  function High(c: Word): (r: Word)
  {
    Zeroes(8) + c[8..]
  }

  lemma SplitWord(c: Word)
    ensures Xor(High(c), Low(c)) == c && ShiftRight(High(c), 8) == ShiftRight(c, 8)
  {
  }

  lemma StepsSplit(c: Word)
    ensures Steps(c, 8) == Xor(ShiftRight(c, 8), Steps(Low(c), 8))
  {
    hide Steps, Xor, ShiftRight;
    SplitWord(c);
    StepsXor(High(c), Low(c), 8);
    HighShifts(c);
  }

  lemma HighShifts(c: Word)
    ensures Steps(High(c), 8) == ShiftRight(c, 8)
  {
    hide Steps, Xor;
    SplitWord(c);
    StepsShift(High(c), 8);
  }

  /** The table holds, for each byte, what eight steps make of it. */
  ghost predicate TableOk(table: seq<Word>)
  {
    |table| == 256 && forall b: u8 :: table[b] == Steps(WordOf(b), 8)
  }

  /** The index (crc & 0xFF) ^ byte. */
  function Index(c: Word, b: u8): (i: nat)
  {
    Value(Xor(c, WordOf(b))[..8])
  }

  /** The word of the index is the low byte of what the table stands in for. */
  lemma IndexIsLow(c: Word, b: u8)
    ensures Index(c, b) < 256 && WordOf(Index(c, b)) == Low(Xor(c, WordOf(b)))
  {
    hide Xor, Value, Bits;
    var low := Xor(c, WordOf(b))[..8];
    ValueBound(low);
    assert Power(8) == 256;
    BitsOfValue(low, 32);
  }

  lemma HighUnchanged(c: Word, b: u8)
    ensures ShiftRight(Xor(c, WordOf(b)), 8) == ShiftRight(c, 8)
  {
    assert Power(8) == 256;
    SmallBits(b, 8, 32);
  }

  /** The update of the loop of enet_crc32 takes in one byte. */
  lemma TableFeeds(table: seq<Word>, c: Word, b: u8)
    requires TableOk(table)
    ensures Index(c, b) < 256 && Xor(ShiftRight(c, 8), table[Index(c, b)]) == Feed(c, b)
  {
    hide Xor, ShiftRight, Steps, WordOf, Index, Low;
    var x := Xor(c, WordOf(b));
    IndexIsLow(c, b);
    var i: u8 := Index(c, b);
    assert table[i] == Steps(WordOf(i), 8);
    HighUnchanged(c, b);
    StepsSplit(x);
  }

  /** What initialize_crc32 stores for a byte: reflected in, stepped from the other end,
      reflected out. */
  lemma EntryIsSteps(b: u8, start: Word, entry: Word)
    requires ReflectionOf(start, WordOf(b), 8)
    requires entry == Mirror(MsbSteps(ShiftLeft(start, 24), 8))
    ensures entry == Steps(WordOf(b), 8)
  {
    hide Steps, MsbSteps, Mirror;
    assert Power(8) == 256;
    SmallBits(b, 8, 32);
    MirrorSteps(ShiftLeft(start, 24), 8);
    assert Mirror(ShiftLeft(start, 24)) == WordOf(b);
  }

  // ---------- The module's state ----------

  class Crc {
    var initialized: bool
    var table: array<Word>

    ghost predicate Valid()
      reads this, table
    {
      table.Length == 256 && (initialized ==> TableOk(table[..]))
    }

    constructor ()
      ensures Valid() && fresh(table)
    {
      initialized := false;
      table := new Word[256];
    }

    method InitializeCrc32()
      requires Valid()
      modifies this`initialized, table
      ensures Valid() && initialized
    {
      hide Steps, MsbSteps, Mirror, WordOf, ShiftLeft;
      var byte := 0;
      while byte < 256
        invariant 0 <= byte <= 256 && table.Length == 256
        invariant forall b: u8 :: b < byte ==> table[b] == Steps(WordOf(b), 8)
      {
        var start := ReflectCrc(WordOf(byte), 8);
        var crc := ShiftLeft(start, 24);
        MsbStepsNone(crc);
        for offset := 0 to 8
          invariant table.Length == 256 && crc == MsbSteps(ShiftLeft(start, 24), offset)
          invariant forall b: u8 :: b < byte ==> table[b] == Steps(WordOf(b), 8)
        {
          MsbStepsNext(ShiftLeft(start, 24), offset);
          if crc[31] {
            crc := Xor(ShiftLeft(crc, 1), WordOf(POLYNOMIAL));
          } else {
            crc := ShiftLeft(crc, 1);
          }
        }
        var entry := ReflectCrc(crc, 32);
        WholeReflection(entry, crc);
        EntryIsSteps(byte, start, entry);
        table[byte] := entry;
        byte := byte + 1;
      }
      initialized := true;
    }

    /** enet_crc32 before its byte-order conversion: the CRC-32 of the buffers put together,
        however the message is split into buffers. */
    method EnetCrc32(buffers: seq<seq<u8>>) returns (crc: Word)
      requires Valid()
      modifies this`initialized, table
      ensures Valid() && initialized
      ensures crc == Crc32(Flattened(buffers))
    {
      hide Feed, Xor, Running, TableOk, Index, ShiftRight, Ones;
      crc := Ones(32);
      if !initialized {
        InitializeCrc32();
      }
      RunningNone(crc);
      for k := 0 to |buffers|
        invariant Valid() && initialized
        invariant crc == Running(Ones(32), Flattened(buffers[..k]))
      {
        ghost var start := crc;
        var data := buffers[k];
        RunningNone(crc);
        assert data[..0] == [];
        for i := 0 to |data|
          invariant Valid() && initialized
          invariant crc == Running(start, data[..i])
        {
          TableFeeds(table[..], crc, data[i]);
          RunningNext(start, data, i);
          crc := Xor(ShiftRight(crc, 8), table[Index(crc, data[i])]);
        }
        assert data[..|data|] == data;
        RunningParts(Ones(32), Flattened(buffers[..k]), data);
        assert buffers[..k + 1][..k] == buffers[..k];
      }
      assert buffers[..|buffers|] == buffers;
      crc := Xor(crc, Ones(32));
    }
  }

  function Flattened(buffers: seq<seq<u8>>): (data: seq<u8>)
  {
    if buffers == [] then [] else Flattened(buffers[..|buffers| - 1]) + buffers[|buffers| - 1]
  }

  lemma RunningNone(c: Word)
    ensures Running(c, []) == c
  {
  }

  lemma RunningNext(c: Word, data: seq<u8>, i: nat)
    requires i < |data|
    ensures Running(c, data[..i + 1]) == Feed(Running(c, data[..i]), data[i])
  {
    assert data[..i + 1][..i] == data[..i];
  }

  lemma MsbStepsNone(c: Word)
    ensures MsbSteps(c, 0) == c
  {
  }

  lemma MsbStepsNext(c: Word, n: nat)
    ensures MsbSteps(c, n + 1) == MsbStep(MsbSteps(c, n))
  {
  }

  lemma WholeReflection(r: Word, c: Word)
    requires ReflectionOf(r, c, 32)
    ensures r == Mirror(c)
  {
  }
}
