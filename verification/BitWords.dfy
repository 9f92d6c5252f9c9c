/** 32-bit words as the sequences of their bits, least significant first, for code that combines
    bit operations with arithmetic. */
module BitWords {
  type Word = w: seq<bool> | |w| == 32 witness Zeroes(32)

  function Zeroes(n: nat): (z: seq<bool>)
    ensures |z| == n && forall i :: 0 <= i < n ==> !z[i]
  {
    if n == 0 then [] else Zeroes(n - 1) + [false]
  }

  function Ones(n: nat): (z: seq<bool>)
    ensures |z| == n && forall i :: 0 <= i < n ==> z[i]
  {
    if n == 0 then [] else Ones(n - 1) + [true]
  }

  /** The n low bits of a number. */
  function Bits(v: nat, n: nat): (b: seq<bool>)
    ensures |b| == n
  {
    if n == 0 then [] else [v % 2 == 1] + Bits(v / 2, n - 1)
  }

  function Value(b: seq<bool>): (v: nat)
  {
    if b == [] then 0 else (if b[0] then 1 else 0) + 2 * Value(b[1..])
  }

  function WordOf(v: nat): (w: Word)
  {
    Bits(v, 32)
  }

  function Xor(a: Word, b: Word): (r: Word)
    ensures forall i :: 0 <= i < 32 ==> r[i] == (a[i] != b[i])
  {
    XorUpTo(a, b, 32)
  }

  function XorUpTo(a: Word, b: Word, n: nat): (r: seq<bool>)
    requires n <= 32
    ensures |r| == n && forall i :: 0 <= i < n ==> r[i] == (a[i] != b[i])
  {
    if n == 0 then [] else XorUpTo(a, b, n - 1) + [a[n - 1] != b[n - 1]]
  }

  function ShiftLeft(w: Word, k: nat): (r: Word)
    requires k <= 32
  {
    Zeroes(k) + w[..32 - k]
  }

  function ShiftRight(w: Word, k: nat): (r: Word)
    requires k <= 32
  {
    w[k..] + Zeroes(k)
  }

  function And(a: Word, b: Word): (r: Word)
    ensures forall i :: 0 <= i < 32 ==> r[i] == (a[i] && b[i])
  {
    AndUpTo(a, b, 32)
  }

  function AndUpTo(a: Word, b: Word, n: nat): (r: seq<bool>)
    requires n <= 32
    ensures |r| == n && forall i :: 0 <= i < n ==> r[i] == (a[i] && b[i])
  {
    if n == 0 then [] else AndUpTo(a, b, n - 1) + [a[n - 1] && b[n - 1]]
  }

  // ---------- Values ----------

  lemma {:induction false} ValueBound(bits: seq<bool>)
    ensures Value(bits) < Power(|bits|)
    decreases |bits|
  {
    if bits != [] {
      ValueBound(bits[1..]);
    }
  }

  function Power(n: nat): (p: nat)
  {
    if n == 0 then 1 else 2 * Power(n - 1)
  }

  lemma {:induction false} ZeroesFirst(n: nat)
    requires n > 0
    ensures [false] + Zeroes(n - 1) == Zeroes(n)
  {
  }

  lemma BitsStep(v: nat, n: nat)
    requires n > 0
    ensures Bits(v, n) == [v % 2 == 1] + Bits(v / 2, n - 1)
  {
  }

  lemma ValueStep(bits: seq<bool>)
    requires bits != []
    ensures Value(bits) % 2 == (if bits[0] then 1 else 0) && Value(bits) / 2 == Value(bits[1..])
  {
  }

  lemma {:induction false} BitsOfValue(bits: seq<bool>, n: nat)
    requires |bits| <= n
    ensures Bits(Value(bits), n) == bits + Zeroes(n - |bits|)
    decreases n
  {
    hide Bits, Zeroes;
    if n == 0 {
    } else if bits == [] {
      BitsOfValue([], n - 1);
      BitsStep(0, n);
      ZeroesFirst(n);
    } else {
      BitsOfValue(bits[1..], n - 1);
      BitsStep(Value(bits), n);
      ValueStep(bits);
      assert bits == [bits[0]] + bits[1..];
    }
  }

  lemma {:induction false} SmallBits(v: nat, k: nat, n: nat)
    requires k <= n && v < Power(k)
    ensures Bits(v, n)[..k] == Bits(v, k) && forall i :: k <= i < n ==> !Bits(v, n)[i]
    decreases n
  {
    if n == 0 {
    } else if k == 0 {
      SmallBits(0, 0, n - 1);
    } else {
      SmallBits(v / 2, k - 1, n - 1);
    }
  }

  lemma {:induction false} ValueOfBits(v: nat, n: nat)
    requires v < Power(n)
    ensures Value(Bits(v, n)) == v
    decreases n
  {
    if n > 0 {
      ValueOfBits(v / 2, n - 1);
    }
  }

  /** The low k bits are the remainder, the others the quotient. */
  lemma {:induction false} ValueSplit(b: seq<bool>, k: nat)
    requires k <= |b|
    ensures Value(b) == Value(b[..k]) + Power(k) * Value(b[k..]) && Value(b[..k]) < Power(k)
    decreases k
  {
    ValueBound(b[..k]);
    if k == 0 {
      assert b[..0] == [] && b[0..] == b;
    } else {
      ValueSplit(b[1..], k - 1);
      assert b[..k][1..] == b[1..][..k - 1] && b[1..][k - 1..] == b[k..];
      Reassociate(Power(k - 1), Value(b[k..]));
    }
  }

  lemma Reassociate(a: nat, b: nat)
    ensures 2 * (a * b) == (2 * a) * b
  {
  }

  lemma {:induction false} ValueInjective(a: seq<bool>, b: seq<bool>)
    requires |a| == |b| && Value(a) == Value(b)
    ensures a == b
    decreases |a|
  {
    if a != [] {
      ValueInjective(a[1..], b[1..]);
      assert a == [a[0]] + a[1..] && b == [b[0]] + b[1..];
    }
  }

  lemma {:induction false} ValueZero(b: seq<bool>)
    ensures Value(b) == 0 <==> forall i :: 0 <= i < |b| ==> !b[i]
    decreases |b|
  {
    if b != [] {
      ValueZero(b[1..]);
      if Value(b) == 0 {
        forall i | 0 <= i < |b|
          ensures !b[i]
        {
          if i > 0 {
            assert b[i] == b[1..][i - 1];
          }
        }
      }
    }
  }

  lemma Powers()
    ensures Power(8) == 0x100 && Power(16) == 0x1_0000 && Power(24) == 0x100_0000 && Power(32) == 0x1_0000_0000
  {
    assert Power(8) == 0x100;
    assert Power(16) == 0x1_0000;
    assert Power(24) == 0x100_0000;
  }

  lemma {:induction false} MaskBits(v: nat, k: nat, n: nat)
    requires k <= n && v == Power(k) - 1
    ensures forall i :: 0 <= i < n ==> (Bits(v, n)[i] <==> i < k)
    decreases n
  {
    if n > 0 {
      if k == 0 {
        MaskBits(0, 0, n - 1);
      } else {
        assert v / 2 == Power(k - 1) - 1 && v % 2 == 1;
        MaskBits(v / 2, k - 1, n - 1);
      }
    }
  }

  // ---------- What the bit operations do to values ----------

  lemma ValueOfWord(v: nat)
    requires v < 0x1_0000_0000
    ensures Value(WordOf(v)) == v
  {
    hide Bits, Value;
    Powers();
    ValueOfBits(v, 32);
  }

  /** The bits from k on are the quotient by 2^k. */
  lemma HighBits(w: Word, k: nat)
    requires k <= 32
    ensures Power(k) > 0 && Value(w[k..]) == Value(w) / Power(k) && Value(w[..k]) == Value(w) % Power(k)
  {
    hide Value, Power;
    ValueSplit(w, k);
    Division(Value(w[k..]), Power(k), Value(w[..k]));
  }

  lemma Division(q: nat, d: nat, r: nat)
    requires r < d
    ensures (r + d * q) / d == q && (r + d * q) % d == r
  {
    var x := (r + d * q) / d;
    Remains(r + d * q, d);
    if x < q {
      Times(d, x + 1, q);
    } else if q < x {
      Times(d, q + 1, x);
    }
  }

  lemma Remains(a: nat, d: nat)
    requires d > 0
    ensures d * (a / d) + a % d == a && a % d < d
  {
  }

  lemma Times(d: nat, a: nat, b: nat)
    requires a <= b
    ensures d * a <= d * b && d * a == d * (a - 1) + d
  {
  }

  /** An exclusive or is below 2^k exactly when the quotients by 2^k agree. */
  lemma XorBelow(a: Word, b: Word, k: nat)
    requires k <= 32
    ensures Power(k) > 0
    ensures Value(Xor(a, b)) >= Power(k) <==> Value(a) / Power(k) != Value(b) / Power(k)
  {
    hide Value, Power, Xor;
    var x := Xor(a, b);
    HighBits(a, k);
    HighBits(b, k);
    ValueSplit(x, k);
    ValueZero(x[k..]);
    if Value(x[k..]) > 0 {
      AtLeast(Value(x[k..]), Power(k));
    }
    assert Value(x) >= Power(k) <==> Value(x[k..]) != 0;
    if a[k..] == b[k..] {
      assert forall i :: 0 <= i < |x[k..]| ==> a[k..][i] == b[k..][i];
    } else if Value(a[k..]) == Value(b[k..]) {
      ValueInjective(a[k..], b[k..]);
    }
    if forall i :: 0 <= i < |x[k..]| ==> !x[k..][i] {
      assert forall i :: 0 <= i < |x[k..]| ==> x[k..][i] == (a[k..][i] != b[k..][i]);
      assert a[k..] == b[k..];
    }
  }

  lemma AtLeast(q: nat, d: nat)
    requires q > 0
    ensures d * q >= d
  {
  }

  /** Masking with 2^k - 1 is the remainder by 2^k. */
  lemma MaskIsRemainder(w: Word, k: nat, v: nat)
    requires k <= 32 && v == Power(k) - 1
    ensures Power(k) > 0 && Value(And(w, WordOf(v))) == Value(w) % Power(k)
  {
    hide Value, Power, And, Bits;
    MaskBits(v, k, 32);
    var r := And(w, WordOf(v));
    assert r[..k] == w[..k];
    HighBits(w, k);
    ValueSplit(r, k);
    ValueZero(r[k..]);
  }
}
