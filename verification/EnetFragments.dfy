/** How enet_peer_send turns the packets of a channel into numbered commands (toxtun/peer.c),
    and how a bitmap and a buffer turn fragments back into the packet. */
module EnetFragments {
  import opened Words
  import opened EnetWindows
  import opened EnetReceive

  // ---------- Numbers ----------

  /** Commands a packet takes: one, or as many fragments as it fills. */
  function Count(size: nat, p: seq<u8>): (n: nat)
    requires size > 0
  {
    if |p| <= size then 1 else (|p| + size - 1) / size
  }

  function Total(size: nat, packets: seq<seq<u8>>): (n: nat)
    requires size > 0
  {
    if packets == [] then 0 else Total(size, packets[..|packets| - 1]) + Count(size, packets[|packets| - 1])
  }

  /** The number of the first command of packet j; the first command of a channel is number 1. */
  function First(size: nat, packets: seq<seq<u8>>, j: nat): (n: nat)
    requires size > 0 && j <= |packets|
  {
    Total(size, packets[..j]) + 1
  }

  lemma Quotient(a: nat, b: nat)
    requires b > 0
    ensures (a / b) * b <= a < (a / b) * b + b
  {
  }

  lemma MulMono(a: nat, b: nat, m: nat)
    requires a <= b
    ensures a * m <= b * m
  {
  }

  lemma MulLess(a: nat, b: nat, m: nat)
    requires a * m < b * m
    ensures a < b
  {
  }

  lemma MulNext(a: nat, m: nat)
    ensures (a + 1) * m == a * m + m
  {
  }

  /** Fragment i of a fragmented packet: it starts within the packet; the last one ends it. */
  lemma CountCovers(size: nat, p: seq<u8>)
    requires size > 0
    ensures Count(size, p) >= 1
    ensures |p| > size ==> Count(size, p) >= 2 && (Count(size, p) - 1) * size < |p| <= Count(size, p) * size
  {
    if |p| > size {
      var n := Count(size, p);
      Quotient(|p| + size - 1, size);
      MulLess(1, n, size);
      MulNext(n - 1, size);
    }
  }

  lemma TotalNext(size: nat, packets: seq<seq<u8>>, j: nat)
    requires size > 0 && j < |packets|
    ensures Total(size, packets[..j + 1]) == Total(size, packets[..j]) + Count(size, packets[j])
  {
    assert packets[..j + 1][..j] == packets[..j];
  }

  lemma {:induction false} FirstMonotone(size: nat, packets: seq<seq<u8>>, i: nat, j: nat)
    requires size > 0 && i < j <= |packets|
    ensures First(size, packets, i) + Count(size, packets[i]) <= First(size, packets, j)
    decreases j
  {
    hide Count;
    TotalNext(size, packets, j - 1);
    CountCovers(size, packets[j - 1]);
    if i < j - 1 {
      FirstMonotone(size, packets, i, j - 1);
    }
  }

  // ---------- Commands ----------

  function Low(size: nat, i: nat): (o: nat)
  {
    i * size
  }

  function High(size: nat, length: nat, i: nat): (o: nat)
  {
    if (i + 1) * size <= length then (i + 1) * size else length
  }

  lemma Bounds(size: nat, p: seq<u8>, i: nat)
    requires size > 0 && |p| > size && i < Count(size, p)
    ensures Low(size, i) < High(size, |p|, i) <= |p| && High(size, |p|, i) - Low(size, i) <= size
    ensures i + 1 < Count(size, p) ==> High(size, |p|, i) == Low(size, i + 1)
    ensures i + 1 == Count(size, p) ==> High(size, |p|, i) == |p|
    ensures Low(size, 0) == 0
  {
    hide Count;
    CountCovers(size, p);
    MulNext(i, size);
    MulMono(i, Count(size, p) - 1, size);
    if i + 1 < Count(size, p) {
      MulMono(i + 1, Count(size, p) - 1, size);
    }
  }

  lemma Apart(size: nat, length: nat, i: nat, k: nat)
    requires size > 0 && i < k
    ensures High(size, length, i) <= Low(size, k) || length <= Low(size, k)
    ensures High(size, length, i) <= length
    ensures High(size, length, i) <= Low(size, k)
  {
    MulMono(i + 1, k, size);
  }

  /** What travels for command i of packet j. */
  function Sent(size: nat, packets: seq<seq<u8>>, j: nat, i: nat): (w: Command)
    requires size > 0 && j < |packets| && i < Count(size, packets[j])
  {
    var p, first := packets[j], First(size, packets, j);
    if |p| <= size then Whole(Seq(first), p)
    else
      Bounds(size, p, i);
      Fragment(Seq(first + i), Seq(first), Count(size, p), i, Low(size, i), |p|, p[Low(size, i)..High(size, |p|, i)])
  }

  /** The fragmenting loop of enet_peer_send. */
  method SendFragments(size: nat, packets: seq<seq<u8>>, p: seq<u8>) returns (commands: seq<Command>)
    requires size > 0 && |p| > size
    ensures |commands| == Count(size, p)
    ensures forall i :: 0 <= i < |commands| ==> commands[i] == Sent(size, packets + [p], |packets|, i)
  {
    hide Count;
    var fragmentLength := size;
    var fragmentCount := (|p| + size - 1) / size;
    ghost var count := Count(size, p);
    CountIs(size, p);
    CountCovers(size, p);
    var start := Total(size, packets) + 1;
    assert (packets + [p])[..|packets|] == packets;
    commands := [];
    var number: nat, offset: nat := 0, 0;
    while offset < |p|
      invariant number == |commands| <= count && fragmentCount == count
      invariant number < count ==> offset == Low(size, number) && fragmentLength == size
      invariant number == count ==> offset == |p|
      invariant forall i :: 0 <= i < number ==> commands[i] == Sent(size, packets + [p], |packets|, i)
      decreases count - number
    {
      Bounds(size, p, number);
      if |p| - offset < fragmentLength {
        fragmentLength := |p| - offset;
      }
      PieceEnds(size, p, number, fragmentLength);
      commands := commands + [Fragment(Seq(start + number), Seq(start), fragmentCount, number, offset, |p|,
        p[offset..offset + fragmentLength])];
      number := number + 1;
      offset := offset + fragmentLength;
    }
    BoundsLast(size, p, number, offset);
  }

  lemma CountIs(size: nat, p: seq<u8>)
    requires size > 0 && |p| > size
    ensures Count(size, p) == (|p| + size - 1) / size
  {
  }

  lemma PieceEnds(size: nat, p: seq<u8>, i: nat, length: nat)
    requires size > 0 && |p| > size && i < Count(size, p) && Low(size, i) <= |p|
    requires length == if |p| - Low(size, i) < size then |p| - Low(size, i) else size
    ensures Low(size, i) + length == High(size, |p|, i)
  {
    MulNext(i, size);
  }

  lemma BoundsLast(size: nat, p: seq<u8>, i: nat, offset: nat)
    requires size > 0 && |p| > size && i <= Count(size, p) && offset >= |p|
    requires i < Count(size, p) ==> offset == Low(size, i)
    ensures i == Count(size, p)
  {
    if i < Count(size, p) {
      Bounds(size, p, i);
    }
  }

  // ---------- Reassembly ----------

  function Clear(bits: seq<bool>): (n: nat)
  {
    if bits == [] then 0 else Clear(bits[..|bits| - 1]) + if bits[|bits| - 1] then 0 else 1
  }

  lemma {:induction false} NoneSet(n: nat)
    ensures Clear(NoBits(n)) == n
  {
    if n > 0 {
      NoneSet(n - 1);
      assert NoBits(n)[..n - 1] == NoBits(n - 1);
    }
  }

  lemma {:induction false} SetOne(bits: seq<bool>, i: nat)
    requires i < |bits| && !bits[i]
    ensures Clear(bits[i := true]) == Clear(bits) - 1
    decreases |bits|
  {
    var last := |bits| - 1;
    if i < last {
      assert bits[i := true][..last] == bits[..last][i := true];
      SetOne(bits[..last], i);
    } else {
      assert bits[i := true][..last] == bits[..last];
    }
  }

  lemma {:induction false} NoneClear(bits: seq<bool>)
    ensures Clear(bits) == 0 <==> forall i :: 0 <= i < |bits| ==> bits[i]
    decreases |bits|
  {
    if bits != [] {
      var front := bits[..|bits| - 1];
      NoneClear(front);
      assert forall i :: 0 <= i < |front| ==> front[i] == bits[i];
    }
  }

  /** The fragments whose bit is set are in place. */
  ghost predicate Filled(size: nat, p: seq<u8>, bits: seq<bool>, data: seq<u8>)
    requires size > 0 && |p| > size
  {
    && |bits| == Count(size, p) && |data| == |p|
    && forall i :: 0 <= i < |bits| && bits[i] ==> InPlace(size, p, data, i)
  }

  ghost predicate InPlace(size: nat, p: seq<u8>, data: seq<u8>, i: nat)
    requires size > 0 && |p| > size && |data| == |p| && i < Count(size, p)
  {
    Bounds(size, p, i);
    data[Low(size, i)..High(size, |p|, i)] == p[Low(size, i)..High(size, |p|, i)]
  }

  lemma OverwriteSlice(data: seq<u8>, offset: nat, piece: seq<u8>, lo: nat, hi: nat)
    requires offset + |piece| <= |data| && lo <= hi <= |data|
    ensures hi <= offset || offset + |piece| <= lo ==> Overwrite(data, offset, piece)[lo..hi] == data[lo..hi]
    ensures Overwrite(data, offset, piece)[offset..offset + |piece|] == piece
  {
  }

  /** A new fragment goes in place and disturbs no other. */
  lemma MarkFills(size: nat, p: seq<u8>, bits: seq<bool>, data: seq<u8>, i: nat)
    requires size > 0 && |p| > size && Filled(size, p, bits, data) && i < |bits|
    requires Low(size, i) <= High(size, |p|, i) <= |p|
    ensures Filled(size, p, bits[i := true], Overwrite(data, Low(size, i), p[Low(size, i)..High(size, |p|, i)]))
  {
    hide Count, Low, High, Overwrite;
    Bounds(size, p, i);
    var piece := p[Low(size, i)..High(size, |p|, i)];
    var data' := Overwrite(data, Low(size, i), piece);
    forall k | 0 <= k < |bits| && bits[i := true][k]
      ensures InPlace(size, p, data', k)
    {
      Bounds(size, p, k);
      OverwriteSlice(data, Low(size, i), piece, Low(size, k), High(size, |p|, k));
      if k < i {
        Apart(size, |p|, k, i);
      } else if i < k {
        Apart(size, |p|, i, k);
      }
    }
  }

  lemma {:induction false} FilledUpTo(size: nat, p: seq<u8>, bits: seq<bool>, data: seq<u8>, i: nat)
    requires size > 0 && |p| > size && Filled(size, p, bits, data)
    requires forall k :: 0 <= k < |bits| ==> bits[k]
    requires i < |bits|
    ensures High(size, |p|, i) <= |p| && data[..High(size, |p|, i)] == p[..High(size, |p|, i)]
    decreases i
  {
    hide Count, Low, High;
    Bounds(size, p, i);
    var lo, hi := Low(size, i), High(size, |p|, i);
    assert InPlace(size, p, data, i);
    if i > 0 {
      FilledUpTo(size, p, bits, data, i - 1);
      Bounds(size, p, i - 1);
    }
    assert data[..lo] == p[..lo];
    assert data[..hi] == data[..lo] + data[lo..hi];
    assert p[..hi] == p[..lo] + p[lo..hi];
  }

  /** With no bit clear the buffer is the packet. */
  lemma FilledWhole(size: nat, p: seq<u8>, bits: seq<bool>, data: seq<u8>)
    requires size > 0 && |p| > size && Filled(size, p, bits, data) && Clear(bits) == 0
    ensures data == p
  {
    hide Count, Low, High;
    NoneClear(bits);
    CountCovers(size, p);
    FilledUpTo(size, p, bits, data, |bits| - 1);
    Bounds(size, p, |bits| - 1);
    assert data[..|p|] == data && p[..|p|] == p;
  }
}
