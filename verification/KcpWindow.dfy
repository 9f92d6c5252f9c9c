/** The congestion window of toxtun-go/kcp.go, in 32-bit words. */
module KcpWindow {
  import opened Words
  import opened KcpSpec

  const THRESH_MIN := 2

  datatype Window = Window(cwnd: u32, incr: u32, ssthresh: u32)

  function SlowStart(w: Window, mss: u32): (w': Window)
  {
    w.(cwnd := Word(w.cwnd + 1), incr := Word(w.incr + mss))
  }

  function Avoidance(w: Window, mss: u32): (w': Window)
    requires mss > 0
  {
    var at := if w.incr < mss then mss else w.incr;
    Raised(w, Word(at + Word(mss * mss) / at + mss / 16), Word(Word(w.cwnd + 1) * mss))
  }

  /** One more segment once incr reaches its size. */
  function Raised(w: Window, incr: u32, next: u32): (w': Window)
  {
    w.(cwnd := if next <= incr then Word(w.cwnd + 1) else w.cwnd, incr := incr)
  }

  /** Input, after snd_una moved forward. */
  function AfterAcked(w: Window, mss: u32, rmt: u32): (w': Window)
    requires mss > 0
  {
    if w.cwnd >= rmt then w
    else
      var w1 := if w.cwnd < w.ssthresh then SlowStart(w, mss) else Avoidance(w, mss);
      if w1.cwnd > rmt then w1.(cwnd := rmt, incr := Word(rmt * mss)) else w1
  }

  function Threshold(flight: u32): (t: u32)
  {
    if flight / 2 < THRESH_MIN then THRESH_MIN else flight / 2
  }

  /** The end of flush: fast resends, then losses, then the minimum of one. */
  function AfterSent(w: Window, mss: u32, changed: bool, lost: bool, inflight: u32, allowed: u32,
                     resent: u32): (w': Window)
  {
    var w1 :=
      if changed then
        var cwnd := Word(Threshold(inflight) + resent);
        Window(cwnd, Word(cwnd * mss), Threshold(inflight))
      else w;
    var w2 := if lost then Window(1, mss, Threshold(allowed)) else w1;
    if w2.cwnd < 1 then w2.(cwnd := 1, incr := mss) else w2
  }

  /** incr counts bytes: cwnd * mss <= incr < (cwnd + 1) * mss. */
  predicate WindowInv(w: Window, mss: u32)
  {
    0 <= w.incr - w.cwnd * mss < mss && w.ssthresh >= THRESH_MIN
  }

  lemma MulAdd(a: int, b: int, m: int)
    ensures (a + b) * m == a * m + b * m
  {
  }

  lemma MulMono(a: int, b: int, m: int)
    requires a <= b && 0 <= m
    ensures a * m <= b * m
  {
  }

  lemma MulCancel(a: int, b: int, m: int)
    requires a * m <= b * m && 0 < m
    ensures a <= b
  {
  }

  /** The sums and products the code computes for the next segment fit a word. */
  predicate NoOverflow(w: Window, mss: u32)
  {
    (w.cwnd + 2) * mss < WRAP && (w.cwnd >= w.ssthresh ==> mss * mss < WRAP)
  }

  /** They do with a 16-bit remote window and a 16-bit segment size. */
  lemma SixteenBitsFit(w: Window, mss: u32, rmt: u32)
    requires w.cwnd < rmt <= 0xFFFF && mss <= 0xFFFF
    ensures NoOverflow(w, mss)
  {
    MulMono(w.cwnd + 2, 0x1_0000, mss);
    MulMono(mss, 0xFFFF, mss);
  }

  lemma NextSegment(cwnd: nat, mss: nat)
    requires 0 < mss && (cwnd + 2) * mss < WRAP
    ensures cwnd * mss + mss + mss < WRAP && (cwnd + 1) * mss == cwnd * mss + mss && cwnd + 1 < WRAP
  {
    MulAdd(cwnd, 1, mss);
    MulAdd(cwnd, 2, mss);
    MulMono(1, mss, cwnd + 2);
  }

  /** With at least two segments in incr, one acknowledgement adds at most half a segment. */
  lemma AvoidanceAdds(incr: nat, mss: nat)
    requires 0 < mss && 2 * mss <= incr
    ensures 0 <= mss * mss / incr <= mss / 2
  {
    var q := mss * mss / incr;
    assert q * incr <= mss * mss;
    MulMono(2 * mss, incr, q);
    Regroup(mss, q);
    MulCancel(2 * q, mss, mss);
  }

  lemma Regroup(m: int, q: int)
    ensures (2 * m) * q == (2 * q) * m
  {
  }

  lemma SlowStartKeeps(w: Window, mss: u32)
    requires 0 < mss && WindowInv(w, mss) && (w.cwnd + 2) * mss < WRAP
    ensures WindowInv(SlowStart(w, mss), mss) && SlowStart(w, mss).cwnd == w.cwnd + 1
  {
    hide Word;
    NextSegment(w.cwnd, mss);
    WordFits(w.cwnd + 1);
    WordFits(w.incr + mss);
  }

  lemma AvoidanceKeeps(w: Window, mss: u32)
    requires 0 < mss && WindowInv(w, mss) && w.ssthresh <= w.cwnd && NoOverflow(w, mss)
    ensures WindowInv(Avoidance(w, mss), mss) && w.cwnd <= Avoidance(w, mss).cwnd <= w.cwnd + 1
  {
    hide Raised, Word;
    NextSegment(w.cwnd, mss);
    MulMono(2, w.cwnd, mss);
    AvoidanceAdds(w.incr, mss);
    WordFits(mss * mss);
    WordFits((w.cwnd + 1) * mss);
    WordFits(w.cwnd + 1);
    var gain := mss * mss / w.incr;
    WordFits(w.incr + gain + mss / 16);
    RaisedKeeps(w, mss, w.incr + gain + mss / 16);
  }

  lemma WordFits(x: nat)
    requires x < WRAP
    ensures Word(x) == x
  {
  }

  lemma RaisedKeeps(w: Window, mss: u32, incr: u32)
    requires WindowInv(w, mss) && w.cwnd + 1 < WRAP && (w.cwnd + 1) * mss == w.cwnd * mss + mss < WRAP
    requires w.incr <= incr < w.incr + mss
    ensures var w' := Raised(w, incr, (w.cwnd + 1) * mss);
      WindowInv(w', mss) && w.cwnd <= w'.cwnd <= w.cwnd + 1
  {
  }

  /** Input keeps incr in cwnd's span, raises cwnd by at most one and never above the remote
      window. */
  lemma AckedKeepsWindow(w: Window, mss: u32, rmt: u32)
    requires 0 < mss && WindowInv(w, mss) && (w.cwnd < rmt ==> NoOverflow(w, mss))
    ensures var w' := AfterAcked(w, mss, rmt);
      && WindowInv(w', mss) && w.cwnd <= w'.cwnd <= w.cwnd + 1 && w'.ssthresh == w.ssthresh
      && (w'.cwnd > w.cwnd ==> w'.cwnd <= rmt)
  {
    hide WindowInv;
    if w.cwnd < rmt {
      if w.cwnd < w.ssthresh {
        SlowStartKeeps(w, mss);
      } else {
        AvoidanceKeeps(w, mss);
      }
    }
  }

  /** What an acknowledgement does, without wrap-around: nothing to a window the remote side cannot
      take; one segment more below the threshold; above it incr gains its share of a segment and a
      sixteenth, and the window grows once incr reaches the size of the next segment. */
  lemma AckedIs(w: Window, mss: u32, rmt: u32)
    requires 0 < mss && WindowInv(w, mss) && (w.cwnd < rmt ==> NoOverflow(w, mss))
    ensures var w' := AfterAcked(w, mss, rmt);
      && (rmt <= w.cwnd ==> w' == w)
      && (w.cwnd < rmt && w.cwnd < w.ssthresh ==> w' == Window(w.cwnd + 1, w.incr + mss, w.ssthresh))
      && (w.cwnd < rmt && w.ssthresh <= w.cwnd ==>
            && w.incr >= 2 * mss
            && w'.incr == w.incr + mss * mss / w.incr + mss / 16 && w'.ssthresh == w.ssthresh
            && w'.cwnd == if (w.cwnd + 1) * mss <= w'.incr then w.cwnd + 1 else w.cwnd)
  {
    hide WindowInv, SlowStart, Avoidance;
    if w.cwnd < rmt {
      if w.cwnd < w.ssthresh {
        SlowStartIs(w, mss);
      } else {
        AvoidanceIs(w, mss);
      }
    }
  }

  lemma SlowStartIs(w: Window, mss: u32)
    requires 0 < mss && WindowInv(w, mss) && (w.cwnd + 2) * mss < WRAP
    ensures SlowStart(w, mss) == Window(w.cwnd + 1, w.incr + mss, w.ssthresh)
  {
    hide Word;
    NextSegment(w.cwnd, mss);
    WordFits(w.cwnd + 1);
    WordFits(w.incr + mss);
  }

  lemma AvoidanceIs(w: Window, mss: u32)
    requires 0 < mss && WindowInv(w, mss) && w.ssthresh <= w.cwnd && NoOverflow(w, mss)
    ensures w.incr >= 2 * mss
    ensures var w' := Avoidance(w, mss);
      && w'.incr == w.incr + mss * mss / w.incr + mss / 16 && w'.ssthresh == w.ssthresh
      && w'.cwnd == if (w.cwnd + 1) * mss <= w'.incr then w.cwnd + 1 else w.cwnd
  {
    hide Word;
    NextSegment(w.cwnd, mss);
    MulMono(2, w.cwnd, mss);
    AvoidanceAdds(w.incr, mss);
    WordFits(mss * mss);
    WordFits((w.cwnd + 1) * mss);
    WordFits(w.cwnd + 1);
    WordFits(w.incr + mss * mss / w.incr + mss / 16);
  }

  function AfterAcks(w: Window, mss: u32, rmt: u32, n: nat): (w': Window)
    requires mss > 0
  {
    if n == 0 then w else AfterAcked(AfterAcks(w, mss, rmt, n - 1), mss, rmt)
  }

  /** So the window does not stand still below the remote one: the acknowledgements in a row that
      leave it unchanged, each worth a sixteenth, are together worth less than a segment. */
  lemma {:induction false} WindowGrows(w: Window, mss: u32, rmt: u32, n: nat)
    requires 0 < mss && WindowInv(w, mss) && w.cwnd < rmt && NoOverflow(w, mss)
    requires forall m: nat :: m <= n ==> AfterAcks(w, mss, rmt, m).cwnd == w.cwnd
    ensures WindowInv(AfterAcks(w, mss, rmt, n), mss) && AfterAcks(w, mss, rmt, n).ssthresh == w.ssthresh
    ensures w.incr + n * (mss / 16) <= AfterAcks(w, mss, rmt, n).incr
    ensures n * (mss / 16) < mss
    decreases n
  {
    hide WindowInv, AfterAcked;
    Spans(w, mss);
    if n > 0 {
      var before := AfterAcks(w, mss, rmt, n - 1);
      WindowGrows(w, mss, rmt, n - 1);
      assert before.cwnd == w.cwnd && AfterAcks(w, mss, rmt, n) == AfterAcked(before, mss, rmt);
      AckedKeepsWindow(before, mss, rmt);
      AckedIs(before, mss, rmt);
      Gain(before, mss);
      MulAdd(n - 1, 1, mss / 16);
      Spans(AfterAcks(w, mss, rmt, n), mss);
    }
  }

  lemma Spans(w: Window, mss: u32)
    requires WindowInv(w, mss)
    ensures w.cwnd * mss <= w.incr < w.cwnd * mss + mss
  {
  }

  lemma Gain(w: Window, mss: u32)
    requires 0 < mss
    ensures w.incr >= 2 * mss ==> mss * mss / w.incr >= 0
  {
    if w.incr >= 2 * mss {
      AvoidanceAdds(w.incr, mss);
    }
  }

  /** Flush keeps it through fast resend and timeout exactly when the window it ends with, times
      the segment size, fits a word; after a timeout it always does. The window is at least
      one segment and the threshold at least two. */
  lemma SentKeepsWindow(w: Window, mss: u32, changed: bool, lost: bool, inflight: u32, allowed: u32, resent: u32)
    requires 0 < mss && WindowInv(w, mss)
    ensures var w' := AfterSent(w, mss, changed, lost, inflight, allowed, resent);
      && w'.cwnd >= 1 && w'.ssthresh >= THRESH_MIN
      && (WindowInv(w', mss) <==> changed && !lost ==> Word(Threshold(inflight) + resent) * mss < WRAP)
  {
    if changed && !lost {
      var cwnd := Word(Threshold(inflight) + resent);
      assert cwnd * mss >= 0 by {
        MulMono(0, cwnd, mss);
      }
      WordKeeps(cwnd * mss);
    }
  }

  /** The same as one relation between the windows before and after. */
  ghost predicate SpanKept(w: Window, w': Window, mss: u32, changed: bool, lost: bool, inflight: u32, resent: u32)
  {
    WindowInv(w, mss) ==>
      && w'.cwnd >= 1
      && (WindowInv(w', mss) <==> changed && !lost ==> Word(Threshold(inflight) + resent) * mss < WRAP)
  }

  lemma SpanAfterSent(w: Window, mss: u32, changed: bool, lost: bool, inflight: u32, allowed: u32, resent: u32)
    requires 0 < mss
    ensures SpanKept(w, AfterSent(w, mss, changed, lost, inflight, allowed, resent), mss, changed, lost, inflight,
      resent)
  {
    hide WindowInv, AfterSent, Threshold, Word;
    if WindowInv(w, mss) {
      SentKeepsWindow(w, mss, changed, lost, inflight, allowed, resent);
    }
  }

  /** What a flush does: a loss leaves a window of one segment and halves the threshold, down to two;
      a fast resend halves it by what is in flight and starts above it; otherwise only an empty
      window changes. */
  predicate Reacts(w: Window, w': Window, mss: u32, changed: bool, lost: bool, inflight: u32, allowed: u32, resent: u32)
  {
    && (lost ==> w' == Window(1, mss, if allowed < 4 then 2 else allowed / 2))
    && (changed && !lost ==>
          var thresh := if inflight < 4 then 2 else inflight / 2;
          var cwnd := (thresh + resent) % 0x1_0000_0000;
          w' == if cwnd == 0 then Window(1, mss, thresh) else Window(cwnd, cwnd * mss % 0x1_0000_0000, thresh))
    && (!changed && !lost ==> w' == if w.cwnd == 0 then Window(1, mss, w.ssthresh) else w)
  }

  lemma SentIs(w: Window, mss: u32, changed: bool, lost: bool, inflight: u32, allowed: u32, resent: u32)
    ensures Reacts(w, AfterSent(w, mss, changed, lost, inflight, allowed, resent), mss, changed, lost, inflight,
      allowed,
      resent)
  {
    HalfOf(inflight);
    HalfOf(allowed);
  }

  lemma HalfOf(n: u32)
    ensures Threshold(n) == if n < 4 then 2 else n / 2
  {
  }

  /** It can break: a window of 65535 segments of 131072 bytes in flight, as without congestion
      control, and a fast resend after two skips leave incr at the size of one segment while cwnd
      is 32769. */
  lemma WindowBreaks()
    ensures var w, mss := Window(1, 131072, THRESH_MIN), 131072;
      && WindowInv(w, mss) && !WindowInv(AfterSent(w, mss, true, false, 65535, 1, 2), mss)
      && AfterSent(w, mss, true, false, 65535, 1, 2) == Window(32769, 131072, 32767)
  {
  }

  lemma WordKeeps(x: nat)
    ensures Word(x) <= x && (Word(x) == x <==> x < WRAP)
  {
  }
}
