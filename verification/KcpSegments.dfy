/** Segments as toxtun-go/kcp.go stores them, what flush does to each, and what they stand for
    in the protocol. */
module KcpSegments {
  import opened Words
  import opened KcpSpec
  import opened KcpWire

  const DEADLINK := 10

  datatype Segment = Segment(cmd: u32, frg: u32, wnd: u32, ts: u32, sn: u32, una: u32,
                             resendts: u32, rto: u32, fastack: u32, xmit: u32, data: seq<u8>)

  function PieceOf(s: Segment): (p: Piece)
  {
    Piece(s.frg, s.data)
  }

  function EntryOf(s: Segment): (e: Numbered)
  {
    Numbered(s.sn, PieceOf(s))
  }

  function Pieces(segs: seq<Segment>): (ps: seq<Piece>)
    ensures |ps| == |segs|
  {
    if segs == [] then [] else [PieceOf(segs[0])] + Pieces(segs[1..])
  }

  function Entries(segs: seq<Segment>): (es: seq<Numbered>)
    ensures |es| == |segs|
  {
    if segs == [] then [] else [EntryOf(segs[0])] + Entries(segs[1..])
  }

  /** The sequence numbers of a flat list of sequence numbers and timestamps. */
  function Sns(acklist: seq<u32>): (sns: seq<u32>)
    ensures |sns| == |acklist| / 2 && forall i :: 0 <= i < |sns| ==> sns[i] == acklist[2 * i]
  {
    if |acklist| < 2 then [] else [acklist[0]] + Sns(acklist[2..])
  }

  lemma {:induction false} PiecesAt(segs: seq<Segment>)
    ensures forall i :: 0 <= i < |segs| ==> Pieces(segs)[i] == PieceOf(segs[i])
    decreases |segs|
  {
    if segs != [] {
      PiecesAt(segs[1..]);
    }
  }

  lemma {:induction false} EntriesAt(segs: seq<Segment>)
    ensures forall i :: 0 <= i < |segs| ==> Entries(segs)[i] == EntryOf(segs[i])
    decreases |segs|
  {
    if segs != [] {
      EntriesAt(segs[1..]);
    }
  }

  lemma OneSegment(s: Segment)
    ensures Pieces([s]) == [PieceOf(s)] && Entries([s]) == [EntryOf(s)]
  {
    PiecesAt([s]);
    EntriesAt([s]);
  }

  lemma PiecesParts(a: seq<Segment>, b: seq<Segment>)
    ensures Pieces(a + b) == Pieces(a) + Pieces(b)
  {
    PiecesAt(a);
    PiecesAt(b);
    PiecesAt(a + b);
  }

  lemma EntriesParts(a: seq<Segment>, b: seq<Segment>)
    ensures Entries(a + b) == Entries(a) + Entries(b)
  {
    EntriesAt(a);
    EntriesAt(b);
    EntriesAt(a + b);
  }

  lemma PiecesDrop(a: seq<Segment>, k: nat)
    requires k <= |a|
    ensures Pieces(a[k..]) == Pieces(a)[k..]
  {
    PiecesAt(a);
    PiecesAt(a[k..]);
  }

  lemma EntriesDrop(a: seq<Segment>, k: nat)
    requires k <= |a|
    ensures Entries(a[k..]) == Entries(a)[k..]
  {
    EntriesAt(a);
    EntriesAt(a[k..]);
  }

  lemma EntriesTake(a: seq<Segment>, k: nat)
    requires k <= |a|
    ensures Entries(a[..k]) == Entries(a)[..k]
  {
    EntriesAt(a);
    EntriesAt(a[..k]);
  }

  lemma SnsAppend(acklist: seq<u32>, sn: u32, ts: u32)
    requires |acklist| % 2 == 0
    ensures Sns(acklist + [sn, ts]) == Sns(acklist) + [sn]
  {
  }

  // ---------- Acknowledgement ----------

  /** parse_una: the segments from the first on that una does not pass. */
  function Unpassed(segs: seq<Segment>, una: u32): (r: seq<Segment>)
  {
    if segs != [] && Diff(una, segs[0].sn) > 0 then Unpassed(segs[1..], una) else segs
  }

  /** The first k segments leave, and nothing else changes. */
  lemma {:induction false} UnpassedIs(segs: seq<Segment>, una: u32, k: nat)
    requires k <= |segs| && (forall i :: 0 <= i < k ==> Diff(una, segs[i].sn) > 0)
    requires k < |segs| ==> Diff(una, segs[k].sn) <= 0
    ensures Unpassed(segs, una) == segs[k..]
    decreases k
  {
    hide Diff;
    if k > 0 {
      assert segs[1..][k - 1..] == segs[k..];
      UnpassedIs(segs[1..], una, k - 1);
    }
  }

  /** parse_ack: the segment named is removed, those before it were skipped once more. */
  function Acked(segs: seq<Segment>, sn: u32): (r: seq<Segment>)
  {
    if segs == [] then []
    else if segs[0].sn == sn then segs[1..]
    else [segs[0].(fastack := Word(segs[0].fastack + 1))] + Acked(segs[1..], sn)
  }

  lemma {:induction false} AckedRemoves(segs: seq<Segment>, sn: u32)
    ensures Entries(Acked(segs, sn)) == Removed(Entries(segs), sn)
    ensures forall s :: s in Acked(segs, sn) ==> exists t :: t in segs && s == t.(fastack := s.fastack)
    decreases |segs|
  {
    if segs == [] {
    } else if segs[0].sn == sn {
      EntriesDrop(segs, 1);
      forall s | s in Acked(segs, sn)
        ensures exists t :: t in segs && s == t.(fastack := s.fastack)
      {
        assert s in segs && s == s.(fastack := s.fastack);
      }
    } else {
      AckedRemoves(segs[1..], sn);
      EntriesDrop(segs, 1);
      var head := segs[0].(fastack := Word(segs[0].fastack + 1));
      EntriesParts([head], Acked(segs[1..], sn));
      assert Entries([head]) == [Entries(segs)[0]];
      forall s | s in Acked(segs, sn)
        ensures exists t :: t in segs && s == t.(fastack := s.fastack)
      {
        if s == head {
          assert segs[0] in segs && s == segs[0].(fastack := s.fastack);
        } else {
          assert s in Acked(segs[1..], sn);
          var t :| t in segs[1..] && s == t.(fastack := s.fastack);
          assert t in segs;
        }
      }
    }
  }

  /** Where the segment stands that leaves, and that each one before it, or each one if it is not
      there, counts one skip more. */
  lemma {:induction false} AckedIs(segs: seq<Segment>, sn: u32, k: nat)
    requires k <= |segs| && (forall i :: 0 <= i < k ==> segs[i].sn != sn) && (k < |segs| ==> segs[k].sn == sn)
    ensures var r := Acked(segs, sn);
      && |r| == (if k < |segs| then |segs| - 1 else |segs|)
      && (forall i :: 0 <= i < k ==> r[i] == segs[i].(fastack := (segs[i].fastack + 1) % 0x1_0000_0000))
      && (k < |segs| ==> r[k..] == segs[k + 1..])
    decreases k
  {
    if k > 0 {
      var rest := segs[1..];
      assert forall i :: 0 <= i < k - 1 ==> rest[i] == segs[i + 1];
      AckedIs(rest, sn, k - 1);
      var r := Acked(segs, sn);
      assert r[1..] == Acked(rest, sn);
      assert forall i :: 0 < i < k ==> r[i] == r[1..][i - 1];
      if k < |segs| {
        assert r[k..] == r[1..][k - 1..] && rest[k..] == segs[k + 1..];
      }
    }
  }

  // ---------- Flush ----------

  /** What flush knows when it looks at the send buffer. */
  datatype Clock = Clock(now: u32, rto: u32, resent: u32, rtomin: u32, nodelay: bool, wnd: u32, una: u32)

  predicate TimedOut(s: Segment, c: Clock)
  {
    s.xmit != 0 && Diff(c.now, s.resendts) >= 0
  }

  predicate Skipped(s: Segment, c: Clock)
  {
    s.xmit != 0 && !TimedOut(s, c) && s.fastack >= c.resent
  }

  predicate Needed(s: Segment, c: Clock)
  {
    s.xmit == 0 || TimedOut(s, c) || Skipped(s, c)
  }

  function Refreshed(s: Segment, c: Clock): (r: Segment)
  {
    var r :=
      if s.xmit == 0 then
        s.(xmit := 1, rto := c.rto, resendts := Word(c.now + c.rto + c.rtomin))
      else if TimedOut(s, c) then
        var rto := Word(s.rto + (if c.nodelay then c.rto / 2 else c.rto));
        s.(xmit := Word(s.xmit + 1), rto := rto, resendts := Word(c.now + rto))
      else if Skipped(s, c) then
        s.(xmit := Word(s.xmit + 1), fastack := 0, resendts := Word(c.now + s.rto))
      else s;
    if Needed(s, c) then r.(ts := c.now, wnd := c.wnd, una := c.una) else r
  }

  function ToWire(s: Segment): (w: Wire)
  {
    Wire(s.cmd % 256, s.frg % 256, s.wnd % 0x1_0000, s.ts, s.sn, s.una, s.data)
  }

  function RefreshAll(segs: seq<Segment>, c: Clock): (r: seq<Segment>)
    ensures |r| == |segs| && forall i :: 0 <= i < |segs| ==> r[i] == Refreshed(segs[i], c)
  {
    if segs == [] then [] else [Refreshed(segs[0], c)] + RefreshAll(segs[1..], c)
  }

  /** The segments flush writes for the send buffer. */
  function PushWires(segs: seq<Segment>, c: Clock): (ws: seq<Wire>)
  {
    if segs == [] then []
    else
      var front, s := segs[..|segs| - 1], segs[|segs| - 1];
      PushWires(front, c) + if Needed(s, c) then [ToWire(Refreshed(s, c))] else []
  }

  function AckWires(acklist: seq<u32>, wnd: u32, una: u32): (ws: seq<Wire>)
  {
    if |acklist| < 2 then []
    else
      var n := |acklist|;
      AckWires(acklist[..n - 2], wnd, una) + [Wire(ACK, 0, wnd % 0x1_0000, acklist[n - 1], acklist[n - 2], una, [])]
  }

  /** Window probes; the header still holds the last acknowledgement's sn and ts. */
  function ProbeWires(ask: bool, tell: bool, acklist: seq<u32>, wnd: u32, una: u32): (ws: seq<Wire>)
  {
    var n := |acklist|;
    var sn, ts := if n < 2 then 0 else acklist[n - 2], if n < 2 then 0 else acklist[n - 1];
    (if ask then [Wire(WASK, 0, wnd % 0x1_0000, ts, sn, una, [])] else [])
    + if tell then [Wire(WINS, 0, wnd % 0x1_0000, ts, sn, una, [])] else []
  }

  predicate AnyLost(segs: seq<Segment>, c: Clock)
  {
    exists i :: 0 <= i < |segs| && TimedOut(segs[i], c)
  }

  predicate AnySkipped(segs: seq<Segment>, c: Clock)
  {
    exists i :: 0 <= i < |segs| && Skipped(segs[i], c)
  }

  /** A segment sent ten times or more marks the connection dead. */
  predicate AnyDead(segs: seq<Segment>, c: Clock)
  {
    exists i :: 0 <= i < |segs| && Needed(segs[i], c) && Refreshed(segs[i], c).xmit >= DEADLINK
  }

  /** Refreshing changes no number and no content. */
  lemma RefreshKeepsEntries(segs: seq<Segment>, c: Clock)
    ensures Entries(RefreshAll(segs, c)) == Entries(segs)
  {
    EntriesAt(segs);
    EntriesAt(RefreshAll(segs, c));
    forall i | 0 <= i < |segs|
      ensures EntryOf(Refreshed(segs[i], c)) == EntryOf(segs[i])
    {
    }
  }

  lemma AnyNext(segs: seq<Segment>, k: nat, c: Clock)
    requires k < |segs|
    ensures AnyLost(segs[..k + 1], c) == (AnyLost(segs[..k], c) || TimedOut(segs[k], c))
    ensures AnySkipped(segs[..k + 1], c) == (AnySkipped(segs[..k], c) || Skipped(segs[k], c))
    ensures AnyDead(segs[..k + 1], c) == (AnyDead(segs[..k], c)
      || (Needed(segs[k], c) && Refreshed(segs[k], c).xmit >= DEADLINK))
  {
    hide TimedOut, Skipped, Needed, Refreshed;
    var a, b := segs[..k], segs[..k + 1];
    assert b == a + [segs[k]];
    assert forall i :: 0 <= i < k ==> b[i] == a[i];
    assert b[k] == segs[k];
    AnyInPrefix(a, [segs[k]], c);
  }

  lemma AnyInPrefix(a: seq<Segment>, b: seq<Segment>, c: Clock)
    ensures AnyLost(a + b, c) == (AnyLost(a, c) || AnyLost(b, c))
    ensures AnySkipped(a + b, c) == (AnySkipped(a, c) || AnySkipped(b, c))
    ensures AnyDead(a + b, c) == (AnyDead(a, c) || AnyDead(b, c))
  {
    hide TimedOut, Skipped, Needed, Refreshed;
    assert forall i :: 0 <= i < |a| ==> (a + b)[i] == a[i];
    assert forall i :: 0 <= i < |b| ==> (a + b)[|a| + i] == b[i];
  }

  lemma PushWiresNext(segs: seq<Segment>, k: nat, c: Clock)
    requires k < |segs|
    ensures PushWires(segs[..k + 1], c) == PushWires(segs[..k], c) + if Needed(segs[k], c) then
      [ToWire(Refreshed(segs[k], c))] else []
  {
    assert segs[..k + 1][..k] == segs[..k];
  }

  /** What flush does to entry s at the time c.now, in the fields of the entry r it leaves: it is
      sent when it never was, when its time has come, or when it was skipped often enough. A first
      sending starts its timer; a timeout lengthens it; a fast resend starts it anew and forgets the
      skips. An entry not sent stays as it is. */
  ghost predicate Resends(s: Segment, r: Segment, sent: bool, c: Clock)
  {
    && (sent <==> s.xmit == 0 || Diff(c.now, s.resendts) >= 0 || s.fastack >= c.resent)
    && (!sent ==> r == s)
    && r.cmd == s.cmd && r.frg == s.frg && r.sn == s.sn && r.data == s.data
    && (sent ==> r.xmit == Word(s.xmit + 1) && r.ts == c.now && r.wnd == c.wnd && r.una == c.una)
    && (s.xmit == 0 ==> r.rto == c.rto && r.resendts == Word(c.now + c.rto + c.rtomin) && r.fastack == s.fastack)
    && (s.xmit != 0 && Diff(c.now, s.resendts) >= 0 ==>
          && r.rto == Word(s.rto + (if c.nodelay then c.rto / 2 else c.rto))
          && r.resendts == Word(c.now + r.rto) && r.fastack == s.fastack)
    && (s.xmit != 0 && Diff(c.now, s.resendts) < 0 && s.fastack >= c.resent ==>
          r.rto == s.rto && r.resendts == Word(c.now + s.rto) && r.fastack == 0)
  }

  lemma RefreshedIs(s: Segment, c: Clock)
    ensures Resends(s, Refreshed(s, c), Needed(s, c), c)
  {
    hide Diff;
  }

  /** Positions in a list of n, in order. */
  predicate Positions(at: seq<nat>, n: nat)
  {
    && (forall k :: 0 <= k < |at| ==> at[k] < n)
    && (forall k, l :: 0 <= k < l < |at| ==> at[k] < at[l])
  }

  /** The segments written for the entries at the positions due, with the time, window and
      acknowledgement of this flush. */
  ghost predicate WritesDue(segs: seq<Segment>, c: Clock, due: seq<nat>, ws: seq<Wire>)
  {
    && Positions(due, |segs|) && |ws| == |due|
    && forall k :: 0 <= k < |due| ==>
         var s := segs[due[k]];
         ws[k] == Wire(s.cmd % 256, s.frg % 256, c.wnd % 0x1_0000, c.now, s.sn, c.una, s.data)
  }

  /** Flush sends exactly the entries that Resends says, in order, and leaves each as it says. */
  lemma {:induction false} FlushSends(segs: seq<Segment>, c: Clock) returns (due: seq<nat>)
    ensures WritesDue(segs, c, due, PushWires(segs, c))
    ensures forall i :: 0 <= i < |segs| ==> Resends(segs[i], RefreshAll(segs, c)[i], i in due, c)
    decreases |segs|
  {
    hide Refreshed, Needed, Resends, RefreshAll, WritesDue, PushWires;
    if segs == [] {
      due := [];
      NoneWritten(c);
    } else {
      var n := |segs| - 1;
      var front, s := segs[..n], segs[n];
      var before := FlushSends(front, c);
      assert segs == front + [s];
      RefreshedIs(s, c);
      due := WrittenNext(segs, c, before);
      RefreshAt(front, c);
      RefreshAt(segs, c);
      forall i | 0 <= i < |segs|
        ensures Resends(segs[i], RefreshAll(segs, c)[i], i in due, c)
      {
        if i < n {
          assert front[i] == segs[i];
          assert Resends(front[i], RefreshAll(front, c)[i], i in before, c);
        }
      }
    }
  }

  lemma NoneWritten(c: Clock)
    ensures WritesDue([], c, [], PushWires([], c)) && RefreshAll([], c) == []
  {
  }

  lemma RefreshAt(segs: seq<Segment>, c: Clock)
    ensures |RefreshAll(segs, c)| == |segs|
    ensures forall i :: 0 <= i < |segs| ==> RefreshAll(segs, c)[i] == Refreshed(segs[i], c)
  {
  }

  lemma WrittenNext(segs: seq<Segment>, c: Clock, before: seq<nat>) returns (due: seq<nat>)
    requires segs != [] && WritesDue(segs[..|segs| - 1], c, before, PushWires(segs[..|segs| - 1], c))
    ensures WritesDue(segs, c, due, PushWires(segs, c))
    ensures forall i :: 0 <= i < |segs| - 1 ==> (i in due <==> i in before)
    ensures |segs| - 1 in due <==> Needed(segs[|segs| - 1], c)
  {
    hide Refreshed, Needed;
    var n := |segs| - 1;
    var s := segs[n];
    assert n !in before;
    if Needed(s, c) {
      due := before + [n];
      WireIs(s, c);
      assert due[|before|] == n;
    } else {
      due := before;
    }
  }

  lemma WireIs(s: Segment, c: Clock)
    requires Needed(s, c)
    ensures ToWire(Refreshed(s, c))
         == Wire(s.cmd % 256, s.frg % 256, c.wnd % 0x1_0000, c.now, s.sn, c.una, s.data)
  {
    hide Diff, Word;
  }

  /** The send buffer before and after a flush that sent the entries at the positions due: a timeout
      is a loss, a fast resend a change, and a tenth sending the end of the connection. */
  ghost predicate Flushed(was: seq<Segment>, now: seq<Segment>, c: Clock, due: seq<nat>, lost: bool, changed: bool,
                          dead: bool)
  {
    && |now| == |was| && Positions(due, |was|)
    && (forall i :: 0 <= i < |was| ==> Resends(was[i], now[i], i in due, c))
    && (lost <==> exists i :: 0 <= i < |was| && was[i].xmit != 0 && Diff(c.now, was[i].resendts) >= 0)
    && (changed <==> exists i :: 0 <= i < |was| && was[i].xmit != 0 && Diff(c.now, was[i].resendts) < 0
                                 && was[i].fastack >= c.resent)
    && (dead <==> exists i :: i in due && i < |was| && now[i].xmit >= 10)
  }

  lemma FlushedIs(was: seq<Segment>, c: Clock, due: seq<nat>)
    requires Positions(due, |was|) && forall i :: 0 <= i < |was| ==> Resends(was[i], RefreshAll(was, c)[i], i in due, c)
    ensures Flushed(was, RefreshAll(was, c), c, due, AnyLost(was, c), AnySkipped(was, c), AnyDead(was, c))
  {
    hide Diff, Resends, Positions, Refreshed;
    forall i | 0 <= i < |was|
      ensures Needed(was[i], c) <==> i in due
    {
      SentIffNeeded(was[i], RefreshAll(was, c)[i], i in due, c);
    }
  }

  lemma SentIffNeeded(s: Segment, r: Segment, sent: bool, c: Clock)
    requires Resends(s, r, sent, c)
    ensures Needed(s, c) <==> sent
  {
    hide Diff;
  }

  /** Acknowledgement number i answers entry i of the list. */
  lemma {:induction false} AckWiresAre(acklist: seq<u32>, wnd: u32, una: u32)
    requires |acklist| % 2 == 0
    ensures |AckWires(acklist, wnd, una)| == |acklist| / 2
    ensures forall i :: 0 <= i < |acklist| / 2 ==>
      AckWires(acklist, wnd, una)[i] == Wire(ACK, 0, wnd % 0x1_0000, acklist[2 * i + 1], acklist[2 * i], una, [])
    decreases |acklist|
  {
    var n := |acklist|;
    if n >= 2 {
      AckWiresAre(acklist[..n - 2], wnd, una);
    }
  }

  // ---------- When a segment is sent again ----------

  /** The life of one entry of the send buffer through flushes, the first at clocks[0]: between two of
      them acknowledgements of others may change how often it was skipped. */
  ghost predicate Waits(ss: seq<Segment>, clocks: seq<Clock>)
  {
    && |ss| == |clocks| > 0
    && forall i :: 0 < i < |ss| ==>
         ss[i] == RefreshAll([ss[i - 1]], clocks[i - 1])[0].(fastack := ss[i].fastack)
  }

  /** A segment sent once is sent again at the first flush whose time has reached the end of its
      timer, and at none before it unless it was skipped often enough. Times are unbounded and
      within 2^31 of the end of the timer. */
  lemma {:induction false} ResentOnTime(ss: seq<Segment>, clocks: seq<Clock>, times: seq<int>, end: int, n: nat)
    requires Waits(ss, clocks) && |times| == |ss| && n < |ss|
    requires ss[0].xmit != 0 && ss[0].resendts == Word(end)
    requires forall i :: 0 <= i <= n ==> clocks[i].now == Word(times[i]) && -HALF <= times[i] - end < HALF
    requires forall i :: 0 <= i < n ==> times[i] < end && ss[i].fastack < clocks[i].resent
    ensures ss[n] == ss[0].(fastack := ss[n].fastack)
    ensures forall i :: 0 <= i < n ==> PushWires([ss[i]], clocks[i]) == []
    ensures |PushWires([ss[n]], clocks[n])| == if times[n] >= end || ss[n].fastack >= clocks[n].resent then 1 else 0
    decreases n
  {
    hide Word, Diff, RefreshAll, PushWires;
    DiffExact(times[n], end);
    if n > 0 {
      ResentOnTime(ss, clocks, times, end, n - 1);
      DiffExact(times[n - 1], end);
      OneEntry(ss[n - 1], clocks[n - 1]);
    }
    OneEntry(ss[n], clocks[n]);
  }

  lemma OneEntry(s: Segment, c: Clock)
    ensures var sent := s.xmit == 0 || Diff(c.now, s.resendts) >= 0 || s.fastack >= c.resent;
      && |PushWires([s], c)| == (if sent then 1 else 0)
      && (!sent ==> RefreshAll([s], c)[0] == s)
  {
    hide Diff, Word;
    assert [s][..0] == [];
  }

  /** From its first sending, at time start, to the next: the timer ends rto and an eighth later, or
      rto later without delay. */
  lemma SecondSending(s: Segment, c: Clock, start: int, again: Clock, now: int, skips: u32)
    requires s.xmit == 0 && c.now == Word(start) && again.now == Word(now)
    requires -HALF <= now - (start + c.rto + c.rtomin) < HALF
    ensures var r := RefreshAll([s], c)[0].(fastack := skips);
      PushWires([r], again) == [] <==> now < start + c.rto + c.rtomin && skips < again.resent
  {
    hide Word, Diff, PushWires, RefreshAll;
    var r := RefreshAll([s], c)[0].(fastack := skips);
    RefreshAt([s], c);
    RefreshedIs(s, c);
    WordOfWord(start, c.rto + c.rtomin);
    DiffExact(now, start + c.rto + c.rtomin);
    OneEntry(r, again);
  }

  predicate Sized(segs: seq<Segment>, mss: nat)
  {
    forall s :: s in segs ==> |s.data| <= mss && s.frg < 256
  }

  predicate Pushes(segs: seq<Segment>)
  {
    forall s :: s in segs ==> s.cmd == PUSH
  }

  /** What flush writes, it may write: acknowledgements of the list, probes, and segments of
      the send buffer. */
  ghost predicate Written(w: Wire, una: u32, acks: seq<u32>, buf: seq<Numbered>)
  {
    && w.una == una && Sendable(w)
    && (w.cmd == PUSH ==> WireEntry(w) in buf)
    && (w.cmd != PUSH ==> w.data == [])
    && (w.cmd == ACK ==> w.sn in acks)
  }

  lemma {:induction false} PushWiresWritten(segs: seq<Segment>, c: Clock, mss: nat, acks: seq<u32>)
    requires Sized(segs, mss) && Pushes(segs) && mss < WRAP
    ensures forall w :: w in PushWires(segs, c) ==> Written(w, c.una, acks, Entries(segs)) && |w.data| <= mss
    decreases |segs|
  {
    hide Sized, Pushes, Refreshed, Needed;
    if segs != [] {
      var front, s := segs[..|segs| - 1], segs[|segs| - 1];
      SizedParts(segs, mss);
      PushWiresWritten(front, c, mss, acks);
      assert segs == front + [s];
      EntriesParts(front, [s]);
      RefreshedWritten(s, c, mss);
      EntriesAt(segs);
      assert Entries(segs)[|segs| - 1] == EntryOf(s);
    }
  }

  lemma SizedParts(segs: seq<Segment>, mss: nat)
    requires Sized(segs, mss) && Pushes(segs) && segs != []
    ensures Sized(segs[..|segs| - 1], mss) && Pushes(segs[..|segs| - 1])
    ensures var s := segs[|segs| - 1];
      |s.data| <= mss && s.frg < 256 && s.cmd == PUSH
  {
  }

  lemma RefreshedWritten(s: Segment, c: Clock, mss: nat)
    requires |s.data| <= mss && s.frg < 256 && s.cmd == PUSH
    ensures var w := ToWire(Refreshed(s, c));
      WireEntry(w) == EntryOf(s) && w.data == s.data && w.cmd == PUSH && (Needed(s, c) ==> w.una == c.una)
  {
  }

  lemma AckWiresWritten(acklist: seq<u32>, wnd: u32, una: u32, buf: seq<Numbered>)
    requires |acklist| % 2 == 0
    ensures forall w :: w in AckWires(acklist, wnd, una) ==> Written(w, una, Sns(acklist), buf) && w.data == []
  {
    hide AckWires, Sns;
    AckWiresAre(acklist, wnd, una);
    var ws := AckWires(acklist, wnd, una);
    forall w | w in ws
      ensures Written(w, una, Sns(acklist), buf) && w.data == []
    {
      var i :| 0 <= i < |ws| && ws[i] == w;
      assert Sns(acklist)[i] == acklist[2 * i];
    }
  }
}
