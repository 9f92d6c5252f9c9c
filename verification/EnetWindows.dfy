/** Reliable windows of the ENet protocol (toxtun/protocol.c and toxtun/peer.c): 16-bit sequence
    numbers are grouped into sixteen windows of 4096, eight of which must stay free. */
module EnetWindows {
  import opened Words

  const WINDOWS := 16
  const WINDOW_SIZE := 0x1000
  const FREE_WINDOWS := 8
  const SEQUENCE := 0x1_0000

  function Seq(n: nat): (sn: u16)
  {
    n % SEQUENCE
  }

  function Window(n: nat): (w: nat)
  {
    n / WINDOW_SIZE
  }

  // ---------- The receiver's tests ----------

  /** How many windows sn lies ahead of the last number dispatched, taking a smaller number
      for one of the next lap. */
  function WindowsAhead(sn: u16, incoming: u16): (d: int)
  {
    var reliableWindow := sn / WINDOW_SIZE + if sn < incoming then WINDOWS else 0;
    reliableWindow - incoming / WINDOW_SIZE
  }

  /** enet_peer_queue_incoming_command and the fragment handlers drop the command. */
  predicate Discards(sn: u16, incoming: u16)
  {
    var d := WindowsAhead(sn, incoming);
    d < 0 || d >= FREE_WINDOWS - 1
  }

  /** enet_peer_queue_acknowledgement stays silent. */
  predicate Suppresses(sn: u16, incoming: u16)
  {
    var d := WindowsAhead(sn, incoming);
    FREE_WINDOWS - 1 <= d <= FREE_WINDOWS
  }

  /** Within one lap ahead the 16-bit computation gives the difference of the windows. */
  lemma AheadExact(n: nat, last: nat)
    requires last <= n < last + SEQUENCE
    ensures WindowsAhead(Seq(n), Seq(last)) == Window(n) - Window(last)
  {
    LapOf(n);
    LapOf(last);
  }

  lemma LapOf(n: nat)
    ensures Window(n) == WINDOWS * (n / SEQUENCE) + Seq(n) / WINDOW_SIZE
    ensures n == SEQUENCE * (n / SEQUENCE) + Seq(n)
  {
  }

  lemma BehindExact(n: nat, last: nat)
    requires n < last < n + SEQUENCE
    ensures WindowsAhead(Seq(n), Seq(last)) == WINDOWS - (Window(last) - Window(n))
  {
    hide Seq, Window, WindowsAhead;
    NextLap(n);
    AheadExact(n + SEQUENCE, last);
  }

  lemma NextLap(n: nat)
    ensures Seq(n + SEQUENCE) == Seq(n) && Window(n + SEQUENCE) == Window(n) + WINDOWS
  {
  }

  /** A number already dispatched is taken for a new one exactly when it is ten or more windows
      old. */
  lemma OldDuplicateDiscardedIff(n: nat, last: nat)
    requires n < last < n + SEQUENCE
    ensures Discards(Seq(n), Seq(last)) <==> Window(last) - Window(n) <= WINDOWS - FREE_WINDOWS + 1
  {
    BehindExact(n, last);
  }

  /** A duplicate of a dispatched command is acknowledged again unless it is eight or nine
      windows old. */
  lemma DuplicateAcknowledgedIff(n: nat, last: nat)
    requires n < last < n + SEQUENCE
    ensures !Suppresses(Seq(n), Seq(last)) <==> Window(last) - Window(n) !in {8, 9}
  {
    BehindExact(n, last);
  }

  // ---------- The sender's test ----------

  /** Bit v of the guard's mask: eight ones shifted left by w, or shifted right by 16 - w. */
  predicate InMask(w: nat, v: nat)
  {
    w <= v < w + FREE_WINDOWS || v + WINDOWS - w < FREE_WINDOWS
  }

  /** Before the first number of a window is sent for the first time: the previous window is
      entirely unacknowledged, or something is unacknowledged in this one or the next seven. */
  predicate Blocks(windows: seq<nat>, used: set<nat>, sn: u16)
    requires |windows| == WINDOWS
  {
    var w := sn / WINDOW_SIZE;
    && sn % WINDOW_SIZE == 0
    && (windows[(w + WINDOWS - 1) % WINDOWS] >= WINDOW_SIZE || exists v :: v in used && InMask(w, v))
  }

  /** The used bits say which counters are not zero. */
  ghost predicate UsedOk(windows: seq<nat>, used: set<nat>)
    requires |windows| == WINDOWS
  {
    forall w: nat :: w in used <==> w < WINDOWS && windows[w] != 0
  }

  /** The mask covers eight windows around the end of the word. */
  lemma MaskWraps(w: nat, v: nat)
    requires w < WINDOWS && v < WINDOWS
    ensures InMask(w, v) <==> (v + WINDOWS - w) % WINDOWS < FREE_WINDOWS
  {
  }

  /** What the guard stands for in terms of the counters. */
  lemma BlocksIff(windows: seq<nat>, used: set<nat>, sn: u16)
    requires |windows| == WINDOWS && UsedOk(windows, used)
    ensures var w := sn / WINDOW_SIZE;
      Blocks(windows, used, sn) <==>
        sn % WINDOW_SIZE == 0
        && (|| windows[(w + WINDOWS - 1) % WINDOWS] >= WINDOW_SIZE
            || exists v :: 0 <= v < WINDOWS && (v + WINDOWS - w) % WINDOWS < FREE_WINDOWS && windows[v] != 0)
  {
    hide InMask;
    var w := sn / WINDOW_SIZE;
    forall v: nat | v < WINDOWS
      ensures InMask(w, v) <==> (v + WINDOWS - w) % WINDOWS < FREE_WINDOWS
    {
      MaskWraps(w, v);
    }
    if v :| v in used && InMask(w, v) {
      assert windows[v] != 0;
    }
    if v :| 0 <= v < WINDOWS && (v + WINDOWS - w) % WINDOWS < FREE_WINDOWS && windows[v] != 0 {
      assert v in used && InMask(w, v);
    }
  }
}
