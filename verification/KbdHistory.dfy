/**
 What the reads of `kbd.c` return, stated on the history alone: no ring, no indices.
 General first-in first-out order does not hold of the code; this is what does.
 */
module KbdHistory {
  import opened Common
  import opened KbdRing

  predicate Press(e: Event) {
    e.Irq? && IsKeyPress(e.scancode)
  }

  /** Presses stored and neither read nor discarded yet. */
  function Unread(h: seq<Event>): nat {
    if h == [] then 0
    else
      var before := Unread(h[..|h| - 1]);
      match h[|h| - 1]
      case Irq(scancode) => if IsKeyPress(scancode) then before + 1 else before
      case Get => if before > 0 then before - 1 else 0
      case Reset => 0
  }

  /** A read that returns a character. */
  predicate Succeeds(h: seq<Event>, e: Event) {
    e == Get && Unread(h) > 0
  }

  /** The slot that read number i uses. */
  function Slot(i: nat): (j: nat)
    ensures j < BUFF_SIZE
  {
    i % BUFF_SIZE
  }

  lemma SlotNext(k: nat)
    ensures Slot(k + 1) == (Slot(k) + 1) % BUFF_SIZE && Slot(k + BUFF_SIZE) == Slot(k) && Slot(0) == 0
  {
    var q, m := k / BUFF_SIZE, k % BUFF_SIZE;
    assert k == q * BUFF_SIZE + m;
    assert k + BUFF_SIZE == (q + 1) * BUFF_SIZE + m;
  }

  lemma SlotsApart(k: nat, i: nat)
    requires k < i < k + BUFF_SIZE
    ensures Slot(k) != Slot(i)
  {
  }

  /** Successful reads since the last reset. */
  function Position(h: seq<Event>): nat {
    if h == [] then 0
    else
      var before, e := h[..|h| - 1], h[|h| - 1];
      if e == Reset then 0 else Position(before) + if Succeeds(before, e) then 1 else 0
  }

  /** The last character put while the read position was j modulo the size. */
  function LastPutAt(h: seq<Event>, j: nat): char {
    if h == [] then '\0'
    else
      var before, e := h[..|h| - 1], h[|h| - 1];
      if Press(e) && Slot(Position(before)) == j then GetAscii(e.scancode) else LastPutAt(before, j)
  }

  /** The last character put since the last successful read, if any. */
  function LastPutSinceGet(h: seq<Event>): Option<char> {
    if h == [] then None
    else
      var before, e := h[..|h| - 1], h[|h| - 1];
      if Press(e) then Some(GetAscii(e.scancode))
      else if Succeeds(before, e) then None
      else LastPutSinceGet(before)
  }

  predicate NoReset(h: seq<Event>) {
    forall i :: 0 <= i < |h| ==> h[i] != Reset
  }

  /** On every history the counter and the read index mean what the history says. */
  lemma {:induction false} Meaning(h: seq<Event>)
    ensures var r := Run(Zeroed(), h);
            && r.cnt == Unread(h)
            && r.getIdx == Slot(Position(h))
    ensures NoReset(h) ==> Position(h) == |Outs(Zeroed(), h)|
  {
    hide GetAscii, Slot, Ahead;
    SlotNext(0);
    if h != [] {
      SlotNext(Position(h[..|h| - 1]));
      Meaning(h[..|h| - 1]);
      assert NoReset(h) ==> NoReset(h[..|h| - 1]);
    }
  }

  /** Any history, resets included: slot j holds the last character put while reads stood at j. */
  lemma {:induction false} SlotHistory(h: seq<Event>, j: nat)
    requires j < BUFF_SIZE
    ensures Run(Zeroed(), h).buff[j] == LastPutAt(h, j)
  {
    if h != [] {
      SlotHistory(h[..|h| - 1], j);
      Meaning(h[..|h| - 1]);
    }
  }

  /** Any history, resets included: the next successful read returns the last character put at its position. */
  lemma ReadOnAnyHistory(h: seq<Event>)
    requires Unread(h) > 0
    ensures Outs(Zeroed(), h + [Get]) == Outs(Zeroed(), h) + [LastPutAt(h, Slot(Position(h)))]
  {
    hide GetAscii, Slot, Ahead, Run, Outs, LastPutAt, Unread;
    Meaning(h);
    SlotHistory(h, Slot(Position(h)));
    RunOne(Zeroed(), h, Get);
  }

  /** What an earlier lap left in the slot of read i. */
  function Stale(outs: seq<char>, i: nat): char
    requires i < |outs| + BUFF_SIZE
  {
    if i >= BUFF_SIZE then outs[i - BUFF_SIZE] else '\0'
  }

  /** What the next successful read returns, given what the earlier ones returned. */
  function NextRead(h: seq<Event>, outs: seq<char>): char {
    match LastPutSinceGet(h)
    case Some(ch) => ch
    case None => Stale(outs, |outs|)
  }

  /** The read index has made |outs| steps; the slots ahead of it are still as the last lap left them. */
  ghost predicate Lap(r: Ring, h: seq<Event>, outs: seq<char>) {
    var k := |outs|;
    && Valid(r)
    && r.getIdx == Slot(k)
    && r.buff[Slot(k)] == NextRead(h, outs)
    && forall i :: k < i < k + BUFF_SIZE ==> r.buff[Slot(i)] == Stale(outs, i)
  }

  lemma LapRead(r: Ring, h: seq<Event>, outs: seq<char>)
    requires Lap(r, h, outs) && r.cnt > 0 && Unread(h) > 0
    ensures r.getIdx < |r.buff| && r.buff[r.getIdx] == NextRead(h, outs)
    ensures Lap(Take(r).0, h + [Get], outs + [NextRead(h, outs)])
  {
    hide Slot, Ahead, GetAscii, LastPutSinceGet;
    var k, outs' := |outs|, outs + [NextRead(h, outs)];
    assert Apply(r, Get) == Take(r).0;
    SlotNext(k);
    SinceReadIsNone(h);
    assert (h + [Get])[..|h|] == h;
    forall i | k + 1 <= i < k + 1 + BUFF_SIZE ensures r.buff[Slot(i)] == Stale(outs', i) {
      if i < k + BUFF_SIZE {
        assert r.buff[Slot(i)] == Stale(outs, i);
      }
    }
    assert r.buff[Slot(k + 1)] == Stale(outs', k + 1);
  }

  lemma SinceReadIsNone(h: seq<Event>)
    requires Unread(h) > 0
    ensures LastPutSinceGet(h + [Get]) == None
  {
    assert (h + [Get])[..|h|] == h;
  }

  lemma LapPut(r: Ring, h: seq<Event>, outs: seq<char>, e: Event)
    requires Lap(r, h, outs) && Press(e)
    ensures Lap(Apply(r, e), h + [e], outs)
  {
    hide GetAscii, Slot, Ahead;
    assert (h + [e])[..|h|] == h;
    var k := |outs|;
    forall i | k < i < k + BUFF_SIZE ensures Apply(r, e).buff[Slot(i)] == Stale(outs, i) {
      SlotsApart(k, i);
      assert r.buff[Slot(i)] == Stale(outs, i);
    }
  }

  lemma {:induction false} LapAlways(h: seq<Event>)
    requires NoReset(h)
    ensures Lap(Run(Zeroed(), h), h, Outs(Zeroed(), h))
  {
    hide GetAscii, Slot, Ahead, Lap, Run, Outs;
    if h == [] {
      LapStart();
    } else {
      var before, e := h[..|h| - 1], h[|h| - 1];
      LapAlways(before);
      Meaning(before);
      assert h == before + [e];
      RunOne(Zeroed(), before, e);
      var r, outs := Run(Zeroed(), before), Outs(Zeroed(), before);
      assert outs + [] == outs;
      if Succeeds(before, e) {
        LapRead(r, before, outs);
      } else if Press(e) {
        LapPut(r, before, outs, e);
      } else {
        assert e != Reset && Apply(r, e) == r;
        assert LastPutSinceGet(h) == LastPutSinceGet(before);
        LapSame(r, before, h, outs);
      }
    }
  }

  lemma LapStart()
    ensures Lap(Run(Zeroed(), []), [], Outs(Zeroed(), []))
  {
    SlotNext(0);
  }

  lemma LapSame(r: Ring, h: seq<Event>, h': seq<Event>, outs: seq<char>)
    requires Lap(r, h, outs) && LastPutSinceGet(h) == LastPutSinceGet(h')
    ensures Lap(r, h', outs)
  {
  }

  /**
   From the zeroed start and without resets, the k-th successful read (counting from
   zero) returns the last character put since the read before it; if there was none,
   what read k - 100 returned; and zero if k is below 100.
   */
  lemma KthRead(h: seq<Event>)
    requires NoReset(h) && Unread(h) > 0
    ensures var outs := Outs(Zeroed(), h); var k := |outs|;
            Outs(Zeroed(), h + [Get]) == outs +
              [match LastPutSinceGet(h)
               case Some(ch) => ch
               case None => if k >= 100 then outs[k - 100] else '\0']
  {
    hide GetAscii, Slot, Ahead, Run, Outs;
    LapAlways(h);
    Meaning(h);
    RunOne(Zeroed(), h, Get);
  }

  /** Two presses before a read: the first one is lost, so the ring is not a queue. */
  lemma NotAQueue()
    ensures var h := [Irq(0x10), Irq(0x11), Get, Get];
            Outs(Zeroed(), h) == ['w', '\0'] && GetAscii(0x10) == 'q' && GetAscii(0x11) == 'w'
  {
    var h0, h1: seq<Event> := [], [Irq(0x10)];
    var h2, h3 := h1 + [Irq(0x11)], h1 + [Irq(0x11)] + [Get];
    RunOne(Zeroed(), h0, Irq(0x10));
    RunOne(Zeroed(), h1, Irq(0x11));
    assert h0 + [Irq(0x10)] == h1;
    RunOne(Zeroed(), h2, Get);
    RunOne(Zeroed(), h3, Get);
    assert h3 + [Get] == [Irq(0x10), Irq(0x11), Get, Get];
  }

  // ---------- typing ----------

  /** Each key of the text is pressed and released, and read before the next one is pressed. */
  function TypedAndRead(text: seq<char>): seq<Event> {
    if text == [] then []
    else
      var n := |text| - 1;
      TypedAndRead(text[..n]) + [Irq(KeyOf(text[n]))] + [Irq(KeyOf(text[n]) + 0x80)] + [Get]
  }

  /** Text typed that way on an empty ring, wherever its indices stand, is what the reads return. */
  lemma {:induction false} TypedTextComesBack(r: Ring, text: seq<char>)
    requires Valid(r) && r.cnt == 0 && forall i :: 0 <= i < |text| ==> KeyOf(text[i]) != 0
    ensures Run(r, TypedAndRead(text)).cnt == 0
    ensures Outs(r, TypedAndRead(text)) == text
  {
    hide KeyOf, GetAscii, Ahead, Run, Outs;
    if text == [] {
      RunNone(r);
    } else {
      var n := |text| - 1;
      var key, h := KeyOf(text[n]), TypedAndRead(text[..n]);
      TypedTextComesBack(r, text[..n]);
      KeyStroke(Run(r, h), text[n]);
      KeyStroke(Apply(Run(r, h), Irq(key)), text[n]);
      RunOne(r, h, Irq(key));
      RunOne(r, h + [Irq(key)], Irq(key + 0x80));
      RunOne(r, h + [Irq(key)] + [Irq(key + 0x80)], Get);
      assert Outs(r, h) + [] + [] + [text[n]] == text;
    }
  }

  // ---------- the ledger ----------

  function Presses(h: seq<Event>): seq<char> {
    if h == [] then []
    else Presses(h[..|h| - 1]) + if Press(h[|h| - 1]) then [GetAscii(h[|h| - 1].scancode)] else []
  }

  function Discarded(h: seq<Event>): nat {
    if h == [] then 0
    else Discarded(h[..|h| - 1]) + if h[|h| - 1] == Reset then Unread(h[..|h| - 1]) else 0
  }

  /** Every press is still counted, was consumed by a read, or was discarded by a reset. */
  lemma {:induction false} Ledger(h: seq<Event>)
    ensures |Presses(h)| == Unread(h) + |Outs(Zeroed(), h)| + Discarded(h)
  {
    if h != [] {
      Ledger(h[..|h| - 1]);
      Meaning(h[..|h| - 1]);
    }
  }

  // ---------- when the ring is a queue all the same ----------

  /** The characters counted behind the read index: one slot after the other, from the read index on. */
  function Unreads(r: Ring): (u: seq<char>)
    requires Valid(r)
    ensures |u| == r.cnt
  {
    seq(r.cnt, i requires 0 <= i < r.cnt => r.buff[Ahead(r.getIdx, i)])
  }

  function Gets(n: nat): (h: seq<Event>)
    ensures |h| == n
  {
    seq(n, _ => Get)
  }

  /** They are what the next reads return, in that order, as far as reads go. */
  lemma {:induction false} NextReads(r: Ring, n: nat)
    requires Valid(r) && n <= r.cnt
    ensures Outs(r, Gets(n)) == Unreads(r)[..n]
    ensures Unreads(Run(r, Gets(n))) == Unreads(r)[n..]
  {
    hide Ahead, Run, Outs, Unreads;
    if n == 0 {
      RunNone(r);
    } else {
      NextReads(r, n - 1);
      assert Gets(n) == Gets(n - 1) + [Get];
      RunOne(r, Gets(n - 1), Get);
      TakeUnread(Run(r, Gets(n - 1)));
    }
  }

  lemma RunNone(r: Ring)
    requires Valid(r)
    ensures Run(r, []) == r && Outs(r, []) == []
  {
  }

  /** A read takes the first of them. */
  lemma TakeUnread(r: Ring)
    requires Valid(r)
    ensures r.cnt > 0 ==> Unreads(r) == [r.buff[r.getIdx]] + Unreads(Apply(r, Get))
    ensures r.cnt == 0 ==> Apply(r, Get) == r
  {
    if r.cnt > 0 {
      forall i | 0 <= i < r.cnt - 1 ensures Unreads(Apply(r, Get))[i] == Unreads(r)[i + 1] {
        assert Ahead((r.getIdx + 1) % BUFF_SIZE, i) == Ahead(r.getIdx, i + 1);
      }
    }
  }

  /** Nothing is unread, or the character already stands at the read index and at the write index. */
  predicate Harmless(r: Ring, c: char)
    requires Valid(r)
  {
    r.cnt == 0 || (r.buff[r.getIdx] == c && r.buff[r.putIdx] == c)
  }

  /** A put appends its character to the unread ones exactly then. */
  lemma PutAppends(r: Ring, c: char)
    requires Valid(r)
    ensures Valid(Put(r, c))
    ensures Unreads(Put(r, c)) == Unreads(r) + [c] <==> Harmless(r, c)
  {
    var r' := Put(r, c);
    assert Valid(r');
    assert forall i :: 0 <= i < r'.cnt ==> Unreads(r')[i] == r'.buff[Ahead(r.getIdx, i)];
    assert forall i :: 0 <= i < r.cnt ==> Unreads(r)[i] == r.buff[Ahead(r.getIdx, i)];
    assert r.cnt == 0 || Unreads(r)[0] == r.buff[r.getIdx];
    assert Unreads(r')[0] == c;
    assert Unreads(r')[r.cnt] == r'.buff[r.putIdx];
    if r.cnt > 0 && r.buff[r.getIdx] == c {
      assert r'.buff == r.buff;
    }
  }

  /** The characters that leave the ring in order: a read takes one, a reset drops all that are unread. */
  function Leaving(h: seq<Event>): seq<char> {
    if h == [] then []
    else
      var before := Run(Zeroed(), h[..|h| - 1]);
      Leaving(h[..|h| - 1]) +
        match h[|h| - 1]
        case Irq(_) => []
        case Get => if before.cnt > 0 then [before.buff[before.getIdx]] else []
        case Reset => Unreads(before)
  }

  /** Nothing is lost or reordered: what left the ring and what is unread is the decoded press stream. */
  ghost predicate Faithful(h: seq<Event>) {
    Leaving(h) + Unreads(Run(Zeroed(), h)) == Presses(h)
  }

  /** A press keeps the streams in agreement exactly when it is harmless; reads and resets always do. */
  lemma FaithfulStep(h: seq<Event>, e: Event)
    requires Faithful(h)
    ensures Faithful(h + [e]) <==> (Press(e) ==> Harmless(Run(Zeroed(), h), GetAscii(e.scancode)))
  {
    hide Run, Unreads, Presses, Leaving, Harmless, GetAscii;
    var r := Run(Zeroed(), h);
    OneEvent(h, e);
    match e
    case Irq(scancode) =>
      if Press(e) {
        var c := GetAscii(scancode);
        PutAppends(r, c);
        var u, u' := Unreads(r), Unreads(Put(r, c));
        assert Leaving(h) + (u + [c]) == Presses(h) + [c];
        SameTail(Leaving(h), u', u + [c]);
      }
    case Get => TakeUnread(r);
    case Reset => assert Unreads(Clear(r)) == [];
  }

  lemma SameTail(a: seq<char>, b: seq<char>, c: seq<char>)
    ensures a + b == a + c <==> b == c
  {
    assert b == (a + b)[|a|..] && c == (a + c)[|a|..];
  }

  lemma OneEvent(h: seq<Event>, e: Event)
    ensures var r := Run(Zeroed(), h);
            && Run(Zeroed(), h + [e]) == Apply(r, e)
            && Leaving(h + [e]) == Leaving(h) +
                 (match e
                  case Irq(_) => []
                  case Get => if r.cnt > 0 then [r.buff[r.getIdx]] else []
                  case Reset => Unreads(r))
            && Presses(h + [e]) == Presses(h) + (if Press(e) then [GetAscii(e.scancode)] else [])
  {
    hide GetAscii, Ahead;
    assert (h + [e])[..|h|] == h;
  }

  /** Every press of the history is harmless to the ring it finds. */
  ghost predicate Unharmed(h: seq<Event>) {
    forall i :: 0 <= i < |h| && Press(h[i]) ==> Harmless(Run(Zeroed(), h[..i]), GetAscii(h[i].scancode))
  }

  lemma UnharmedNext(h: seq<Event>, e: Event)
    ensures Unharmed(h + [e]) <==>
              Unharmed(h) && (Press(e) ==> Harmless(Run(Zeroed(), h), GetAscii(e.scancode)))
  {
    hide Run, Harmless, GetAscii, Press;
    var k := h + [e];
    assert k[..|h|] == h && k[|h|] == e;
    assert forall i :: 0 <= i < |h| ==> k[..i] == h[..i] && k[i] == h[i];
  }

  /** Faithful at every moment. */
  ghost predicate AlwaysFaithful(h: seq<Event>) {
    forall i :: 0 <= i <= |h| ==> Faithful(h[..i])
  }

  lemma AlwaysFaithfulNext(h: seq<Event>, e: Event)
    ensures AlwaysFaithful(h + [e]) <==> AlwaysFaithful(h) && Faithful(h + [e])
  {
    hide Faithful;
    var k := h + [e];
    assert k[..|k|] == k;
    assert forall i :: 0 <= i <= |h| ==> k[..i] == h[..i];
  }

  /**
   The ring keeps every press in order at every moment of a history exactly when each
   press finds nothing unread, or its own character at the read and the write index.
   */
  lemma {:induction false} FaithfulExactly(h: seq<Event>)
    ensures Unharmed(h) <==> AlwaysFaithful(h)
  {
    hide Unharmed, Faithful, Press, Harmless, GetAscii, Run;
    if h == [] {
      EmptyHistory();
    } else {
      var before, e := h[..|h| - 1], h[|h| - 1];
      assert h == before + [e];
      FaithfulExactly(before);
      UnharmedNext(before, e);
      AlwaysFaithfulNext(before, e);
      if AlwaysFaithful(before) {
        assert before[..|before|] == before;
        FaithfulStep(before, e);
      }
    }
  }

  lemma EmptyHistory()
    ensures Unharmed([]) && Faithful([]) && AlwaysFaithful([])
    ensures Run(Zeroed(), []) == Zeroed() && Outs(Zeroed(), []) == Leaving([]) == Presses([]) == []
  {
  }

  /** Every press happens when nothing is unread. */
  predicate Paced(h: seq<Event>) {
    forall i :: 0 <= i < |h| && Press(h[i]) ==> Unread(h[..i]) == 0
  }

  /** So it is enough that every press finds the ring empty: one character is unread at most. */
  lemma {:induction false} PacedIsExact(h: seq<Event>)
    requires Paced(h)
    ensures Unread(h) <= 1
    ensures Leaving(h) + Unreads(Run(Zeroed(), h)) == Presses(h)
  {
    hide Run, Leaving, Presses, Unreads, GetAscii;
    forall i | 0 <= i < |h| && Press(h[i])
      ensures Harmless(Run(Zeroed(), h[..i]), GetAscii(h[i].scancode))
    {
      Meaning(h[..i]);
    }
    FaithfulExactly(h);
    assert h[..|h|] == h;
    PacedUnread(h);
  }

  lemma {:induction false} PacedUnread(h: seq<Event>)
    requires Paced(h)
    ensures Unread(h) <= 1
  {
    if h != [] {
      var before, e := h[..|h| - 1], h[|h| - 1];
      assert forall i :: 0 <= i < |before| ==> before[..i] == h[..i] && before[i] == h[i];
      PacedUnread(before);
    }
  }

  /** Everything about one more event at once. */
  lemma Advance(h: seq<Event>, e: Event)
    ensures var r, k := Run(Zeroed(), h), h + [e];
            && Run(Zeroed(), k) == Apply(r, e)
            && Outs(Zeroed(), k) == Outs(Zeroed(), h) + (if e == Get && r.cnt > 0 then [r.buff[r.getIdx]] else [])
            && Presses(k) == Presses(h) + (if Press(e) then [GetAscii(e.scancode)] else [])
            && (Unharmed(k) <==> Unharmed(h) && (Press(e) ==> Harmless(r, GetAscii(e.scancode))))
  {
    hide Run, Outs, Presses, Unharmed, Harmless, GetAscii, Ahead;
    RunOne(Zeroed(), h, e);
    OneEvent(h, e);
    UnharmedNext(h, e);
  }

  /** A press and its read on an empty ring leave the character in the slot and move on by one. */
  lemma PressAndRead(h: seq<Event>, scancode: byte)
    requires Unharmed(h) && IsKeyPress(scancode) && Run(Zeroed(), h).cnt == 0
    ensures var r, k, c := Run(Zeroed(), h), h + [Irq(scancode)] + [Get], GetAscii(scancode);
            && Unharmed(k)
            && Run(Zeroed(), k).cnt == 0
            && Run(Zeroed(), k).getIdx == Ahead(r.getIdx, 1)
            && Run(Zeroed(), k).buff == r.buff[r.getIdx := c]
            && Outs(Zeroed(), k) == Outs(Zeroed(), h) + [c]
            && Presses(k) == Presses(h) + [c]
  {
    hide Run, Outs, Presses, Unharmed, GetAscii;
    Advance(h, Irq(scancode));
    Advance(h + [Irq(scancode)], Get);
  }

  /**
   Finding the ring empty is not necessary: after two laps left a character in both slots,
   two presses of it in a row are both kept, and two more reads return them.
   */
  lemma UnpacedWithoutLoss()
    ensures var h := [Irq(0x10), Get, Irq(0x10), Get, Reset, Irq(0x10), Irq(0x10)];
            !Paced(h) && AlwaysFaithful(h) && Outs(Zeroed(), h + [Get, Get]) == Presses(h) == ['q', 'q', 'q', 'q']
  {
    hide Run, Outs, Presses, Unharmed, AlwaysFaithful, Faithful, Unread;
    var h4 := [] + [Irq(0x10)] + [Get] + [Irq(0x10)] + [Get];
    var h5 := h4 + [Reset];
    var h6 := h5 + [Irq(0x10)];
    var h := h6 + [Irq(0x10)];
    EmptyHistory();
    PressAndRead([], 0x10);
    PressAndRead([] + [Irq(0x10)] + [Get], 0x10);
    Advance(h4, Reset);
    Advance(h5, Irq(0x10));
    Advance(h6, Irq(0x10));
    Advance(h, Get);
    Advance(h + [Get], Get);
    assert h == [Irq(0x10), Get, Irq(0x10), Get, Reset, Irq(0x10), Irq(0x10)];
    assert h + [Get] + [Get] == h + [Get, Get];
    FaithfulExactly(h);
    Meaning(h6);
    assert h[..6] == h6 && Press(h[6]);
  }

  /** Agreement at the end alone does not tell: a character of an earlier lap can make up for a lost one. */
  lemma LossCanCancel()
    ensures var h := [Irq(0x2d), Get, Irq(0x30), Get, Irq(0x1e), Get, Reset, Irq(0x1e), Irq(0x30), Irq(0x1e)];
            Faithful(h) && !Faithful(h[..9])
  {
    hide Run, Outs, Presses, Unharmed, Faithful, Leaving;
    var h2 := [] + [Irq(0x2d)] + [Get];
    var h4 := h2 + [Irq(0x30)] + [Get];
    var h6 := h4 + [Irq(0x1e)] + [Get];
    EmptyHistory();
    PressAndRead([], 0x2d);
    PressAndRead(h2, 0x30);
    PressAndRead(h4, 0x1e);
    FaithfulExactly(h6);
    assert h6[..|h6|] == h6;
    ThreePuts(h6);
    var h := [Irq(0x2d), Get, Irq(0x30), Get, Irq(0x1e), Get, Reset, Irq(0x1e), Irq(0x30), Irq(0x1e)];
    assert h == h6 + [Reset] + [Irq(0x1e)] + [Irq(0x30)] + [Irq(0x1e)];
    assert h[..9] == h6 + [Reset] + [Irq(0x1e)] + [Irq(0x30)];
  }

  lemma ThreePuts(h: seq<Event>)
    requires Faithful(h)
    requires var r := Run(Zeroed(), h); r.cnt == 0 && r.buff[1] == 'b' && r.buff[2] == 'a'
    ensures var k := h + [Reset] + [Irq(0x1e)] + [Irq(0x30)]; !Faithful(k) && Faithful(k + [Irq(0x1e)])
  {
    hide Run, Presses, Leaving, GetAscii;
    assert GetAscii(0x1e) == 'a' && GetAscii(0x30) == 'b' by { ThreeKeys(); }
    var h1 := h + [Reset];
    var h2 := h1 + [Irq(0x1e)];
    var h3 := h2 + [Irq(0x30)];
    OneEvent(h, Reset);
    OneEvent(h1, Irq(0x1e));
    OneEvent(h2, Irq(0x30));
    OneEvent(h3, Irq(0x1e));
    var l := Leaving(h);
    assert Presses(h) == l;
    assert Unreads(Run(Zeroed(), h3)) == ['b', 'b'];
    SameTail(l, ['b', 'b'], ['a', 'b']);
    assert Presses(h3) == l + ['a', 'b'];
    var h4 := h3 + [Irq(0x1e)];
    assert Unreads(Run(Zeroed(), h4)) == ['a', 'b', 'a'];
    assert Presses(h4) == l + ['a', 'b', 'a'];
  }

  lemma ThreeKeys()
    ensures GetAscii(0x2d) == 'x' && GetAscii(0x1e) == 'a' && GetAscii(0x30) == 'b'
  {
  }
}
