/** The keyboard device of `kbd.c` as an object whose fields the handlers change in place. */
module KbdDevice {
  import opened Common
  import opened KbdRing
  import opened KbdHistory

  datatype Result = Read(n: nat) | Fault

  /** The interrupts that arrive before one iteration of the read loop. */
  function Irqs(scancodes: seq<byte>): (h: seq<Event>)
    ensures |h| == |scancodes|
    ensures forall i :: 0 <= i < |scancodes| ==> h[i] == Irq(scancodes[i])
  {
    seq(|scancodes|, i requires 0 <= i < |scancodes| => Irq(scancodes[i]))
  }

  /** The events of n iterations of a read, with the interrupts in between. */
  function Schedule(arrivals: seq<seq<byte>>, n: nat): seq<Event>
    requires n <= |arrivals|
  {
    if n == 0 then [] else Schedule(arrivals, n - 1) + Irqs(arrivals[n - 1]) + [Get]
  }

  /** Key presses among the interrupts of the first n iterations. */
  function PressesIn(arrivals: seq<seq<byte>>, n: nat): nat
    requires n <= |arrivals|
  {
    if n == 0 then 0 else PressesIn(arrivals, n - 1) + |Presses(Irqs(arrivals[n - 1]))|
  }

  lemma {:induction false} IrqsOnlyAdd(r: Ring, scancodes: seq<byte>)
    requires Valid(r)
    ensures Run(r, Irqs(scancodes)).cnt == r.cnt + |Presses(Irqs(scancodes))|
    ensures Outs(r, Irqs(scancodes)) == []
  {
    if scancodes != [] {
      var n := |scancodes| - 1;
      IrqsOnlyAdd(r, scancodes[..n]);
      assert Irqs(scancodes)[..n] == Irqs(scancodes[..n]);
    }
  }

  class KbdDev {
    const buff: array<char>
    var putIdx: nat
    var getIdx: nat
    var cnt: nat

    ghost function Ring(): Ring
      reads this, buff
    {
      KbdRing.Ring(buff[..], putIdx, getIdx, cnt)
    }

    ghost predicate Ok()
      reads this, buff
    {
      buff.Length == BUFF_SIZE && Valid(Ring())
    }

    constructor ()
      ensures Ok() && fresh(buff) && Ring() == Zeroed()
    {
      buff := new char[BUFF_SIZE](_ => '\0');
      putIdx, getIdx, cnt := 0, 0, 0;
      new;
      assert buff[..] == Zeroed().buff;
    }

    method GetChar() returns (c: Option<char>)
      requires Ok()
      modifies this`getIdx, this`cnt
      ensures Ok() && (Ring(), c) == Take(old(Ring()))
      ensures c == None <==> old(cnt) == 0
    {
      c := None;
      assert Valid(Apply(Ring(), Get));
      if cnt > 0 {
        c := Some(buff[getIdx]);
        getIdx := (getIdx + 1) % BUFF_SIZE;
        cnt := cnt - 1;
      }
    }

    method PutChar(ch: char)
      requires Ok()
      modifies this`putIdx, this`cnt, buff
      ensures buff.Length == BUFF_SIZE && Ring() == Put(old(Ring()), ch)
    {
      buff[getIdx] := ch;
      putIdx := (putIdx + 1) % BUFF_SIZE;
      cnt := cnt + 1;
    }

    method ResetBuffer()
      requires Ok()
      modifies this`putIdx, this`getIdx, this`cnt
      ensures Ok() && Ring() == Clear(old(Ring()))
    {
      cnt := 0;
      getIdx := 0;
      putIdx := 0;
    }

    method IrqHandler(scancode: byte)
      requires Ok()
      modifies this`putIdx, this`cnt, buff
      ensures Ok() && Ring() == Apply(old(Ring()), Irq(scancode))
      ensures scancode < 0x80 ==>
                && cnt == old(cnt) + 1 && putIdx == (old(putIdx) + 1) % 100 && getIdx == old(getIdx)
                && buff[..] == old(buff[..])[getIdx := GetAscii(scancode)]
      ensures scancode >= 0x80 ==>
                cnt == old(cnt) && putIdx == old(putIdx) && getIdx == old(getIdx) && buff[..] == old(buff[..])
    {
      var pressed := IsKeyPress(scancode);
      var ch := GetAscii(scancode);
      if pressed {
        PutChar(ch);
      }
    }

    method KbdWrite(size: nat) returns (r: nat)
      requires Ok()
      modifies this`putIdx, this`getIdx, this`cnt
      ensures Ok() && Ring() == Apply(old(Ring()), Reset) && r == size
      ensures cnt == 0 && getIdx == 0 && putIdx == 0
    {
      ResetBuffer();
      r := size;
    }

    /** A burst of interrupts between two iterations of a reader. */
    method Burst(scancodes: seq<byte>)
      requires Ok()
      modifies this`putIdx, this`cnt, buff
      ensures Ok() && Ring() == Run(old(Ring()), Irqs(scancodes))
    {
      ghost var r0 := Ring();
      var i := 0;
      while i < |scancodes|
        invariant i <= |scancodes| && Ok()
        invariant Ring() == Run(r0, Irqs(scancodes)[..i])
      {
        var h := Irqs(scancodes);
        RunOne(r0, h[..i], h[i]);
        assert h[..i + 1] == h[..i] + [h[i]];
        IrqHandler(scancodes[i]);
        i := i + 1;
      }
      assert Irqs(scancodes)[..i] == Irqs(scancodes);
    }

    /**
     `kbd_read` with interrupts arriving before every iteration and `put_user` failing
     where `faults` says so.  `iterations` is how often the loop took the lock.
     */
    method KbdRead(size: nat, arrivals: seq<seq<byte>>, faults: seq<bool>)
      returns (r: Result, out: seq<char>, ghost iterations: nat)
      requires Ok() && |arrivals| == |faults| == size
      modifies this, buff
      ensures Ok() && iterations <= size
      ensures Ring() == Run(old(Ring()), Schedule(arrivals, iterations))
      // what reaches the user is what the locked reads returned, minus one if put_user failed
      ensures |out| <= iterations && Outs(old(Ring()), Schedule(arrivals, |out|)) == out
      ensures r.Fault? <==> |out| < iterations && faults[|out|]
                            && |Outs(old(Ring()), Schedule(arrivals, iterations))| == |out| + 1
      ensures r.Read? ==> r.n == |out| && Outs(old(Ring()), Schedule(arrivals, iterations)) == out
      // how much a read delivers
      ensures |out| <= old(cnt) + PressesIn(arrivals, |out|)
      ensures r.Read? && r.n < size ==>
                iterations == r.n + 1 && r.n == old(cnt) + PressesIn(arrivals, r.n + 1)
      ensures r.Read? && r.n == size ==> iterations == size
      ensures r.Read? ==> Min(size, old(cnt)) <= r.n <= Min(size, old(cnt) + PressesIn(arrivals, size))
    {
      hide Valid, Run, Outs, Presses, Irqs;
      ghost var r0 := Ring();
      out := [];
      ScheduleStart(r0, arrivals);
      iterations := 0;
      var left := size;
      while left > 0
        invariant left <= size && |out| == iterations == size - left <= |arrivals|
        invariant Ok() && Ring() == Run(r0, Schedule(arrivals, iterations))
        invariant Outs(r0, Schedule(arrivals, iterations)) == out
        invariant Ring().cnt + iterations == r0.cnt + PressesIn(arrivals, iterations)
      {
        left := left - 1;
        var i := size - left - 1;
        ghost var h := Schedule(arrivals, i);
        ReadIteration(r0, arrivals, i);
        Burst(arrivals[i]);
        var ch := GetChar();
        iterations := iterations + 1;
        if ch == None {
          ReadBounds(size, r0.cnt, arrivals, |out|);
          return Read(|out|), out, iterations;
        }
        if faults[i] {
          return Fault, out, iterations;
        }
        out := out + [ch.value];
      }
      ReadBounds(size, r0.cnt, arrivals, |out|);
      r := Read(|out|);
    }

    static lemma ScheduleStart(r0: Ring, arrivals: seq<seq<byte>>)
      requires Valid(r0)
      ensures Run(r0, Schedule(arrivals, 0)) == r0 && Outs(r0, Schedule(arrivals, 0)) == []
    {
    }

    /** One iteration of the read loop on values. */
    static lemma ReadIteration(r0: Ring, arrivals: seq<seq<byte>>, i: nat)
      requires Valid(r0) && i < |arrivals|
      ensures var h := Schedule(arrivals, i); var r := Run(Run(r0, h), Irqs(arrivals[i]));
              && r.cnt == Run(r0, h).cnt + |Presses(Irqs(arrivals[i]))|
              && Run(r0, Schedule(arrivals, i + 1)) == Take(r).0
              && Outs(r0, Schedule(arrivals, i + 1)) ==
                   Outs(r0, h) + match Take(r).1 case Some(c) => [c] case None => []
    {
      var h, k := Schedule(arrivals, i), Irqs(arrivals[i]);
      RunConcat(r0, h, k);
      RunOne(r0, h + k, Get);
      IrqsOnlyAdd(Run(r0, h), arrivals[i]);
    }
  }

  /** A read that meets no fault returns between min(size, cnt) and min(size, cnt + presses). */
  lemma ReadBounds(size: nat, cnt: nat, arrivals: seq<seq<byte>>, n: nat)
    requires n <= size == |arrivals| && n <= cnt + PressesIn(arrivals, n)
    requires n < size ==> n == cnt + PressesIn(arrivals, n + 1)
    ensures Min(size, cnt) <= n <= Min(size, cnt + PressesIn(arrivals, size))
  {
    PressesGrow(arrivals, n, size);
  }

  lemma {:induction false} PressesGrow(arrivals: seq<seq<byte>>, i: nat, j: nat)
    requires i <= j <= |arrivals|
    ensures PressesIn(arrivals, i) <= PressesIn(arrivals, j)
  {
    if i < j {
      PressesGrow(arrivals, i, j - 1);
    }
  }
}
