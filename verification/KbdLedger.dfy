/**
 The keyboard driver as a step machine: any number of readers, each relocking for every
 character, interleaved with interrupts and resetting writers.
 */
module KbdLedger {
  import opened Common
  import opened KbdRing
  import opened KbdHistory
  import opened Counting
  import opened Masks

  datatype Reader =
    | Idle
    | Loop(left: nat, read: nat)                    // at the loop test, lock not held
    | Hand(ch: char, left: nat, read: nat, no: nat) // between locked read number no and put_user

  /** What became of a character that a locked read took. */
  datatype Fate =
    | InHand(t: nat)
    | Delivered(t: nat)     // put_user copied it
    | Lost(t: nat)          // put_user failed

  datatype State = State(
    ring: Ring,
    readers: seq<Reader>,
    hist: seq<Event>,              // the locked operations so far
    fates: seq<Fate>,              // one for each successful locked read, in order
    delivered: seq<seq<char>>,     // what put_user copied for each reader, in order
    faults: nat)                   // kbd_read calls that returned -EFAULT

  datatype Action =
    | Interrupt(scancode: byte)
    | Write                          // kbd_write
    | Start(t: nat, size: nat)       // a reader enters kbd_read
    | Fetch(t: nat)                  // the loop test and the locked get_char
    | Copy(t: nat, ok: bool)         // put_user

  function Init(readers: nat): State {
    State(Zeroed(), seq(readers, _ => Idle), [], [], seq(readers, _ => []), 0)
  }

  predicate Enabled(s: State, a: Action) {
    match a
    case Interrupt(_) => true
    case Write => true
    case Start(t, _) => t < |s.readers| && s.readers[t].Idle?
    case Fetch(t) => t < |s.readers| && s.readers[t].Loop?
    case Copy(t, _) => t < |s.readers| && s.readers[t].Hand?
  }

  function Locked(s: State, e: Event): State
    requires Valid(s.ring)
  {
    s.(ring := Apply(s.ring, e), hist := s.hist + [e])
  }

  function At(s: State, t: nat, pc: Reader): State
    requires t < |s.readers|
  {
    s.(readers := s.readers[t := pc])
  }

  ghost predicate WellFormed(s: State) {
    && Valid(s.ring)
    && |s.delivered| == |s.readers|
    && forall t :: 0 <= t < |s.readers| && s.readers[t].Hand? ==> s.readers[t].no < |s.fates|
  }

  function Next(s: State, a: Action): State
    requires Enabled(s, a) && WellFormed(s)
  {
    match a
    case Interrupt(scancode) => if IsKeyPress(scancode) then Locked(s, Irq(scancode)) else s
    case Write => Locked(s, Reset)
    case Start(t, size) => At(s, t, Loop(size, 0))
    case Fetch(t) =>
      var Loop(left, read) := s.readers[t];
      if left == 0 then At(s, t, Idle)
      else
        (match Take(s.ring).1
         case None => Locked(At(s, t, Idle), Get)
         case Some(ch) =>
           Locked(At(s, t, Hand(ch, left - 1, read, |s.fates|)), Get).(fates := s.fates + [InHand(t)]))
    case Copy(t, ok) =>
      var Hand(ch, left, read, no) := s.readers[t];
      if ok then
        At(s, t, Loop(left, read + 1))
          .(fates := s.fates[no := Delivered(t)], delivered := s.delivered[t := s.delivered[t] + [ch]])
      else At(s, t, Idle).(fates := s.fates[no := Lost(t)], faults := s.faults + 1)
  }

  function Holding(): Reader -> bool {
    (pc: Reader) => pc.Hand?
  }

  function Losing(): Fate -> bool {
    (fate: Fate) => fate.Lost?
  }

  function Held(): Fate -> bool {
    (fate: Fate) => fate.InHand?
  }

  function Given(): Fate -> bool {
    (fate: Fate) => fate.Delivered?
  }

  function Total(xs: seq<seq<char>>): nat {
    if xs == [] then 0 else |xs[0]| + Total(xs[1..])
  }

  lemma {:induction false} TotalUpdate(xs: seq<seq<char>>, i: nat, x: seq<char>)
    requires i < |xs|
    ensures Total(xs[i := x]) == Total(xs) - |xs[i]| + |x|
  {
    if i > 0 {
      TotalUpdate(xs[1..], i - 1, x);
      assert xs[i := x][1..] == xs[1..][i - 1 := x];
    }
  }

  lemma {:induction false} TotalNone(xs: seq<seq<char>>)
    requires forall i :: 0 <= i < |xs| ==> xs[i] == []
    ensures Total(xs) == 0
  {
    if xs != [] {
      TotalNone(xs[1..]);
    }
  }

  // ---------- the characters of one fate ----------

  function Where(fates: seq<Fate>, fate: Fate): (mask: seq<bool>)
    ensures |mask| == |fates|
  {
    seq(|fates|, i requires 0 <= i < |fates| => fates[i] == fate)
  }

  /** The characters with the given fate, in the order in which they were read. */
  function Chosen(outs: seq<char>, fates: seq<Fate>, fate: Fate): seq<char>
    requires |outs| == |fates|
  {
    Keep(outs, Where(fates, fate))
  }

  lemma ChosenNext(outs: seq<char>, fates: seq<Fate>, c: char, f: Fate, fate: Fate)
    requires |outs| == |fates|
    ensures Chosen(outs + [c], fates + [f], fate) == Chosen(outs, fates, fate) + if f == fate then [c] else []
  {
    var n := |outs|;
    KeepNext(outs + [c], Where(fates + [f], fate), n);
    KeepToPrefix(outs, outs + [c], Where(fates, fate), Where(fates + [f], fate), n);
  }

  /** Settling a read after which its reader took nothing else appends the character to those of its fate. */
  lemma {:induction false} KeepMark(xs: seq<char>, mask: seq<bool>, i: nat, n: nat)
    requires |xs| == |mask| && i < n <= |xs| && !mask[i]
    requires forall j :: i < j < n ==> !mask[j]
    ensures KeepTo(xs, mask[i := true], n) == KeepTo(xs, mask, n) + [xs[i]]
  {
    if n == i + 1 {
      KeepToPrefix(xs, xs, mask, mask[i := true], i);
    } else {
      KeepMark(xs, mask, i, n - 1);
    }
  }

  lemma ChosenSettled(outs: seq<char>, fates: seq<Fate>, i: nat, f: Fate, fate: Fate)
    requires |outs| == |fates| && i < |fates| && fates[i] != fate
    requires forall j :: i < j < |fates| ==> fates[j].t != f.t
    ensures Chosen(outs, fates[i := f], fate) == Chosen(outs, fates, fate) + if f == fate then [outs[i]] else []
  {
    if f == fate {
      KeepMark(outs, Where(fates, fate), i, |outs|);
      assert Where(fates[i := f], fate) == Where(fates, fate)[i := true];
    } else {
      assert Where(fates[i := f], fate) == Where(fates, fate);
    }
  }

  // ---------- the invariant ----------

  /** Reader t holds the character of its last read exactly if that one is in hand. */
  ghost predicate HandsAgree(outs: seq<char>, fates: seq<Fate>, readers: seq<Reader>) {
    && |fates| == |outs|
    && (forall i :: 0 <= i < |fates| ==> fates[i].t < |readers|)
    && (forall i :: 0 <= i < |fates| && fates[i].InHand? ==>
          readers[fates[i].t].Hand? && readers[fates[i].t].no == i)
    && (forall t :: 0 <= t < |readers| && readers[t].Hand? ==>
          && readers[t].no < |fates|
          && fates[readers[t].no] == InHand(t)
          && outs[readers[t].no] == readers[t].ch
          && forall j :: readers[t].no < j < |fates| ==> fates[j].t != t)
  }

  /** What each reader was given is, in order, the characters whose fate that is. */
  ghost predicate BuffersAgree(outs: seq<char>, fates: seq<Fate>, delivered: seq<seq<char>>)
    requires |fates| == |outs|
  {
    forall t :: 0 <= t < |delivered| ==> delivered[t] == Chosen(outs, fates, Delivered(t))
  }

  ghost predicate Inv(s: State) {
    && WellFormed(s)
    && s.ring == Run(Zeroed(), s.hist)
    && HandsAgree(Outs(Zeroed(), s.hist), s.fates, s.readers)
    && BuffersAgree(Outs(Zeroed(), s.hist), s.fates, s.delivered)
    && Total(s.delivered) == Count(s.fates, Given())
    && s.faults == Count(s.fates, Losing())
    && Count(s.fates, Held()) == Count(s.readers, Holding())
  }

  lemma Step(s: State, a: Action)
    requires Inv(s) && Enabled(s, a)
    ensures Inv(Next(s, a)) && |Next(s, a).readers| == |s.readers|
  {
    hide Valid, Run, Outs, GetAscii, Chosen, Count, HandsAgree, BuffersAgree, Total, Apply;
    var outs := Outs(Zeroed(), s.hist);
    assert outs + [] == outs;
    match a
    case Interrupt(scancode) => RunOne(Zeroed(), s.hist, Irq(scancode));
    case Write => RunOne(Zeroed(), s.hist, Reset);
    case Start(t, size) => StartStep(s, t, size);
    case Fetch(t) => FetchStep(s, t);
    case Copy(t, ok) => CopyStep(s, t, ok);
  }

  lemma StartStep(s: State, t: nat, size: nat)
    requires Inv(s) && Enabled(s, Start(t, size))
    ensures Inv(Next(s, Start(t, size))) && |Next(s, Start(t, size)).readers| == |s.readers|
  {
    hide Valid, Run, Outs, Chosen, Count;
    CountUpdate(s.readers, t, Loop(size, 0), Holding());
  }

  lemma FetchStep(s: State, t: nat)
    requires Inv(s) && Enabled(s, Fetch(t))
    ensures Inv(Next(s, Fetch(t))) && |Next(s, Fetch(t)).readers| == |s.readers|
  {
    hide Valid, Run, Outs, GetAscii, Chosen, Count;
    var s' := Next(s, Fetch(t));
    RunOne(Zeroed(), s.hist, Get);
    CountUpdate(s.readers, t, s'.readers[t], Holding());
    var outs := Outs(Zeroed(), s.hist);
    assert outs + [] == outs;
    if s'.readers[t].Hand? {
      var ch := s'.readers[t].ch;
      assert Outs(Zeroed(), s'.hist) == outs + [ch];
      FatesNext(s.fates, InHand(t));
      forall u | 0 <= u < |s.delivered| ensures s'.delivered[u] == Chosen(outs + [ch], s'.fates, Delivered(u)) {
        ChosenNext(outs, s.fates, ch, InHand(t), Delivered(u));
      }
    }
  }

  lemma FatesNext(fates: seq<Fate>, f: Fate)
    ensures Count(fates + [f], Held()) == Count(fates, Held()) + One(f.InHand?)
    ensures Count(fates + [f], Losing()) == Count(fates, Losing()) + One(f.Lost?)
    ensures Count(fates + [f], Given()) == Count(fates, Given()) + One(f.Delivered?)
  {
    CountConcat(fates, [f], Held());
    CountConcat(fates, [f], Losing());
    CountConcat(fates, [f], Given());
  }

  lemma CopyStep(s: State, t: nat, ok: bool)
    requires Inv(s) && Enabled(s, Copy(t, ok))
    ensures Inv(Next(s, Copy(t, ok))) && |Next(s, Copy(t, ok)).readers| == |s.readers|
  {
    hide Valid, Run, Outs, GetAscii, Chosen, Count;
    var s', no := Next(s, Copy(t, ok)), s.readers[t].no;
    var fate := if ok then Delivered(t) else Lost(t);
    CountUpdate(s.readers, t, s'.readers[t], Holding());
    CountUpdate(s.fates, no, fate, Held());
    CountUpdate(s.fates, no, fate, Losing());
    CountUpdate(s.fates, no, fate, Given());
    if ok {
      TotalUpdate(s.delivered, t, s.delivered[t] + [s.readers[t].ch]);
    }
    var outs := Outs(Zeroed(), s.hist);
    forall u | 0 <= u < |s.delivered| ensures s'.delivered[u] == Chosen(outs, s'.fates, Delivered(u)) {
      ChosenSettled(outs, s.fates, no, fate, Delivered(u));
    }
  }

  /** The state after a schedule of actions. */
  ghost predicate Leads(s: State, acts: seq<Action>, s': State)
    requires Inv(s)
    decreases |acts|
  {
    if acts == [] then s' == s
    else Enabled(s, acts[0]) && (Step(s, acts[0]); Leads(Next(s, acts[0]), acts[1..], s'))
  }

  lemma {:induction false} InvAlways(s: State, acts: seq<Action>, s': State)
    requires Inv(s) && Leads(s, acts, s')
    ensures Inv(s') && |s'.readers| == |s.readers|
    decreases |acts|
  {
    hide Enabled, Next, Run, Outs, Ahead, HandsAgree, BuffersAgree, Count;
    if acts != [] {
      Step(s, acts[0]);
      InvAlways(Next(s, acts[0]), acts[1..], s');
    }
  }

  lemma InitInv(readers: nat)
    ensures Inv(Init(readers))
  {
    var s := Init(readers);
    CountNone(s.readers, Holding());
    CountNone(s.fates, Held());
    CountNone(s.fates, Losing());
    CountNone(s.fates, Given());
    TotalNone(s.delivered);
    assert Outs(Zeroed(), []) == [];
  }

  /**
   On every interleaving of readers, writers and interrupts every character that a locked
   read took has one fate: reader t was given, in the order of the reads, the characters
   whose fate is to be delivered to t, and holds the one in hand, which is its last.
   */
  lemma EveryReadHasOneFate(readers: nat, acts: seq<Action>, s: State)
    requires (InitInv(readers); Leads(Init(readers), acts, s))
    ensures var outs := Outs(Zeroed(), s.hist);
            && |s.fates| == |outs|
            && |s.delivered| == |s.readers| == readers
            && (forall i :: 0 <= i < |outs| ==> s.fates[i].t < readers)
            && (forall t :: 0 <= t < readers ==>
                  PicksExactly(s.delivered[t], outs, Where(s.fates, Delivered(t)),
                               Marked(Where(s.fates, Delivered(t)), |outs|)))
            && (forall i, t :: 0 <= i < |outs| && 0 <= t < readers ==>
                  (s.fates[i] == InHand(t) <==> s.readers[t].Hand? && s.readers[t].no == i))
            && (forall t :: 0 <= t < readers && s.readers[t].Hand? ==>
                  s.readers[t].no < |outs| && outs[s.readers[t].no] == s.readers[t].ch)
  {
    hide Run, Outs, Leads, Marked, PicksExactly;
    InitInv(readers);
    InvAlways(Init(readers), acts, s);
    var outs := Outs(Zeroed(), s.hist);
    forall t | 0 <= t < readers
      ensures PicksExactly(s.delivered[t], outs, Where(s.fates, Delivered(t)),
                           Marked(Where(s.fates, Delivered(t)), |outs|))
    {
      KeepPicks(outs, Where(s.fates, Delivered(t)));
    }
  }

  /** Three fates and no other. */
  lemma {:induction false} FatesAddUp(fates: seq<Fate>)
    ensures Count(fates, Given()) + Count(fates, Losing()) + Count(fates, Held()) == |fates|
  {
    if fates != [] {
      FatesAddUp(fates[1..]);
    }
  }

  /**
   Counted, each press is one of these: still counted, delivered, lost by a failed
   `put_user` (exactly one for each -EFAULT), in a reader's hand, or discarded by a reset.
   */
  lemma EveryPressAccountedFor(readers: nat, acts: seq<Action>, s: State)
    requires (InitInv(readers); Leads(Init(readers), acts, s))
    ensures |Presses(s.hist)| ==
              s.ring.cnt + Total(s.delivered) + s.faults + Count(s.readers, Holding()) + Discarded(s.hist)
    ensures s.ring.putIdx == (s.ring.getIdx + s.ring.cnt) % BUFF_SIZE && s.ring.getIdx < BUFF_SIZE
    ensures s.ring.cnt == Unread(s.hist)
  {
    hide Run, Outs, Presses, Unread, Discarded, Leads, Count;
    InitInv(readers);
    InvAlways(Init(readers), acts, s);
    FatesAddUp(s.fates);
    Ledger(s.hist);
    Meaning(s.hist);
  }

  // ---------- what the history is made of ----------

  /** The presses and resets of a history, without the reads. */
  function Inputs(h: seq<Event>): seq<Event> {
    if h == [] then []
    else Inputs(h[..|h| - 1]) + if h[|h| - 1] == Get then [] else [h[|h| - 1]]
  }

  function InputOf(a: Action): seq<Event> {
    match a
    case Interrupt(scancode) => if scancode < 0x80 then [Irq(scancode)] else []
    case Write => [Reset]
    case _ => []
  }

  function InputsOf(acts: seq<Action>): seq<Event> {
    if acts == [] then [] else InputOf(acts[0]) + InputsOf(acts[1..])
  }

  lemma InputsNext(h: seq<Event>, e: Event)
    ensures Inputs(h + [e]) == Inputs(h) + if e == Get then [] else [e]
  {
    assert (h + [e])[..|h|] == h;
  }

  lemma InputStep(s: State, a: Action)
    requires Inv(s) && Enabled(s, a)
    ensures Inputs(Next(s, a).hist) == Inputs(s.hist) + InputOf(a)
  {
    hide Valid, Run, Outs, HandsAgree, BuffersAgree, Count, Total, Inputs;
    assert Inputs(s.hist) + [] == Inputs(s.hist);
    match a
    case Interrupt(scancode) => InputsNext(s.hist, Irq(scancode));
    case Write => InputsNext(s.hist, Reset);
    case Fetch(_) => InputsNext(s.hist, Get);
    case Start(_, _) =>
    case Copy(_, _) =>
  }

  /** The history of a run holds exactly its key presses and its resets, in order, and reads in between. */
  lemma {:induction false} InputsAlways(s: State, acts: seq<Action>, s': State)
    requires Inv(s) && Leads(s, acts, s')
    ensures Inputs(s'.hist) == Inputs(s.hist) + InputsOf(acts)
    decreases |acts|
  {
    hide Enabled, Next, Run, Outs, Ahead, HandsAgree, BuffersAgree, Count, Total, Inputs, InputOf;
    if acts != [] {
      Step(s, acts[0]);
      InputStep(s, acts[0]);
      InputsAlways(Next(s, acts[0]), acts[1..], s');
    }
  }

  // ---------- one call of kbd_read ----------

  /** Reader t has been given at most size characters beyond base, and counts them while its call lasts. */
  ghost predicate Calling(s: State, t: nat, base: seq<char>, size: nat) {
    && t < |s.readers| && t < |s.delivered|
    && base <= s.delivered[t]
    && var given := |s.delivered[t]| - |base|;
       match s.readers[t]
       case Idle => given <= size
       case Loop(left, read) => given == read && read + left == size
       case Hand(_, left, read, _) => given == read && read + 1 + left == size
  }

  lemma CallStep(s: State, a: Action, t: nat, base: seq<char>, size: nat)
    requires Inv(s) && Enabled(s, a) && Calling(s, t, base, size) && !(a.Start? && a.t == t)
    ensures Calling(Next(s, a), t, base, size)
  {
    hide Valid, Run, Outs, GetAscii, HandsAgree, BuffersAgree, Count, Total;
    match a
    case Interrupt(_) =>
    case Write =>
    case Start(_, _) =>
    case Fetch(_) =>
    case Copy(_, _) =>
  }

  lemma {:induction false} CallAlways(s: State, acts: seq<Action>, s': State, t: nat, base: seq<char>, size: nat)
    requires Inv(s) && Leads(s, acts, s') && Calling(s, t, base, size)
    requires forall i :: 0 <= i < |acts| ==> !(acts[i].Start? && acts[i].t == t)
    ensures Calling(s', t, base, size)
    decreases |acts|
  {
    hide Enabled, Next, Calling, Run, Outs, Ahead, HandsAgree, BuffersAgree, Count, Total;
    if acts != [] {
      Step(s, acts[0]);
      CallStep(s, acts[0], t, base, size);
      CallAlways(Next(s, acts[0]), acts[1..], s', t, base, size);
    }
  }

  /**
   Whatever the others do, from the moment a reader enters `kbd_read` until it enters it
   again it is given at most the size it asked for, and while the call lasts the count it
   will return is what it was given.
   */
  lemma CallGivesAtMostSize(s: State, t: nat, size: nat, acts: seq<Action>, s': State)
    requires Inv(s) && Enabled(s, Start(t, size))
    requires (Step(s, Start(t, size)); Leads(Next(s, Start(t, size)), acts, s'))
    requires forall i :: 0 <= i < |acts| ==> !(acts[i].Start? && acts[i].t == t)
    ensures t < |s.delivered| == |s'.delivered| == |s'.readers|
    ensures s.delivered[t] <= s'.delivered[t] && |s'.delivered[t]| <= |s.delivered[t]| + size
    ensures s'.readers[t].Loop? ==> s'.readers[t].read == |s'.delivered[t]| - |s.delivered[t]|
  {
    hide Leads, Run, Outs, Ahead, HandsAgree, BuffersAgree, Count, Total;
    Step(s, Start(t, size));
    var s1 := Next(s, Start(t, size));
    InvAlways(s1, acts, s');
    CallAlways(s1, acts, s', t, s.delivered[t], size);
  }

  lemma Prepend(s: State, a: Action, acts: seq<Action>, s': State)
    requires Inv(s) && Enabled(s, a) && (Step(s, a); Leads(Next(s, a), acts, s'))
    ensures Leads(s, [a] + acts, s')
  {
    hide Next, Enabled, Run, Outs, Ahead, HandsAgree, BuffersAgree, Count, Total;
    assert ([a] + acts)[1..] == acts;
  }

  /**
   A call ends exactly when it has asked for everything it wants, when a locked read finds
   nothing counted, or when a copy fails; and a failed copy is given nothing.
   */
  lemma CallEnds(s: State, a: Action, t: nat)
    requires Inv(s) && Enabled(s, a) && t < |s.readers| && !s.readers[t].Idle?
    ensures var s' := Next(s, a);
            t < |s'.readers| && t < |s'.delivered| && t < |s.delivered|
            && (s'.readers[t].Idle? <==>
                  || (a == Fetch(t) && (s.readers[t].left == 0 || s.ring.cnt == 0))
                  || a == Copy(t, false))
            && (a == Copy(t, false) ==> s'.delivered[t] == s.delivered[t] && s'.faults == s.faults + 1)
  {
    hide Valid, Run, Outs, GetAscii, HandsAgree, BuffersAgree, Count, Total;
  }

  /** n rounds of a locked read and a copy, then the read that ends the call. */
  function Rounds(t: nat, n: nat): seq<Action> {
    if n == 0 then [Fetch(t)] else [Fetch(t), Copy(t, true)] + Rounds(t, n - 1)
  }

  /** A reader inside its call, undisturbed, is given the unread characters as far as it asked, and returns. */
  lemma {:induction false} RoundsAlone(s: State, t: nat, n: nat) returns (s': State)
    requires Inv(s) && t < |s.readers| && s.readers[t].Loop? && n == Min(s.readers[t].left, s.ring.cnt)
    ensures Leads(s, Rounds(t, n), s') && Inv(s') && |s'.delivered| == |s.delivered| && |s'.readers| == |s.readers|
    ensures s'.readers[t] == Idle
    ensures s'.delivered[t] == s.delivered[t] + Unreads(s.ring)[..n]
    ensures s'.ring.cnt == s.ring.cnt - n
    decreases n
  {
    hide Run, Outs, Ahead, HandsAgree, BuffersAgree, Count, Total, Unreads, GetAscii;
    Step(s, Fetch(t));
    var s1 := Next(s, Fetch(t));
    if n == 0 {
      s' := s1;
      assert [Fetch(t)][1..] == [];
      assert Leads(s1, [], s');
    } else {
      Step(s1, Copy(t, true));
      var s2 := Next(s1, Copy(t, true));
      TakeUnread(s.ring);
      s' := RoundsAlone(s2, t, n - 1);
      Prepend(s1, Copy(t, true), Rounds(t, n - 1), s');
      Prepend(s, Fetch(t), [Copy(t, true)] + Rounds(t, n - 1), s');
      assert [Fetch(t)] + ([Copy(t, true)] + Rounds(t, n - 1)) == Rounds(t, n);
      assert s2.ring == KbdRing.Apply(s.ring, Get);
      assert Unreads(s.ring)[..n] == [s.ring.buff[s.ring.getIdx]] + Unreads(s2.ring)[..n - 1];
    }
  }

  /** An undisturbed call of any size on any ring: what it is given are the next unread characters. */
  lemma ReadAlone(s: State, t: nat, size: nat) returns (s': State)
    requires Inv(s) && t < |s.readers| && s.readers[t].Idle?
    ensures Leads(s, [Start(t, size)] + Rounds(t, Min(size, s.ring.cnt)), s')
    ensures |s'.delivered| == |s.delivered| && |s'.readers| == |s.readers| && s'.readers[t] == Idle
    ensures s'.delivered[t] == s.delivered[t] + Unreads(s.ring)[..Min(size, s.ring.cnt)]
  {
    hide Run, Outs, Ahead, HandsAgree, BuffersAgree, Count, Total, Unreads, GetAscii, Leads;
    Step(s, Start(t, size));
    s' := RoundsAlone(Next(s, Start(t, size)), t, Min(size, s.ring.cnt));
    Prepend(s, Start(t, size), Rounds(t, Min(size, s.ring.cnt)), s');
  }
}
