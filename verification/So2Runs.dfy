/** Any number of processes opening, reading, writing and releasing the message device. */
module So2Runs {
  import opened Common
  import opened So2Device

  datatype State = State(msg: seq<char>, isOpen: int, files: map<nat, offset>)

  datatype Op =
    | Open(f: nat)
    | Read(f: nat, size: nat, fault: bool)
    | Write(f: nat, data: seq<char>, landed: Option<seq<char>>)
    | Release(f: nat)

  /** A file is read, written and released between its successful open and its release. */
  predicate Enabled(s: State, op: Op) {
    match op
    case Open(f) => f !in s.files
    case Read(f, _, _) => f in s.files
    case Write(f, data, landed) =>
      f in s.files && (landed.Some? ==> |landed.value| <= Min(|data|, MSG_MAX - 1))
    case Release(f) => f in s.files
  }

  ghost predicate Inv(s: State) {
    && Terminated(s.msg)
    && s.isOpen == |s.files|
    && 0 <= s.isOpen <= 1
    && forall f :: f in s.files ==> 0 <= s.files[f] < MSG_MAX
  }

  function Delivered(s: State, op: Op): seq<char>
    requires Enabled(s, op)
  {
    if op.Read? && !op.fault then Chunk(s.msg, op.size, s.files[op.f]) else []
  }

  function Next(s: State, op: Op): (s': State)
    requires Inv(s) && Enabled(s, op)
  {
    match op
    case Open(f) => if s.isOpen != 0 then s else s.(isOpen := 1, files := s.files[f := 0])
    case Read(f, _, _) =>
      ChunkFits(s.msg, op, s.files[f]);
      s.(files := s.files[f := s.files[f] + |Delivered(s, op)|])
    case Write(f, data, None) => s.(msg := Stored(s.msg, data), files := s.files[f := 0])
    case Write(f, data, Some(landed)) => s.(msg := Damaged(s.msg, landed))
    case Release(f) => s.(isOpen := 0, files := s.files - {f})
  }

  lemma ChunkFits(msg: seq<char>, op: Op, o: offset)
    requires Terminated(msg) && op.Read? && 0 <= o < MSG_MAX
    ensures o + |Chunk(msg, op.size, o)| < MSG_MAX
  {
    StrlenBound(msg);
  }

  lemma OnlyOne(files: map<nat, offset>, f: nat, g: nat)
    requires |files| <= 1 && f in files && g in files
    ensures f == g
  {
    var rest := files.Keys - {f};
    assert files.Keys == rest + {f};
    assert |rest| == 0;
    assert rest == {};
  }

  /**
   Every operation, failed copies included, keeps byte 127 NUL, and keeps the open flag
   equal to the number of opened and unreleased files, which is never two.
   */
  lemma InvStep(s: State, op: Op)
    requires Inv(s) && Enabled(s, op)
    ensures Inv(Next(s, op))
  {
    match op
    case Open(f) =>
      if s.isOpen == 0 {
        assert s.files == map[];
        assert s.files[f := 0].Keys == {f};
      }
    case Read(f, _, _) =>
      ChunkFits(s.msg, op, s.files[f]);
      assert Next(s, op).files.Keys == s.files.Keys;
    case Write(f, _, _) =>
      assert s.files[f := 0].Keys == s.files.Keys;
    case Release(f) =>
      assert forall g :: g in s.files ==> g == f by {
        forall g | g in s.files ensures g == f {
          OnlyOne(s.files, f, g);
        }
      }
      assert (s.files - {f}).Keys == {};
  }

  /** All operations of a sequence are enabled when their turn comes. */
  ghost predicate Legal(s: State, ops: seq<Op>)
    requires Inv(s)
    decreases |ops|
  {
    ops == [] || (Enabled(s, ops[0]) && (InvStep(s, ops[0]); Legal(Next(s, ops[0]), ops[1..])))
  }

  ghost function After(s: State, ops: seq<Op>): (s': State)
    requires Inv(s) && Legal(s, ops)
    ensures Inv(s')
    decreases |ops|
  {
    if ops == [] then s else InvStep(s, ops[0]); After(Next(s, ops[0]), ops[1..])
  }

  /** Everything the reads of a sequence deliver, in order. */
  ghost function Stream(s: State, ops: seq<Op>): seq<char>
    requires Inv(s) && Legal(s, ops)
    decreases |ops|
  {
    if ops == [] then []
    else InvStep(s, ops[0]); Delivered(s, ops[0]) + Stream(Next(s, ops[0]), ops[1..])
  }

  function Wanted(op: Op): nat {
    if op.Read? && !op.fault then op.size else 0
  }

  function Asked(ops: seq<Op>): nat {
    if ops == [] then 0 else Wanted(ops[0]) + Asked(ops[1..])
  }

  predicate Quiet(ops: seq<Op>) {
    forall i :: 0 <= i < |ops| ==> ops[i].Open? || ops[i].Read?
  }

  /** While one file holds the device and nobody writes, its reads stream the text from its offset on. */
  lemma {:induction false} ReadsStream(s: State, f: nat, ops: seq<Op>)
    requires Inv(s) && f in s.files && s.files[f] <= |Cut(s.msg)|
    requires Legal(s, ops) && Quiet(ops)
    ensures var text, o := Cut(s.msg), s.files[f];
            && Stream(s, ops) == text[o..o + Min(Asked(ops), |text| - o)]
            && After(s, ops).msg == s.msg
            && f in After(s, ops).files && After(s, ops).files[f] == o + |Stream(s, ops)|
    decreases |ops|
  {
    hide Terminated, Next, Delivered, Enabled, Cut, Wanted;
    if ops != [] {
      var op, s' := ops[0], Next(s, ops[0]);
      InvStep(s, op);
      OneRead(s, f, op);
      assert Quiet(ops[1..]);
      ReadsStream(s', f, ops[1..]);
      Joined(Cut(s.msg), s.files[f], Wanted(op), Asked(ops[1..]));
    }
  }

  lemma OneRead(s: State, f: nat, op: Op)
    requires Inv(s) && f in s.files && s.files[f] <= |Cut(s.msg)|
    requires Enabled(s, op) && (op.Open? || op.Read?)
    ensures var s' := Next(s, op); var text, o := Cut(s.msg), s.files[f];
            && s'.msg == s.msg && f in s'.files && s'.files[f] == o + |Delivered(s, op)| <= |text|
            && Delivered(s, op) == text[o..o + Min(Wanted(op), |text| - o)]
  {
    hide Cut;
    if op.Read? {
      OnlyOne(s.files, f, op.f);
    }
  }

  lemma Joined(text: seq<char>, o: nat, a: nat, b: nat)
    requires o <= |text|
    ensures var o' := o + Min(a, |text| - o);
            text[o..o'] + text[o'..o' + Min(b, |text| - o')] == text[o..o + Min(a + b, |text| - o)]
  {
  }

  /**
   Write/read round trip: after a successful write of any data, reads of any sizes,
   with failing reads and competing opens in between, deliver the first 127 bytes cut
   at the first NUL, as far as was asked for; the offset is the total delivered.
   */
  lemma RoundTrip(s: State, f: nat, data: seq<char>, ops: seq<Op>)
    requires Inv(s) && f in s.files
    requires (InvStep(s, Write(f, data, None)); Legal(Next(s, Write(f, data, None)), ops)) && Quiet(ops)
    ensures (InvStep(s, Write(f, data, None));
            var s' := Next(s, Write(f, data, None));
            var text := Cut(data[..Min(|data|, MSG_MAX - 1)]);
            && Stream(s', ops) == text[..Min(Asked(ops), |text|)]
            && f in After(s', ops).files && After(s', ops).files[f] == |Stream(s', ops)|)
  {
    var s' := Next(s, Write(f, data, None));
    StoredText(s.msg, data);
    ReadsStream(s', f, ops);
  }

  // ---------- other processes ----------

  predicate NoWrites(ops: seq<Op>) {
    forall i :: 0 <= i < |ops| ==> !ops[i].Write?
  }

  /** No open, read or release changes the message, whoever makes it. */
  lemma {:induction false} TextStays(s: State, ops: seq<Op>)
    requires Inv(s) && Legal(s, ops) && NoWrites(ops)
    ensures After(s, ops).msg == s.msg
    decreases |ops|
  {
    hide Terminated;
    if ops != [] {
      InvStep(s, ops[0]);
      TextStays(Next(s, ops[0]), ops[1..]);
    }
  }

  /**
   After any opens, reads and releases by any files, whoever opens the closed device
   starts at offset zero and its reads deliver the text as far as they ask for.
   */
  lemma ServesEveryOpener(s: State, before: seq<Op>, f: nat, ops: seq<Op>)
    requires Inv(s) && Legal(s, before) && NoWrites(before)
    requires var s1 := After(s, before); s1.files == map[]
    requires var s1 := After(s, before); (InvStep(s1, Open(f)); Legal(Next(s1, Open(f)), ops)) && Quiet(ops)
    ensures var s1 := After(s, before); var text := Cut(s.msg);
            (InvStep(s1, Open(f));
             var s2 := Next(s1, Open(f));
             && f in s2.files && s2.files[f] == 0
             && Stream(s2, ops) == text[..Min(Asked(ops), |text|)]
             && f in After(s2, ops).files && After(s2, ops).files[f] == |Stream(s2, ops)|)
  {
    hide Terminated, Cut, Stream, Legal, Asked;
    var s1 := After(s, before);
    TextStays(s, before);
    InvStep(s1, Open(f));
    OpenIsExclusive(s1, f);
    ReadsStream(Next(s1, Open(f)), f, ops);
  }

  /** So after a successful write every later opener is served the stored data until somebody writes again. */
  lemma WriteReachesLaterOpeners(s: State, w: nat, data: seq<char>, before: seq<Op>, f: nat, ops: seq<Op>)
    requires Inv(s) && w in s.files
    requires (InvStep(s, Write(w, data, None)); Legal(Next(s, Write(w, data, None)), before)) && NoWrites(before)
    requires (InvStep(s, Write(w, data, None));
              var s1 := After(Next(s, Write(w, data, None)), before);
              s1.files == map[] && (InvStep(s1, Open(f)); Legal(Next(s1, Open(f)), ops)) && Quiet(ops))
    ensures (InvStep(s, Write(w, data, None));
             var s1 := After(Next(s, Write(w, data, None)), before);
             InvStep(s1, Open(f));
             var text := Cut(data[..Min(|data|, 127)]);
             && Stream(Next(s1, Open(f)), ops) == text[..Min(Asked(ops), |text|)]
             && f in After(Next(s1, Open(f)), ops).files
             && After(Next(s1, Open(f)), ops).files[f] == |Stream(Next(s1, Open(f)), ops)|)
  {
    hide Terminated, Cut, Stream, Legal, Asked, Next;
    var s0 := Next(s, Write(w, data, None));
    InvStep(s, Write(w, data, None));
    Written(s, w, data);
    ServesEveryOpener(s0, before, f, ops);
  }

  lemma Written(s: State, w: nat, data: seq<char>)
    requires Inv(s) && w in s.files
    ensures Cut(Next(s, Write(w, data, None)).msg) == Cut(data[..Min(|data|, 127)])
  {
    StoredText(s.msg, data);
  }

  /** A failed write moves no offset, opens nothing and leaves the text that `DamagedText` describes. */
  lemma FailedWrite(s: State, f: nat, data: seq<char>, landed: seq<char>)
    requires Inv(s) && Enabled(s, Write(f, data, Some(landed)))
    ensures var s' := Next(s, Write(f, data, Some(landed)));
            && s'.files == s.files && s'.isOpen == s.isOpen
            && Cut(s'.msg) == if '\0' in landed then Cut(landed) else landed + Cut(s.msg[|landed|..])
  {
    DamagedText(s.msg, landed);
  }

  /** Opening is exclusive: an open succeeds exactly when no file is open. */
  lemma OpenIsExclusive(s: State, f: nat)
    requires Inv(s) && f !in s.files
    ensures f in Next(s, Open(f)).files <==> s.files == map[]
    ensures s.files != map[] ==> Next(s, Open(f)) == s
  {
  }

  /** After the device has been set up and before anybody opens it. */
  function Init(): (s: State)
    ensures Inv(s)
  {
    State(MESSAGE + seq(MSG_MAX - |MESSAGE|, _ => '\0'), 0, map[])
  }

  lemma InitText()
    ensures Cut(Init().msg) == MESSAGE
  {
    var text: seq<char> := MESSAGE;
    assert text <= Init().msg && Init().msg[|text|] == '\0';
    CutUnique(Init().msg, text);
  }

  /**
   On every run from the set-up device: byte 127 is NUL, `strlen` stays below the
   buffer size, and the flag is the number of open files, zero or one.
   */
  lemma Always(ops: seq<Op>)
    requires Legal(Init(), ops)
    ensures var s := After(Init(), ops);
            && s.msg[127] == '\0' && |Cut(s.msg)| < 128
            && s.isOpen == |s.files| && (s.isOpen == 0 || s.isOpen == 1)
  {
    StrlenBound(After(Init(), ops).msg);
  }

  /** Until somebody writes, every opener is served the initial message. */
  lemma EveryOpenerGetsMessage(s: State, before: seq<Op>, f: nat, ops: seq<Op>)
    requires s == Init() && Legal(s, before) && NoWrites(before)
    requires var s1 := After(s, before); s1.files == map[]
    requires var s1 := After(s, before); (InvStep(s1, Open(f)); Legal(Next(s1, Open(f)), ops)) && Quiet(ops)
    ensures var s1 := After(s, before);
            (InvStep(s1, Open(f)); Stream(Next(s1, Open(f)), ops) == "the dog is matt"[..Min(Asked(ops), 15)])
  {
    hide Init, Cut, Stream, Legal, Asked, Next;
    InitText();
    ServesEveryOpener(s, before, f, ops);
  }

  /** One process writes and releases, another opens and reads: a legal run, and the data arrives. */
  lemma HandOver(w: nat, data: seq<char>, f: nat, size: nat)
    ensures var ops := [Open(w), Write(w, data, None), Release(w), Open(f), Read(f, size, false)];
            var text := Cut(data[..Min(|data|, 127)]);
            Legal(Init(), ops) && Stream(Init(), ops) == text[..Min(size, |text|)]
  {
    hide Terminated, Cut, Stored, Damaged;
    var s0 := Init();
    var ops := [Open(w), Write(w, data, None), Release(w), Open(f), Read(f, size, false)];
    InvStep(s0, ops[0]);
    var s1 := Next(s0, ops[0]);
    InvStep(s1, ops[1]);
    var s2 := Next(s1, ops[1]);
    InvStep(s2, ops[2]);
    var s3 := Next(s2, ops[2]);
    InvStep(s3, ops[3]);
    var s4 := Next(s3, ops[3]);
    InvStep(s4, ops[4]);
    var s5 := Next(s4, ops[4]);
    Written(s1, w, data);
    assert s3.files == map[] by {
      assert s1.files == map[w := 0];
    }
    assert Legal(s5, ops[5..]) && Stream(s5, ops[5..]) == [];
    assert ops[4..][1..] == ops[5..] && ops[3..][1..] == ops[4..] && ops[2..][1..] == ops[3..]
        && ops[1..][1..] == ops[2..];
    assert Legal(s4, ops[4..]) && Stream(s4, ops[4..]) == Delivered(s4, ops[4]);
    assert Legal(s3, ops[3..]) && Stream(s3, ops[3..]) == Delivered(s4, ops[4]);
    assert Legal(s2, ops[2..]) && Stream(s2, ops[2..]) == Delivered(s4, ops[4]);
    assert Legal(s1, ops[1..]) && Stream(s1, ops[1..]) == Delivered(s4, ops[4]);
  }

  /** The first reader is served the initial message, however it splits its reads. */
  lemma FirstReaderGetsMessage(f: nat, ops: seq<Op>)
    requires (InvStep(Init(), Open(f)); Legal(Next(Init(), Open(f)), ops)) && Quiet(ops)
    ensures (InvStep(Init(), Open(f));
             Stream(Next(Init(), Open(f)), ops) == MESSAGE[..Min(Asked(ops), |MESSAGE|)])
  {
    InitText();
    OpenIsExclusive(Init(), f);
    hide Init, Cut, Stream, Legal, Asked;
    ReadsStream(Next(Init(), Open(f)), f, ops);
  }
}
