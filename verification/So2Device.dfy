/** The message device of `so2_cdev.c`: a NUL-terminated buffer behind an exclusive open. */
module So2Device {
  import opened Common
  import opened Words

  const MSG_MAX := 128
  const MESSAGE := "the dog is matt"

  datatype Result = Ret(n: nat) | EFAULT | EBUSY

  /** The text up to the first NUL. */
  function Cut(s: seq<char>): (r: seq<char>)
    ensures r <= s && '\0' !in r
    ensures |r| < |s| ==> s[|r|] == '\0'
  {
    if s == [] || s[0] == '\0' then [] else [s[0]] + Cut(s[1..])
  }

  /** `Cut` is the only prefix with these properties. */
  lemma {:induction false} CutUnique(s: seq<char>, r: seq<char>)
    requires r <= s && '\0' !in r && (|r| < |s| ==> s[|r|] == '\0')
    ensures r == Cut(s)
  {
    if r != [] {
      assert s[0] == r[0] && r[1..] <= s[1..];
      CutUnique(s[1..], r[1..]);
    }
  }

  ghost predicate Terminated(msg: seq<char>) {
    |msg| == MSG_MAX && msg[MSG_MAX - 1] == '\0'
  }

  lemma {:induction false} CutStops(s: seq<char>, i: nat)
    requires i < |s| && s[i] == '\0'
    ensures |Cut(s)| <= i
  {
    if i > 0 && s[0] != '\0' {
      CutStops(s[1..], i - 1);
    }
  }

  /** In a terminated buffer `strlen` stops inside the buffer. */
  lemma StrlenBound(msg: seq<char>)
    requires Terminated(msg)
    ensures |Cut(msg)| <= 127
  {
    CutStops(msg, MSG_MAX - 1);
  }

  type offset = x: int | -0x8000_0000_0000_0000 <= x < 0x8000_0000_0000_0000

  /** The comparison with a `size_t` takes the signed offset as unsigned. */
  function Unsigned(o: offset): nat {
    o % TWO64
  }

  /** What a successful read copies out of the buffer. */
  function Chunk(msg: seq<char>, size: nat, o: offset): seq<char> {
    var text := Cut(msg);
    if Unsigned(o) >= |text| then [] else text[Unsigned(o)..Unsigned(o) + Min(size, |text| - Unsigned(o))]
  }

  /** What a read that does not fault reports, against its documentation the requested size. */
  function ReadCount(msg: seq<char>, size: nat, o: offset): nat {
    if Unsigned(o) >= |Cut(msg)| then 0 else size
  }

  /** The report is the number of bytes delivered exactly at the end of the text or for a request that fits. */
  lemma ReadCountExact(msg: seq<char>, size: nat, o: offset)
    ensures ReadCount(msg, size, o) == |Chunk(msg, size, o)|
       <==> Unsigned(o) >= |Cut(msg)| || size <= |Cut(msg)| - Unsigned(o)
  {
  }

  /** An offset that is negative as a signed number is past every text: nothing is delivered or reported. */
  lemma NegativeOffset(msg: seq<char>, size: nat, o: offset)
    requires Terminated(msg) && o < 0
    ensures Chunk(msg, size, o) == [] && ReadCount(msg, size, o) == 0
  {
    StrlenBound(msg);
  }

  /** A 100-byte read of the initial message reports 100 and delivers 15. */
  lemma ReadCountFails(msg: seq<char>)
    requires Cut(msg) == MESSAGE
    ensures ReadCount(msg, 100, 0) == 100 && |Chunk(msg, 100, 0)| == 15
  {
  }

  /** What a write that does not fault reports, and what it stores. */
  function WriteCount(data: seq<char>): nat {
    |data|
  }

  function StoredCount(data: seq<char>): (n: nat)
    ensures n < MSG_MAX
  {
    Min(|data|, MSG_MAX - 1)
  }

  /** The report is the number of bytes stored exactly for data that fits behind its terminator. */
  lemma WriteCountExact(data: seq<char>)
    ensures WriteCount(data) == StoredCount(data) <==> |data| <= MSG_MAX - 1
  {
  }

  /** A 200-byte write reports 200 and stores 127. */
  lemma WriteCountFails(data: seq<char>)
    requires |data| == 200
    ensures WriteCount(data) == 200 && StoredCount(data) == 127
  {
  }

  /** The buffer after a successful write. */
  function Stored(msg: seq<char>, data: seq<char>): seq<char>
    requires |msg| == MSG_MAX
  {
    var n := Min(|data|, MSG_MAX - 1);
    data[..n] + ['\0'] + msg[n + 1..]
  }

  /** The buffer after a copy that failed once `landed` had reached it. */
  function Damaged(msg: seq<char>, landed: seq<char>): seq<char>
    requires |landed| <= |msg|
  {
    landed + msg[|landed|..]
  }

  /** A failed copy cuts the text at the first NUL that landed, or else overwrites a first part of the buffer. */
  lemma DamagedText(msg: seq<char>, landed: seq<char>)
    requires |landed| <= |msg|
    ensures Cut(Damaged(msg, landed)) == if '\0' in landed then Cut(landed) else landed + Cut(msg[|landed|..])
  {
    if '\0' in landed {
      CutUnique(Damaged(msg, landed), Cut(landed));
    } else {
      CutUnique(Damaged(msg, landed), landed + Cut(msg[|landed|..]));
    }
  }

  /** A stored message reads as the first 127 bytes of the data, cut at the first NUL. */
  lemma StoredText(msg: seq<char>, data: seq<char>)
    requires |msg| == MSG_MAX
    ensures Cut(Stored(msg, data)) == Cut(data[..Min(|data|, MSG_MAX - 1)])
  {
    var n := Min(|data|, MSG_MAX - 1);
    CutUnique(Stored(msg, data), Cut(data[..n]));
  }

  class Device {
    const msg: array<char>
    var msgLen: nat
    var isOpen: int

    ghost predicate Ok()
      reads this, msg
    {
      msg.Length == MSG_MAX && Terminated(msg[..])
    }

    /** The zeroed static device after `strscpy` of the initial message. */
    constructor ()
      ensures Ok() && fresh(msg) && isOpen == 0 && Cut(msg[..]) == MESSAGE
    {
      msg := new char[MSG_MAX](i => if 0 <= i < |MESSAGE| then MESSAGE[i] else '\0');
      msgLen, isOpen := 0, 0;
      new;
      assert msg[..][|MESSAGE|] == '\0';
      CutUnique(msg[..], MESSAGE);
    }

    method Open() returns (r: Result)
      modifies this`isOpen
      ensures old(isOpen) == 0 ==> r == Ret(0) && isOpen == 1
      ensures old(isOpen) != 0 ==> r == EBUSY && isOpen == old(isOpen)
    {
      if isOpen != 0 {
        return EBUSY;
      }
      isOpen := 1;
      r := Ret(0);
    }

    method Release() returns (r: Result)
      modifies this`isOpen
      ensures isOpen == 0 && r == Ret(0)
    {
      isOpen := 0;
      r := Ret(0);
    }

    method Strlen() returns (n: nat)
      requires Ok()
      ensures n == |Cut(msg[..])| < MSG_MAX
    {
      n := 0;
      while msg[n] != '\0'
        invariant n < MSG_MAX && '\0' !in msg[..n]
        decreases MSG_MAX - n
      {
        n := n + 1;
      }
      assert msg[..n] <= msg[..];
      CutUnique(msg[..], msg[..n]);
    }

    /** `so2_read`: the new offset tells how much was delivered; the return value does not. */
    method Read(size: nat, o: offset, fault: bool) returns (r: Result, out: seq<char>, o': offset)
      requires Ok() && size < TWO64
      ensures !fault ==> out == Chunk(msg[..], size, o) && o' == o + |out|
      ensures fault ==> out == [] && o' == o
      ensures r == if fault && Unsigned(o) < |Cut(msg[..])| then EFAULT else Ret(ReadCount(msg[..], size, o))
    {
      var len := Strlen();
      if Unsigned(o) >= len {
        return Ret(0), [], o;
      }
      var available := len - Unsigned(o);
      var n := if size < available then size else available;
      if fault {
        return EFAULT, [], o;
      }
      out := msg[Unsigned(o)..Unsigned(o) + n];
      assert out == Cut(msg[..])[Unsigned(o)..Unsigned(o) + n];
      o' := o + n;
      r := Ret(size);
    }

    /** `so2_write`; a failing copy may have changed any prefix of the bytes it was to copy. */
    method Write(data: seq<char>, o: offset, fault: Option<seq<char>>) returns (r: Result, o': offset)
      requires Ok() && |data| < TWO64
      requires fault.Some? ==> |fault.value| <= Min(|data|, MSG_MAX - 1)
      modifies msg, this`msgLen
      ensures Ok()
      ensures fault.None? ==> r == Ret(WriteCount(data)) && o' == 0 && msg[..] == Stored(old(msg[..]), data)
                              && msgLen == StoredCount(data)
      ensures fault.None? ==> var n := Min(|data|, 127);
                              && msg[..][..n] == data[..n] && msg[n] == '\0'
                              && forall i :: n < i < 128 ==> msg[i] == old(msg[i])
      ensures fault.Some? ==> r == EFAULT && o' == o && msg[..] == Damaged(old(msg[..]), fault.value)
                              && msgLen == old(msgLen)
      ensures fault.Some? ==> forall i :: 0 <= i < 128 ==>
                                msg[i] == if i < |fault.value| then fault.value[i] else old(msg[i])
    {
      var n := if |data| < MSG_MAX - 1 then |data| else MSG_MAX - 1;
      if fault.Some? {
        forall i | 0 <= i < |fault.value| {
          msg[i] := fault.value[i];
        }
        assert msg[..] == Damaged(old(msg[..]), fault.value);
        return EFAULT, o;
      }
      forall i | 0 <= i < n {
        msg[i] := data[i];
      }
      msg[n] := '\0';
      msgLen := n;
      assert msg[..] == Stored(old(msg[..]), data);
      return Ret(|data|), 0;
    }
  }
}
