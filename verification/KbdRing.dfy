/**
 The ring buffer of `kbd.c` as written: `put_char` stores at the read index and only
 advances the write index.  A history is the sequence of interrupts, locked reads and
 resets in the order in which they took the device lock.
 */
module KbdRing {
  import opened Common

  const BUFF_SIZE := 100

  datatype Ring = Ring(buff: seq<char>, putIdx: nat, getIdx: nat, cnt: nat)

  datatype Event = Irq(scancode: byte) | Get | Reset

  /** `!(scancode & 0x80)`. */
  predicate IsKeyPress(scancode: byte) {
    scancode / 0x80 == 0
  }

  const ROW1 := "1234567890"
  const ROW2 := "qwertyuiop"
  const ROW3 := "asdfghjkl"
  const ROW4 := "zxcvbnm"

  function GetAscii(scancode: byte): char {
    var code := scancode % 0x80;
    if 0x02 <= code <= 0x0b then ROW1[code - 0x02]
    else if 0x10 <= code <= 0x19 then ROW2[code - 0x10]
    else if 0x1e <= code <= 0x26 then ROW3[code - 0x1e]
    else if 0x2c <= code <= 0x32 then ROW4[code - 0x2c]
    else if code == 0x39 then ' '
    else if code == 0x1c then '\n'
    else '?'
  }

  /** The key that carries a character, in scan code set 1; zero where no key does. */
  function KeyOf(c: char): (k: byte)
    ensures k < 0x80
  {
    match c
    case '1' => 0x02 case '2' => 0x03 case '3' => 0x04 case '4' => 0x05 case '5' => 0x06
    case '6' => 0x07 case '7' => 0x08 case '8' => 0x09 case '9' => 0x0a case '0' => 0x0b
    case 'q' => 0x10 case 'w' => 0x11 case 'e' => 0x12 case 'r' => 0x13 case 't' => 0x14
    case 'y' => 0x15 case 'u' => 0x16 case 'i' => 0x17 case 'o' => 0x18 case 'p' => 0x19
    case 'a' => 0x1e case 's' => 0x1f case 'd' => 0x20 case 'f' => 0x21 case 'g' => 0x22
    case 'h' => 0x23 case 'j' => 0x24 case 'k' => 0x25 case 'l' => 0x26
    case 'z' => 0x2c case 'x' => 0x2d case 'c' => 0x2e case 'v' => 0x2f case 'b' => 0x30
    case 'n' => 0x31 case 'm' => 0x32
    case ' ' => 0x39 case '\n' => 0x1c
    case _ => 0
  }

  /** Every known key decodes to its own character. */
  lemma DecodesItsKey(scancode: byte)
    requires GetAscii(scancode) != '?'
    ensures KeyOf(GetAscii(scancode)) == scancode % 0x80
  {
  }

  /** Every alphanumeric character, space and newline is the decoding of its key. */
  lemma KeyDecodes(c: char)
    requires KeyOf(c) != 0
    ensures GetAscii(KeyOf(c)) == c
  {
  }

  // ---------- the three locked operations ----------

  /** Where the write index stands when n characters are counted behind index g. */
  function Ahead(g: nat, n: nat): nat {
    (g + n) % BUFF_SIZE
  }

  ghost predicate Valid(r: Ring) {
    && |r.buff| == BUFF_SIZE
    && r.getIdx < BUFF_SIZE
    && r.putIdx == Ahead(r.getIdx, r.cnt)
  }

  function Zeroed(): (r: Ring)
    ensures Valid(r)
  {
    Ring(seq(BUFF_SIZE, _ => '\0'), 0, 0, 0)
  }

  function Put(r: Ring, ch: char): Ring
    requires r.getIdx < |r.buff|
  {
    Ring(r.buff[r.getIdx := ch], (r.putIdx + 1) % BUFF_SIZE, r.getIdx, r.cnt + 1)
  }

  function Take(r: Ring): (Ring, Option<char>)
    requires r.getIdx < |r.buff|
  {
    if r.cnt > 0 then (r.(getIdx := (r.getIdx + 1) % BUFF_SIZE, cnt := r.cnt - 1), Some(r.buff[r.getIdx]))
    else (r, None)
  }

  function Clear(r: Ring): Ring {
    r.(cnt := 0, getIdx := 0, putIdx := 0)
  }

  /** Every operation keeps both indices below the size and their distance equal to the count. */
  function Apply(r: Ring, e: Event): (r': Ring)
    requires Valid(r)
    ensures Valid(r')
  {
    hide GetAscii;
    match e
    case Irq(scancode) => if IsKeyPress(scancode) then Put(r, GetAscii(scancode)) else r
    case Get => Take(r).0
    case Reset => Clear(r)
  }

  /** Pressing the key of a character stores that character at the read index; releasing it does nothing. */
  lemma KeyStroke(r: Ring, c: char)
    requires Valid(r) && KeyOf(c) != 0
    ensures var r' := Apply(r, Irq(KeyOf(c)));
            && r'.buff == r.buff[r.getIdx := c] && r'.cnt == r.cnt + 1
            && r'.getIdx == r.getIdx && r'.putIdx == (r.putIdx + 1) % 100
    ensures KeyOf(c) < 0x80 && Apply(r, Irq(KeyOf(c) + 0x80)) == r
  {
    KeyDecodes(c);
  }

  /** Both indices stay below the size and keep their distance on every run from a valid ring. */
  function Run(r: Ring, h: seq<Event>): (r': Ring)
    requires Valid(r)
    ensures Valid(r')
  {
    if h == [] then r else Apply(Run(r, h[..|h| - 1]), h[|h| - 1])
  }

  /** The characters that the successful reads of a run return, in order. */
  function Outs(r: Ring, h: seq<Event>): seq<char>
    requires Valid(r)
  {
    if h == [] then []
    else
      var before := Run(r, h[..|h| - 1]);
      Outs(r, h[..|h| - 1]) + if h[|h| - 1] == Get && before.cnt > 0 then [before.buff[before.getIdx]] else []
  }

  lemma {:induction false} RunConcat(r: Ring, h: seq<Event>, k: seq<Event>)
    requires Valid(r)
    ensures Run(r, h + k) == Run(Run(r, h), k)
    ensures Outs(r, h + k) == Outs(r, h) + Outs(Run(r, h), k)
  {
    if k == [] {
      assert h + k == h;
    } else {
      var n := |k| - 1;
      assert (h + k)[..|h + k| - 1] == h + k[..n];
      RunConcat(r, h, k[..n]);
    }
  }

  lemma RunOne(r: Ring, h: seq<Event>, e: Event)
    requires Valid(r)
    ensures Run(r, h + [e]) == Apply(Run(r, h), e)
    ensures var now := Run(r, h);
            Outs(r, h + [e]) == Outs(r, h) + if e == Get && now.cnt > 0 then [now.buff[now.getIdx]] else []
  {
    assert (h + [e])[..|h|] == h;
  }
}
