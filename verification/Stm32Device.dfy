/** An STM32 in bootloader mode, byte by byte, as ST AN3155 describes it: sections 3.6 (Write Memory) and
    3.7 (Erase Memory). */
module Stm32Device {
  import opened Bytes

  const ACK: byte := 0x79
  const NACK: byte := 0x1F
  const WR: byte := 0x31
  const ERASE: byte := 0x43
  const FLASH_START_ADDRESS := 0x8000000
  const FLASH_PAGE_SIZE := 1024

  // ---------------------------------------------------------------- checksums

  function Pow2(n: nat): (r: nat)
    ensures r > 0
  {
    if n == 0 then 1 else 2 * Pow2(n - 1)
  }

  function XorBits(a: nat, b: nat, n: nat): (r: nat)
    ensures r < Pow2(n)
  {
    if n == 0 then 0 else 2 * XorBits(a / 2, b / 2, n - 1) + if a % 2 == b % 2 then 0 else 1
  }

  lemma Pow2Of8()
    ensures Pow2(8) == 256
  {
  }

  // the weights of the bits of a byte
  lemma Weights()
    ensures Pow2(0) == 1 && Pow2(1) == 2 && Pow2(2) == 4 && Pow2(3) == 8
    ensures Pow2(4) == 16 && Pow2(5) == 32 && Pow2(6) == 64 && Pow2(7) == 128
  {
    assert Pow2(4) == 2 * Pow2(3);
    assert Pow2(6) == 2 * Pow2(5);
  }

  function Xor(a: byte, b: byte): byte {
    Pow2Of8();
    XorBits(a, b, 8)
  }

  lemma {:induction false} XorBitsZero(a: nat, b: nat, n: nat)
    requires a < Pow2(n) && b < Pow2(n)
    ensures XorBits(a, b, n) == 0 <==> a == b
    ensures a == 0 ==> XorBits(a, b, n) == b
  {
    if n > 0 {
      XorBitsZero(a / 2, b / 2, n - 1);
    }
  }

  lemma XorLaws(a: byte, b: byte)
    ensures Xor(a, b) == 0 <==> a == b
    ensures Xor(0, b) == b
  {
    hide XorBits, Pow2;
    Pow2Of8();
    XorBitsZero(a, b, 8);
    XorBitsZero(0, b, 8);
  }

  // bit i of x, by halving
  function Bit(x: nat, i: nat): nat {
    if i == 0 then x % 2 else Bit(x / 2, i - 1)
  }

  lemma Halves(x: nat)
    ensures x / 4 == x / 2 / 2 && x / 8 == x / 2 / 4 && x / 16 == x / 2 / 8
    ensures x / 32 == x / 2 / 16 && x / 64 == x / 2 / 32 && x / 128 == x / 2 / 64
  {
  }

  lemma {:induction false} BitIs(x: nat, i: nat)
    requires i < 8
    ensures Bit(x, i) == x / Pow2(i) % 2
  {
    hide Pow2;
    Weights();
    if i > 0 {
      BitIs(x / 2, i - 1);
      Halves(x);
      assert i == 1 || i == 2 || i == 3 || i == 4 || i == 5 || i == 6 || i == 7;
    }
  }

  lemma {:induction false} XorBitsAt(a: nat, b: nat, n: nat, i: nat)
    requires i < n
    ensures Bit(XorBits(a, b, n), i) == (Bit(a, i) + Bit(b, i)) % 2
    decreases n
  {
    if i > 0 {
      XorBitsAt(a / 2, b / 2, n - 1, i - 1);
    }
  }

  /** Bit i of the exclusive-or is set exactly if one of the two bits is. */
  lemma XorIsBitwise(a: byte, b: byte, i: nat)
    requires i < 8
    ensures Xor(a, b) / Pow2(i) % 2 == (a / Pow2(i) + b / Pow2(i)) % 2
  {
    hide XorBits, Pow2, Bit;
    XorBitsAt(a, b, 8, i);
    BitIs(a, i);
    BitIs(b, i);
    BitIs(Xor(a, b), i);
    Parities(a / Pow2(i), a / Pow2(i) % 2, b / Pow2(i));
  }

  /** The exclusive-or of all bytes. */
  function XorAll(s: seq<byte>): byte {
    if s == [] then 0 else Xor(XorAll(s[..|s| - 1]), s[|s| - 1])
  }

  lemma XorStep(s: seq<byte>, c: byte)
    ensures XorAll(s + [c]) == Xor(XorAll(s), c)
    ensures XorAll([c]) == c
    ensures XorAll(s + [c]) == 0 <==> c == XorAll(s)
  {
    hide Xor;
    assert (s + [c])[..|s|] == s;
    assert [c][..0] == [];
    assert XorAll([]) == 0;
    XorLaws(XorAll(s), c);
    XorLaws(0, c);
  }

  // in how many of the bytes bit i is set
  function Ones(s: seq<byte>, i: nat): nat {
    if s == [] then 0 else Ones(s[..|s| - 1], i) + s[|s| - 1] / Pow2(i) % 2
  }

  /** Bit i of the checksum is the parity of bit i over all bytes. */
  lemma {:induction false} ChecksumParity(s: seq<byte>, i: nat)
    requires i < 8
    ensures XorAll(s) / Pow2(i) % 2 == Ones(s, i) % 2
  {
    hide Xor, Pow2;
    if s == [] {
      NoBits(Pow2(i));
    } else {
      ChecksumParity(s[..|s| - 1], i);
      XorIsBitwise(XorAll(s[..|s| - 1]), s[|s| - 1], i);
      Parities(XorAll(s[..|s| - 1]) / Pow2(i), Ones(s[..|s| - 1], i), s[|s| - 1] / Pow2(i));
    }
  }

  lemma NoBits(p: nat)
    requires p > 0
    ensures 0 / p % 2 == 0
  {
  }

  lemma Parities(x: int, n: int, y: int)
    requires x % 2 == n % 2
    ensures (x + y) % 2 == (n + y % 2) % 2
  {
  }

  lemma {:induction false} ZeroBits(x: nat, n: nat)
    requires x < Pow2(n) && forall i :: 0 <= i < n ==> Bit(x, i) == 0
    ensures x == 0
  {
    if n > 0 {
      assert Bit(x, 0) == 0;
      forall i | 0 <= i < n - 1
        ensures Bit(x / 2, i) == 0
      {
        assert Bit(x, i + 1) == 0;
      }
      ZeroBits(x / 2, n - 1);
    }
  }

  /** Every bit is set in an even number of the bytes. */
  predicate EvenParity(m: seq<byte>) {
    forall i :: 0 <= i < 8 ==> Ones(m, i) % 2 == 0
  }

  /** The device accepts exactly the messages of even parity, and one last byte gives a message that parity. */
  lemma AcceptedIff(m: seq<byte>, c: byte)
    ensures XorAll(m) == 0 <==> EvenParity(m)
    ensures EvenParity(m + [c]) <==> c == XorAll(m)
  {
    hide Xor, XorAll, Ones, Pow2;
    AcceptedParity(m);
    AcceptedParity(m + [c]);
    XorStep(m, c);
  }

  lemma AcceptedParity(m: seq<byte>)
    ensures XorAll(m) == 0 <==> EvenParity(m)
  {
    hide Xor, XorAll, Ones, Pow2, Bit;
    forall i | 0 <= i < 8
      ensures XorAll(m) / Pow2(i) % 2 == Ones(m, i) % 2
    {
      ChecksumParity(m, i);
    }
    if XorAll(m) == 0 {
      forall i | 0 <= i < 8
        ensures Ones(m, i) % 2 == 0
      {
        NoBits(Pow2(i));
      }
    }
    if EvenParity(m) {
      Pow2Of8();
      forall i | 0 <= i < 8
        ensures Bit(XorAll(m), i) == 0
      {
        BitIs(XorAll(m), i);
      }
      ZeroBits(XorAll(m), 8);
    }
  }

  // ---------------------------------------------------------------- flash

  // a cell that is programmed without having been erased holds nothing one can rely on
  datatype Cell = Erased | Programmed(b: byte) | Corrupt

  predicate Programmable(fl: seq<Cell>, off: int, n: nat) {
    0 <= off && off + n <= |fl|
  }

  function Program(fl: seq<Cell>, off: int, data: seq<byte>): (r: seq<Cell>)
    requires Programmable(fl, off, |data|)
    ensures |r| == |fl|
    ensures forall k :: 0 <= k < |fl| && !(off <= k < off + |data|) ==> r[k] == fl[k]
    ensures forall k :: off <= k < off + |data| ==>
        r[k] == if fl[k] == Erased then Programmed(data[k - off]) else Corrupt
  {
    seq(|fl|, k requires 0 <= k < |fl| =>
      if !(off <= k < off + |data|) then fl[k] else if fl[k] == Erased then Programmed(data[k - off]) else Corrupt)
  }

  function ErasePages(fl: seq<Cell>, pages: seq<byte>): (r: seq<Cell>)
    ensures |r| == |fl|
    ensures forall k :: 0 <= k < |fl| ==> r[k] == if k / FLASH_PAGE_SIZE in pages then Erased else fl[k]
  {
    seq(|fl|, k requires 0 <= k < |fl| => if k / FLASH_PAGE_SIZE in pages then Erased else fl[k])
  }

  predicate PagesExist(fl: seq<Cell>, pages: seq<byte>) {
    forall i :: 0 <= i < |pages| ==> (pages[i] + 1) * FLASH_PAGE_SIZE <= |fl|
  }

  /** Programming in pieces is programming in one go. */
  lemma ProgramConcat(fl: seq<Cell>, off: int, a: seq<byte>, b: seq<byte>)
    requires Programmable(fl, off, |a|) && Programmable(fl, off + |a|, |b|)
    ensures Program(Program(fl, off, a), off + |a|, b) == Program(fl, off, a + b)
  {
  }

  // the bytes stand at off, one after the other
  predicate HoldsAt(fl: seq<Cell>, off: int, data: seq<byte>) {
    Programmable(fl, off, |data|) && forall k :: 0 <= k < |data| ==> fl[off + k] == Programmed(data[k])
  }

  /** Programming works exactly where everything has been erased before. */
  lemma ProgramHolds(fl: seq<Cell>, off: int, data: seq<byte>)
    requires Programmable(fl, off, |data|)
    ensures HoldsAt(Program(fl, off, data), off, data) <==> forall k :: off <= k < off + |data| ==> fl[k] == Erased
  {
    var r := Program(fl, off, data);
    if HoldsAt(r, off, data) {
      forall k | off <= k < off + |data|
        ensures fl[k] == Erased
      {
        assert r[off + (k - off)] == Programmed(data[k - off]);
      }
    }
  }

  // ---------------------------------------------------------------- protocol

  // the bytes a command has collected so far
  datatype State =
    | Idle
    | Command(c: byte)
    | Address(got: seq<byte>)
    | Data(addr: int, got: seq<byte>)
    | Pages(got: seq<byte>)

  // rx: answers on their way to the host; faults: messages refused for a wrong complement or checksum
  datatype Dev = Dev(state: State, flash: seq<Cell>, rx: seq<byte>, faults: nat)

  predicate Collecting(st: State) {
    st.Address? || st.Data? || st.Pages?
  }

  function Append(st: State, s: seq<byte>): State
    requires Collecting(st)
  {
    st.(got := st.got + s)
  }

  predicate Full(st: State)
    requires Collecting(st)
  {
    match st
    case Address(got) => |got| >= 5
    case Data(_, got) => |got| > 0 && |got| >= 3 + got[0] as int
    case Pages(got) => |got| > 0 && |got| >= if got[0] == 255 then 2 else 3 + got[0] as int
  }

  function AddressOf(s: seq<byte>): int
    requires |s| >= 4
  {
    ((s[0] as int * 256 + s[1]) * 256 + s[2]) * 256 + s[3]
  }

  function Answer(d: Dev, b: byte, next: State): Dev {
    d.(rx := d.rx + [b], state := next)
  }

  function Fault(d: Dev): Dev {
    Answer(d, NACK, Idle).(faults := d.faults + 1)
  }

  /** A message is complete. Even a correct one may be refused. */
  function Execute(d: Dev, st: State, willing: bool): Dev
    requires Collecting(st) && Full(st)
  {
    match st
    case Address(got) =>
      if XorAll(got) != 0 then Fault(d)
      else if willing then Answer(d, ACK, Data(AddressOf(got), []))
      else Answer(d, NACK, Idle)
    case Data(addr, got) =>
      if XorAll(got) != 0 then Fault(d) else ProgramBlock(d, addr - FLASH_START_ADDRESS, got[1..|got| - 1], willing)
    case Pages(got) =>
      if got[0] == 255 then
        if got[1] != 0 then Fault(d)
        else if willing then Answer(d, ACK, Idle).(flash := seq(|d.flash|, _ => Erased))
        else Answer(d, NACK, Idle)
      else if XorAll(got) != 0 then Fault(d)
      else EraseBlocks(d, got[1..|got| - 1], willing)
  }

  function ProgramBlock(d: Dev, off: int, data: seq<byte>, willing: bool): Dev {
    if willing && Programmable(d.flash, off, |data|) then Answer(d, ACK, Idle).(flash := Program(d.flash, off, data))
    else Answer(d, NACK, Idle)
  }

  function EraseBlocks(d: Dev, pages: seq<byte>, willing: bool): Dev {
    if willing && PagesExist(d.flash, pages) then Answer(d, ACK, Idle).(flash := ErasePages(d.flash, pages))
    else Answer(d, NACK, Idle)
  }

  function Step(d: Dev, b: byte, willing: bool): Dev {
    match d.state
    case Idle => d.(state := Command(b))
    case Command(c) =>
      if b != 255 - c then Fault(d)
      else if willing && c == WR then Answer(d, ACK, Address([]))
      else if willing && c == ERASE then Answer(d, ACK, Pages([]))
      else Answer(d, NACK, Idle)
    case _ =>
      var st := Append(d.state, [b]);
      if Full(st) then Execute(d, st, willing) else d.(state := st)
  }

  function Feed(d: Dev, s: seq<byte>, willing: seq<bool>): Dev
    requires |willing| == |s|
  {
    if s == [] then d
    else
      var n := |s| - 1;
      Step(Feed(d, s[..n], willing[..n]), s[n], willing[n])
  }

  /** Bytes of an incomplete message are only collected. */
  lemma {:induction false} Collects(d: Dev, s: seq<byte>, willing: seq<bool>)
    requires |willing| == |s| && Collecting(d.state) && !Full(Append(d.state, s))
    ensures Feed(d, s, willing) == d.(state := Append(d.state, s))
  {
    hide Execute;
    if s == [] {
      assert d.state.got + s == d.state.got;
    } else {
      var n := |s| - 1;
      assert d.state.got + s == d.state.got + s[..n] + [s[n]];
      Collects(d, s[..n], willing[..n]);
    }
  }

  lemma FeedOne(d: Dev, b: byte, willing: bool)
    ensures Feed(d, [b], [willing]) == Step(d, b, willing)
  {
  }

  lemma FeedTwo(d: Dev, a: byte, b: byte, x: bool, y: bool)
    ensures Feed(d, [a, b], [x, y]) == Step(Step(d, a, x), b, y)
  {
    hide Step;
    assert [a, b][..1] == [a] && [x, y][..1] == [x];
    FeedOne(d, a, x);
  }

  lemma FeedLast(d: Dev, s: seq<byte>, c: byte, willing: seq<bool>)
    requires |willing| == |s| + 1
    ensures Feed(d, s + [c], willing) == Step(Feed(d, s, willing[..|s|]), c, willing[|s|])
  {
  }

  lemma StepCollecting(d: Dev, c: byte, willing: bool)
    requires Collecting(d.state)
    ensures var st := Append(d.state, [c]);
            Step(d, c, willing) == if Full(st) then Execute(d, st, willing) else d.(state := st)
  {
  }

  lemma ExecuteState(d: Dev, st: State, full: State, willing: bool)
    requires Collecting(full) && Full(full)
    ensures Execute(d.(state := st), full, willing) == Execute(d, full, willing)
  {
  }

  lemma AppendTwice(st: State, s: seq<byte>, t: seq<byte>)
    requires Collecting(st)
    ensures Append(Append(st, s), t) == Append(st, s + t)
  {
  }

  /** The byte that completes a message has it executed. */
  lemma Completes(d: Dev, s: seq<byte>, c: byte, willing: seq<bool>)
    requires |willing| == |s| + 1 && Collecting(d.state) && !Full(Append(d.state, s)) && Full(Append(d.state, s + [c]))
    ensures Feed(d, s + [c], willing) == Execute(d, Append(d.state, s + [c]), willing[|s|])
  {
    hide Execute, Step, Feed, Full, Append;
    FeedLast(d, s, c, willing);
    Collects(d, s, willing[..|s|]);
    var e := d.(state := Append(d.state, s));
    assert Collecting(e.state) by { AppendCollects(d.state, s); }
    StepCollecting(e, c, willing[|s|]);
    AppendTwice(d.state, s, [c]);
    AppendCollects(d.state, s + [c]);
    ExecuteState(d, e.state, Append(d.state, s + [c]), willing[|s|]);
  }

  lemma AppendCollects(st: State, s: seq<byte>)
    requires Collecting(st)
    ensures Collecting(Append(st, s))
  {
  }
}
