/** The host's side of the bootloader session: framing, checksums, page and address arithmetic. */
module Stm32Bootloader {
  import opened Bytes
  import opened Stm32Device

  const WORD := 0x1_0000_0000

  /** The serial line and the device at its other end. Answers may come late or in parts, but not altered. */
  class Uart {
    var dev: Dev
    // everything written so far
    var sent: seq<byte>
    // the device refuses nothing that it can do, and its answers arrive in time
    const obliging: bool

    constructor (dev: Dev, obliging: bool)
      ensures this.dev == dev && this.obliging == obliging && sent == []
    {
      this.dev := dev;
      sent := [];
      this.obliging := obliging;
    }

    method Write(s: seq<byte>) returns (ghost willing: seq<bool>)
      modifies this
      ensures |willing| == |s| && dev == Feed(old(dev), s, willing) && sent == old(sent) + s
      ensures obliging ==> forall i :: 0 <= i < |s| ==> willing[i]
    {
      hide Step;
      willing := [];
      for i := 0 to |s|
        invariant |willing| == i && dev == Feed(old(dev), s[..i], willing) && sent == old(sent)
        invariant obliging ==> forall k :: 0 <= k < i ==> willing[k]
      {
        var w: bool := *;
        w := w || obliging;
        dev := Step(dev, s[i], w);
        assert s[..i + 1][..i] == s[..i] && (willing + [w])[..i] == willing;
        willing := willing + [w];
      }
      assert s[..|s|] == s;
      sent := sent + s;
    }

    /** stm32Bl_recv: what arrives until something does or the time is up. */
    method Recv(size: nat) returns (got: seq<byte>)
      modifies this`dev
      ensures |got| <= size && dev == old(dev).(rx := dev.rx) && old(dev.rx) == got + dev.rx
      ensures obliging && |old(dev.rx)| <= size ==> dev.rx == []
    {
      var n: int := *;
      if obliging {
        n := if |dev.rx| <= size then |dev.rx| else size;
      }
      if n < 0 || n > |dev.rx| || n > size {
        return [];
      }
      got := dev.rx[..n];
      dev := dev.(rx := dev.rx[n..]);
    }
  }

  function GetByte0(x: nat): byte { x % 256 }
  function GetByte1(x: nat): byte { x / 0x100 % 256 }
  function GetByte2(x: nat): byte { x / 0x10000 % 256 }
  function GetByte3(x: nat): byte { x / 0x1000000 % 256 }

  // ---------------------------------------------------------------- frames

  // sections 3.6 and 3.7 of AN3155: a command and its complement; then fields with their checksum
  function CommandFrame(cmd: byte): seq<byte> { [cmd, 255 - cmd] }

  function WithChecksum(m: seq<byte>): seq<byte> { m + [XorAll(m)] }

  // most significant byte first
  function AddressFrame(addr: nat): seq<byte> {
    WithChecksum([GetByte3(addr), GetByte2(addr), GetByte1(addr), GetByte0(addr)])
  }

  // one less than the length, and the bytes
  function CountedFrame(s: seq<byte>): seq<byte> { WithChecksum([(|s| - 1) % 256] + s) }

  function WriteFrames(addr: nat, data: seq<byte>): seq<byte> {
    CommandFrame(WR) + AddressFrame(addr) + CountedFrame(data)
  }

  function EraseFrames(pages: seq<byte>): seq<byte> { CommandFrame(ERASE) + CountedFrame(pages) }

  /** In a frame with its checksum every bit is set in an even number of bytes, and no other last byte does that. */
  lemma FrameParity(m: seq<byte>, c: byte)
    ensures EvenParity(WithChecksum(m)) && (EvenParity(m + [c]) ==> m + [c] == WithChecksum(m))
  {
    hide EvenParity, XorAll;
    AcceptedIff(m, XorAll(m));
    AcceptedIff(m, c);
  }

  /** The frames of a write of three bytes to address 0x08001234, and of an erase of pages 4 and 5. */
  lemma KnownFrames()
    ensures WriteFrames(0x8001234, [1, 2, 4]) == [0x31, 0xce, 0x08, 0x00, 0x12, 0x34, 0x2e, 0x02, 1, 2, 4, 0x05]
    ensures EraseFrames([4, 5]) == [0x43, 0xbc, 0x01, 4, 5, 0x00]
  {
    hide Xor;
    KnownXor();
    XorOfFour(0x08, 0x00, 0x12, 0x34);
    XorOfFour(0x02, 1, 2, 4);
    XorOfThree(1, 4, 5);
    assert [0x02] + [1, 2, 4] == [0x02, 1, 2, 4] && [0x01] + [4, 5] == [0x01, 4, 5];
  }

  lemma KnownXor()
    ensures Xor(0x08, 0x00) == 0x08 && Xor(0x08, 0x12) == 0x1a && Xor(0x1a, 0x34) == 0x2e
    ensures Xor(2, 1) == 3 && Xor(3, 2) == 1 && Xor(1, 4) == 5 && Xor(5, 5) == 0
  {
    hide Xor;
    XorLaws(5, 5);
    assert Xor(0x08, 0x00) == 0x08 by { KnownXor0(); }
    assert Xor(0x08, 0x12) == 0x1a by { KnownXor1(); }
    assert Xor(0x1a, 0x34) == 0x2e by { KnownXor2(); }
    KnownXor3();
  }

  lemma KnownXor0()
    ensures Xor(0x08, 0x00) == 0x08
  {
    assert XorBits(0, 0, 1) == 0;
    assert XorBits(0, 0, 2) == 0;
    assert XorBits(0, 0, 3) == 0;
    assert XorBits(0, 0, 4) == 0;
    assert XorBits(1, 0, 5) == 1;
    assert XorBits(2, 0, 6) == 2;
    assert XorBits(4, 0, 7) == 4;
  }

  lemma KnownXor1()
    ensures Xor(0x08, 0x12) == 0x1a
  {
    assert XorBits(0, 0, 1) == 0;
    assert XorBits(0, 0, 2) == 0;
    assert XorBits(0, 0, 3) == 0;
    assert XorBits(0, 1, 4) == 1;
    assert XorBits(1, 2, 5) == 3;
    assert XorBits(2, 4, 6) == 6;
    assert XorBits(4, 9, 7) == 13;
  }

  lemma KnownXor2()
    ensures Xor(0x1a, 0x34) == 0x2e
  {
    assert XorBits(0, 0, 1) == 0;
    assert XorBits(0, 0, 2) == 0;
    assert XorBits(0, 1, 3) == 1;
    assert XorBits(1, 3, 4) == 2;
    assert XorBits(3, 6, 5) == 5;
    assert XorBits(6, 13, 6) == 11;
    assert XorBits(13, 26, 7) == 23;
  }

  lemma KnownXor3()
    ensures Xor(2, 1) == 3 && Xor(3, 2) == 1 && Xor(1, 4) == 5
  {
    assert XorBits(0, 0, 5) == 0;
    assert XorBits(1, 0, 7) == 1 && XorBits(1, 1, 7) == 0;
    assert XorBits(0, 1, 6) == 1 && XorBits(0, 2, 7) == 2;
  }

  // ---------------------------------------------------------------- outcomes

  // a device that waits for a command, with no answer outstanding
  predicate Ready(d: Dev) {
    d.state == Idle && d.rx == []
  }

  /** d has become e by one answer: ACK and the next state or, unless that is sure, NACK and the end of the command. */
  predicate Answered(d: Dev, e: Dev, next: State, sure: bool) {
    e == Answer(d, ACK, next) || (e == Answer(d, NACK, Idle) && !sure)
  }

  /** What a write amounts to. When it fails, the block may have been written or not, but nothing else was. */
  predicate Wrote(d: Dev, e: Dev, off: int, data: seq<byte>, ok: bool, obliging: bool) {
    && e.faults == d.faults
    && (obliging && Programmable(d.flash, off, |data|) ==> ok)
    && (ok ==> Ready(e) && Programmable(d.flash, off, |data|) && e.flash == Program(d.flash, off, data))
    && (e.flash == d.flash || (Programmable(d.flash, off, |data|) && e.flash == Program(d.flash, off, data)))
  }

  /** What an erase amounts to. An erase of no pages is refused. */
  predicate DidErase(d: Dev, e: Dev, pages: seq<byte>, ok: bool, obliging: bool) {
    && d.faults <= e.faults <= d.faults + (if pages == [] then 1 else 0)
    && (obliging && pages != [] && PagesExist(d.flash, pages) ==> ok)
    && (ok ==> pages != [] && Ready(e) && PagesExist(d.flash, pages) && e.flash == ErasePages(d.flash, pages))
    && (e.flash == d.flash || (pages != [] && PagesExist(d.flash, pages) && e.flash == ErasePages(d.flash, pages)))
  }

  function PageBytes(start: int, count: nat): (r: seq<byte>)
    ensures |r| == count && forall i :: 0 <= i < count ==> r[i] == (start + i) % 256
  {
    seq(count, i requires 0 <= i < count => (start + i) % 256)
  }

  // page p holds an address of [lo, hi)
  predicate PageMeets(p: int, lo: int, hi: int) {
    lo < hi && p * FLASH_PAGE_SIZE < hi && lo < (p + 1) * FLASH_PAGE_SIZE
  }

  /** The flash with exactly those pages erased that hold an address of [lo, hi). */
  function EraseRange(fl: seq<Cell>, lo: int, hi: int): (r: seq<Cell>)
    ensures |r| == |fl|
    ensures forall k :: 0 <= k < |fl| ==> r[k] == if PageMeets(k / FLASH_PAGE_SIZE, lo, hi) then Erased else fl[k]
  {
    seq(|fl|, k requires 0 <= k < |fl| => if PageMeets(k / FLASH_PAGE_SIZE, lo, hi) then Erased else fl[k])
  }

  predicate RangeExists(fl: seq<Cell>, hi: int) {
    (hi + FLASH_PAGE_SIZE - 1) / FLASH_PAGE_SIZE * FLASH_PAGE_SIZE <= |fl|
  }

  /** The page numbers sent are exactly those of the pages that the range meets. */
  lemma PagesAreRange(fl: seq<Cell>, lo: nat, hi: nat)
    requires lo < hi
    ensures var start, end := lo / FLASH_PAGE_SIZE, (hi + FLASH_PAGE_SIZE - 1) / FLASH_PAGE_SIZE;
            start < end && (end <= 256 ==>
              && ErasePages(fl, PageBytes(start, end - start)) == EraseRange(fl, lo, hi)
              && (PagesExist(fl, PageBytes(start, end - start)) <==> RangeExists(fl, hi)))
  {
    var start, end := lo / FLASH_PAGE_SIZE, (hi + FLASH_PAGE_SIZE - 1) / FLASH_PAGE_SIZE;
    var pages := PageBytes(start, end - start);
    if end <= 256 {
      PagesInRange(lo, hi);
      if PagesExist(fl, pages) {
        assert pages[end - start - 1] == end - 1;
      }
    }
  }

  lemma PagesInRange(lo: nat, hi: nat)
    requires lo < hi
    ensures var start, end := lo / FLASH_PAGE_SIZE, (hi + FLASH_PAGE_SIZE - 1) / FLASH_PAGE_SIZE;
            start < end && (end <= 256 ==> Covers(PageBytes(start, end - start), lo, hi))
  {
    var start, end := lo / FLASH_PAGE_SIZE, (hi + FLASH_PAGE_SIZE - 1) / FLASH_PAGE_SIZE;
    var pages := PageBytes(start, end - start);
    if end <= 256 {
      forall p: int
        ensures p in pages <==> PageMeets(p, lo, hi)
      {
        if PageMeets(p, lo, hi) {
          assert start <= p < end;
          assert pages[p - start] == p;
        }
        if p in pages {
          var i :| 0 <= i < |pages| && pages[i] == p;
          assert p == start + i;
        }
      }
    }
  }

  class Bootloader {
    const uart: Uart

    constructor (uart: Uart)
      ensures this.uart == uart
    {
      this.uart := uart;
    }

    method SendCommand(cmd: byte)
      requires Ready(uart.dev) && (cmd == WR || cmd == ERASE)
      modifies uart
      ensures Answered(old(uart.dev), uart.dev, if cmd == WR then Address([]) else Pages([]), uart.obliging)
      ensures uart.sent == old(uart.sent) + CommandFrame(cmd)
    {
      ghost var willing := uart.Write([cmd, 255 - cmd]);
      FeedTwo(old(uart.dev), cmd, 255 - cmd, willing[0], willing[1]);
      assert willing == [willing[0], willing[1]];
    }

    method SendAddress(addr: nat)
      requires uart.dev.state == Address([]) && uart.dev.rx == [] && addr < WORD
      modifies uart
      ensures Answered(old(uart.dev), uart.dev, Data(addr, []), uart.obliging)
      ensures uart.sent == old(uart.sent) + AddressFrame(addr)
    {
      hide Xor, XorAll, ProgramBlock, EraseBlocks, GetByte0, GetByte1, GetByte2, GetByte3;
      var b := [GetByte3(addr), GetByte2(addr), GetByte1(addr), GetByte0(addr)];
      var chk := Xor(Xor(Xor(b[0], b[1]), b[2]), b[3]);
      ghost var d := uart.dev;
      ghost var willing := uart.Write(b + [chk]);
      XorOfFour(b[0], b[1], b[2], b[3]);
      AddressBytes(addr);
      XorStep(b, chk);
      Completes(d, b, chk, willing);
      assert [] + (b + [chk]) == b + [chk];
    }

    /** stm32Bl_expect: exactly one byte arrives, and it is ACK. */
    method ExpectAck() returns (ok: bool)
      requires |uart.dev.rx| == 1
      modifies uart`dev
      ensures uart.dev == old(uart.dev).(rx := uart.dev.rx)
      ensures ok ==> old(uart.dev.rx)[0] == ACK && uart.dev.rx == []
      ensures uart.obliging && old(uart.dev.rx)[0] == ACK ==> ok
    {
      var got := uart.Recv(15);
      ok := |got| == 1 && got[0] == ACK;
    }

    method DoWriteMemory(addr: nat, data: array<byte>, len: nat) returns (ok: bool)
      requires Ready(uart.dev) && addr < WORD && 1 <= len <= 256 && len <= data.Length
      modifies uart
      ensures Wrote(old(uart.dev), uart.dev, addr - 0x8000000, data[..len], ok, uart.obliging)
      ensures ok ==> uart.sent == old(uart.sent) + WriteFrames(addr, data[..len])
      ensures uart.sent <= old(uart.sent) + WriteFrames(addr, data[..len])
    {
      hide Program, Programmable, AddressFrame, CommandFrame, CountedFrame;
      SentInOrder(uart.sent, CommandFrame(WR), AddressFrame(addr), CountedFrame(data[..len]));
      SendCommand(WR);
      ok := ExpectAck();
      if !ok {
        return;
      }
      SendAddress(addr);
      ok := ExpectAck();
      if !ok {
        return;
      }
      SendData(addr, data, len);
      ok := ExpectAck();
    }

    // the second half of stm32Bl_doWriteMemory
    method SendData(addr: nat, data: array<byte>, len: nat)
      requires uart.dev.state == Data(addr, []) && uart.dev.rx == [] && 1 <= len <= 256 && len <= data.Length
      modifies uart
      ensures var d, off := old(uart.dev), addr - FLASH_START_ADDRESS;
              || (uart.dev == Answer(d, NACK, Idle) && !(uart.obliging && Programmable(d.flash, off, len)))
              || (Programmable(d.flash, off, len) &&
                  uart.dev == Answer(d, ACK, Idle).(flash := Program(d.flash, off, data[..len])))
      ensures uart.sent == old(uart.sent) + CountedFrame(data[..len])
    {
      hide Program, Programmable, Xor, XorAll, Feed;
      ghost var d, before := uart.dev, uart.sent;
      var n: byte := len - 1;
      ghost var w := uart.Write([n]);
      CollectMore(d, [], [n], w);
      var chksum := n;
      XorStep([], n);
      assert [n] + data[..0] == [n] == [] + [n];
      for i := 0 to len
        invariant chksum == XorAll([n] + data[..i]) && uart.dev == d.(state := Data(addr, [n]))
        invariant uart.sent == before + [n]
      {
        XorStep([n] + data[..i], data[i]);
        assert [n] + data[..i + 1] == [n] + data[..i] + [data[i]];
        chksum := Xor(chksum, data[i]);
      }
      w := uart.Write(data[..len]);
      CollectMore(d, [n], data[..len], w);
      w := uart.Write([chksum]);
      DataAccepted(d, addr, data[..len], chksum, w[0]);
      assert w == [w[0]];
      assert uart.sent == before + ([n] + data[..len] + [chksum]);
    }

    method DoEraseFlash(startPage: int, pageCount: byte) returns (ok: bool)
      requires Ready(uart.dev)
      modifies uart
      ensures DidErase(old(uart.dev), uart.dev, PageBytes(startPage, pageCount), ok, uart.obliging)
      ensures ok ==> uart.sent == old(uart.sent) + EraseFrames(PageBytes(startPage, pageCount))
      ensures uart.sent <= old(uart.sent) + EraseFrames(PageBytes(startPage, pageCount))
    {
      hide ErasePages, PagesExist, CommandFrame, CountedFrame;
      SentInOrder(uart.sent, CommandFrame(ERASE), CountedFrame(PageBytes(startPage, pageCount)), []);
      SendCommand(ERASE);
      ok := ExpectAck();
      if !ok {
        return;
      }
      SendPages(startPage, pageCount);
      ok := ExpectAck();
    }

    // the second half of stm32Bl_doEraseFlash
    method SendPages(startPage: int, pageCount: byte)
      requires uart.dev.state == Pages([]) && uart.dev.rx == []
      modifies uart
      ensures var d, pages := old(uart.dev), PageBytes(startPage, pageCount);
              if pageCount == 0 then uart.dev == Fault(d)
              else
                || (uart.dev == Answer(d, NACK, Idle) && !(uart.obliging && PagesExist(d.flash, pages)))
                || (PagesExist(d.flash, pages) &&
                    uart.dev == Answer(d, ACK, Idle).(flash := ErasePages(d.flash, pages)))
      ensures uart.sent == old(uart.sent) + CountedFrame(PageBytes(startPage, pageCount))
    {
      hide ErasePages, PagesExist, Xor, XorAll, Feed;
      ghost var d, pages, before := uart.dev, PageBytes(startPage, pageCount), uart.sent;
      var n: byte := (pageCount as int - 1) % 256;
      ghost var w := uart.Write([n]);
      CollectMore(d, [], [n], w);
      var chksum := n;
      XorStep([], n);
      assert [n] + pages[..0] == [n] == [] + [n];
      for i := 0 to pageCount as int
        invariant chksum == XorAll([n] + pages[..i]) && uart.dev == d.(state := Pages([n] + pages[..i]))
        invariant uart.sent == before + ([n] + pages[..i])
      {
        var c: byte := (startPage + i) % 256;
        XorStep([n] + pages[..i], c);
        assert [n] + pages[..i + 1] == [n] + pages[..i] + [c];
        chksum := Xor(chksum, c);
        w := uart.Write([c]);
        CollectMore(d, [n] + pages[..i], [c], w);
      }
      assert pages[..|pages|] == pages;
      w := uart.Write([chksum]);
      PagesAccepted(d, n, pages, chksum, w[0]);
      assert w == [w[0]];
      assert uart.sent == before + ([n] + pages + [chksum]);
    }

    /** The number of pages is cut to a byte, so the pages erased are the first ones of the range, and all of
        them exactly if there are at most 255. */
    method EraseFlashByFileSize(startAddr: nat, size: nat) returns (ok: bool)
      requires Ready(uart.dev) && startAddr < WORD
      modifies uart
      ensures DidErase(old(uart.dev), uart.dev, ErasedPages(startAddr, size), ok, uart.obliging)
      ensures PagesCountable(startAddr, size) ==>
          DidEraseRange(old(uart.dev), uart.dev, startAddr - FLASH_START_ADDRESS,
                        startAddr - FLASH_START_ADDRESS + size, ok, uart.obliging)
    {
      hide FirstPage, NPages, PagesCountable, DidErase, DidEraseRange, EraseFrames;
      ghost var d := uart.dev;
      var nPages := NPages(startAddr, size);
      ok := DoEraseFlash(FirstPage(startAddr), nPages % 256);
      if PagesCountable(startAddr, size) {
        EraseMeaning(d, uart.dev, startAddr, size, ok, uart.obliging);
      }
    }

    /** The copying loop: blocks as read(2) delivers them, until it or a write fails or the file ends. */
    method WriteBlocks(file: BinFile, addr: nat) returns (bytesWritten: nat)
      requires Ready(uart.dev) && Addressable(uart.dev.flash) && addr < WORD && file.pos == 0
      modifies uart, file
      ensures uart.dev.faults == old(uart.dev.faults) && bytesWritten <= |file.content|
      ensures uart.obliging && file.reliable ==>
          Programmable(old(uart.dev.flash), addr - FLASH_START_ADDRESS, |file.content|) ==>
            bytesWritten == |file.content|
      ensures Copied(old(uart.dev.flash), uart.dev.flash, addr - FLASH_START_ADDRESS, file.content, bytesWritten)
    {
      hide Copied, CopiedTo, Addressable, Wrote, Programmable, WriteFrames;
      ghost var fl, off, f := uart.dev.flash, addr - FLASH_START_ADDRESS, file.content;
      var buf := new byte[256](_ => 0);
      var a := addr;
      bytesWritten := 0;
      NothingCopied(fl, off, f);
      while true
        invariant Ready(uart.dev) && uart.dev.faults == old(uart.dev.faults) && file.pos <= |f|
        invariant a == addr + bytesWritten < WORD && bytesWritten == file.pos
        invariant CopiedTo(fl, uart.dev.flash, off, f, file.pos)
        decreases |f| - file.pos
      {
        ghost var d, pos := uart.dev, file.pos;
        var n := file.Read(buf);
        if n <= 0 {
          CopiedSoFar(fl, d.flash, off, f, pos);
          break;
        }
        var ok := DoWriteMemory(a, buf, n);
        MoreCopied(fl, d, uart.dev, off, f, pos, n, ok, uart.obliging);
        if !ok {
          break;
        }
        a := (a + n) % WORD;
        bytesWritten := (bytesWritten + n) % WORD;
      }
    }

    /** isOpen says whether open(2) and fstat(2) succeeded. */
    method WriteMemoryFromBinFile(file: BinFile, addr: nat) returns (ok: bool, ghost isOpen: bool)
      requires Ready(uart.dev) && Addressable(uart.dev.flash) && addr < WORD && file.pos == 0
      modifies uart, file
      ensures Outcome(old(uart.dev), uart.dev, addr - FLASH_START_ADDRESS, file.content, isOpen, ok,
                      uart.obliging && file.reliable)
    {
      hide Copied, PagesCountable, DidEraseRange, DidErase, Flashed, ErasedPages;
      ghost var d, off, f := uart.dev, addr - FLASH_START_ADDRESS, file.content;
      var bytesWritten, fileSize := 0, 0;
      var found: bool := *;
      isOpen := found;
      if found {
        fileSize := |file.content| % WORD;
        var erased := EraseFlashByFileSize(FLASH_START_ADDRESS, |file.content|);
        ghost var m := uart.dev;
        EraseFirstMeaning(d, m, |f|, erased, uart.obliging);
        if erased {
          bytesWritten := WriteBlocks(file, addr);
        }
        FlashedMeaning(d, m, uart.dev, off, f, erased, bytesWritten, uart.obliging, file.reliable);
      }
      ok := bytesWritten == fileSize;
    }
  }

  /** A file being read: any number of bytes at a time, or a failure. */
  class BinFile {
    const content: seq<byte>
    var pos: nat
    // reading never fails
    const reliable: bool

    constructor (content: seq<byte>, reliable: bool)
      ensures this.content == content && pos == 0 && this.reliable == reliable
    {
      this.content := content;
      this.reliable := reliable;
      pos := 0;
    }

    method Read(buf: array<byte>) returns (n: int)
      requires pos <= |content| && buf.Length > 0
      modifies this`pos, buf
      ensures n <= buf.Length && pos <= |content|
      ensures n <= 0 ==> pos == old(pos)
      ensures reliable && old(pos) < |content| ==> n > 0
      ensures n > 0 ==> pos == old(pos) + n && buf[..n] == content[old(pos)..pos]
    {
      n := *;
      if n > buf.Length || n > |content| - pos || (n <= 0 && reliable) {
        n := if !reliable then -1 else if pos < |content| then 1 else 0;
      }
      if n <= 0 {
        return;
      }
      forall i | 0 <= i < n {
        buf[i] := content[pos + i];
      }
      pos := pos + n;
    }
  }

  // 32-bit addresses reach all of the flash
  predicate Addressable(fl: seq<Cell>) {
    FLASH_START_ADDRESS + |fl| < WORD
  }

  predicate SameOutside(fl: seq<Cell>, r: seq<Cell>, lo: int, hi: int) {
    |r| == |fl| && forall k :: 0 <= k < |fl| && !(lo <= k < hi) ==> r[k] == fl[k]
  }

  predicate Room(fl: seq<Cell>, off: int, n: nat) {
    n == 0 || Programmable(fl, off, n)
  }

  /** The flash with the first n bytes of f programmed. */
  function Copy(fl: seq<Cell>, off: int, f: seq<byte>, n: nat): (r: seq<Cell>)
    requires n <= |f| && Room(fl, off, n)
    ensures |r| == |fl|
  {
    if n == 0 then fl else Program(fl, off, f[..n])
  }

  predicate CopiedTo(fl: seq<Cell>, r: seq<Cell>, off: int, f: seq<byte>, n: nat)
    requires n <= |f|
  {
    Room(fl, off, n) && r == Copy(fl, off, f, n)
  }

  /** Of a copy that stopped after n bytes: the block behind them may have been written or not. */
  predicate Copied(fl: seq<Cell>, r: seq<Cell>, off: int, f: seq<byte>, n: nat)
    requires n <= |f|
  {
    Room(fl, off, n) && SameOutside(Copy(fl, off, f, n), r, off + n, off + |f|)
  }

  lemma NothingCopied(fl: seq<Cell>, off: int, f: seq<byte>)
    ensures CopiedTo(fl, fl, off, f, 0)
  {
  }

  lemma CopiedSoFar(fl: seq<Cell>, r: seq<Cell>, off: int, f: seq<byte>, n: nat)
    requires n <= |f| && CopiedTo(fl, r, off, f, n)
    ensures Copied(fl, r, off, f, n)
  {
  }

  lemma MoreCopied(fl: seq<Cell>, d: Dev, e: Dev, off: int, f: seq<byte>, pos: nat, n: nat, ok: bool, obliging: bool)
    requires 0 < n && pos + n <= |f| && Addressable(fl) && CopiedTo(fl, d.flash, off, f, pos)
    requires Wrote(d, e, off + pos, f[pos..pos + n], ok, obliging)
    ensures e.faults == d.faults
    ensures ok ==> Ready(e) && CopiedTo(fl, e.flash, off, f, pos + n) && FLASH_START_ADDRESS + off + pos + n < WORD
    ensures !ok ==> Copied(fl, e.flash, off, f, pos) && !(obliging && Programmable(fl, off, |f|))
  {
    hide Program, Copied, CopiedTo;
    var chunk := f[pos..pos + n];
    RoomFor(fl, d.flash, off, f, pos);
    if e.flash == d.flash {
      CopiedSoFar(fl, d.flash, off, f, pos);
    } else {
      OneMore(fl, d.flash, off, f, pos, n);
      OneAhead(fl, e.flash, off, f, pos, n);
    }
    if ok {
      OneMore(fl, d.flash, off, f, pos, n);
    }
  }

  lemma RoomFor(fl: seq<Cell>, r: seq<Cell>, off: int, f: seq<byte>, n: nat)
    requires n <= |f| && CopiedTo(fl, r, off, f, n)
    ensures |r| == |fl| && Room(fl, off, n)
  {
  }

  lemma OneMore(fl: seq<Cell>, r: seq<Cell>, off: int, f: seq<byte>, pos: nat, n: nat)
    requires 0 < n && pos + n <= |f| && CopiedTo(fl, r, off, f, pos) && Programmable(r, off + pos, n)
    ensures CopiedTo(fl, Program(r, off + pos, f[pos..pos + n]), off, f, pos + n)
  {
    hide Program, Programmable;
    var a, b := f[..pos], f[pos..pos + n];
    JoinRoom(fl, r, off, pos, n);
    TakeMore(f, pos, n);
    if pos > 0 {
      ProgramConcat(fl, off, a, b);
    }
  }

  lemma TakeMore(f: seq<byte>, pos: nat, n: nat)
    requires pos + n <= |f|
    ensures f[..pos] + f[pos..pos + n] == f[..pos + n] && (pos == 0 ==> f[pos..pos + n] == f[..n])
  {
  }

  lemma JoinRoom(fl: seq<Cell>, r: seq<Cell>, off: int, pos: nat, n: nat)
    requires |r| == |fl| && Programmable(r, off + pos, n)
    ensures Programmable(fl, off + pos, n) && (Programmable(fl, off, pos) ==> Programmable(fl, off, pos + n))
  {
  }

  lemma OneAhead(fl: seq<Cell>, r: seq<Cell>, off: int, f: seq<byte>, pos: nat, n: nat)
    requires 0 < n && pos + n <= |f| && Room(fl, off, pos) && CopiedTo(fl, r, off, f, pos + n)
    ensures Copied(fl, r, off, f, pos)
  {
    hide Program;
    assert forall k :: 0 <= k < pos ==> f[..pos][k] == f[..pos + n][k];
  }

  // ---------------------------------------------------------------- files

  /** How many pages are erased for a file of n bytes, from the start of the flash on. */
  function PagesErased(n: nat): (k: nat)
    ensures k < 256
  {
    NPages(FLASH_START_ADDRESS, n) % 256
  }

  function EraseFirst(fl: seq<Cell>, k: nat): (r: seq<Cell>)
    ensures |r| == |fl|
    ensures forall c :: 0 <= c < |fl| ==> r[c] == if c < k * FLASH_PAGE_SIZE then Erased else fl[c]
  {
    seq(|fl|, c requires 0 <= c < |fl| => if c < k * FLASH_PAGE_SIZE then Erased else fl[c])
  }

  /** What flashing an opened file f amounts to, whatever its size. Success means that the first k pages were
      erased and then the file programmed, or its first |f| % 2^32 bytes when it is that long. If all goes
      smoothly and the flash is there, it succeeds, unless k is zero. Whatever happens, nothing else is touched,
      and the only malformed message is the erase of no pages. */
  predicate Flashed(d: Dev, e: Dev, off: int, f: seq<byte>, ok: bool, smooth: bool) {
    var m, k := |f| % WORD, PagesErased(|f|);
    && d.faults <= e.faults <= d.faults + (if k == 0 then 1 else 0)
    && |e.flash| == |d.flash|
    && (forall c :: 0 <= c < |d.flash| && c >= k * FLASH_PAGE_SIZE && !(off <= c < off + |f|) ==>
        e.flash[c] == d.flash[c])
    && (k == 0 ==> e.flash == d.flash && (ok <==> m == 0))
    && (smooth && 0 < k * FLASH_PAGE_SIZE <= |d.flash| && Programmable(d.flash, off, |f|) ==> ok)
    && (ok && k > 0 ==>
          && k * FLASH_PAGE_SIZE <= |d.flash| && Room(d.flash, off, m)
          && SameOutside(Copy(EraseFirst(d.flash, k), off, f, m), e.flash, off + m, off + |f|))
  }

  lemma FlashedMeaning(d: Dev, m: Dev, e: Dev, off: int, f: seq<byte>, erased: bool, n: nat,
                       obliging: bool, reliable: bool)
    requires n <= |f| && DidEraseFirst(d, m, PagesErased(|f|), erased, obliging) && Addressable(d.flash)
    requires PagesErased(|f|) == 0 <== |f| % WORD == 0
    requires if erased then e.faults == m.faults && Copied(m.flash, e.flash, off, f, n) else e == m && n == 0
    requires erased && obliging && reliable && Programmable(m.flash, off, |f|) ==> n == |f|
    ensures Flashed(d, e, off, f, n == |f| % WORD, obliging && reliable)
  {
  }

  predicate DidEraseFirst(d: Dev, e: Dev, k: nat, ok: bool, obliging: bool) {
    && d.faults <= e.faults <= d.faults + (if k == 0 then 1 else 0)
    && (obliging && 0 < k * FLASH_PAGE_SIZE <= |d.flash| ==> ok)
    && (ok ==> k > 0 && Ready(e) && k * FLASH_PAGE_SIZE <= |d.flash| && e.flash == EraseFirst(d.flash, k))
    && (e.flash == d.flash || (k > 0 && e.flash == EraseFirst(d.flash, k)))
  }

  lemma FirstPages(fl: seq<Cell>, k: nat)
    requires k < 256
    ensures ErasePages(fl, PageBytes(0, k)) == EraseFirst(fl, k)
    ensures PagesExist(fl, PageBytes(0, k)) <==> k * FLASH_PAGE_SIZE <= |fl|
    ensures PageBytes(0, k) == [] <==> k == 0
  {
    var pages := PageBytes(0, k);
    forall c | 0 <= c < |fl|
      ensures c / FLASH_PAGE_SIZE in pages <==> c < k * FLASH_PAGE_SIZE
    {
      var p := c / FLASH_PAGE_SIZE;
      assert p < k ==> pages[p] == p;
    }
    assert k > 0 ==> pages[k - 1] == k - 1;
  }

  lemma EraseFirstMeaning(d: Dev, e: Dev, n: nat, ok: bool, obliging: bool)
    requires DidErase(d, e, ErasedPages(FLASH_START_ADDRESS, n), ok, obliging)
    ensures DidEraseFirst(d, e, PagesErased(n), ok, obliging)
    ensures n % WORD == 0 ==> PagesErased(n) == 0
  {
    hide ErasePages, PagesExist, PageBytes, NPages;
    FirstPages(d.flash, PagesErased(n));
    PagesErasedIs(n);
    assert FirstPage(FLASH_START_ADDRESS) == 0;
  }

  /** The pages that hold the file, modulo 256. */
  lemma PagesErasedIs(n: nat)
    ensures n % WORD == 0 ==> PagesErased(n) == 0
    ensures n % WORD < WORD - FLASH_START_ADDRESS ==>
        PagesErased(n) == (n % WORD + FLASH_PAGE_SIZE - 1) / FLASH_PAGE_SIZE % 256
  {
    EndAddress(n);
    EndPage(n % WORD);
    assert NPages(FLASH_START_ADDRESS, n) == NPages(FLASH_START_ADDRESS, n % WORD);
  }

  lemma EndAddress(n: nat)
    ensures (FLASH_START_ADDRESS + n) % WORD == (FLASH_START_ADDRESS + n % WORD) % WORD
  {
    WrapAround(FLASH_START_ADDRESS + n % WORD, n / WORD);
  }

  lemma WrapAround(x: nat, q: nat)
    ensures (x + WORD * q) % WORD == x % WORD
  {
    assert x + WORD * q == WORD * (x / WORD + q) + x % WORD;
  }

  lemma NoWrap(x: int)
    requires 0 <= x < WORD
    ensures x % WORD == x
  {
  }

  lemma EndPage(m: nat)
    requires m < WORD
    ensures m == 0 ==> NPages(FLASH_START_ADDRESS, m) == 0
    ensures m < WORD - FLASH_START_ADDRESS ==>
        NPages(FLASH_START_ADDRESS, m) == (m + FLASH_PAGE_SIZE - 1) / FLASH_PAGE_SIZE
  {
    assert FirstPage(FLASH_START_ADDRESS) == 0;
    if m < WORD - FLASH_START_ADDRESS {
      assert (FLASH_START_ADDRESS + m) % WORD == FLASH_START_ADDRESS + m;
    }
  }

  lemma WholeCopy(d: Dev, e: Dev, off: int, f: seq<byte>, smooth: bool)
    requires 0 < |f| < WORD && Flashed(d, e, off, f, true, smooth)
    ensures Programmable(d.flash, off, |f|)
    ensures e.flash == Program(EraseFirst(d.flash, PagesErased(|f|)), off, f)
  {
    hide PagesErased, Program, EraseFirst;
    NoWrap(|f|);
    assert f[..|f|] == f;
  }

  /** After a success with an opened file of any size, at any address: the file is there exactly if there is
      room for it and every cell it covers was erased before, by this call or already. */
  lemma FlashHoldsFileIff(d: Dev, e: Dev, off: int, f: seq<byte>, smooth: bool)
    requires f != [] && Addressable(d.flash) && Flashed(d, e, off, f, true, smooth)
    ensures HoldsAt(e.flash, off, f) <==>
            && Programmable(d.flash, off, |f|)
            && forall c :: off <= c < off + |f| ==> c < PagesErased(|f|) * FLASH_PAGE_SIZE || d.flash[c] == Erased
  {
    hide PagesErased, Program;
    if Programmable(d.flash, off, |f|) {
      WholeCopy(d, e, off, f, smooth);
      ProgramHolds(EraseFirst(d.flash, PagesErased(|f|)), off, f);
    }
  }

  /** At the start of the flash, with up to 255 pages, that is always so; the rest of the last page is erased
      and everything else is as it was. */
  lemma FlashHoldsFile(d: Dev, e: Dev, f: seq<byte>, smooth: bool)
    requires 1 <= |f| <= 255 * 1024 && Addressable(d.flash) && Flashed(d, e, 0, f, true, smooth)
    ensures HoldsAt(e.flash, 0, f)
    ensures forall c :: |f| <= c < |e.flash| ==>
        e.flash[c] == if PageMeets(c / FLASH_PAGE_SIZE, 0, |f|) then Erased else d.flash[c]
  {
    hide PagesErased, Program, EraseFirst, PageMeets, Flashed, HoldsAt;
    PagesErasedIs(|f|);
    NoWrap(|f|);
    WholeCopy(d, e, 0, f, smooth);
    FlashHoldsFileIff(d, e, 0, f, smooth);
    forall c | |f| <= c < |e.flash|
      ensures PageMeets(c / FLASH_PAGE_SIZE, 0, |f|) <==> c < PagesErased(|f|) * FLASH_PAGE_SIZE
    {
      MeetsFirst(c, |f|);
    }
  }

  lemma MeetsFirst(c: nat, n: nat)
    requires n > 0
    ensures PageMeets(c / FLASH_PAGE_SIZE, 0, n) <==>
            c < (n + FLASH_PAGE_SIZE - 1) / FLASH_PAGE_SIZE * FLASH_PAGE_SIZE
  {
  }

  /** Everything a call may do. A file that cannot be opened leaves the device alone and yet gives true. */
  predicate Outcome(d: Dev, e: Dev, off: int, f: seq<byte>, isOpen: bool, ok: bool, smooth: bool) {
    if !isOpen then ok && e == d else Flashed(d, e, off, f, ok, smooth)
  }

  /** A run as it happens when nothing goes wrong: the first pages erased, then all bytes programmed. */
  lemma Run(d: Dev, off: int, f: seq<byte>, smooth: bool) returns (e: Dev)
    requires Room(d.flash, off, |f| % WORD) && 0 < PagesErased(|f|) * FLASH_PAGE_SIZE <= |d.flash|
    ensures Flashed(d, e, off, f, true, smooth) && |e.flash| == |d.flash|
    ensures e.flash == Copy(EraseFirst(d.flash, PagesErased(|f|)), off, f, |f| % WORD)
  {
    hide PagesErased;
    e := d.(flash := Copy(EraseFirst(d.flash, PagesErased(|f|)), off, f, |f| % WORD));
  }

  /** Sizes at which an opened file can be answered with true although it is not in the flash: more than 255
      pages, and either a multiple of 2^32 bytes, so that nothing is expected, or a page count whose low byte
      is not zero, so that some pages are erased. (No flash reaches beyond the 32-bit addresses.) */
  predicate Misjudged(n: nat) {
    var m := n % WORD;
    && n > 255 * FLASH_PAGE_SIZE
    && (m == 0 || (m < WORD - FLASH_START_ADDRESS && (m + FLASH_PAGE_SIZE - 1) / FLASH_PAGE_SIZE % 256 != 0))
  }

  lemma TrustedSize(d: Dev, e: Dev, f: seq<byte>, smooth: bool)
    requires f != [] && !Misjudged(|f|) && Addressable(d.flash) && Flashed(d, e, 0, f, true, smooth)
    ensures HoldsAt(e.flash, 0, f)
  {
    hide PagesErased, HoldsAt;
    PagesErasedIs(|f|);
    if |f| <= 255 * FLASH_PAGE_SIZE {
      FlashHoldsFile(d, e, f, smooth);
    }
  }

  // flash full of old contents, just large enough
  function OldFlash(n: nat): Dev {
    Dev(Idle, seq(n, _ => Programmed(255)), [], 0)
  }

  lemma MisjudgedSize(f: seq<byte>, smooth: bool) returns (d: Dev, e: Dev)
    requires Misjudged(|f|)
    ensures Addressable(d.flash) && Flashed(d, e, 0, f, true, smooth) && !HoldsAt(e.flash, 0, f)
  {
    hide PagesErased, Copy, EraseFirst;
    var m, k := |f| % WORD, PagesErased(|f|);
    PagesErasedIs(|f|);
    if m == 0 {
      d := OldFlash(0);
      e := d;
    } else {
      d := OldFlash(if m > k * FLASH_PAGE_SIZE then m else k * FLASH_PAGE_SIZE);
      e := Run(d, 0, f, smooth);
      FlashHoldsFileIff(d, e, 0, f, smooth);
      assert |f| <= |d.flash| ==> d.flash[|f| - 1] == Programmed(255);
    }
  }

  /** So the answer true can be trusted exactly when the file is empty, or could be opened and has none of
      these sizes. */
  lemma TrueIsTrustworthyIff(f: seq<byte>, isOpen: bool, smooth: bool)
    ensures (forall d: Dev, e: Dev ::
              Addressable(d.flash) && Outcome(d, e, 0, f, isOpen, true, smooth) ==> HoldsAt(e.flash, 0, f))
        <==> f == [] || (isOpen && !Misjudged(|f|))
  {
    hide Flashed, Misjudged;
    if f == [] {
    } else if !isOpen {
      var d := OldFlash(0);
      assert Addressable(d.flash) && Outcome(d, d, 0, f, isOpen, true, smooth) && !HoldsAt(d.flash, 0, f);
    } else if Misjudged(|f|) {
      var d, e := MisjudgedSize(f, smooth);
      assert Outcome(d, e, 0, f, isOpen, true, smooth);
    } else {
      forall d: Dev, e: Dev | Addressable(d.flash) && Outcome(d, e, 0, f, isOpen, true, smooth)
        ensures HoldsAt(e.flash, 0, f)
      {
        TrustedSize(d, e, f, smooth);
      }
    }
  }

  /** A file of 257 pages that opens: one page is erased, all 257 are programmed, and the answer is true. */
  lemma LargeFileMisjudged() returns (d: Dev, e: Dev, f: seq<byte>)
    ensures |f| == 257 * FLASH_PAGE_SIZE && PagesErased(|f|) == 1 && Misjudged(|f|)
    ensures Addressable(d.flash) && Outcome(d, e, 0, f, true, true, true) && !HoldsAt(e.flash, 0, f)
  {
    f := seq(257 * FLASH_PAGE_SIZE, _ => 0);
    PagesErasedIs(|f|);
    d, e := MisjudgedSize(f, true);
  }

  /** One byte flashed to the second page, where something stands already: the first page is erased, the byte
      is programmed over the old one, and the answer is true. */
  lemma SecondPageMisjudged() returns (d: Dev, e: Dev, f: seq<byte>)
    ensures |f| == 1 && |d.flash| == 2 * FLASH_PAGE_SIZE && d.flash[FLASH_PAGE_SIZE] == Programmed(255)
    ensures Outcome(d, e, FLASH_PAGE_SIZE, f, true, true, true) && !HoldsAt(e.flash, FLASH_PAGE_SIZE, f)
  {
    hide PagesErased;
    f := [0];
    d := OldFlash(2 * FLASH_PAGE_SIZE);
    PagesErasedIs(|f|);
    e := Run(d, FLASH_PAGE_SIZE, f, true);
    FlashHoldsFileIff(d, e, FLASH_PAGE_SIZE, f, true);
  }

  // 32-bit arithmetic, as the source does it
  function FirstPage(startAddr: nat): nat {
    (startAddr - FLASH_START_ADDRESS) % WORD / FLASH_PAGE_SIZE
  }

  function NPages(startAddr: nat, size: nat): nat {
    var endAddr := (startAddr + size) % WORD;
    var endPage := ((endAddr - FLASH_START_ADDRESS) % WORD + (FLASH_PAGE_SIZE - 1)) % WORD / FLASH_PAGE_SIZE;
    (endPage - FirstPage(startAddr)) % WORD
  }

  function ErasedPages(startAddr: nat, size: nat): seq<byte> {
    PageBytes(FirstPage(startAddr), NPages(startAddr, size) % 256)
  }

  lemma EraseMeaning(d: Dev, e: Dev, startAddr: nat, size: nat, ok: bool, obliging: bool)
    requires PagesCountable(startAddr, size) && DidErase(d, e, ErasedPages(startAddr, size), ok, obliging)
    ensures DidEraseRange(d, e, startAddr - FLASH_START_ADDRESS, startAddr - FLASH_START_ADDRESS + size, ok, obliging)
  {
    hide ErasedPages, PagesExist, RangeExists, PagesCountable, ErasePages, EraseRange, Ready;
    PagesCounted(d.flash, startAddr, size);
  }

  lemma PagesCounted(fl: seq<Cell>, startAddr: nat, size: nat)
    requires PagesCountable(startAddr, size)
    ensures var pages, lo := ErasedPages(startAddr, size), startAddr - FLASH_START_ADDRESS;
            && pages != [] && ErasePages(fl, pages) == EraseRange(fl, lo, lo + size)
            && (PagesExist(fl, pages) <==> RangeExists(fl, lo + size))
  {
    hide FirstPage, NPages, PagesExist, RangeExists, PageBytes, PagesCountable, ErasePages, EraseRange;
    PageArithmetic(startAddr, size);
    PagesAreRange(fl, startAddr - FLASH_START_ADDRESS, startAddr - FLASH_START_ADDRESS + size);
  }

  /** At least one byte to erase, all of it among the first 256 pages, and at most 255 pages at once. */
  predicate PagesCountable(startAddr: nat, size: nat) {
    var lo := startAddr - FLASH_START_ADDRESS;
    0 <= lo && size > 0 && lo + size <= 256 * FLASH_PAGE_SIZE &&
    (lo + size + FLASH_PAGE_SIZE - 1) / FLASH_PAGE_SIZE - lo / FLASH_PAGE_SIZE <= 255
  }

  // the page numbers are exactly those of the pages that hold an address of [lo, hi)
  ghost predicate Covers(pages: seq<byte>, lo: int, hi: int) {
    forall p: int :: p in pages <==> PageMeets(p, lo, hi)
  }

  /** The pages erased are those that the range meets exactly if they are countable; an empty range meets none,
      which is right exactly at the start of a page. */
  lemma EraseCompleteIff(startAddr: nat, size: nat)
    requires startAddr < WORD
    ensures var lo := startAddr - FLASH_START_ADDRESS;
            Covers(ErasedPages(startAddr, size), lo, lo + size)
            <==> PagesCountable(startAddr, size) || (size == 0 && startAddr % FLASH_PAGE_SIZE == 0)
  {
    hide ErasedPages, Covers;
    var lo := startAddr - FLASH_START_ADDRESS;
    if size == 0 {
      EmptyErase(startAddr);
    } else if lo < 0 || lo + size > 256 * FLASH_PAGE_SIZE {
      PageOutside(ErasedPages(startAddr, size), lo, lo + size);
    } else {
      ErasedPagesAre(startAddr, size);
      if PagesCountable(startAddr, size) {
        PageArithmetic(startAddr, size);
        PagesInRange(lo, lo + size);
      } else {
        LastPageMissed(startAddr, size);
      }
    }
  }

  // no byte is the number of a page in front of the flash, or behind the first 256 pages
  lemma PageOutside(pages: seq<byte>, lo: int, hi: int)
    requires lo < hi && (lo < 0 || hi > 256 * FLASH_PAGE_SIZE)
    ensures !Covers(pages, lo, hi)
  {
    var p := if lo < 0 then lo / FLASH_PAGE_SIZE else (hi - 1) / FLASH_PAGE_SIZE;
    assert PageMeets(p, lo, hi);
    assert p < 0 || p > 255;
  }

  lemma EmptyErase(startAddr: nat)
    requires startAddr < WORD
    ensures var lo := startAddr - FLASH_START_ADDRESS;
            Covers(ErasedPages(startAddr, 0), lo, lo) <==> startAddr % FLASH_PAGE_SIZE == 0
  {
    var lo := startAddr - FLASH_START_ADDRESS;
    EmptyPages(startAddr);
    var pages := ErasedPages(startAddr, 0);
    assert pages != [] ==> pages[0] in pages && !PageMeets(pages[0], lo, lo);
  }

  lemma EmptyPages(startAddr: nat)
    requires startAddr < WORD
    ensures |ErasedPages(startAddr, 0)| == if startAddr % FLASH_PAGE_SIZE == 0 then 0 else 1
  {
    var a := (startAddr - FLASH_START_ADDRESS) % WORD;
    NoWrap(startAddr);
    SameOffset(startAddr);
    RoundedUp(a / FLASH_PAGE_SIZE, a % FLASH_PAGE_SIZE);
    EmptyCount(startAddr);
  }

  lemma SameOffset(x: int)
    requires 0 <= x < WORD
    ensures (x - FLASH_START_ADDRESS) % WORD % FLASH_PAGE_SIZE == x % FLASH_PAGE_SIZE
  {
    var w := if x < FLASH_START_ADDRESS then WORD else 0;
    assert (x - FLASH_START_ADDRESS) % WORD == x - FLASH_START_ADDRESS + w;
  }

  lemma EmptyCount(startAddr: nat)
    requires startAddr < WORD
    ensures var a := (startAddr - FLASH_START_ADDRESS) % WORD;
            |ErasedPages(startAddr, 0)|
            == ((a + (FLASH_PAGE_SIZE - 1)) % WORD / FLASH_PAGE_SIZE - a / FLASH_PAGE_SIZE) % WORD % 256
  {
    NoWrap(startAddr + 0);
  }

  lemma RoundedUp(b: nat, r: nat)
    requires b * FLASH_PAGE_SIZE + r < WORD && r < FLASH_PAGE_SIZE
    ensures var end := (b * FLASH_PAGE_SIZE + r + FLASH_PAGE_SIZE - 1) % WORD / FLASH_PAGE_SIZE;
            (end - b) % WORD % 256 == if r == 0 then 0 else 1
  {
    var c := b * FLASH_PAGE_SIZE + r + FLASH_PAGE_SIZE - 1;
    if c < WORD {
      NoWrap(c);
      assert c / FLASH_PAGE_SIZE == if r == 0 then b else b + 1;
    } else {
      assert c % WORD == c - WORD;
      assert b == WORD / FLASH_PAGE_SIZE - 1;
    }
  }

  lemma LastPageMissed(startAddr: nat, size: nat)
    requires startAddr >= FLASH_START_ADDRESS && size > 0 && startAddr + size < WORD && !PagesCountable(startAddr, size)
    ensures var lo := startAddr - FLASH_START_ADDRESS;
            !Covers(ErasedPages(startAddr, size), lo, lo + size)
  {
    hide ErasedPages;
    ErasedPagesAre(startAddr, size);
    var lo := startAddr - FLASH_START_ADDRESS;
    var start, end := lo / FLASH_PAGE_SIZE, (lo + size + FLASH_PAGE_SIZE - 1) / FLASH_PAGE_SIZE;
    assert PageMeets(end - 1, lo, lo + size);
    assert end > 256 || end - start == 256;
  }

  lemma ErasedPagesAre(startAddr: nat, size: nat)
    requires startAddr >= FLASH_START_ADDRESS && size > 0 && startAddr + size < WORD
    ensures var lo := startAddr - FLASH_START_ADDRESS;
            var start, end := lo / FLASH_PAGE_SIZE, (lo + size + FLASH_PAGE_SIZE - 1) / FLASH_PAGE_SIZE;
            start < end && ErasedPages(startAddr, size) == PageBytes(start, (end - start) % 256)
  {
    var lo := startAddr - FLASH_START_ADDRESS;
    NoWrap(startAddr + size);
    NoWrap(lo);
    NoWrap(lo + size);
    NoWrap(lo + size + FLASH_PAGE_SIZE - 1);
    NoWrap((lo + size + FLASH_PAGE_SIZE - 1) / FLASH_PAGE_SIZE - lo / FLASH_PAGE_SIZE);
  }

  predicate DidEraseRange(d: Dev, e: Dev, lo: int, hi: int, ok: bool, obliging: bool) {
    && e.faults == d.faults
    && (obliging && RangeExists(d.flash, hi) ==> ok)
    && (ok ==> Ready(e) && RangeExists(d.flash, hi) && e.flash == EraseRange(d.flash, lo, hi))
    && (e.flash == d.flash || e.flash == EraseRange(d.flash, lo, hi))
  }

  lemma PageArithmetic(startAddr: nat, size: nat)
    requires PagesCountable(startAddr, size)
    ensures var lo := startAddr - FLASH_START_ADDRESS;
            var end := (lo + size + FLASH_PAGE_SIZE - 1) / FLASH_PAGE_SIZE;
            && lo >= 0 && size > 0 && FirstPage(startAddr) == lo / FLASH_PAGE_SIZE && end <= 256
            && 0 < NPages(startAddr, size) == end - lo / FLASH_PAGE_SIZE < 256
  {
    var lo := startAddr - FLASH_START_ADDRESS;
    NoWrap(startAddr + size);
    NoWrap(lo);
    NoWrap(lo + size);
    NoWrap(lo + size + FLASH_PAGE_SIZE - 1);
    NoWrap((lo + size + FLASH_PAGE_SIZE - 1) / FLASH_PAGE_SIZE - lo / FLASH_PAGE_SIZE);
  }

  /** Further bytes of a message that stays incomplete. */
  lemma CollectMore(d: Dev, got: seq<byte>, s: seq<byte>, willing: seq<bool>)
    requires |willing| == |s| && Collecting(d.state) && d.state.got == [] && !Full(d.state.(got := got + s))
    ensures Feed(d.(state := d.state.(got := got)), s, willing) == d.(state := d.state.(got := got + s))
  {
    hide Step;
    Collects(d.(state := d.state.(got := got)), s, willing);
  }

  lemma DataAccepted(d: Dev, addr: int, data: seq<byte>, chk: byte, willing: bool)
    requires d.state == Data(addr, []) && 1 <= |data| <= 256 && chk == XorAll([|data| - 1] + data)
    ensures var n: byte := |data| - 1;
            var e := Feed(d.(state := Data(addr, [n] + data)), [chk], [willing]);
            || (e == Answer(d, NACK, Idle) && !(willing && Programmable(d.flash, addr - FLASH_START_ADDRESS, |data|)))
            || (Programmable(d.flash, addr - FLASH_START_ADDRESS, |data|)
                && e == Answer(d, ACK, Idle).(flash := Program(d.flash, addr - FLASH_START_ADDRESS, data)))
  {
    hide Program, Programmable, XorAll, Xor, Step, Feed, Execute;
    var n: byte := |data| - 1;
    var e := d.(state := Data(addr, [n] + data));
    FeedOne(e, chk, willing);
    StepCollecting(e, chk, willing);
    XorStep([n] + data, chk);
    ExecuteData(e, addr, n, data, chk, willing);
  }

  lemma ExecuteData(d: Dev, addr: int, n: byte, data: seq<byte>, chk: byte, willing: bool)
    requires |data| == n as int + 1 && XorAll([n] + data + [chk]) == 0
    ensures var e := Execute(d, Data(addr, [n] + data + [chk]), willing);
            || (e == Answer(d, NACK, Idle) && !(willing && Programmable(d.flash, addr - FLASH_START_ADDRESS, |data|)))
            || (Programmable(d.flash, addr - FLASH_START_ADDRESS, |data|)
                && e == Answer(d, ACK, Idle).(flash := Program(d.flash, addr - FLASH_START_ADDRESS, data)))
  {
    hide Program, Programmable, XorAll, Execute;
    var got := [n] + data + [chk];
    assert got[1..|got| - 1] == data;
    ExecuteBlock(d, addr, got, data, willing);
  }

  lemma ExecuteBlock(d: Dev, addr: int, got: seq<byte>, data: seq<byte>, willing: bool)
    requires |got| > 1 && |got| >= 3 + got[0] as int && got[1..|got| - 1] == data && XorAll(got) == 0
    ensures Execute(d, Data(addr, got), willing) == ProgramBlock(d, addr - FLASH_START_ADDRESS, data, willing)
  {
    hide ProgramBlock, XorAll;
  }

  lemma PagesAccepted(d: Dev, n: byte, pages: seq<byte>, chk: byte, willing: bool)
    requires d.state == Pages([]) && chk == XorAll([n] + pages)
    requires if n == 255 then pages == [] else |pages| == n as int + 1
    ensures var e := Feed(d.(state := Pages([n] + pages)), [chk], [willing]);
            if n == 255 then e == Fault(d)
            else
              || (e == Answer(d, NACK, Idle) && !(willing && PagesExist(d.flash, pages)))
              || (PagesExist(d.flash, pages) && e == Answer(d, ACK, Idle).(flash := ErasePages(d.flash, pages)))
  {
    hide ErasePages, PagesExist, XorAll, Xor, Step, Feed, Execute;
    var e := d.(state := Pages([n] + pages));
    FeedOne(e, chk, willing);
    StepCollecting(e, chk, willing);
    XorStep([n] + pages, chk);
    XorStep([], n);
    assert [n] + [] == [n] == [] + [n];
    ExecutePages(e, n, pages, chk, willing);
  }

  lemma ExecutePages(d: Dev, n: byte, pages: seq<byte>, chk: byte, willing: bool)
    requires XorAll([n] + pages + [chk]) == 0
    requires if n == 255 then pages == [] && chk == n else |pages| == n as int + 1
    ensures var e := Execute(d, Pages([n] + pages + [chk]), willing);
            if n == 255 then e == Fault(d)
            else
              || (e == Answer(d, NACK, Idle) && !(willing && PagesExist(d.flash, pages)))
              || (PagesExist(d.flash, pages) && e == Answer(d, ACK, Idle).(flash := ErasePages(d.flash, pages)))
  {
  }

  lemma XorOfFour(a: byte, b: byte, c: byte, d: byte)
    ensures XorAll([a, b, c, d]) == Xor(Xor(Xor(a, b), c), d)
  {
    hide Xor;
    XorStep([], a);
    XorStep([a], b);
    XorStep([a, b], c);
    XorStep([a, b, c], d);
    assert [a] + [b] == [a, b] && [a, b] + [c] == [a, b, c] && [a, b, c] + [d] == [a, b, c, d];
  }

  lemma XorOfThree(a: byte, b: byte, c: byte)
    ensures XorAll([a, b, c]) == Xor(Xor(a, b), c)
  {
    hide Xor;
    XorStep([], a);
    XorStep([a], b);
    XorStep([a, b], c);
    assert [a] + [b] == [a, b] && [a, b] + [c] == [a, b, c];
  }

  lemma SentInOrder(sent: seq<byte>, a: seq<byte>, b: seq<byte>, c: seq<byte>)
    ensures sent + a + b + c == sent + (a + b + c)
    ensures sent + a <= sent + (a + b + c) && sent + a + b <= sent + (a + b + c)
    ensures c == [] ==> a + b + c == a + b
  {
  }

  /** The device puts the address together again. */
  lemma AddressBytes(addr: nat)
    requires addr < WORD
    ensures forall c :: AddressOf([GetByte3(addr), GetByte2(addr), GetByte1(addr), GetByte0(addr)] + [c]) == addr
  {
    var q, r := addr / 0x100, addr / 0x10000;
    assert q / 0x100 == r && r / 0x100 == addr / 0x1000000;
  }
}
