/** The buffered word reader with its log (tests/TestU01_raw_stdin_input_with_log.c).

    Standard input is one byte stream, delivered by fread in arbitrarily short pieces; fwrite may
    accept only part of what it is given, and opening a log file may fail. */
module WordReader {
  import opened Machine

  const WORD_BYTES: nat := 4

  /** The n-th fread call that has data left: a piece of at most n bytes, or an error. */
  datatype Read = Piece(n: nat) | ReadError

  /** What a call delivers when at most `most` bytes can be. */
  function Delivered(r: Read, most: nat): (k: nat)
    requires most >= 1
    ensures k <= most && (k == 0 <==> r.ReadError?)
  {
    if r.ReadError? then 0 else if r.n < 1 then 1 else if r.n < most then r.n else most
  }

  datatype Status = Running | Starved | OpenFailed

  /** Every cut of the input is covered, and an error at any point. */
  lemma DeliveredAny(k: nat, most: nat)
    requires 1 <= k <= most
    ensures Delivered(Piece(k), most) == k && Delivered(ReadError, most) == 0
  {
  }

  /** Four bytes as the code assembles them, the first one on top. */
  function Assemble(a: Byte, b: Byte, c: Byte, d: Byte): bv32 {
    ((a as bv32) << 24) | ((b as bv32) << 16) | ((c as bv32) << 8) | (d as bv32)
  }

  /** The assembled value is the big-endian number, and no byte is lost in it. */
  lemma AssembleIsBigEndian(a: Byte, b: Byte, c: Byte, d: Byte)
    ensures var w := Assemble(a, b, c, d);
            && w == 0x100_0000 * (a as bv32) + 0x1_0000 * (b as bv32) + 0x100 * (c as bv32) + (d as bv32)
            && a == (w >> 24) as Byte && b == ((w >> 16) & 0xFF) as Byte
            && c == ((w >> 8) & 0xFF) as Byte && d == (w & 0xFF) as Byte
  {
  }

  function BeWord(s: seq<Byte>): bv32
    requires |s| == 4
  {
    Assemble(s[0], s[1], s[2], s[3])
  }

  /** The words of a stream: a tail of fewer than four bytes is not a word. */
  function Words(s: seq<Byte>): (w: seq<bv32>)
    ensures |w| == |s| / 4
    ensures forall k :: 0 <= k < |w| ==> w[k] == BeWord(s[4 * k..4 * k + 4])
  {
    seq(|s| / 4, k requires 0 <= k < |s| / 4 => BeWord(s[4 * k..4 * k + 4]))
  }

  lemma SliceJoin(s: seq<Byte>, a: nat, b: nat, c: nat)
    requires a <= b <= c <= |s|
    ensures s[a..b] + s[b..c] == s[a..c]
  {
  }

  function Min(a: nat, b: nat): nat { if a < b then a else b }

  class Reader {
    const input: seq<Byte>
    const reading: nat -> Read
    const writing: nat -> Write
    const opening: nat -> bool
    const readSize: nat
    const buf: array<Byte>
    // Whether an output file was asked for.
    const logging: bool
    var bufStart: nat
    var validDataSize: nat
    var eofDetected: bool
    var numberOf32Bits: nat
    var numberOfBytesWritten: nat
    var fileOpen: bool
    var file: seq<Byte>
    var status: Status
    // How much of the input fread has delivered, and how many calls were made.
    var inputPos: nat
    var readCalls: nat
    var writeCalls: nat
    var openCalls: nat
    // The values returned, the input position at the last reset, and whether the current
    // log file has taken every byte offered to it.
    ghost var returned: seq<bv32>
    ghost var mark: nat
    ghost var intact: bool

    ghost predicate ReadsNeverFail() {
      forall n: nat :: reading(n).Piece?
    }

    ghost predicate WritesNeverFail() {
      forall n: nat :: writing(n).Whole?
    }

    /** Input bytes that have been returned as words. */
    ghost function Taken(): nat
      reads this`returned
    {
      WORD_BYTES * |returned|
    }

    /** The unread part of the buffer continues the input exactly where the returned words end. */
    ghost predicate Buffered()
      reads this`bufStart, this`validDataSize, this`inputPos, this`returned, this`eofDetected, buf
    {
      && readSize >= 1 && buf.Length == readSize + WORD_BYTES
      && bufStart + validDataSize <= buf.Length
      && inputPos == Taken() + validDataSize <= |input|
      && buf[bufStart..bufStart + validDataSize] == input[Taken()..inputPos]
      && (eofDetected ==> inputPos == |input|)
    }

    /** The log file, as long as it is open, holds the input from the last reset up to position to:
        the words of this test and the bytes still unread there. */
    ghost predicate LoggedTo(to: nat)
      reads this`mark, this`returned, this`numberOf32Bits, this`numberOfBytesWritten, this`intact, this`file,
            this`fileOpen, this`eofDetected, this`status
    {
      && mark <= Taken() <= to <= |input|
      && mark + WORD_BYTES * numberOf32Bits == Taken()
      && (intact ==> file == input[mark..to] && numberOfBytesWritten == to - mark)
      && (fileOpen ==> logging && intact)
      && (logging && WritesNeverFail() && status != OpenFailed ==>
            intact && (fileOpen || eofDetected || status == Starved))
    }

    ghost predicate Logged()
      reads this`mark, this`returned, this`numberOf32Bits, this`numberOfBytesWritten, this`intact, this`file,
            this`fileOpen, this`eofDetected, this`status, this`inputPos
    {
      LoggedTo(inputPos)
    }

    /** The invariant of every run. */
    ghost predicate Valid()
      reads this, buf
    {
      && Buffered() && Logged()
      && (forall k :: 0 <= k < |returned| ==> returned[k] == BeWord(input[4 * k..4 * k + 4]))
      && (status == Starved && ReadsNeverFail() ==> |input| - Taken() < WORD_BYTES)
    }

    /** init_buf, and the output file of create_STDIN_U01 already open when one is wanted. */
    constructor (input: seq<Byte>, reading: nat -> Read, writing: nat -> Write, opening: nat -> bool,
                 readSize: nat, logging: bool)
      requires readSize >= 1
      ensures this.input == input && this.reading == reading && this.writing == writing && this.opening == opening
      ensures this.readSize == readSize && this.logging == logging
      ensures Valid() && fresh(buf) && returned == [] && status == Running && fileOpen == logging && file == []
    {
      this.input, this.reading, this.writing, this.opening := input, reading, writing, opening;
      this.readSize, this.logging := readSize, logging;
      buf := new Byte[readSize + WORD_BYTES](_ => 0);
      bufStart, validDataSize, eofDetected := 0, 0, false;
      numberOf32Bits, numberOfBytesWritten, fileOpen, file := 0, 0, logging, [];
      status, inputPos, readCalls, writeCalls, openCalls := Running, 0, 0, 0, 0;
      returned, mark, intact := [], 0, true;
    }

    /** fread of at most n bytes to buf[at..]; 0 means end of file or an error. */
    method Fread(at: nat, n: nat) returns (k: nat, eof: bool)
      requires n >= 1 && at + n <= buf.Length && inputPos <= |input|
      modifies this`inputPos, this`readCalls, buf
      ensures eof <==> old(inputPos) == |input|
      ensures if eof then k == 0 && readCalls == old(readCalls)
              else && k == Delivered(reading(old(readCalls)), Min(n, |input| - old(inputPos)))
                   && readCalls == old(readCalls) + 1
      ensures inputPos == old(inputPos) + k <= |input|
      ensures buf[..at] == old(buf[..at]) && buf[at..at + k] == input[old(inputPos)..inputPos]
    {
      k, eof := 0, inputPos == |input|;
      if !eof {
        k := Delivered(reading(readCalls), Min(n, |input| - inputPos));
        readCalls := readCalls + 1;
        forall i | 0 <= i < k {
          buf[at + i] := input[inputPos + i];
        }
        assert forall j :: at <= j < at + k ==> buf[j] == input[inputPos + j - at];
        assert buf[at..at + k] == input[inputPos..inputPos + k];
        inputPos := inputPos + k;
      }
    }

    method CloseFile()
      modifies this`fileOpen
      ensures !fileOpen
    {
      fileOpen := false;
    }

    /** fwrite of data to the open file. */
    method Fwrite(data: seq<Byte>) returns (k: nat)
      modifies this`file, this`writeCalls
      ensures k == Accepted(writing(old(writeCalls)), |data|) && writeCalls == old(writeCalls) + 1
      ensures file == old(file) + data[..k]
    {
      k := Accepted(writing(writeCalls), |data|);
      writeCalls := writeCalls + 1;
      file := file + data[..k];
    }

    /** Write the unread data from offset on to the file. A short write, or the end of the input,
        closes it. */
    method BufToFile(offset: nat)
      requires Buffered() && fileOpen && offset < validDataSize && mark <= Taken()
      requires file == input[mark..Taken() + offset] && numberOfBytesWritten == |file|
      modifies this`file, this`writeCalls, this`numberOfBytesWritten, this`fileOpen, this`intact
      ensures intact <==> Accepted(writing(old(writeCalls)), validDataSize - offset) == validDataSize - offset
      ensures intact ==> file == input[mark..inputPos] && numberOfBytesWritten == inputPos - mark
      ensures fileOpen <==> intact && !eofDetected
    {
      var newData := buf[bufStart + offset..bufStart + validDataSize];
      assert newData == buf[bufStart..bufStart + validDataSize][offset..] == input[Taken() + offset..inputPos];
      SliceJoin(input, mark, Taken() + offset, inputPos);
      var bytesWritten := Fwrite(newData);
      numberOfBytesWritten := numberOfBytesWritten + bytesWritten;
      intact := bytesWritten == |newData|;
      if bytesWritten < |newData| {
        CloseFile();
        return;
      }
      if eofDetected {
        CloseFile();
      }
    }

    /** memmove of the unread data to the front of the buffer. */
    method Rewind()
      requires Buffered()
      modifies this`bufStart, buf
      ensures Buffered() && bufStart == 0
    {
      ghost var unread := buf[bufStart..bufStart + validDataSize];
      if validDataSize != 0 {
        forall i | 0 <= i < validDataSize {
          buf[i] := buf[bufStart + i];
        }
      }
      bufStart := 0;
      assert buf[..validDataSize] == unread;
    }

    /** One fread call behind the unread data. */
    method ReadOnce() returns (bytesRead: nat)
      requires Buffered() && bufStart == 0 && !eofDetected && validDataSize < buf.Length
      modifies this`inputPos, this`readCalls, this`validDataSize, this`eofDetected, buf
      ensures Buffered() && validDataSize == old(validDataSize) + bytesRead
      ensures bytesRead > 0 ==> !eofDetected
      ensures bytesRead == 0 && ReadsNeverFail() ==> inputPos == |input|
    {
      var bytesToFillTheBuffer := buf.Length - validDataSize;
      var bytesRequested := if readSize < bytesToFillTheBuffer then readSize else bytesToFillTheBuffer;
      ghost var before, pos := buf[..validDataSize], inputPos;
      var eof;
      bytesRead, eof := Fread(validDataSize, bytesRequested);
      if bytesRead == 0 {
        assert buf[..validDataSize] == before;
        eofDetected := eof;
        return;
      }
      assert buf[..validDataSize + bytesRead] == before + buf[validDataSize..validDataSize + bytesRead];
      assert input[Taken()..inputPos] == input[Taken()..pos] + input[pos..inputPos];
      validDataSize := validDataSize + bytesRead;
    }

    /** fread until the buffer holds at least minLength bytes, or nothing more arrives. */
    method ReadMore(minLength: nat) returns (failed: bool)
      requires Buffered() && bufStart == 0 && !eofDetected && minLength <= buf.Length
      modifies this`inputPos, this`readCalls, this`validDataSize, this`eofDetected, buf
      ensures Buffered() && validDataSize >= old(validDataSize)
      ensures failed <==> validDataSize < minLength
      ensures failed && ReadsNeverFail() ==> inputPos == |input|
    {
      hide Buffered;
      failed := false;
      while validDataSize < minLength
        invariant Buffered() && !eofDetected && validDataSize >= old(validDataSize)
        decreases minLength - validDataSize
      {
        var bytesRead := ReadOnce();
        if bytesRead == 0 {
          return true;
        }
      }
    }

    /** Log the data that arrived behind the first offset bytes of the buffer. */
    method LogNew(offset: nat)
      requires Buffered() && offset <= validDataSize && status == Running
      requires LoggedTo(Taken() + offset) && (logging && WritesNeverFail() ==> fileOpen)
      modifies this`file, this`writeCalls, this`numberOfBytesWritten, this`fileOpen, this`intact
      ensures Logged()
    {
      if offset < validDataSize {
        if fileOpen {
          BufToFile(offset);
        } else {
          intact := false;
        }
      }
    }

    /** Rewind and refill the buffer: what is logged now ends before the new data. */
    method Refill(minLength: nat) returns (failed: bool)
      requires Valid() && status == Running && !eofDetected && minLength <= buf.Length
      modifies this`bufStart, this`inputPos, this`readCalls, this`validDataSize, this`eofDetected, buf
      ensures Buffered() && validDataSize >= old(validDataSize)
      ensures LoggedTo(Taken() + old(validDataSize)) && (logging && WritesNeverFail() ==> fileOpen)
      ensures failed <==> validDataSize < minLength
      ensures failed && ReadsNeverFail() ==> inputPos == |input|
    {
      Rewind();
      failed := ReadMore(minLength);
    }

    /** Make at least minLength bytes available, rewinding and refilling the buffer, and log what
        is new. */
    method FillBuf(minLength: nat) returns (failed: bool)
      requires Valid() && status == Running && minLength <= buf.Length
      modifies this`bufStart, this`inputPos, this`readCalls, this`validDataSize, this`eofDetected, buf,
               this`file, this`writeCalls, this`numberOfBytesWritten, this`fileOpen, this`intact
      ensures Valid() && validDataSize >= old(validDataSize)
      ensures failed <==> validDataSize < minLength
      ensures failed && ReadsNeverFail() ==> inputPos == |input|
    {
      if eofDetected {
        return validDataSize < minLength;
      }
      hide Buffered, LoggedTo;
      var offset := validDataSize;
      failed := Refill(minLength);
      LogNew(offset);
    }

    /** The buffer once the word v has been cut off its front but not yet counted as returned. */
    ghost predicate Cut(v: bv32)
      reads this, buf
    {
      && readSize >= 1 && buf.Length == readSize + WORD_BYTES
      && bufStart + validDataSize <= buf.Length && (eofDetected ==> inputPos == |input|)
      && Taken() + WORD_BYTES + validDataSize == inputPos <= |input|
      && buf[bufStart..bufStart + validDataSize] == input[Taken() + WORD_BYTES..inputPos]
      && v == BeWord(input[Taken()..Taken() + WORD_BYTES])
    }

    method CutWord() returns (v: bv32)
      requires Buffered() && validDataSize >= WORD_BYTES
      modifies this`bufStart, this`validDataSize
      ensures Cut(v)
    {
      ghost var unread := buf[bufStart..bufStart + validDataSize];
      assert unread == input[Taken()..inputPos];
      assert unread[..WORD_BYTES] == input[Taken()..Taken() + WORD_BYTES];
      var temp := bufStart;
      validDataSize := validDataSize - WORD_BYTES;
      bufStart := bufStart + WORD_BYTES;
      assert buf[temp..temp + WORD_BYTES] == unread[..WORD_BYTES];
      assert buf[bufStart..bufStart + validDataSize] == unread[WORD_BYTES..];
      v := Assemble(buf[temp], buf[temp + 1], buf[temp + 2], buf[temp + 3]);
      assert v == BeWord(buf[temp..temp + WORD_BYTES]);
    }

    lemma BufferRoom()
      requires Buffered()
      ensures WORD_BYTES <= buf.Length && readSize <= buf.Length
    {
    }

    /** The failure exit. */
    method GiveUp()
      requires Valid() && status == Running && validDataSize < WORD_BYTES && (ReadsNeverFail() ==> inputPos == |input|)
      modifies this`fileOpen, this`status
      ensures Valid() && status == Starved
    {
      CloseFile();
      status := Starved;
    }

    /** The next four bytes as a big-endian word; None is the failure exit. The caller accounts for
        the word in `returned`. */
    method GetUnsignedInt() returns (r: Option<bv32>)
      requires Valid() && status == Running
      modifies this`bufStart, this`inputPos, this`readCalls, this`validDataSize, this`eofDetected, buf,
               this`file, this`writeCalls, this`numberOfBytesWritten, this`fileOpen, this`intact, this`status
      ensures if r.None? then Valid() && status == Starved else status == Running && Logged() && Cut(r.value)
    {
      hide LoggedTo, Buffered, Cut;
      // The buffer is larger than a word, so the code's size check cannot fail.
      assert WORD_BYTES <= buf.Length && readSize <= buf.Length by { BufferRoom(); }
      if WORD_BYTES > validDataSize {
        var _ := FillBuf(if readSize > WORD_BYTES then readSize else WORD_BYTES);
        if WORD_BYTES > validDataSize {
          GiveUp();
          return None;
        }
      }
      var v := CutWord();
      return Some(v);
    }

    /** One 32-bit value for the test battery. */
    method Bits() returns (r: Option<bv32>)
      requires Valid() && status == Running
      modifies this, buf
      ensures Valid() && mark == old(mark) && openCalls == old(openCalls)
      ensures returned == old(returned) + (if r.Some? then [r.value] else [])
      ensures status == if r.Some? then Running else Starved
      ensures numberOf32Bits == old(numberOf32Bits) + if r.Some? then 1 else 0
    {
      r := GetUnsignedInt();
      if r.Some? {
        numberOf32Bits := numberOf32Bits + 1;
        returned := returned + [r.value];
      }
    }

    /** Open the next log file and write the unread data to it. */
    method OpenLog()
      requires Buffered() && status == Running && logging && mark == Taken() && !fileOpen
      requires numberOf32Bits == 0 && numberOfBytesWritten == 0
      modifies this`file, this`writeCalls, this`numberOfBytesWritten, this`fileOpen, this`intact,
               this`openCalls, this`status
      ensures Logged() && openCalls == old(openCalls) + 1
      ensures status == if opening(old(openCalls)) then Running else OpenFailed
    {
      intact := false;
      fileOpen := opening(openCalls);
      openCalls := openCalls + 1;
      if !fileOpen {
        status := OpenFailed;
        return;
      }
      file, intact := [], true;
      LogNew(0);
    }

    /** The log is closed and the counters start again. */
    method EndLog()
      requires Valid() && status == Running
      modifies this`fileOpen, this`numberOf32Bits, this`numberOfBytesWritten, this`mark, this`intact
      ensures Buffered() && !fileOpen && !intact && mark == Taken() && numberOf32Bits == numberOfBytesWritten == 0
      ensures !logging ==> Logged()
    {
      if fileOpen {
        // The assertion in the code.
        assert numberOfBytesWritten == WORD_BYTES * numberOf32Bits + validDataSize;
        CloseFile();
      }
      numberOf32Bits := 0;
      numberOfBytesWritten := 0;
      mark := Taken();
      intact := false;
    }

    /** The end of a test: the log is closed, and the unread data begin the next one. */
    method EndTest()
      requires Valid() && status == Running
      modifies this
      ensures Valid() && returned == old(returned)
      ensures status == Running ==> mark == Taken() && numberOf32Bits == 0
      ensures status == if logging && !opening(old(openCalls)) then OpenFailed else Running
      ensures openCalls == old(openCalls) + if logging then 1 else 0
    {
      hide Buffered, LoggedTo;
      EndLog();
      if logging {
        OpenLog();
      }
    }
  }

  /** In every reachable state the values returned are the first words of the input; and when the
      program gives up for want of data, with no read error, it has returned all of them. */
  lemma ReaderRefinesStream(r: Reader)
    requires r.Valid()
    ensures r.returned <= Words(r.input)
    ensures r.status.Starved? && r.ReadsNeverFail() ==> r.returned == Words(r.input)
  {
    assert |r.returned| <= |r.input| / 4;
    if r.status.Starved? && r.ReadsNeverFail() {
      assert |r.returned| == |r.input| / 4;
    }
  }

  /** In every reachable state an open log file holds the bytes of this test's words followed by
      the unread bytes of the buffer, and the byte counters agree. */
  lemma LogMirrorsInput(r: Reader)
    requires r.Valid() && r.fileOpen
    ensures r.mark <= r.Taken() <= r.inputPos <= |r.input|
    ensures r.bufStart + r.validDataSize <= r.buf.Length
    ensures r.file == r.input[r.mark..r.Taken()] + r.buf[r.bufStart..r.bufStart + r.validDataSize]
    ensures r.numberOfBytesWritten == WORD_BYTES * r.numberOf32Bits + r.validDataSize
  {
    assert r.input[r.mark..r.inputPos] == r.input[r.mark..r.Taken()] + r.input[r.Taken()..r.inputPos];
  }

  datatype Call = NextWord | Reset

  /** The words asked for by a run of calls. */
  function Asked(calls: seq<Call>): (n: nat)
    ensures n <= |calls|
  {
    if calls == [] then 0 else Asked(calls[..|calls| - 1]) + if calls[|calls| - 1].NextWord? then 1 else 0
  }

  function Resets(calls: seq<Call>): nat {
    |calls| - Asked(calls)
  }

  /** The words since the last reset, when there were n before the calls. */
  function SinceReset(n: nat, calls: seq<Call>): nat {
    if calls == [] then n
    else if calls[|calls| - 1].Reset? then 0
    else SinceReset(n, calls[..|calls| - 1]) + 1
  }

  /** What the program has done after the given calls, from the words returned, the words of the current
      test and the files opened before. */
  ghost predicate After(r: Reader, returned0: seq<bv32>, words0: nat, opened0: nat, calls: seq<Call>)
    reads r
  {
    && returned0 <= r.returned
    && |r.returned| == |returned0| + Asked(calls) - (if r.status.Starved? then 1 else 0)
    && (r.status.Running? ==> r.numberOf32Bits == SinceReset(words0, calls))
    && r.openCalls == opened0 + (if r.logging then Resets(calls) else 0)
    && (r.status.OpenFailed? <==> r.logging && r.openCalls > opened0 && !r.opening(r.openCalls - 1))
    && (r.status.Starved? ==> calls != [] && calls[|calls| - 1].NextWord?)
    && (r.status.OpenFailed? ==> calls != [] && calls[|calls| - 1].Reset?)
  }

  /** One call. */
  method Perform(r: Reader, call: Call, ghost returned0: seq<bv32>, ghost words0: nat, ghost opened0: nat,
                 ghost calls: seq<Call>)
    requires r.Valid() && r.status.Running? && After(r, returned0, words0, opened0, calls)
    modifies r, r.buf
    ensures r.Valid() && After(r, returned0, words0, opened0, calls + [call])
  {
    hide Reader.Valid;
    assert (calls + [call])[..|calls|] == calls;
    match call {
      case NextWord => var _ := r.Bits();
      case Reset => r.EndTest();
    }
  }

  /** Without read errors the words returned are as many as were asked for or as there are, and the
      program gives up for want of data exactly when more were asked for. */
  lemma Served(r: Reader, asked: nat)
    requires r.Valid() && r.ReadsNeverFail() && |r.returned| == asked - if r.status.Starved? then 1 else 0
    ensures |r.returned| == Min(asked, |r.input| / WORD_BYTES)
    ensures r.status.Starved? <==> asked > |r.input| / WORD_BYTES
  {
  }

  lemma NothingAsked(r: Reader)
    requires r.status.Running?
    ensures After(r, r.returned, r.numberOf32Bits, r.openCalls, [])
  {
  }

  /** Any run of calls a test battery may make; `done` is how many are made before one of them ends
      the program. */
  method Session(r: Reader, calls: seq<Call>) returns (done: nat)
    requires r.Valid() && r.status.Running?
    modifies r, r.buf
    ensures r.Valid() && done <= |calls| && (r.status.Running? ==> done == |calls|)
    ensures After(r, old(r.returned), old(r.numberOf32Bits), old(r.openCalls), calls[..done])
    ensures r.ReadsNeverFail() ==>
              var asked := |old(r.returned)| + Asked(calls[..done]);
              && |r.returned| == Min(asked, |r.input| / WORD_BYTES)
              && (r.status.Starved? <==> asked > |r.input| / WORD_BYTES)
  {
    hide Reader.Valid, Asked, SinceReset;
    NothingAsked(r);
    done := 0;
    while done < |calls| && r.status.Running?
      invariant done <= |calls| && r.Valid()
      invariant After(r, old(r.returned), old(r.numberOf32Bits), old(r.openCalls), calls[..done])
    {
      assert calls[..done] + [calls[done]] == calls[..done + 1];
      Perform(r, calls[done], old(r.returned), old(r.numberOf32Bits), old(r.openCalls), calls[..done]);
      done := done + 1;
    }
    if r.ReadsNeverFail() {
      Served(r, |old(r.returned)| + Asked(calls[..done]));
    }
  }
}
