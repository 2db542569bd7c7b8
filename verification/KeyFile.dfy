/** The key file (src/rdrand-gen.c): one key and nonce per line, in hexadecimal. */
module KeyFile {
  import opened AesConfig
  import opened AesSchedule
  import opened Machine

  const MAX_KEY_DIGITS: nat := 64
  const RDRAND_MAX_KEY_LENGTH: nat := 32
  const RDRAND_MIN_KEY_LENGTH: nat := 4
  const MAX_KEYS: nat := 128

  datatype FileError = Ok | Eof | BadLength | InvalidCharacter

  predicate IsHex(c: char) {
    'a' <= c <= 'f' || 'A' <= c <= 'F' || '0' <= c <= '9'
  }

  function DigitValue(c: char): (v: nat)
    requires IsHex(c)
    ensures v < 16
  {
    if '0' <= c <= '9' then c as int - '0' as int
    else if 'a' <= c <= 'f' then c as int - 'a' as int + 10
    else c as int - 'A' as int + 10
  }

  /** The digit printf writes for v. */
  function Digit(v: nat): (c: char)
    requires v < 16
    ensures IsHex(c) && DigitValue(c) == v
  {
    if v < 10 then (v + '0' as int) as char else (v - 10 + 'a' as int) as char
  }

  ghost predicate AllHex(s: seq<char>) {
    forall k :: 0 <= k < |s| ==> IsHex(s[k])
  }

  /** What two digits scan to. */
  function ByteOf(hi: char, lo: char): Byte
    requires IsHex(hi) && IsHex(lo)
  {
    (16 * DigitValue(hi) + DigitValue(lo)) as Byte
  }

  /** The two digits memDump prints for a byte. */
  function HexByte(b: Byte): (s: seq<char>)
    ensures |s| == 2 && AllHex(s)
  {
    [Digit(b as int / 16), Digit(b as int % 16)]
  }

  /** What memDump prints for the bytes, without its newline. */
  function HexOf(bs: seq<Byte>): (s: seq<char>)
    ensures |s| == 2 * |bs| && AllHex(s)
  {
    if bs == [] then [] else HexOf(bs[..|bs| - 1]) + HexByte(bs[|bs| - 1])
  }

  /** The bytes that a run of digits stands for. */
  function BytesOf(s: seq<char>): (bs: seq<Byte>)
    requires |s| % 2 == 0 && AllHex(s)
    ensures |bs| == |s| / 2
  {
    if s == [] then [] else BytesOf(s[..|s| - 2]) + [ByteOf(s[|s| - 2], s[|s| - 1])]
  }

  lemma HexByteScans(b: Byte)
    ensures ByteOf(HexByte(b)[0], HexByte(b)[1]) == b
  {
    assert 16 * (b as int / 16) + b as int % 16 == b as int;
  }

  lemma BytesAppend(s: seq<char>, d: seq<char>)
    requires |s| % 2 == 0 && |d| == 2 && AllHex(s) && AllHex(d)
    ensures AllHex(s + d) && BytesOf(s + d) == BytesOf(s) + [ByteOf(d[0], d[1])]
  {
    assert (s + d)[..|s|] == s;
  }

  lemma NoBytes()
    ensures BytesOf([]) == []
  {
  }

  /** Printing and scanning again gives the bytes back. */
  lemma {:induction false} BytesOfHex(bs: seq<Byte>)
    ensures BytesOf(HexOf(bs)) == bs
  {
    hide HexByte, ByteOf, BytesOf;
    if bs == [] {
      NoBytes();
    } else {
      var n := |bs| - 1;
      BytesOfHex(bs[..n]);
      HexByteScans(bs[n]);
      BytesAppend(HexOf(bs[..n]), HexByte(bs[n]));
    }
  }

  // ---- reading a file, on values ----

  datatype Scan = Line(digits: nat, pos: nat, eof: bool) | Rejected(error: FileError)

  /** The digits of the line at pos, of which i have been seen, and where the next line begins. */
  function ScanLine(text: string, pos: nat, i: nat): (r: Scan)
    requires pos <= |text|
    ensures r.Line? ==> pos <= r.pos <= |text| && (!r.eof ==> pos < r.pos)
    ensures r.Rejected? ==> r.error in {BadLength, InvalidCharacter}
    decreases |text| - pos
  {
    if pos == |text| then Line(i, pos, true)
    else if text[pos] == '\n' then Line(i, pos + 1, false)
    else if !IsHex(text[pos]) then Rejected(InvalidCharacter)
    else if i > MAX_KEY_DIGITS then Rejected(BadLength)
    else ScanLine(text, pos + 1, i + 1)
  }

  /** How many hexadecimal digits there are from pos on. */
  function LeadingDigits(text: string, pos: nat): (n: nat)
    requires pos <= |text|
    ensures pos + n <= |text|
    decreases |text| - pos
  {
    if pos < |text| && IsHex(text[pos]) then 1 + LeadingDigits(text, pos + 1) else 0
  }

  /** The digits of a line that are stored: one more than the line buffer of the code has cells for. */
  function StoredDigits(text: string, pos: nat): (n: nat)
    requires pos <= |text|
    ensures pos + n <= |text| && n <= MAX_KEY_DIGITS + 1
    ensures n > MAX_KEY_DIGITS <==> LeadingDigits(text, pos) > MAX_KEY_DIGITS
  {
    var n := LeadingDigits(text, pos);
    if n > MAX_KEY_DIGITS then MAX_KEY_DIGITS + 1 else n
  }

  lemma {:induction false} ScannedDigits(text: string, pos: nat, i: nat)
    requires pos <= |text|
    ensures var r := ScanLine(text, pos, i);
            r.Line? ==>
              && i <= r.digits && r.digits <= (if i <= MAX_KEY_DIGITS then MAX_KEY_DIGITS + 1 else i)
              && pos + (r.digits - i) <= |text| && AllHex(text[pos..pos + (r.digits - i)])
    decreases |text| - pos
  {
    if pos < |text| && IsHex(text[pos]) && i <= MAX_KEY_DIGITS {
      ScannedDigits(text, pos + 1, i + 1);
      var r := ScanLine(text, pos, i);
      if r.Line? {
        assert text[pos..pos + (r.digits - i)] == [text[pos]] + text[pos + 1..pos + 1 + (r.digits - (i + 1))];
      }
    }
  }

  /** What load_key_line makes of the line at pos. Two thirds of the digits are the key and one third
      the nonce; a nonce of an odd number of digits is left alone, which is None here. */
  datatype KeyLine = KeyLine(res: FileError, key: seq<Byte>, nonce: Option<seq<Byte>>, pos: nat)

  function ParseLine(text: string, pos: nat): (r: KeyLine)
    requires pos <= |text|
    ensures r.res.Ok? ==> pos < r.pos <= |text| && |r.key| <= 21
    ensures r.res.Ok? && r.nonce.Some? ==> |r.nonce.value| == |r.key| / 2
  {
    ScannedDigits(text, pos, 0);
    match ScanLine(text, pos, 0)
    case Rejected(error) => KeyLine(error, [], None, pos)
    case Line(n, next, eof) =>
      var third := n / 3;
      if 3 * third != n then KeyLine(BadLength, [], None, pos)
      else if eof then KeyLine(Eof, [], None, next)
      else
        var line := text[pos..pos + n];
        KeyLine(Ok, BytesOf(line[..2 * third]), if third % 2 == 0 then Some(BytesOf(line[2 * third..])) else None, next)
  }

  lemma {:induction false} LongScan(text: string, pos: nat, i: nat)
    requires pos <= |text| && i + LeadingDigits(text, pos) > MAX_KEY_DIGITS && i <= MAX_KEY_DIGITS + 1
    ensures var r := ScanLine(text, pos, i); r.Line? ==> r.digits == MAX_KEY_DIGITS + 1
    decreases |text| - pos
  {
    if pos < |text| && IsHex(text[pos]) && i <= MAX_KEY_DIGITS {
      LongScan(text, pos + 1, i + 1);
    }
  }

  /** A line that starts with more digits than the line buffer has cells is always refused, but only
      after the digit behind the last cell has been stored. */
  lemma LongLineRefused(text: string, pos: nat)
    requires pos <= |text| && LeadingDigits(text, pos) > MAX_KEY_DIGITS
    ensures ParseLine(text, pos).res in {BadLength, InvalidCharacter}
    ensures StoredDigits(text, pos) == MAX_KEY_DIGITS + 1
  {
    LongScan(text, pos, 0);
  }

  datatype Parsed = Parsed(res: FileError, keys: seq<seq<Byte>>, nonces: seq<Option<seq<Byte>>>)

  /** The common length of the keys of a file. */
  function LengthOf(keys: seq<seq<Byte>>, firstLen: nat): nat {
    if firstLen != 0 then firstLen else if keys == [] then 0 else |keys[0]|
  }

  /** All keys from pos on, given the length of the keys before (0 if there are none). */
  function ParseFile(text: string, pos: nat, firstLen: nat): (r: Parsed)
    requires pos <= |text|
    ensures |r.keys| == |r.nonces|
    ensures forall k :: 0 <= k < |r.keys| ==> |r.keys[k]| == LengthOf(r.keys, firstLen)
    ensures forall k :: 0 <= k < |r.keys| ==> r.nonces[k].Some? ==> |r.nonces[k].value| == |r.keys[k]| / 2
    decreases |text| - pos
  {
    var line := ParseLine(text, pos);
    if line.res.Eof? then Parsed(Ok, [], [])
    else if !line.res.Ok? then Parsed(line.res, [], [])
    else if line.key == [] then ParseFile(text, line.pos, firstLen)
    else if |line.key| > RDRAND_MAX_KEY_LENGTH || |line.key| < RDRAND_MIN_KEY_LENGTH then Parsed(BadLength, [], [])
    else if firstLen != 0 && |line.key| != firstLen then Parsed(BadLength, [], [])
    else
      var rest := ParseFile(text, line.pos, |line.key|);
      rest.(keys := [line.key] + rest.keys, nonces := [line.nonce] + rest.nonces)
  }

  // ---- round trip ----

  /** What a key file is written from: keys with their nonces, and blank lines anywhere. */
  datatype Item = Blank | Pair(key: seq<Byte>, nonce: seq<Byte>)

  ghost predicate Writable(items: seq<Item>) {
    forall k :: 0 <= k < |items| ==> items[k].Blank? || (|items[k].key| == 16 && |items[k].nonce| == 8)
  }

  function Print(items: seq<Item>): string {
    if items == [] then []
    else (if items[0].Blank? then [] else HexOf(items[0].key) + HexOf(items[0].nonce)) + "\n" + Print(items[1..])
  }

  function Keys(items: seq<Item>): seq<seq<Byte>> {
    if items == [] then [] else (if items[0].Blank? then [] else [items[0].key]) + Keys(items[1..])
  }

  function Nonces(items: seq<Item>): seq<Option<seq<Byte>>> {
    if items == [] then [] else (if items[0].Blank? then [] else [Some(items[0].nonce)]) + Nonces(items[1..])
  }

  lemma {:induction false} ScanDigits(text: string, pos: nat, i: nat, n: nat)
    requires pos + n < |text| && i + n <= MAX_KEY_DIGITS + 1
    requires AllHex(text[pos..pos + n]) && text[pos + n] == '\n'
    ensures ScanLine(text, pos, i) == Line(i + n, pos + n + 1, false)
    decreases n
  {
    if n > 0 {
      assert IsHex(text[pos..pos + n][0]);
      assert text[pos + 1..pos + 1 + (n - 1)] == text[pos..pos + n][1..];
      ScanDigits(text, pos + 1, i + 1, n - 1);
    }
  }

  /** A printed line is read back. */
  lemma ParsePrintedLine(text: string, pos: nat, key: seq<Byte>, nonce: seq<Byte>)
    requires |key| == 16 && |nonce| == 8 && pos + 48 < |text|
    requires text[pos..pos + 48] == HexOf(key) + HexOf(nonce) && text[pos + 48] == '\n'
    ensures ParseLine(text, pos) == KeyLine(Ok, key, Some(nonce), pos + 49)
  {
    hide HexOf, BytesOf, ScanLine;
    ScanDigits(text, pos, 0, 48);
    var line := text[pos..pos + 48];
    assert line[..32] == HexOf(key) && line[32..] == HexOf(nonce);
    BytesOfHex(key);
    BytesOfHex(nonce);
  }

  lemma ParseBlankLine(text: string, pos: nat)
    requires pos < |text| && text[pos] == '\n'
    ensures ParseLine(text, pos) == KeyLine(Ok, [], Some([]), pos + 1)
  {
  }

  lemma ParseEnd(text: string)
    ensures ParseLine(text, |text|).res.Eof?
  {
  }

  /** Any list of 16-byte keys and 8-byte nonces, printed one pair to a line with blank lines
      anywhere, is read back in full and in order. */
  lemma {:induction false} PrintedFileParses(before: string, items: seq<Item>, firstLen: nat)
    requires Writable(items) && firstLen in {0, 16}
    ensures ParseFile(before + Print(items), |before|, firstLen) == Parsed(Ok, Keys(items), Nonces(items))
    decreases |items|
  {
    hide HexOf, ParseLine;
    var text, pos := before + Print(items), |before|;
    if items == [] {
      ParseEnd(text);
    } else {
      var head := (if items[0].Blank? then [] else HexOf(items[0].key) + HexOf(items[0].nonce)) + "\n";
      assert text == (before + head) + Print(items[1..]);
      PrintedFileParses(before + head, items[1..], if items[0].Blank? then firstLen else 16);
      if items[0].Blank? {
        assert text[pos] == '\n';
        ParseBlankLine(text, pos);
      } else {
        assert text[pos..pos + 48] == HexOf(items[0].key) + HexOf(items[0].nonce) && text[pos + 48] == '\n';
        ParsePrintedLine(text, pos, items[0].key, items[0].nonce);
      }
    }
  }

  // ---- the parser itself ----

  /** The open key file. */
  class Input {
    const text: string
    var pos: nat

    constructor (text: string)
      ensures this.text == text && pos == 0
    {
      this.text, pos := text, 0;
    }

    /** getc; None is EOF. */
    method Getc() returns (c: Option<char>)
      requires pos <= |text|
      modifies this
      ensures if old(pos) < |text| then c == Some(text[old(pos)]) && pos == old(pos) + 1
              else c == None && pos == old(pos)
    {
      if pos == |text| {
        return None;
      }
      c := Some(text[pos]);
      pos := pos + 1;
    }
  }

  lemma NextByte(hex: seq<char>, i: nat)
    requires AllHex(hex) && 2 * i + 2 <= |hex|
    ensures BytesOf(hex[..2 * (i + 1)]) == BytesOf(hex[..2 * i]) + [ByteOf(hex[2 * i], hex[2 * i + 1])]
  {
    hide BytesOf, ByteOf;
    var pair := hex[2 * i..2 * i + 2];
    BytesAppend(hex[..2 * i], pair);
    assert hex[..2 * i] + pair == hex[..2 * (i + 1)];
  }

  /** Convert hexadecimal digits into dest; refused unless there are two per byte. */
  method HexToByte(hex: seq<char>, dest: array<Byte>, byteLength: nat) returns (ok: bool)
    requires byteLength <= dest.Length && AllHex(hex)
    modifies dest
    ensures ok <==> |hex| == 2 * byteLength
    ensures ok ==> dest[..byteLength] == BytesOf(hex)
  {
    if |hex| != 2 * byteLength {
      return false;
    }
    hide ByteOf, BytesOf;
    NoBytes();
    for i := 0 to byteLength
      invariant dest[..i] == BytesOf(hex[..2 * i])
    {
      NextByte(hex, i);
      ghost var done := dest[..i];
      dest[i] := ByteOf(hex[2 * i], hex[2 * i + 1]);
      assert dest[..i + 1] == done + [dest[i]];
    }
    assert hex[..2 * byteLength] == hex;
    return true;
  }

  lemma SliceNext(s: string, a: nat, b: nat)
    requires a <= b < |s|
    ensures s[a..b + 1] == s[a..b] + [s[b]]
  {
  }

  /** Read the digits of a line into buf; `stored` of them are stored. */
  method ReadDigits(input: Input, buf: array<char>) returns (r: Scan, ghost stored: nat)
    requires input.pos <= |input.text| && buf.Length == MAX_KEY_DIGITS + 1
    modifies input, buf
    ensures r == ScanLine(input.text, old(input.pos), 0)
    ensures stored == StoredDigits(input.text, old(input.pos))
    ensures buf[..stored] == input.text[old(input.pos)..old(input.pos) + stored]
    ensures r.Line? ==> input.pos == r.pos && r.digits == stored
  {
    var i := 0;
    var c := input.Getc();
    while c.Some? && c.value != '\n'
      invariant i <= buf.Length && old(input.pos) + i <= |input.text|
      invariant buf[..i] == input.text[old(input.pos)..old(input.pos) + i]
      invariant ScanLine(input.text, old(input.pos), 0) == ScanLine(input.text, old(input.pos) + i, i)
      invariant LeadingDigits(input.text, old(input.pos)) == i + LeadingDigits(input.text, old(input.pos) + i)
      invariant if old(input.pos) + i < |input.text|
                then c == Some(input.text[old(input.pos) + i]) && input.pos == old(input.pos) + i + 1
                else c == None && input.pos == |input.text|
      decreases |input.text| - input.pos, c.Some?
    {
      if !IsHex(c.value) {
        return Rejected(InvalidCharacter), i;
      }
      if i > MAX_KEY_DIGITS {
        return Rejected(BadLength), i;
      }
      ghost var done := buf[..i];
      buf[i] := c.value;
      assert buf[..i + 1] == done + [c.value];
      SliceNext(input.text, old(input.pos), old(input.pos) + i);
      i := i + 1;
      c := input.Getc();
    }
    return Line(i, input.pos, c.None?), i;
  }

  /** The digits of a key and of a nonce half as long; a nonce of an odd number of digits is refused. */
  method Convert(keyHex: seq<char>, nonceHex: seq<char>, key: array<Byte>, nonce: array<Byte>)
    requires AllHex(keyHex) && AllHex(nonceHex) && |keyHex| == 2 * |nonceHex|
    requires key != nonce && |nonceHex| <= key.Length && |nonceHex| / 2 <= nonce.Length
    modifies key, nonce
    ensures key[..|nonceHex|] == BytesOf(keyHex)
    ensures |nonceHex| % 2 == 0 ==> nonce[..|nonceHex| / 2] == BytesOf(nonceHex)
  {
    hide BytesOf;
    var _ := HexToByte(keyHex, key, |keyHex| / 2);
    var _ := HexToByte(nonceHex, nonce, |nonceHex| / 2);
  }

  /** load_key_line: the key and nonce go into the caller's buffers. The line buffer has one cell more
      than the MAX_KEY_DIGITS of the code's: `stored` is how many cells are stored to, and its last
      one lies outside the code's buffer exactly when the line starts with more digits than that. */
  method LoadKeyLine(input: Input, key: array<Byte>, nonce: array<Byte>)
    returns (res: FileError, keyLen: nat, nonceLen: nat, ghost stored: nat)
    requires input.pos <= |input.text| && key != nonce && key.Length == nonce.Length == RDRAND_MAX_KEY_LENGTH
    modifies input, key, nonce
    ensures var l := ParseLine(input.text, old(input.pos));
            && res == l.res
            && (res.Ok? ==> keyLen == |l.key| && nonceLen == keyLen / 2 && input.pos == l.pos && key[..keyLen] == l.key
                            && (l.nonce.Some? ==> nonce[..nonceLen] == l.nonce.value))
    ensures stored == StoredDigits(input.text, old(input.pos))
    ensures stored > MAX_KEY_DIGITS <==> LeadingDigits(input.text, old(input.pos)) > MAX_KEY_DIGITS
  {
    hide BytesOf, ScanLine, LeadingDigits, StoredDigits;
    ghost var pos := input.pos;
    var buf := new char[MAX_KEY_DIGITS + 1];
    var scan;
    scan, stored := ReadDigits(input, buf);
    if scan.Rejected? {
      return scan.error, 0, 0, stored;
    }
    ghost var line := input.text[pos..pos + scan.digits];
    ScannedDigits(input.text, pos, 0);
    keyLen := scan.digits / 3 * 2;
    nonceLen := scan.digits / 3;
    if keyLen + nonceLen != scan.digits {
      return BadLength, keyLen, nonceLen, stored;
    }
    if scan.eof {
      return Eof, keyLen, nonceLen, stored;
    }
    if keyLen == 0 {
      return Ok, 0, 0, stored;
    }
    assert buf[..keyLen] == line[..keyLen] && buf[keyLen..keyLen + nonceLen] == line[keyLen..];
    Convert(buf[..keyLen], buf[keyLen..keyLen + nonceLen], key, nonce);
    nonceLen := nonceLen / 2;
    keyLen := keyLen / 2;
    return Ok, keyLen, nonceLen, stored;
  }

  /** The buffers hold the parsed keys and, where there is one, the parsed nonces. */
  ghost predicate HoldsParsed(p: Parsed, keys: seq<seq<Byte>>, nonces: seq<seq<Byte>>) {
    && |keys| == |nonces| == |p.keys| == |p.nonces|
    && forall k :: 0 <= k < |keys| ==>
         && |keys[k]| == |nonces[k]| == RDRAND_MAX_KEY_LENGTH && p.keys[k] <= keys[k]
         && (p.nonces[k].Some? ==> p.nonces[k].value <= nonces[k])
  }

  /** What has been read before, followed by the rest of the file. */
  ghost function After(done: Parsed, rest: Parsed): Parsed {
    Parsed(rest.res, done.keys + rest.keys, done.nonces + rest.nonces)
  }

  lemma AfterStep(done: Parsed, line: KeyLine, rest: Parsed)
    ensures After(Parsed(Ok, done.keys + [line.key], done.nonces + [line.nonce]), rest)
         == After(done, rest.(keys := [line.key] + rest.keys, nonces := [line.nonce] + rest.nonces))
  {
  }

  lemma ParseFileStep(text: string, pos: nat, firstLen: nat)
    requires pos <= |text|
    ensures var line := ParseLine(text, pos);
            ParseFile(text, pos, firstLen) ==
            if line.res.Eof? then Parsed(Ok, [], [])
            else if !line.res.Ok? then Parsed(line.res, [], [])
            else if line.key == [] then ParseFile(text, line.pos, firstLen)
            else if |line.key| > RDRAND_MAX_KEY_LENGTH || |line.key| < RDRAND_MIN_KEY_LENGTH
            then Parsed(BadLength, [], [])
            else if firstLen != 0 && |line.key| != firstLen then Parsed(BadLength, [], [])
            else
              var rest := ParseFile(text, line.pos, |line.key|);
              rest.(keys := [line.key] + rest.keys, nonces := [line.nonce] + rest.nonces)
  {
    hide ParseLine;
  }

  /** The two buffers hold the key of a line and, where there is one, its nonce. */
  ghost predicate OneParsed(line: KeyLine, key: seq<Byte>, nonce: seq<Byte>) {
    && |key| == |nonce| == RDRAND_MAX_KEY_LENGTH && line.key <= key
    && (line.nonce.Some? ==> line.nonce.value <= nonce)
  }

  lemma HoldsMore(p: Parsed, keys: seq<seq<Byte>>, nonces: seq<seq<Byte>>, line: KeyLine, key: seq<Byte>,
                  nonce: seq<Byte>)
    requires HoldsParsed(p, keys, nonces) && OneParsed(line, key, nonce)
    ensures HoldsParsed(Parsed(Ok, p.keys + [line.key], p.nonces + [line.nonce]), keys + [key], nonces + [nonce])
  {
  }

  /** One line, into two new buffers. */
  method ReadKey(input: Input) returns (res: FileError, keyLen: nat, key: seq<Byte>, nonce: seq<Byte>)
    requires input.pos <= |input.text|
    modifies input
    ensures var l := ParseLine(input.text, old(input.pos));
            res == l.res && (res.Ok? ==> keyLen == |l.key| && input.pos == l.pos && OneParsed(l, key, nonce))
  {
    hide ParseLine;
    var keyBuf := new Byte[RDRAND_MAX_KEY_LENGTH];
    var nonceBuf := new Byte[RDRAND_MAX_KEY_LENGTH];
    var nonceLen;
    ghost var stored;
    res, keyLen, nonceLen, stored := LoadKeyLine(input, keyBuf, nonceBuf);
    key, nonce := keyBuf[..], nonceBuf[..];
  }

  /** The loop of load_keys: the keys and nonces of the whole file, each in a buffer of
      RDRAND_MAX_KEY_LENGTH bytes. */
  method ReadKeys(input: Input) returns (res: FileError, firstLen: nat, keys: seq<seq<Byte>>, nonces: seq<seq<Byte>>)
    requires input.pos == 0
    modifies input
    ensures var p := ParseFile(input.text, 0, 0);
            && res == p.res
            && |keys| == |p.keys|
            && (res.Ok? ==> HoldsParsed(p, keys, nonces) && firstLen == LengthOf(p.keys, 0))
  {
    hide ParseLine, ParseFile, OneParsed;
    firstLen, keys, nonces := 0, [], [];
    ghost var pos, done := 0, Parsed(Ok, [], []);
    while true
      invariant pos == input.pos <= |input.text|
      invariant HoldsParsed(done, keys, nonces) && firstLen == LengthOf(done.keys, 0)
      invariant firstLen == 0 ==> done.keys == []
      invariant ParseFile(input.text, 0, 0) == After(done, ParseFile(input.text, pos, firstLen))
      decreases |input.text| - pos
    {
      var keyLen, key, nonce;
      ghost var line := ParseLine(input.text, pos);
      ParseFileStep(input.text, pos, firstLen);
      res, keyLen, key, nonce := ReadKey(input);
      if res.Eof? {
        return Ok, firstLen, keys, nonces;
      }
      if !res.Ok? {
        return;
      }
      pos := input.pos;
      if keyLen == 0 {
        continue;
      }
      if keyLen > RDRAND_MAX_KEY_LENGTH || keyLen < RDRAND_MIN_KEY_LENGTH {
        return BadLength, firstLen, keys, nonces;
      }
      if firstLen == 0 {
        firstLen := keyLen;
      }
      if firstLen != keyLen {
        return BadLength, firstLen, keys, nonces;
      }
      HoldsMore(done, keys, nonces, line, key, nonce);
      keys, nonces := keys + [key], nonces + [nonce];
      AfterStep(done, line, ParseFile(input.text, pos, firstLen));
      done := Parsed(Ok, done.keys + [line.key], done.nonces + [line.nonce]);
    }
  }

  /** All keys are 16 bytes long and have a nonce. */
  ghost predicate Full(p: Parsed) {
    && |p.keys| == |p.nonces|
    && forall k :: 0 <= k < |p.keys| ==> |p.keys[k]| == 16 && p.nonces[k].Some? && |p.nonces[k].value| == 8
  }

  /** The slots a file configures: nonces are padded with zeros to the key length. */
  ghost function SlotsIn(p: Parsed): (s: seq<Slot>)
    requires Full(p)
    ensures |s| == |p.keys|
  {
    seq(|p.keys|, k requires 0 <= k < |p.keys| => Slot(p.keys[k], p.nonces[k].value + Zeros(8)))
  }

  lemma NonceOfSixteen(text: string, pos: nat)
    requires pos <= |text| && ParseLine(text, pos).res.Ok? && |ParseLine(text, pos).key| == 16
    ensures ParseLine(text, pos).nonce.Some?
  {
    ScannedDigits(text, pos, 0);
    var scan := ScanLine(text, pos, 0);
    var third := scan.digits / 3;
    assert |text[pos..pos + scan.digits][..2 * third]| == 2 * third;
    assert |ParseLine(text, pos).key| == third;
  }

  /** A file whose keys are 16 bytes long has a nonce for each of them. */
  lemma {:induction false} SixteenIsFull(text: string, pos: nat, firstLen: nat)
    requires pos <= |text| && LengthOf(ParseFile(text, pos, firstLen).keys, firstLen) == 16
    ensures Full(ParseFile(text, pos, firstLen))
    decreases |text| - pos
  {
    hide ParseLine, ParseFile;
    var line := ParseLine(text, pos);
    ParseFileStep(text, pos, firstLen);
    if line.res.Ok? && line.key == [] {
      SixteenIsFull(text, line.pos, firstLen);
    } else if line.res.Ok? && |line.key| == 16 {
      NonceOfSixteen(text, pos);
      SixteenIsFull(text, line.pos, 16);
    }
  }

  lemma SameSlots(p: Parsed, keys: seq<seq<Byte>>, nonces: seq<seq<Byte>>)
    requires HoldsParsed(p, keys, nonces) && Full(p)
    ensures SlotsOf(keys, nonces, |keys|) == SlotsIn(p)
  {
    forall k | 0 <= k < |keys|
      ensures SlotsOf(keys, nonces, |keys|)[k] == SlotsIn(p)[k]
    {
      assert keys[k][..16] == p.keys[k] && nonces[k][..8] == p.nonces[k].value;
    }
  }

  /** The common length of the keys is 8 or 16 bytes. */
  method SetFileKeys(ghost p: Parsed, firstLen: nat, keys: seq<seq<Byte>>, nonces: seq<seq<Byte>>, aes: Aes)
    returns (ok: bool, pastEnd: bool)
    requires HoldsParsed(p, keys, nonces) && |keys| > 0 && firstLen <= 32 && aes.Held() && (firstLen == 16 ==> Full(p))
    modifies aes
    ensures ok == (firstLen == 8 || firstLen == 16) && pastEnd == (firstLen == 8)
    ensures ok && !pastEnd ==> Full(p) && aes.Valid() && aes.View() == GivenConfig(SlotsIn(p)).(draws := old(aes.draws))
    ensures if ok then aes.Allocated() && aes.amount == |keys|
            else aes.Held() && aes.keys == old(aes.keys) && aes.nonces == old(aes.nonces) && aes.live == old(aes.live)
  {
    hide Aes.Valid, Aes.Allocated, Aes.Held, SlotsIn, SlotsOf, Full;
    ok, pastEnd := aes.SetAesKeys(|keys|, firstLen as bv64, keys, nonces);
    if ok && !pastEnd {
      SameSlots(p, keys, nonces);
    }
  }

  /** load_keys: read the file and configure the keys. Keys of 8 bytes are accepted too, but then
      key_to_openssl reads past their end. The code collects the keys in arrays of MAX_KEYS entries:
      `pastArrays` tells that it stores behind them, which may be so even if an error follows. */
  method LoadKeys(input: Input, aes: Aes) returns (res: FileError, pastEnd: bool, ghost pastArrays: bool)
    requires input.pos == 0 && aes.Held()
    modifies input, aes
    ensures var p := ParseFile(input.text, 0, 0); var length := LengthOf(p.keys, 0);
            && res == (if !p.res.Ok? then p.res else if length == 8 || length == 16 then Ok else BadLength)
            && (pastEnd <==> res.Ok? && length == 8)
            && (res.Ok? && !pastEnd ==>
                  Full(p) && aes.Valid() && aes.View() == GivenConfig(SlotsIn(p)).(draws := old(aes.draws)))
    ensures if res.Ok? then aes.Allocated() && aes.amount == |ParseFile(input.text, 0, 0).keys|
            else aes.Held() && aes.keys == old(aes.keys) && aes.nonces == old(aes.nonces) && aes.live == old(aes.live)
    ensures pastArrays <==> |ParseFile(input.text, 0, 0).keys| > MAX_KEYS
  {
    hide ParseFile, Aes.Valid, Aes.Allocated, Aes.Held, SlotsIn;
    ghost var p := ParseFile(input.text, 0, 0);
    var firstLen, keys, nonces;
    res, firstLen, keys, nonces := ReadKeys(input);
    pastEnd, pastArrays := false, |keys| > MAX_KEYS;
    if !res.Ok? {
      return;
    }
    if |keys| == 0 {
      return BadLength, false, false;
    }
    assert p.keys[0] <= keys[0];
    if firstLen == 16 {
      SixteenIsFull(input.text, 0, 0);
    }
    var ok;
    ok, pastEnd := SetFileKeys(p, firstLen, keys, nonces, aes);
    res := if ok then Ok else BadLength;
  }

  function Pairs(items: seq<Item>): seq<Slot>
    requires Writable(items)
  {
    if items == [] then []
    else (if items[0].Blank? then [] else [Slot(items[0].key, items[0].nonce + Zeros(8))]) + Pairs(items[1..])
  }

  lemma OneMorePair(key: seq<Byte>, nonce: seq<Byte>, rest: Parsed)
    requires |key| == 16 && |nonce| == 8 && Full(rest)
    ensures var p := rest.(keys := [key] + rest.keys, nonces := [Some(nonce)] + rest.nonces);
            Full(p) && SlotsIn(p) == [Slot(key, nonce + Zeros(8))] + SlotsIn(rest)
  {
  }

  lemma {:induction false} ItemsAreFull(items: seq<Item>)
    requires Writable(items)
    ensures var p := Parsed(Ok, Keys(items), Nonces(items)); Full(p) && SlotsIn(p) == Pairs(items)
  {
    if items != [] {
      var rest := Parsed(Ok, Keys(items[1..]), Nonces(items[1..]));
      ItemsAreFull(items[1..]);
      if items[0].Pair? {
        OneMorePair(items[0].key, items[0].nonce, rest);
      }
    }
  }

  /** The round trip: for any list of 16-byte keys and 8-byte nonces, at least one and printed with
      blank lines anywhere, load_keys configures exactly these keys and nonces, in order. */
  lemma KeyFileRoundTrip(items: seq<Item>)
    requires Writable(items) && Keys(items) != []
    ensures var p := ParseFile(Print(items), 0, 0);
            && p.res.Ok? && LengthOf(p.keys, 0) == 16 && Full(p) && SlotsIn(p) == Pairs(items)
  {
    hide ParseFile, Print;
    PrintedFileParses("", items, 0);
    assert "" + Print(items) == Print(items);
    ItemsAreFull(items);
  }
}
