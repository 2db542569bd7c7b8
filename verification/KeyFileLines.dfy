/** What load_keys makes of a key file, told from the lines of the file. */
module KeyFileLines {
  import opened KeyFile
  import opened Machine

  // ---- digits ----

  /** The digits are those of the two alphabets. */
  lemma HexAlphabet(c: char)
    ensures IsHex(c) <==> c in "0123456789abcdef" || c in "0123456789ABCDEF"
  {
    if IsHex(c) {
      var v := DigitValue(c);
      assert c == "0123456789abcdef"[v] || c == "0123456789ABCDEF"[v];
    }
  }

  /** A digit stands for its position in its alphabet. */
  lemma HexValues(v: nat)
    requires v < 16
    ensures var c := "0123456789abcdef"[v]; IsHex(c) && DigitValue(c) == v
    ensures var c := "0123456789ABCDEF"[v]; IsHex(c) && DigitValue(c) == v
  {
  }

  lemma PairValue(hi: char, lo: char, b: Byte)
    requires IsHex(hi) && IsHex(lo) && b as int == 16 * DigitValue(hi) + DigitValue(lo)
    ensures ByteOf(hi, lo) == b
  {
    hide DigitValue;
  }

  /** Byte i of a run of digits is the b that is the value of its i-th pair, the first digit counting 16. */
  lemma {:induction false} BytesAt(s: seq<char>, i: nat, b: Byte)
    requires |s| % 2 == 0 && AllHex(s) && i < |s| / 2
    requires b as int == 16 * DigitValue(s[2 * i]) + DigitValue(s[2 * i + 1])
    ensures BytesOf(s)[i] == b
  {
    hide BytesOf, ByteOf, DigitValue;
    var n := |s| - 2;
    var front, last := s[..n], s[n..];
    assert front + last == s;
    BytesAppend(front, last);
    if 2 * i < n {
      assert front[2 * i] == s[2 * i] && front[2 * i + 1] == s[2 * i + 1];
      BytesAt(front, i, b);
    } else {
      PairValue(last[0], last[1], b);
    }
  }

  // ---- the lines of a file ----

  function Join(lines: seq<string>): string {
    if lines == [] then [] else lines[0] + "\n" + Join(lines[1..])
  }

  /** A line that is accepted: blank, or m bytes of key and half as many of nonce. */
  ghost predicate GoodLine(line: string, m: nat) {
    AllHex(line) && (line == [] || (4 <= m <= 21 && |line| == 3 * m))
  }

  ghost predicate GoodLines(lines: seq<string>, m: nat) {
    forall k :: 0 <= k < |lines| ==> GoodLine(lines[k], m)
  }

  /** The key of a line: its first two thirds. */
  ghost function KeyIn(line: string, m: nat): (keys: seq<seq<Byte>>)
    requires GoodLine(line, m)
  {
    if line == [] then [] else [BytesOf(line[..2 * m])]
  }

  /** Its nonce: the last third, which is converted only if its digits come in pairs. */
  ghost function NonceIn(line: string, m: nat): (nonces: seq<Option<seq<Byte>>>)
    requires GoodLine(line, m)
  {
    if line == [] then [] else [if m % 2 == 0 then Some(BytesOf(line[2 * m..])) else None]
  }

  /** The keys of the lines, in order. */
  ghost function LineKeys(lines: seq<string>, m: nat): (keys: seq<seq<Byte>>)
    requires GoodLines(lines, m)
  {
    if lines == [] then [] else KeyIn(lines[0], m) + LineKeys(lines[1..], m)
  }

  ghost function LineNonces(lines: seq<string>, m: nat): (nonces: seq<Option<seq<Byte>>>)
    requires GoodLines(lines, m)
  {
    if lines == [] then [] else NonceIn(lines[0], m) + LineNonces(lines[1..], m)
  }

  lemma OneMoreLine(line: string, lines: seq<string>, m: nat)
    requires GoodLine(line, m) && GoodLines(lines, m)
    ensures var more := [line] + lines;
            && GoodLines(more, m)
            && Join(more) == line + "\n" + Join(lines)
            && LineKeys(more, m) == KeyIn(line, m) + LineKeys(lines, m)
            && LineNonces(more, m) == NonceIn(line, m) + LineNonces(lines, m)
  {
    hide GoodLine, KeyIn, NonceIn;
    assert ([line] + lines)[1..] == lines;
  }

  /** What load_keys returns once only the digits h and what is behind them are left, if it stops there;
      m is the length of the keys before, 0 if there are none. */
  ghost predicate Ends(h: string, behind: string, m: nat, res: FileError) {
    && AllHex(h)
    && (behind == [] || !IsHex(behind[0]))
    && if |h| > 65 then res == BadLength
       else if behind != [] && behind[0] != '\n' then res == InvalidCharacter
       else if |h| % 3 != 0 then res == BadLength
       else if behind == [] then res == Ok
       else 0 < |h| && (|h| < 12 || (m != 0 && |h| != 3 * m)) && res == BadLength
  }

  lemma KeyLength(line: string, m: nat)
    requires GoodLine(line, m)
    ensures line == [] ==> KeyIn(line, m) == [] && NonceIn(line, m) == []
    ensures line != [] ==> KeyIn(line, m) != [] && |KeyIn(line, m)[0]| == m
  {
  }

  lemma AfterLine(key: seq<seq<Byte>>, nonce: seq<Option<seq<Byte>>>, keys: seq<seq<Byte>>,
                  nonces: seq<Option<seq<Byte>>>, rest: Parsed)
    ensures var p := After(Parsed(Ok, keys, nonces), rest);
            p.(keys := key + p.keys, nonces := nonce + p.nonces) == After(Parsed(Ok, key + keys, nonce + nonces), rest)
  {
  }

  lemma NoLines(m: nat)
    ensures Join([]) == [] && LineKeys([], m) == [] && LineNonces([], m) == []
  {
  }

  // ---- one line ----

  /** Up to 65 digits are just counted. */
  lemma {:induction false} ScanOver(text: string, pos: nat, i: nat, n: nat)
    requires pos + n <= |text| && i + n <= 65 && AllHex(text[pos..pos + n])
    ensures ScanLine(text, pos, i) == ScanLine(text, pos + n, i + n)
    decreases n
  {
    if n > 0 {
      assert IsHex(text[pos..pos + n][0]);
      assert text[pos + 1..pos + 1 + (n - 1)] == text[pos..pos + n][1..];
      ScanOver(text, pos + 1, i + 1, n - 1);
    }
  }

  /** A good line is cut into its key and its nonce. */
  lemma ParseGoodLine(text: string, pos: nat, line: string, m: nat)
    requires GoodLine(line, m) && pos + |line| < |text|
    requires text[pos..pos + |line|] == line && text[pos + |line|] == '\n'
    ensures var r := ParseLine(text, pos);
            && r.res.Ok? && r.pos == pos + |line| + 1
            && (if line == [] then r.key == [] else 4 <= |r.key| <= 21 && |r.key| == m)
            && (line != [] ==> [r.key] == KeyIn(line, m) && [r.nonce] == NonceIn(line, m))
  {
    hide BytesOf, LeadingDigits;
    ScanDigits(text, pos, 0, |line|);
  }

  lemma LastScan(text: string, pos: nat, n: nat)
    requires pos <= |text|
    ensures var r := ScanLine(text, pos, n);
            && (pos == |text| ==> r == Line(n, pos, true))
            && (pos < |text| && text[pos] == '\n' ==> r == Line(n, pos + 1, false))
            && (pos < |text| && text[pos] != '\n' && !IsHex(text[pos]) ==> r == Rejected(InvalidCharacter))
            && (pos < |text| && IsHex(text[pos]) && n >= 65 ==> r == Rejected(BadLength))
  {
  }

  /** Where no line is accepted any more. */
  lemma ParseLastLine(text: string, pos: nat, h: string, behind: string, m: nat, res: FileError)
    requires pos <= |text| && text[pos..] == h + behind && Ends(h, behind, m, res)
    ensures var r := ParseLine(text, pos);
            || (res.Ok? && r.res.Eof?)
            || (!res.Ok? && r.res == res)
            || (res.BadLength? && r.res.Ok? && 0 < |r.key| && (|r.key| < 4 || (m != 0 && |r.key| != m)))
  {
    hide BytesOf, LeadingDigits, ScanLine;
    var n := if |h| <= 65 then |h| else 65;
    assert text[pos..pos + n] == (h + behind)[..n] == h[..n];
    ScanOver(text, pos, 0, n);
    if pos + n < |text| {
      assert text[pos + n] == (h + behind)[n];
    }
    LastScan(text, pos + n, n);
  }

  // ---- the whole file ----

  /** Good lines are read, one key and one nonce for each that is not blank, before anything behind them. */
  lemma {:induction false} ParseGoodLines(before: string, lines: seq<string>, rest: string, m: nat, firstLen: nat)
    requires GoodLines(lines, m) && firstLen in {0, m}
    ensures var text := before + Join(lines) + rest;
            ParseFile(text, |before|, firstLen)
            == After(Parsed(Ok, LineKeys(lines, m), LineNonces(lines, m)),
                     ParseFile(text, |before + Join(lines)|, LengthOf(LineKeys(lines, m), firstLen)))
    decreases |lines|
  {
    hide ParseLine, ParseFile, Join, LineKeys, LineNonces, KeyIn, NonceIn;
    var text, pos := before + Join(lines) + rest, |before|;
    if lines == [] {
      NoLines(m);
      assert before + Join(lines) == before;
    } else {
      var line, others := lines[0], lines[1..];
      var head := line + "\n";
      OneMoreLine(line, others, m);
      assert lines == [line] + others;
      assert before + Join(lines) == (before + head) + Join(others);
      assert text[pos..pos + |line|] == line && text[pos + |line|] == '\n';
      ParseFileStep(text, pos, firstLen);
      ParseGoodLine(text, pos, line, m);
      var next := if line == [] then firstLen else m;
      ParseGoodLines(before + head, others, rest, m, next);
      AfterLine(KeyIn(line, m), NonceIn(line, m), LineKeys(others, m), LineNonces(others, m),
                ParseFile(text, |before + Join(lines)|, LengthOf(LineKeys(others, m), next)));
      KeyLength(line, m);
    }
  }

  lemma ParseEnds(text: string, pos: nat, h: string, behind: string, m: nat, res: FileError)
    requires pos <= |text| && text[pos..] == h + behind && Ends(h, behind, m, res)
    ensures ParseFile(text, pos, m) == Parsed(res, [], [])
  {
    hide ParseLine, ParseFile;
    ParseFileStep(text, pos, m);
    ParseLastLine(text, pos, h, behind, m, res);
  }

  /** The outcome for every file: the keys and nonces of the good lines in front, and what is behind
      them decides about the result. A last line without a newline is not read as a key. */
  lemma FileOutcome(lines: seq<string>, h: string, behind: string, m: nat, res: FileError)
    requires GoodLines(lines, m) && m == LengthOf(LineKeys(lines, m), 0) && Ends(h, behind, m, res)
    ensures ParseFile(Join(lines) + h + behind, 0, 0) == Parsed(res, LineKeys(lines, m), LineNonces(lines, m))
  {
    hide ParseFile, Ends, GoodLines, LineKeys, LineNonces;
    var front := Join(lines);
    var text := front + h + behind;
    assert text == [] + front + (h + behind) && [] + front == front;
    ParseGoodLines([], lines, h + behind, m, 0);
    assert text[|front|..] == h + behind;
    ParseEnds(text, |front|, h, behind, m, res);
  }

  lemma {:induction false} LeadingAreDigits(text: string, pos: nat)
    requires pos <= |text|
    ensures var n := LeadingDigits(text, pos);
            AllHex(text[pos..pos + n]) && (pos + n < |text| ==> !IsHex(text[pos + n]))
    decreases |text| - pos
  {
    if pos < |text| && IsHex(text[pos]) {
      LeadingAreDigits(text, pos + 1);
      var n := LeadingDigits(text, pos + 1);
      assert text[pos..pos + 1 + n] == [text[pos]] + text[pos + 1..pos + 1 + n];
    }
  }

  lemma EndOrLine(h: string, behind: string, m: nat) returns (ends: bool, res: FileError)
    requires AllHex(h) && (behind == [] || !IsHex(behind[0]))
    ensures ends ==> Ends(h, behind, m, res)
    ensures !ends ==> behind != [] && behind[0] == '\n'
    ensures !ends && h != [] ==> 4 <= |h| / 3 <= 21 && |h| == 3 * (|h| / 3) && m in {0, |h| / 3}
  {
    res := if |h| <= 65 && behind != [] && behind[0] != '\n' then InvalidCharacter
           else if |h| <= 65 && |h| % 3 == 0 && behind == [] then Ok
           else BadLength;
    ends := Ends(h, behind, m, res);
  }

  /** Every text is some good lines and an end; m is the length of the keys before it. */
  lemma {:induction false} CutIntoLines(text: string, m: nat)
    returns (lines: seq<string>, h: string, behind: string, size: nat, res: FileError)
    requires m == 0 || 4 <= m <= 21
    ensures text == Join(lines) + h + behind && Ends(h, behind, size, res)
    ensures GoodLines(lines, size) && size == LengthOf(LineKeys(lines, size), m)
    decreases |text|
  {
    hide Ends, BytesOf, LeadingDigits, Join, LineKeys, LineNonces, KeyIn, NonceIn;
    var n := LeadingDigits(text, 0);
    LeadingAreDigits(text, 0);
    h, behind := text[..n], text[n..];
    assert h == text[0..n] && text == h + behind;
    var ends;
    ends, res := EndOrLine(h, behind, m);
    if ends {
      lines, size := [], m;
      NoLines(m);
      assert text == Join(lines) + h + behind;
    } else {
      var line := h;
      lines, h, behind, size, res := CutIntoLines(text[n + 1..], if n == 0 then m else n / 3);
      assert text == line + "\n" + text[n + 1..];
      OneMoreLine(line, lines, size);
      KeyLength(line, size);
      lines := [line] + lines;
    }
  }

  /** So each file has exactly one of these outcomes. */
  lemma EveryFile(text: string)
    ensures exists lines, h, behind, m ::
              && GoodLines(lines, m) && m == LengthOf(LineKeys(lines, m), 0)
              && text == Join(lines) + h + behind && Ends(h, behind, m, ParseFile(text, 0, 0).res)
  {
    hide *;
    var lines, h, behind, m, res := CutIntoLines(text, 0);
    FileOutcome(lines, h, behind, m, res);
  }
}
