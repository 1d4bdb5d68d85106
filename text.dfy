/** Character-level behaviour of the catalog engine: the bounded line reader
    (`readLine`), the decimal conversions it relies on (`atoi`, `%06d`) and
    ASCII lower-casing (`strlwr`). A byte stream is the sequence of bytes that
    are still unread; reading past its end yields EOF and consumes nothing. */
module Text {
  import opened Common

  /** Offset of the first `c` in `s`, or |s| if there is none. */
  function Find(s: seq<char>, c: char): (n: nat)
    ensures n <= |s|
    ensures forall i :: 0 <= i < n ==> s[i] != c
    ensures n < |s| ==> s[n] == c
  {
    if s == [] || s[0] == c then 0 else 1 + Find(s[1..], c)
  }

  /** The first `c` is at `n` when it is there and nowhere before. */
  lemma FindAt(s: seq<char>, c: char, n: nat)
    requires n <= |s| && (n < |s| ==> s[n] == c)
    requires forall i :: 0 <= i < n ==> s[i] != c
    ensures Find(s, c) == n
  {
  }

  /** Number of bytes before the first '\n' of `s`, or |s| if there is none. */
  function LineLength(s: seq<char>): nat
  {
    Find(s, '\n')
  }

  /** What `readLine` leaves in a buffer of `size` bytes: the line, cut to
      size - 1 characters so that the terminating NUL fits. */
  function LineText(s: seq<char>, size: nat): (t: string)
    requires size >= 1
    ensures |t| <= size - 1 && |t| <= LineLength(s)
    ensures t == s[..|t|]
    ensures forall i :: 0 <= i < |t| ==> t[i] != '\n'
    ensures |t| == LineLength(s) || |t| == size - 1
  {
    s[..Min(LineLength(s), size - 1)]
  }

  /** How many bytes `readLine` takes from the stream: the characters it
      stored in the buffer, plus the one read that ended the loop (the '\n',
      or, once the buffer is full, whatever byte comes next), unless that
      read hit EOF. */
  function Consumed(s: seq<char>, size: nat): (c: nat)
    requires size >= 1
    ensures c <= |s|
    // the line ends in the buffer: it is consumed with its '\n'
    ensures LineLength(s) < size && LineLength(s) < |s| ==> c == LineLength(s) + 1 && s[c - 1] == '\n'
    // the stream ends in the buffer: EOF stops the loop and everything is consumed
    ensures LineLength(s) < size && LineLength(s) == |s| ==> c == |s|
    // the buffer fills: one more byte is read, unless EOF comes first
    ensures LineLength(s) >= size ==> c == Min(size + 1, |s|)
  {
    var stored := Min(LineLength(s), size);
    if stored < |s| then stored + 1 else |s|
  }

  /** readLine(file, string, stringLength): reads bytes until '\n', EOF, or a
      full buffer; returns the text left in the buffer and the unread rest of
      the stream. */
  method ReadLine(s: seq<char>, size: nat) returns (text: string, rest: seq<char>)
    requires size >= 1
    ensures text == LineText(s, size)
    ensures rest == s[Consumed(s, size)..]
  {
    var pos := 0;
    var strIndex := 0;
    var buffer: string := [];
    // inputChar = file->read()
    var inputChar: Option<char> := None;
    if pos < |s| {
      inputChar := Some(s[pos]);
      pos := pos + 1;
    }
    while inputChar.Some? && inputChar.value != '\n' && strIndex < size
      invariant 0 <= strIndex <= size && strIndex <= LineLength(s)
      invariant buffer == s[..strIndex]
      invariant inputChar == if strIndex < |s| then Some(s[strIndex]) else None
      invariant pos == Min(strIndex + 1, |s|)
      decreases size - strIndex
    {
      buffer := buffer + [inputChar.value];
      strIndex := strIndex + 1;
      inputChar := None;
      if pos < |s| {
        inputChar := Some(s[pos]);
        pos := pos + 1;
      }
    }
    // Clip string if needed
    if strIndex == size {
      strIndex := strIndex - 1;
    }
    text := buffer[..strIndex];
    rest := s[pos..];
  }

  /** A line that fits is returned whole, and its '\n' is consumed with it. */
  lemma CompleteLine(line: string, rest: seq<char>, size: nat)
    requires size >= 1 && |line| < size
    requires forall i :: 0 <= i < |line| ==> line[i] != '\n'
    ensures LineText(line + ['\n'] + rest, size) == line
    ensures Consumed(line + ['\n'] + rest, size) == |line| + 1
    ensures (line + ['\n'] + rest)[|line| + 1..] == rest
  {
    var s := line + ['\n'] + rest;
    assert s[|line|] == '\n';
    assert forall i :: 0 <= i < |line| ==> s[i] == line[i];
    assert s[..|line|] == line;
  }

  /** The length of the line that starts k bytes into it. */
  lemma {:induction false} LineLengthSuffix(s: seq<char>, k: nat)
    requires k <= LineLength(s)
    ensures LineLength(s[k..]) == LineLength(s) - k
  {
    if k > 0 {
      assert s != [] && s[0] != '\n';
      assert s[1..][k - 1..] == s[k..];
      LineLengthSuffix(s[1..], k - 1);
    }
  }

  /** A last line without '\n' that fits: EOF ends the read, the line is
      returned whole and nothing is left. */
  lemma LastLine(line: string, size: nat)
    requires size >= 1 && |line| < size
    requires forall i :: 0 <= i < |line| ==> line[i] != '\n'
    ensures LineText(line, size) == line
    ensures Consumed(line, size) == |line| && line[Consumed(line, size)..] == []
  {
    assert LineLength(line) == |line|;
  }

  /** An overlong line (more than `size` characters): the buffer keeps the
      first size - 1 of them, exactly size + 1 bytes are consumed, so the
      characters at offsets size - 1 and size are lost, and the remainder of
      the line is what the next read sees first. */
  lemma OverlongLine(s: seq<char>, size: nat)
    requires size >= 1 && LineLength(s) > size
    ensures LineText(s, size) == s[..size - 1]
    ensures Consumed(s, size) == size + 1
    ensures LineLength(s[Consumed(s, size)..]) == LineLength(s) - (size + 1)
  {
    LineLengthSuffix(s, size + 1);
  }

  /** A line of exactly `size` characters: it loses its last character and
      its '\n' is consumed by the read that found the buffer full. */
  lemma LineFillingBuffer(line: string, rest: seq<char>, size: nat)
    requires size >= 1 && |line| == size
    requires forall i :: 0 <= i < |line| ==> line[i] != '\n'
    ensures LineText(line + ['\n'] + rest, size) == line[..size - 1]
    ensures (line + ['\n'] + rest)[Consumed(line + ['\n'] + rest, size)..] == rest
  {
    var s := line + ['\n'] + rest;
    assert s[|line|] == '\n';
    assert forall i :: 0 <= i < |line| ==> s[i] == line[i];
    assert LineLength(s) == |line|;
    assert s[..size - 1] == line[..size - 1];
    assert s[size + 1..] == rest;
  }

  // ----- decimal text -----

  predicate IsDigit(c: char)
  {
    '0' <= c <= '9'
  }

  predicate AllDigits(d: string)
  {
    forall i :: 0 <= i < |d| ==> IsDigit(d[i])
  }

  function DigitValue(c: char): nat
    requires IsDigit(c)
  {
    (c as int - '0' as int) as nat
  }

  function DigitChar(k: nat): (c: char)
    requires k < 10
    ensures IsDigit(c) && DigitValue(c) == k
  {
    (k + '0' as int) as char
  }

  /** Number of leading decimal digits of `s`. */
  function DigitRun(s: string): (n: nat)
    ensures n <= |s| && AllDigits(s[..n])
    ensures n < |s| ==> !IsDigit(s[n])
  {
    if s == [] || !IsDigit(s[0]) then 0 else 1 + DigitRun(s[1..])
  }

  /** The value of a digit string, most significant digit first. */
  function DecimalValue(d: string): nat
    requires AllDigits(d)
  {
    if d == [] then 0 else DecimalValue(d[..|d| - 1]) * 10 + DigitValue(d[|d| - 1])
  }

  /** atoi on plain decimal text: an optional sign, then the longest run of
      digits; anything after the run is ignored, no digits gives 0. */
  function Atoi(s: string): (r: int)
    ensures r < 0 ==> |s| > 0 && s[0] == '-'
    ensures -(Pow10(|s|) as int) < r < Pow10(|s|)
  {
    if |s| > 0 && (s[0] == '-' || s[0] == '+') then
      var body := s[1..];
      var d := body[..DigitRun(body)];
      DecimalBound(d);
      Pow10Monotone(|d|, |s|);
      var v: int := DecimalValue(d);
      if s[0] == '-' then -v else v
    else
      var d := s[..DigitRun(s)];
      DecimalBound(d);
      Pow10Monotone(|d|, |s|);
      DecimalValue(d)
  }

  /** n digits hold a value below 10^n. */
  lemma {:induction false} DecimalBound(d: string)
    requires AllDigits(d)
    ensures DecimalValue(d) < Pow10(|d|)
  {
    if d != [] {
      DecimalBound(d[..|d| - 1]);
    }
  }

  lemma {:induction false} Pow10Monotone(a: nat, b: nat)
    requires a <= b
    ensures Pow10(a) <= Pow10(b)
  {
    if a < b {
      Pow10Monotone(a, b - 1);
    }
  }

  /** The digit run of a digit string followed by a non-digit is that string. */
  lemma {:induction false} DigitRunOfDigits(d: string, tail: string)
    requires AllDigits(d)
    requires tail == [] || !IsDigit(tail[0])
    ensures DigitRun(d + tail) == |d|
  {
    if d != [] {
      assert (d + tail)[1..] == d[1..] + tail;
      DigitRunOfDigits(d[1..], tail);
    } else {
      assert d + tail == tail;
    }
  }

  /** atoi reads back the value of a digit string, whatever follows it. */
  lemma AtoiOfDigits(d: string, tail: string)
    requires |d| >= 1 && AllDigits(d)
    requires tail == [] || !IsDigit(tail[0])
    ensures Atoi(d + tail) == DecimalValue(d)
  {
    DigitRunOfDigits(d, tail);
    assert (d + tail)[0] == d[0];
    assert (d + tail)[..|d|] == d;
  }

  function Pow10(n: nat): (p: nat)
    ensures p >= 1
  {
    if n == 0 then 1 else 10 * Pow10(n - 1)
  }

  /** sprintf "%0<width>d" for a non-negative value: the low `width` decimal
      digits, zero-padded on the left. */
  function Pad(v: nat, width: nat): (d: string)
    ensures |d| == width && AllDigits(d)
  {
    if width == 0 then [] else Pad(v / 10, width - 1) + [DigitChar(v % 10)]
  }

  /** Zero-padding loses nothing when the value has at most `width` digits. */
  lemma {:induction false} PadRoundTrip(v: nat, width: nat)
    requires v < Pow10(width)
    ensures DecimalValue(Pad(v, width)) == v
  {
    if width > 0 {
      var q, r := v / 10, v % 10;
      assert q < Pow10(width - 1) by {
        assert v == q * 10 + r;
      }
      PadRoundTrip(q, width - 1);
      var d, p := Pad(v, width), Pad(q, width - 1);
      assert DecimalValue(d) == DecimalValue(p) * 10 + r by {
        assert d == p + [DigitChar(r)];
        assert d[..|d| - 1] == p;
      }
    }
  }

  // ----- case -----

  /** strlwr on one character: ASCII upper case to lower case. */
  function Lower(c: char): (l: char)
    ensures 'A' <= c <= 'Z' ==> 'a' <= l <= 'z' && l as int == c as int + 32
    ensures !('A' <= c <= 'Z') ==> l == c
  {
    if 'A' <= c <= 'Z' then (c as int + 32) as char else c
  }

  function LowerAll(s: string): (l: string)
    ensures |l| == |s| && forall i :: 0 <= i < |s| ==> l[i] == Lower(s[i])
  {
    seq(|s|, i requires 0 <= i < |s| => Lower(s[i]))
  }

  /** strlwr works character by character, so it distributes over joining. */
  lemma LowerAllConcat(a: string, b: string)
    ensures LowerAll(a + b) == LowerAll(a) + LowerAll(b)
  {
    var l, r := LowerAll(a + b), LowerAll(a) + LowerAll(b);
    assert |l| == |r|;
    forall i | 0 <= i < |l|
      ensures l[i] == r[i]
    {
      if i < |a| {
        assert (a + b)[i] == a[i];
      } else {
        assert (a + b)[i] == b[i - |a|];
      }
    }
  }
}
