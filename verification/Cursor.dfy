/**
  Opaque activity cursors: base64url text without padding around "timestamp|id".

  Text is modelled as its UTF-8 bytes. The decoder is the lenient one of Python's base64 module:
  it skips characters outside the alphabet, accepts both spellings of the last two digits, and
  stops at a complete padding.
*/
module Cursor {
  import opened Common

  type Byte = b: int | 0 <= b < 256
  type Text = seq<Byte>

  const SEPARATOR: Byte := 124
  const MAX_CURSOR := 256

  // ---------- Base64 (sections 4 and 5 of RFC 4648) ----------

  /** The URL-safe character of a six-bit digit. */
  function Letter(v: int): char
    requires 0 <= v < 64
  {
    if v < 26 then 'A' + v as char
    else if v < 52 then 'a' + (v - 26) as char
    else if v < 62 then '0' + (v - 52) as char
    else if v == 62 then '-' else '_'
  }

  /** The digit of a character of either alphabet. */
  function Digit(c: char): Option<Sextet> {
    if 'A' <= c <= 'Z' then Some(c as int - 'A' as int)
    else if 'a' <= c <= 'z' then Some(c as int - 'a' as int + 26)
    else if '0' <= c <= '9' then Some(c as int - '0' as int + 52)
    else if c == '+' || c == '-' then Some(62)
    else if c == '/' || c == '_' then Some(63)
    else None
  }

  /** As many padding characters as bring a length to a multiple of four. */
  function Padding(length: nat): string {
    match length % 4
    case 0 => ""
    case 1 => "==="
    case 2 => "=="
    case _ => "="
  }

  type Sextet = v: int | 0 <= v < 64

  /** Three bytes in four six-bit digits, the last group cut short. */
  function Sextets(s: Text): seq<Sextet> {
    if |s| == 0 then []
    else if |s| == 1 then [s[0] / 4, s[0] % 4 * 16]
    else if |s| == 2 then [s[0] / 4, s[0] % 4 * 16 + s[1] / 16, s[1] % 16 * 4]
    else [s[0] / 4, s[0] % 4 * 16 + s[1] / 16, s[1] % 16 * 4 + s[2] / 64, s[2] % 64] + Sextets(s[3..])
  }

  function Letters(digits: seq<Sextet>): string {
    if digits == [] then "" else [Letter(digits[0])] + Letters(digits[1..])
  }

  function Encode(s: Text): string {
    Letters(Sextets(s)) + Padding(|Sextets(s)|)
  }

  /** The decoder's state: digits of the current quadruple read, leftover bits, padding seen. */
  datatype Scanner = Scanner(quad: nat, left: nat, pads: nat)

  const Fresh := Scanner(0, 0, 0)

  /** Decodes from a state; None when the digits stop in the middle of a quadruple. */
  function Scan(s: string, state: Scanner): Option<Text> {
    if s == [] then if state.quad == 0 then Some([]) else None
    else if s[0] == '=' then
      if state.quad < 2 then Scan(s[1..], state)
      else if state.quad + state.pads + 1 >= 4 then Some([])
      else Scan(s[1..], state.(pads := state.pads + 1))
    else if Digit(s[0]).None? then Scan(s[1..], state)
    else
      var v := Digit(s[0]).value;
      var (bytes, next) := Shift(v, state);
      Prepend(bytes, Scan(s[1..], next))
  }

  /** What one digit completes, a byte or nothing, and the state after it. */
  function Shift(v: Sextet, state: Scanner): (Text, Scanner) {
    match state.quad
    case 0 => ([], Scanner(1, v, 0))
    case 1 => ([(state.left * 4 + v / 16) % 256], Scanner(2, v % 16, 0))
    case 2 => ([(state.left * 16 + v / 4) % 256], Scanner(3, v % 4, 0))
    case _ => ([(state.left * 64 + v) % 256], Fresh)
  }

  function Prepend(head: Text, rest: Option<Text>): Option<Text> {
    if rest.None? then None else Some(head + rest.value)
  }

  /** Only ASCII text can be base64. */
  function Decode(s: string): Option<Text> {
    if exists i :: 0 <= i < |s| && s[i] as int >= 128 then None else Scan(s, Fresh)
  }

  // ---------- Cursors ----------

  /** Removes trailing padding. */
  function Strip(s: string): string {
    if s != [] && s[|s| - 1] == '=' then Strip(s[..|s| - 1]) else s
  }

  function EncodeCursor(timestamp: Text, id: Text): string {
    Strip(Encode(timestamp + [SEPARATOR] + id))
  }

  /** The parts before and after the first separator. */
  function SplitOnce(s: Text): Option<(Text, Text)> {
    if s == [] then None
    else if s[0] == SEPARATOR then Some(([], s[1..]))
    else
      var rest := SplitOnce(s[1..]);
      if rest.None? then None else Some(([s[0]] + rest.value.0, rest.value.1))
  }

  /** The two texts in a cursor, before they are parsed. */
  function DecodeCursor(cursor: string): Option<(Text, Text)> {
    if cursor == "" || |cursor| > MAX_CURSOR then None
    else
      match Decode(cursor + Padding(|cursor|))
      case None => None
      case Some(decoded) => SplitOnce(decoded)
  }

  // ---------- Round trip ----------

  lemma LetterDigit(v: Sextet)
    ensures Digit(Letter(v)) == Some(v)
    ensures Letter(v) != '=' && Letter(v) as int < 128
  {
  }

  /** The bytes that a run of digits completes, and the state after it. */
  function Shifts(digits: seq<Sextet>, state: Scanner): (Text, Scanner) {
    if digits == [] then ([], state)
    else
      var (bytes, next) := Shift(digits[0], state);
      var (more, last) := Shifts(digits[1..], next);
      (bytes + more, last)
  }

  lemma {:induction false} ScanLetter(v: Sextet, rest: string, state: Scanner)
    ensures Scan([Letter(v)] + rest, state) == Prepend(Shift(v, state).0, Scan(rest, Shift(v, state).1))
  {
    LetterDigit(v);
    assert ([Letter(v)] + rest)[1..] == rest;
  }

  lemma PrependTwice(first: Text, second: Text, rest: Option<Text>)
    ensures Prepend(first, Prepend(second, rest)) == Prepend(first + second, rest)
    ensures Prepend([], rest) == rest
  {
    if rest.Some? {
      assert first + (second + rest.value) == (first + second) + rest.value;
      assert [] + rest.value == rest.value;
    }
  }

  lemma {:induction false} ScanLetters(digits: seq<Sextet>, rest: string, state: Scanner)
    ensures Scan(Letters(digits) + rest, state) == Prepend(Shifts(digits, state).0, Scan(rest, Shifts(digits, state).1))
  {
    if digits == [] {
      assert Letters(digits) + rest == rest;
      PrependTwice([], [], Scan(rest, state));
    } else {
      var tail := Letters(digits[1..]) + rest;
      assert Letters(digits) + rest == [Letter(digits[0])] + tail;
      var (bytes, next) := Shift(digits[0], state);
      ScanLetter(digits[0], tail, state);
      ScanLetters(digits[1..], rest, next);
      PrependTwice(bytes, Shifts(digits[1..], next).0, Scan(rest, Shifts(digits, state).1));
    }
  }

  lemma Regroup(a: Byte, b: Byte, c: Byte)
    ensures var v0, v1, v2, v3 := a / 4, a % 4 * 16 + b / 16, b % 16 * 4 + c / 64, c % 64;
            && 0 <= v0 < 64 && 0 <= v1 < 64 && 0 <= v2 < 64 && 0 <= v3 < 64
            && v0 * 4 + v1 / 16 == a && v1 % 16 * 16 + v2 / 4 == b && v2 % 4 * 64 + v3 == c
  {
  }

  lemma {:induction false} ShiftsStep(v: Sextet, digits: seq<Sextet>, state: Scanner)
    ensures var (bytes, next) := Shift(v, state);
            var (more, last) := Shifts(digits, next);
            Shifts([v] + digits, state) == (bytes + more, last)
  {
    assert ([v] + digits)[1..] == digits;
  }

  /** The second, third and fourth digit of a quadruple complete a byte each. */
  lemma {:induction false} ShiftsAt(v: Sextet, state: Scanner, byte: Byte, next: Scanner, digits: seq<Sextet>)
    requires Shift(v, state) == ([byte], next)
    ensures Shifts([v] + digits, state) == ([byte] + Shifts(digits, next).0, Shifts(digits, next).1)
  {
    ShiftsStep(v, digits, state);
  }

  lemma {:induction false} ShiftsFirst(v: Sextet, digits: seq<Sextet>)
    ensures Shifts([v] + digits, Fresh) == Shifts(digits, Scanner(1, v, 0))
  {
    ShiftsStep(v, digits, Fresh);
    assert [] + Shifts(digits, Scanner(1, v, 0)).0 == Shifts(digits, Scanner(1, v, 0)).0;
  }

  lemma {:induction false} ShiftsTwo(v0: Sextet, v1: Sextet, a: Byte, left: nat, digits: seq<Sextet>)
    requires v0 * 4 + v1 / 16 == a && v1 % 16 == left
    ensures Shifts([v0, v1] + digits, Fresh) ==
            ([a] + Shifts(digits, Scanner(2, left, 0)).0, Shifts(digits, Scanner(2, left, 0)).1)
  {
    ShiftsFirst(v0, [v1] + digits);
    ShiftsAt(v1, Scanner(1, v0, 0), a, Scanner(2, left, 0), digits);
    assert [v0, v1] + digits == [v0] + ([v1] + digits);
  }

  lemma {:induction false} ShiftsThree(
      v0: Sextet, v1: Sextet, v2: Sextet, a: Byte, b: Byte, left: nat, digits: seq<Sextet>)
    requires v0 * 4 + v1 / 16 == a && v1 % 16 * 16 + v2 / 4 == b && v2 % 4 == left
    ensures Shifts([v0, v1, v2] + digits, Fresh) ==
            ([a, b] + Shifts(digits, Scanner(3, left, 0)).0, Shifts(digits, Scanner(3, left, 0)).1)
  {
    ShiftsTwo(v0, v1, a, v1 % 16, [v2] + digits);
    ShiftsAt(v2, Scanner(2, v1 % 16, 0), b, Scanner(3, left, 0), digits);
    assert [v0, v1, v2] + digits == [v0, v1] + ([v2] + digits);
    var more := Shifts(digits, Scanner(3, left, 0)).0;
    assert [a] + ([b] + more) == [a, b] + more;
  }

  lemma {:induction false} ShiftsFour(
      v0: Sextet, v1: Sextet, v2: Sextet, v3: Sextet, a: Byte, b: Byte, c: Byte, digits: seq<Sextet>)
    requires v0 * 4 + v1 / 16 == a && v1 % 16 * 16 + v2 / 4 == b && v2 % 4 * 64 + v3 == c
    ensures Shifts([v0, v1, v2, v3] + digits, Fresh) == ([a, b, c] + Shifts(digits, Fresh).0, Shifts(digits, Fresh).1)
  {
    ShiftsThree(v0, v1, v2, a, b, v2 % 4, [v3] + digits);
    ShiftsAt(v3, Scanner(3, v2 % 4, 0), c, Fresh, digits);
    assert [v0, v1, v2, v3] + digits == [v0, v1, v2] + ([v3] + digits);
    var more := Shifts(digits, Fresh).0;
    assert [a, b] + ([c] + more) == [a, b, c] + more;
  }

  lemma {:induction false} SextetCount(s: Text)
    ensures |Sextets(s)| == (4 * |s| + 2) / 3
  {
    if |s| >= 3 {
      SextetCount(s[3..]);
    }
  }

  /** The state after the digits of n bytes. */
  function LastState(n: nat): Scanner {
    if n >= 3 then LastState(n - 3) else if n == 0 then Fresh else Scanner(n + 1, 0, 0)
  }

  lemma ShiftsOneByte(a: Byte)
    ensures Shifts([a / 4, a % 4 * 16], Fresh) == ([a], LastState(1))
  {
    Regroup(a, 0, 0);
    ShiftsTwo(a / 4, a % 4 * 16, a, 0, []);
    assert [a / 4, a % 4 * 16] + [] == [a / 4, a % 4 * 16] && [a] + [] == [a];
  }

  lemma ShiftsTwoBytes(a: Byte, b: Byte)
    ensures Shifts([a / 4, a % 4 * 16 + b / 16, b % 16 * 4], Fresh) == ([a, b], LastState(2))
  {
    Regroup(a, b, 0);
    var digits: seq<Sextet> := [a / 4, a % 4 * 16 + b / 16, b % 16 * 4];
    ShiftsThree(a / 4, a % 4 * 16 + b / 16, b % 16 * 4, a, b, 0, []);
    assert digits + [] == digits && [a, b] + [] == [a, b];
  }

  /** The digits of a text give its bytes back and leave a state that its padding completes. */
  lemma {:induction false} ShiftsSextets(s: Text)
    ensures Shifts(Sextets(s), Fresh) == (s, LastState(|s|))
  {
    if |s| >= 3 {
      ShiftsSextets(s[3..]);
      ShiftsTriple(s[0], s[1], s[2], Sextets(s[3..]));
      assert s == [s[0], s[1], s[2]] + s[3..];
    } else if |s| == 2 {
      ShiftsTwoBytes(s[0], s[1]);
      assert s == [s[0], s[1]];
    } else if |s| == 1 {
      ShiftsOneByte(s[0]);
      assert s == [s[0]];
    }
  }

  lemma {:induction false} ShiftsTriple(a: Byte, b: Byte, c: Byte, digits: seq<Sextet>)
    ensures Shifts([a / 4, a % 4 * 16 + b / 16, b % 16 * 4 + c / 64, c % 64] + digits, Fresh) ==
            ([a, b, c] + Shifts(digits, Fresh).0, Shifts(digits, Fresh).1)
  {
    Regroup(a, b, c);
    ShiftsFour(a / 4, a % 4 * 16 + b / 16, b % 16 * 4 + c / 64, c % 64, a, b, c, digits);
  }

  lemma {:induction false} ScanPadding(state: Scanner, length: nat)
    requires state.quad == length % 4 != 1 && state.pads == 0
    ensures Scan(Padding(length), state) == Some([])
  {
    assert "=="[1..] == "=";
  }

  /** Digits modulo four of n bytes. */
  function Quad(n: nat): nat {
    (4 * n + 2) / 3 % 4
  }

  lemma QuadStep(n: nat)
    requires n >= 3
    ensures Quad(n) == Quad(n - 3)
  {
    assert 4 * n + 2 == (4 * (n - 3) + 2) + 3 * 4;
    assert (4 * n + 2) / 3 == (4 * (n - 3) + 2) / 3 + 4;
  }

  lemma {:induction false} PaddingQuad(n: nat)
    ensures LastState(n).quad == Quad(n) != 1 && LastState(n).pads == 0
  {
    if n >= 3 {
      PaddingQuad(n - 3);
      QuadStep(n);
    } else {
      assert Quad(0) == 0 && Quad(1) == 2 && Quad(2) == 3;
    }
  }

  /** Decoding undoes encoding on all bytes. */
  lemma Base64RoundTrip(s: Text)
    ensures Scan(Encode(s), Fresh) == Some(s)
  {
    var digits := Sextets(s);
    var (bytes, last) := Shifts(digits, Fresh);
    assert bytes == s && last.quad == |digits| % 4 != 1 && last.pads == 0 by {
      ShiftsSextets(s);
      SextetCount(s);
      PaddingQuad(|s|);
    }
    ScanLetters(digits, Padding(|digits|), Fresh);
    ScanPadding(last, |digits|);
    assert s + [] == s;
  }

  /** The alphabet of section 5 of RFC 4648 by character codes: A to Z, a to z, 0 to 9, hyphen and underscore. */
  lemma Alphabet(v: int)
    requires 0 <= v < 64
    ensures v < 26 ==> Letter(v) as int == 65 + v
    ensures 26 <= v < 52 ==> Letter(v) as int == 97 + (v - 26)
    ensures 52 <= v < 62 ==> Letter(v) as int == 48 + (v - 52)
    ensures (v == 62 ==> Letter(v) as int == 45) && (v == 63 ==> Letter(v) as int == 95)
  {
  }

  /** The decoder reads the letters and digits, both spellings of the last two values, and nothing else. */
  lemma DigitOf(c: char)
    ensures 65 <= c as int <= 90 ==> Digit(c) == Some(c as int - 65)
    ensures 97 <= c as int <= 122 ==> Digit(c) == Some(c as int - 97 + 26)
    ensures 48 <= c as int <= 57 ==> Digit(c) == Some(c as int - 48 + 52)
    ensures c in {'+', '-'} ==> Digit(c) == Some(62)
    ensures c in {'/', '_'} ==> Digit(c) == Some(63)
    ensures Digit(c).Some? ==>
              c in {'+', '-', '/', '_'} || 65 <= c as int <= 90 || 97 <= c as int <= 122 || 48 <= c as int <= 57
  {
  }

  /** Padding is as many equals signs as the negated length modulo four. */
  lemma PaddingOf(length: nat)
    ensures |Padding(length)| == (0 - length) % 4
    ensures forall i :: 0 <= i < |Padding(length)| ==> Padding(length)[i] == '='
  {
  }

  /** An empty cursor, one of more than 256 characters, and one with a character outside ASCII are refused. */
  lemma CursorRefused(cursor: string)
    requires cursor == "" || |cursor| > 256 || exists i :: 0 <= i < |cursor| && cursor[i] as int > 127
    ensures DecodeCursor(cursor) == None
  {
    if exists i :: 0 <= i < |cursor| && cursor[i] as int > 127 {
      var i :| 0 <= i < |cursor| && cursor[i] as int > 127;
      assert (cursor + Padding(|cursor|))[i] == cursor[i];
    }
  }

  /** The number whose base-64 digits are given. */
  function Number(digits: seq<Sextet>): int {
    if digits == [] then 0 else Number(digits[..|digits| - 1]) * 64 + digits[|digits| - 1] as int
  }

  /** Three bytes and their four digits are the same bits, first byte first; fewer bytes fill up with zero bits. */
  lemma SameBits(a: Byte, b: Byte, c: Byte)
    ensures |Sextets([a])| == 2 && Number(Sextets([a])) == a as int * 16
    ensures |Sextets([a, b])| == 3 && Number(Sextets([a, b])) == a as int * 1024 + b as int * 4
    ensures |Sextets([a, b, c])| == 4 && Number(Sextets([a, b, c])) == a as int * 65536 + b as int * 256 + c as int
  {
    var whole: seq<Sextet> := [a / 4, a % 4 * 16 + b / 16, b % 16 * 4 + c / 64, c % 64];
    assert [a, b, c][3..] == [] && Sextets([a, b, c]) == whole + [] == whole;
    NumberOf(a / 4, a % 4 * 16, 0, 0);
    NumberOf(a / 4, a % 4 * 16 + b / 16, b % 16 * 4, 0);
    NumberOf(a / 4, a % 4 * 16 + b / 16, b % 16 * 4 + c / 64, c % 64);
  }

  lemma {:induction false} NumberAppend(digits: seq<Sextet>, digit: Sextet)
    ensures Number(digits + [digit]) == Number(digits) * 64 + digit as int
  {
    assert (digits + [digit])[..|digits|] == digits;
  }

  lemma NumberOf(w: Sextet, x: Sextet, y: Sextet, z: Sextet)
    ensures Number([w, x]) == w as int * 64 + x as int
    ensures Number([w, x, y]) == w as int * 4096 + x as int * 64 + y as int
    ensures Number([w, x, y, z]) == w as int * 262144 + x as int * 4096 + y as int * 64 + z as int
  {
    assert [] + [w] == [w] && [w] + [x] == [w, x] && [w, x] + [y] == [w, x, y] && [w, x, y] + [z] == [w, x, y, z];
    NumberAppend([], w);
    NumberAppend([w], x);
    NumberAppend([w, x], y);
    NumberAppend([w, x, y], z);
  }

  /** What a cursor holds is the two texts around a vertical bar, and no padding. */
  lemma CursorHolds(timestamp: Text, id: Text)
    ensures var cursor := EncodeCursor(timestamp, id);
            && Decode(cursor + Padding(|cursor|)) == Some(timestamp + [124] + id)
            && forall i :: 0 <= i < |cursor| ==> cursor[i] != '='
  {
    var s := timestamp + [SEPARATOR] + id;
    StrippedEncoding(s);
    StrippedLetters(s);
    Base64RoundTrip(s);
    LettersSpec(Sextets(s));
  }

  lemma {:induction false} LettersSpec(digits: seq<Sextet>)
    ensures |Letters(digits)| == |digits|
    ensures forall i :: 0 <= i < |digits| ==> Letters(digits)[i] != '=' && Letters(digits)[i] as int < 128
  {
    if digits != [] {
      LetterDigit(digits[0]);
      LettersSpec(digits[1..]);
    }
  }

  lemma {:induction false} StripPadding(s: string, padding: string)
    requires forall i :: 0 <= i < |s| ==> s[i] != '='
    requires forall i :: 0 <= i < |padding| ==> padding[i] == '='
    ensures Strip(s + padding) == s
  {
    if padding == "" {
      assert s + padding == s;
    } else {
      var n := |padding| - 1;
      assert (s + padding)[..|s| + n] == s + padding[..n];
      StripPadding(s, padding[..n]);
    }
  }

  lemma {:induction false} StrippedLetters(s: Text)
    ensures Strip(Encode(s)) == Letters(Sextets(s))
  {
    LettersSpec(Sextets(s));
    StripPadding(Letters(Sextets(s)), Padding(|Sextets(s)|));
  }

  /** What is stripped from base64 is the padding that its length asks for. */
  lemma StrippedEncoding(s: Text)
    ensures |Strip(Encode(s))| == (4 * |s| + 2) / 3
    ensures Strip(Encode(s)) + Padding(|Strip(Encode(s))|) == Encode(s)
    ensures forall i :: 0 <= i < |Encode(s)| ==> Encode(s)[i] as int < 128
  {
    LettersSpec(Sextets(s));
    SextetCount(s);
    StripPadding(Letters(Sextets(s)), Padding(|Sextets(s)|));
  }

  lemma {:induction false} SplitAtSeparator(timestamp: Text, id: Text)
    requires SEPARATOR !in timestamp
    ensures SplitOnce(timestamp + [SEPARATOR] + id) == Some((timestamp, id))
  {
    var s := timestamp + [SEPARATOR] + id;
    if timestamp == [] {
      assert s == [SEPARATOR] + id;
    } else {
      assert timestamp == [timestamp[0]] + timestamp[1..];
      assert s[1..] == timestamp[1..] + [SEPARATOR] + id;
      SplitAtSeparator(timestamp[1..], id);
    }
  }

  /**
    A cursor decodes to the texts it was made from exactly when they have at most 192 bytes with
    the separator; longer ones are refused for their length.
  */
  lemma CursorRoundTrip(timestamp: Text, id: Text)
    requires SEPARATOR !in timestamp
    ensures DecodeCursor(EncodeCursor(timestamp, id)) ==
            if |timestamp| + 1 + |id| <= 192 then Some((timestamp, id)) else None
  {
    var s := timestamp + [SEPARATOR] + id;
    StrippedEncoding(s);
    Base64RoundTrip(s);
    SplitAtSeparator(timestamp, id);
  }
}
