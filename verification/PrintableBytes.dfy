/** The text form in which traffic bytes are logged, and its decoder in the log viewer. */
module PrintableBytes {
  import opened Bytes
  import opened Options

  const MAX_LOGGED_BYTES: nat := 512
  const BACKSLASH: Byte := 0x5c

  /* ----- Writing ----- */

  predicate IsPrint(b: Byte) {
    0x20 <= b <= 0x7e
  }

  function HexDigit(d: int): char
    requires 0 <= d < 16
  {
    if d < 10 then ('0' as int + d) as char else ('a' as int + d - 10) as char
  }

  function Escape(b: Byte): string {
    if b == 0x0a then "\\n"
    else if b == 0x0d then "\\r"
    else if b == 0x09 then "\\t"
    else if IsPrint(b) then [b as char]
    else ['\\', 'x', HexDigit(b / 16), HexDigit(b % 16)]
  }

  function Escapes(bytes: seq<Byte>): string {
    if bytes == [] then "" else Escape(bytes[0]) + Escapes(bytes[1..])
  }

  function Decimal(n: nat): string {
    var digit := [('0' as int + n % 10) as char];
    if n < 10 then digit else Decimal(n / 10) + digit
  }

  function Marker(n: nat): string {
    "...(" + Decimal(n) + " bytes)"
  }

  /** The logged text: at most 512 bytes, then the real length. */
  function Logged(bytes: seq<Byte>): string {
    if |bytes| <= MAX_LOGGED_BYTES then Escapes(bytes)
    else Escapes(bytes[..MAX_LOGGED_BYTES]) + Marker(|bytes|)
  }

  lemma {:induction false} EscapesAppend(a: seq<Byte>, b: Byte)
    ensures Escapes(a + [b]) == Escapes(a) + Escape(b)
  {
    if a == [] {
      assert a + [b] == [b] && [b][1..] == [];
    } else {
      assert (a + [b])[1..] == a[1..] + [b];
      EscapesAppend(a[1..], b);
    }
  }

  lemma EscapesOfNone()
    ensures Escapes([]) == ""
  {
  }

  method WritePrintable(bytes: seq<Byte>) returns (out: string)
    ensures out == Logged(bytes)
  {
    hide Escapes, Decimal, HexDigit;
    EscapesOfNone();
    out := "";
    var count := if |bytes| < MAX_LOGGED_BYTES then |bytes| else MAX_LOGGED_BYTES;
    var i := 0;
    while i < count
      invariant 0 <= i <= count
      invariant out == Escapes(bytes[..i])
    {
      EscapesAppend(bytes[..i], bytes[i]);
      assert Escapes(bytes[..i + 1]) == out + Escape(bytes[i]) by {
        assert bytes[..i] + [bytes[i]] == bytes[..i + 1];
      }
      var ch := bytes[i];
      if ch == 0x0a {
        out := out + "\\n";
      } else if ch == 0x0d {
        out := out + "\\r";
      } else if ch == 0x09 {
        out := out + "\\t";
      } else if IsPrint(ch) {
        out := out + [ch as char];
      } else {
        out := out + "\\x" + [HexDigit(ch / 16)] + [HexDigit(ch % 16)];
      }
      i := i + 1;
    }
    assert count == |bytes| ==> bytes[..count] == bytes;
    if |bytes| > MAX_LOGGED_BYTES {
      out := out + "...(" + Decimal(|bytes|) + " bytes)";
    }
  }

  /* ----- Reading ----- */

  function HexValue(c: char): (v: Option<int>)
    ensures v.Some? ==> 0 <= v.value < 16
  {
    if '0' <= c <= '9' then Some(c as int - '0' as int)
    else if 'a' <= c <= 'f' then Some(c as int - 'a' as int + 10)
    else if 'A' <= c <= 'F' then Some(c as int - 'A' as int + 10)
    else None
  }

  predicate IsBlank(c: char) {
    9 <= c as int <= 13 || 28 <= c as int <= 32 || c as int == 0x85 || c as int == 0xa0
  }

  /** Two characters read as a base-16 integer the lenient way: blanks around a digit and a sign are allowed. */
  function HexByte(a: char, b: char): (v: Option<Byte>) {
    match (HexValue(a), HexValue(b))
    case (Some(high), Some(low)) => Some(high * 16 + low)
    case (None, Some(low)) => if IsBlank(a) || a == '+' || (a == '-' && low == 0) then Some(low) else None
    case (Some(high), None) => if IsBlank(b) then Some(high) else None
    case (None, None) => None
  }

  function Control(c: char): Option<Byte> {
    if c == 'n' then Some(0x0a) else if c == 'r' then Some(0x0d) else if c == 't' then Some(0x09) else None
  }

  function Utf8(codepoint: int): seq<Byte>
    requires 0x100 <= codepoint < 0x11_0000
  {
    if codepoint < 0x800 then [0xc0 + codepoint / 0x40, 0x80 + codepoint % 0x40]
    else if codepoint < 0x1_0000 then
      [0xe0 + codepoint / 0x1000, 0x80 + codepoint / 0x40 % 0x40, 0x80 + codepoint % 0x40]
    else
      [0xf0 + codepoint / 0x4_0000, 0x80 + codepoint / 0x1000 % 0x40, 0x80 + codepoint / 0x40 % 0x40,
       0x80 + codepoint % 0x40]
  }

  function Literal(c: char): seq<Byte> {
    if c as int <= 0xff then [c as int] else Utf8(c as int)
  }

  /** How many characters the escape at the front takes, and the byte it stands for; zero when there is none. */
  function EscapeAt(s: string): (r: (nat, Byte))
    requires s != ""
    ensures r.0 <= |s|
  {
    if s[0] == '\\' && |s| > 1 then
      if s[1] == 'x' && |s| > 3 && HexByte(s[2], s[3]).Some? then (4, HexByte(s[2], s[3]).value)
      else if Control(s[1]).Some? then (2, Control(s[1]).value)
      else (0, 0)
    else (0, 0)
  }

  function Unescaped(s: string): seq<Byte> {
    if s == "" then []
    else
      var e := EscapeAt(s);
      if e.0 > 0 then [e.1] + Unescaped(s[e.0..]) else Literal(s[0]) + Unescaped(s[1..])
  }

  predicate IsDigit(c: char) {
    '0' <= c <= '9'
  }

  function TrailingDigits(s: string): (n: nat)
    ensures n <= |s|
  {
    if s != "" && IsDigit(s[|s| - 1]) then 1 + TrailingDigits(s[..|s| - 1]) else 0
  }

  function DigitValue(c: char): (v: nat)
    requires IsDigit(c)
    ensures v < 10
  {
    c as int - '0' as int
  }

  function Number(digits: string): nat
    requires forall i | 0 <= i < |digits| :: IsDigit(digits[i])
  {
    if digits == "" then 0
    else Number(digits[..|digits| - 1]) * 10 + DigitValue(digits[|digits| - 1])
  }

  lemma {:induction false} TrailingAreDigits(s: string)
    ensures forall i | |s| - TrailingDigits(s) <= i < |s| :: IsDigit(s[i])
  {
    if s != "" && IsDigit(s[|s| - 1]) {
      TrailingAreDigits(s[..|s| - 1]);
    }
  }

  predicate EndsWith(s: string, tail: string) {
    |tail| <= |s| && s[|s| - |tail|..] == tail
  }

  /** The text before a final truncation marker and the length the marker gives. One line feed may follow the marker,
      and none may stand before it. */
  function Truncation(payload: string): Option<(string, nat)> {
    var tail := " bytes)";
    var line := if EndsWith(payload, "\n") then payload[..|payload| - 1] else payload;
    if !EndsWith(line, tail) then None
    else
      var head := line[..|line| - |tail|];
      var n := TrailingDigits(head);
      var front := head[..|head| - n];
      TrailingAreDigits(head);
      if n > 0 && EndsWith(front, "...(") && '\n' !in front then
        Some((front[..|front| - 4], Number(head[|head| - n..])))
      else None
  }

  /** The decoded bytes, and the full length if the text was truncated. */
  function Decoded(payload: string): (seq<Byte>, Option<nat>) {
    match Truncation(payload)
    case Some((text, total)) => (Unescaped(text), Some(total))
    case None => (Unescaped(payload), None)
  }

  lemma UnescapedFrom(text: string, offset: nat)
    requires offset < |text|
    ensures var e := EscapeAt(text[offset..]);
            Unescaped(text[offset..]) == if e.0 > 0 then [e.1] + Unescaped(text[offset + e.0..])
                                         else Literal(text[offset]) + Unescaped(text[offset + 1..])
  {
    var rest, e := text[offset..], EscapeAt(text[offset..]);
    assert rest[e.0..] == text[offset + e.0..] && rest[1..] == text[offset + 1..];
  }

  /** One step of the decoding at an offset. */
  lemma DecodingStep(text: string, offset: nat)
    requires offset < |text|
    ensures var rest := Unescaped(text[offset..]);
            var backslash := text[offset] == '\\' && offset + 1 < |text|;
            if backslash && text[offset + 1] == 'x' && offset + 3 < |text|
               && HexByte(text[offset + 2], text[offset + 3]).Some?
            then rest == [HexByte(text[offset + 2], text[offset + 3]).value] + Unescaped(text[offset + 4..])
            else if backslash && Control(text[offset + 1]).Some?
            then rest == [Control(text[offset + 1]).value] + Unescaped(text[offset + 2..])
            else rest == Literal(text[offset]) + Unescaped(text[offset + 1..])
  {
    hide Unescaped, Literal, HexByte, Control;
    UnescapedFrom(text, offset);
  }

  method DecodePrintable(payload: string) returns (decoded: seq<Byte>, total: Option<nat>)
    ensures (decoded, total) == Decoded(payload)
  {
    hide Unescaped, Literal, HexByte, Control, Truncation;
    var text := payload;
    total := None;
    if Truncation(payload).Some? {
      text, total := Truncation(payload).value.0, Some(Truncation(payload).value.1);
    }
    decoded := [];
    var offset := 0;
    while offset < |text|
      invariant 0 <= offset <= |text|
      invariant decoded + Unescaped(text[offset..]) == Unescaped(text)
    {
      DecodingStep(text, offset);
      if text[offset] == '\\' && offset + 1 < |text| {
        var escape := text[offset + 1];
        if escape == 'x' && offset + 3 < |text| && HexByte(text[offset + 2], text[offset + 3]).Some? {
          decoded := decoded + [HexByte(text[offset + 2], text[offset + 3]).value];
          offset := offset + 4;
          continue;
        }
        if Control(escape).Some? {
          decoded := decoded + [Control(escape).value];
          offset := offset + 2;
          continue;
        }
      }
      decoded := decoded + Literal(text[offset]);
      offset := offset + 1;
    }
    assert text[offset..] == "" && decoded + [] == decoded;
    UnescapedNothing();
  }

  lemma UnescapedNothing()
    ensures Unescaped("") == []
  {
  }

  /* ----- Decoding undoes writing, exactly when no logged backslash reads as an escape ----- */

  /** The byte at i is a backslash that the decoder takes for the start of an escape. */
  predicate Ambiguous(bytes: seq<Byte>, i: nat) {
    && i + 1 < |bytes| && bytes[i] == BACKSLASH
    && var c := bytes[i + 1];
    || c == 'n' as int || c == 'r' as int || c == 't' as int
    || (c == 'x' as int && i + 3 < |bytes| && IsPrint(bytes[i + 2]) && IsPrint(bytes[i + 3])
        && HexByte(bytes[i + 2] as char, bytes[i + 3] as char).Some?)
  }

  predicate Unambiguous(bytes: seq<Byte>) {
    forall i | 0 <= i < |bytes| :: !Ambiguous(bytes, i)
  }

  lemma UnescapeOne(b: Byte, rest: string)
    requires b != BACKSLASH
    ensures Unescaped(Escape(b) + rest) == [b] + Unescaped(rest)
  {
    hide Unescaped;
    var s := Escape(b) + rest;
    assert s[|Escape(b)|..] == rest;
    UnescapedFrom(s, 0);
    assert s[0..] == s;
    if !IsPrint(b) {
      HexDigitsRead(b);
    }
  }

  lemma HexDigitsRead(b: Byte)
    ensures HexByte(HexDigit(b / 16), HexDigit(b % 16)) == Some(b)
  {
  }

  lemma UnescapeLoneBackslash(bytes: seq<Byte>)
    requires bytes != [] && bytes[0] == BACKSLASH && !Ambiguous(bytes, 0)
    ensures Unescaped(Escapes(bytes)) == [BACKSLASH] + Unescaped(Escapes(bytes[1..]))
  {
    hide Unescaped, Escapes;
    var s, t := Escapes(bytes), Escapes(bytes[1..]);
    EscapesOfOne(bytes);
    assert s[0..] == s && s[0 + 1..] == t;
    NoEscapeAtLoneBackslash(bytes);
    UnescapedFrom(s, 0);
    assert Literal('\\') == [BACKSLASH];
  }

  lemma BackslashIsNoDigit(a: char, b: char)
    ensures a == '\\' || b == '\\' ==> HexByte(a, b) == None
  {
  }

  lemma NoEscapeAtLoneBackslash(bytes: seq<Byte>)
    requires bytes != [] && bytes[0] == BACKSLASH && !Ambiguous(bytes, 0)
    ensures Escapes(bytes) != "" && EscapeAt(Escapes(bytes)).0 == 0
  {
    hide Escapes, HexByte;
    var s, t := Escapes(bytes), Escapes(bytes[1..]);
    EscapesOfOne(bytes);
    if |bytes| > 1 {
      FirstCharacters(bytes[1..]);
      if |bytes| > 2 && IsPrint(bytes[1]) {
        FirstCharacters(bytes[2..]);
        EscapesOfOne(bytes[1..]);
        assert bytes[1..][1..] == bytes[2..];
        if |s| > 3 { BackslashIsNoDigit(s[2], s[3]); }
      }
    } else {
      EscapesOfNone();
      assert bytes[1..] == [];
    }
  }

  /** The first characters of a logged text betray the bytes they were written for. */
  lemma FirstCharacters(bytes: seq<Byte>)
    requires bytes != []
    ensures var t := Escapes(bytes);
            && t != [] && (if IsPrint(bytes[0]) then t[0] == bytes[0] as char else t[0] == '\\' && |t| > 1)
            && (IsPrint(bytes[0]) && |t| > 1 ==>
                  |bytes| > 1 && if IsPrint(bytes[1]) then t[1] == bytes[1] as char else t[1] == '\\')
  {
    if |bytes| > 1 {
      assert Escapes(bytes[1..]) == Escape(bytes[1]) + Escapes(bytes[1..][1..]);
    }
  }

  lemma EscapesOfTwo(bytes: seq<Byte>)
    requires |bytes| >= 2 && IsPrint(bytes[0]) && IsPrint(bytes[1])
    ensures Escapes(bytes) == [bytes[0] as char, bytes[1] as char] + Escapes(bytes[2..])
  {
    hide Escapes, Escape;
    EscapesOfOne(bytes);
    EscapesOfOne(bytes[1..]);
    assert bytes[1..][1..] == bytes[2..];
  }

  lemma EscapesOfOne(bytes: seq<Byte>)
    requires bytes != [] && IsPrint(bytes[0])
    ensures Escapes(bytes) == [bytes[0] as char] + Escapes(bytes[1..])
  {
  }

  lemma EscapesOfFour(bytes: seq<Byte>)
    requires |bytes| >= 4 && IsPrint(bytes[0]) && IsPrint(bytes[1]) && IsPrint(bytes[2]) && IsPrint(bytes[3])
    ensures Escapes(bytes) == [bytes[0] as char, bytes[1] as char, bytes[2] as char, bytes[3] as char]
                              + Escapes(bytes[4..])
  {
    hide Escapes;
    EscapesOfTwo(bytes);
    EscapesOfTwo(bytes[2..]);
    assert bytes[2..][2..] == bytes[4..];
  }

  lemma UnescapedAfter(s: string, rest: string)
    requires s != "" && EscapeAt(s).0 > 0 && s[EscapeAt(s).0..] == rest
    ensures |Unescaped(s)| == 1 + |Unescaped(rest)|
  {
  }

  lemma UnescapeAmbiguous(bytes: seq<Byte>) returns (n: nat)
    requires bytes != [] && Ambiguous(bytes, 0)
    ensures 2 <= n <= |bytes|
    ensures |Unescaped(Escapes(bytes))| == 1 + |Unescaped(Escapes(bytes[n..]))|
  {
    hide Escapes, Unescaped, HexByte;
    var s := Escapes(bytes);
    if bytes[1] == 'x' as int {
      n := 4;
      EscapesOfFour(bytes);
    } else {
      n := 2;
      EscapesOfTwo(bytes);
    }
    UnescapedAfter(s, Escapes(bytes[n..]));
  }

  /** Reading back never grows, and gives the bytes back exactly when no backslash is ambiguous. */
  lemma {:induction false} UnescapeEscapes(bytes: seq<Byte>)
    ensures |Unescaped(Escapes(bytes))| <= |bytes|
    ensures Unambiguous(bytes) ==> Unescaped(Escapes(bytes)) == bytes
    ensures !Unambiguous(bytes) ==> |Unescaped(Escapes(bytes))| < |bytes|
    decreases |bytes|
  {
    hide Escapes, Unescaped, Escape, Ambiguous;
    if bytes == [] {
      UnescapeNone();
    } else {
      AmbiguousTail(bytes);
      if Ambiguous(bytes, 0) {
        var n := UnescapeAmbiguous(bytes);
        UnescapeEscapes(bytes[n..]);
      } else {
        UnescapeEscapes(bytes[1..]);
        UnescapeFirst(bytes);
      }
    }
  }

  lemma UnescapeNone()
    ensures Unescaped(Escapes([])) == [] && Unambiguous([])
  {
  }

  lemma UnescapeFirst(bytes: seq<Byte>)
    requires bytes != [] && !Ambiguous(bytes, 0)
    ensures Unescaped(Escapes(bytes)) == [bytes[0]] + Unescaped(Escapes(bytes[1..]))
  {
    if bytes[0] == BACKSLASH {
      UnescapeLoneBackslash(bytes);
    } else {
      UnescapeOne(bytes[0], Escapes(bytes[1..]));
    }
  }

  lemma AmbiguousTail(bytes: seq<Byte>)
    requires bytes != []
    ensures Unambiguous(bytes) <==> !Ambiguous(bytes, 0) && Unambiguous(bytes[1..])
  {
    forall i: nat | i + 1 < |bytes|
      ensures Ambiguous(bytes, i + 1) == Ambiguous(bytes[1..], i)
    {
    }
    if !Ambiguous(bytes, 0) && Unambiguous(bytes[1..]) {
      forall i: nat | i < |bytes|
        ensures !Ambiguous(bytes, i)
      {
        if i > 0 {
          assert !Ambiguous(bytes[1..], i - 1);
        }
      }
    }
    if Unambiguous(bytes) {
      forall i: nat | i < |bytes| - 1
        ensures !Ambiguous(bytes[1..], i)
      {
        assert !Ambiguous(bytes, i + 1);
      }
    }
  }

  lemma {:induction false} DecimalReads(n: nat)
    ensures Decimal(n) != "" && forall i | 0 <= i < |Decimal(n)| :: IsDigit(Decimal(n)[i])
    ensures Number(Decimal(n)) == n
  {
    var digit := [('0' as int + n % 10) as char];
    if n < 10 {
      assert digit[..0] == "";
      assert Number(digit) == Number("") * 10 + DigitValue(digit[0]);
    } else {
      DecimalReads(n / 10);
      assert (Decimal(n / 10) + digit)[..|Decimal(n / 10)|] == Decimal(n / 10);
    }
  }

  lemma {:induction false} DigitsAfterParenthesis(front: string, digits: string)
    requires front != "" && front[|front| - 1] == '('
    requires forall i | 0 <= i < |digits| :: IsDigit(digits[i])
    ensures TrailingDigits(front + digits) == |digits|
  {
    if digits == "" {
      assert front + digits == front;
    } else {
      assert (front + digits)[..|front + digits| - 1] == front + digits[..|digits| - 1];
      DigitsAfterParenthesis(front, digits[..|digits| - 1]);
    }
  }

  /** A logged text is one line. */
  lemma {:induction false} EscapesAreOneLine(bytes: seq<Byte>)
    ensures '\n' !in Escapes(bytes)
  {
    if bytes != [] {
      EscapesAreOneLine(bytes[1..]);
    }
  }

  lemma TruncationOf(front: string, digits: string)
    requires EndsWith(front, "...(") && '\n' !in front
    requires digits != "" && forall i | 0 <= i < |digits| :: IsDigit(digits[i])
    ensures Truncation(front + digits + " bytes)") == Some((front[..|front| - 4], Number(digits)))
  {
    hide Number, TrailingDigits;
    var head, tail := front + digits, " bytes)";
    var payload := head + tail;
    DigitsAfterParenthesis(front, digits);
    Ends(head, tail);
    Ends(front, digits);
    assert payload[|payload| - 1] == ')' && !EndsWith(payload, "\n");
  }

  lemma MarkerReads(text: string, n: nat)
    requires '\n' !in text
    ensures Truncation(text + Marker(n)) == Some((text, n))
  {
    hide Decimal, Number, Truncation;
    DecimalReads(n);
    Ends(text, "...(");
    TruncationOf(text + "...(", Decimal(n));
    assert text + Marker(n) == text + "...(" + Decimal(n) + " bytes)";
  }

  lemma Ends(front: string, tail: string)
    ensures (front + tail)[..|front|] == front && (front + tail)[|front|..] == tail && EndsWith(front + tail, tail)
  {
  }

  /** Up to 512 bytes are decoded back exactly when no backslash reads as an escape and the text does not itself end
      like a truncation marker; of more bytes the first 512 and the length come back, under the same condition on
      backslashes. */
  lemma DecodingUndoesLogging(bytes: seq<Byte>)
    ensures |bytes| <= 512 ==>
              (Decoded(Logged(bytes)) == (bytes, None) <==> Unambiguous(bytes) && Truncation(Logged(bytes)) == None)
    ensures |bytes| > 512 ==>
              (Decoded(Logged(bytes)) == (bytes[..512], Some(|bytes|)) <==> Unambiguous(bytes[..512]))
  {
    hide Escapes, Unescaped, Truncation, Unambiguous, Marker;
    if |bytes| <= MAX_LOGGED_BYTES {
      UnescapeEscapes(bytes);
    } else {
      var first := bytes[..MAX_LOGGED_BYTES];
      EscapesAreOneLine(first);
      MarkerReads(Escapes(first), |bytes|);
      UnescapeEscapes(first);
    }
  }

  /** Twelve logged bytes that spell a truncation marker are read as one: nothing is left of them. */
  lemma MarkerTextIsMistaken()
    ensures var bytes: seq<Byte> := [0x2e, 0x2e, 0x2e, 0x28, 0x35, 0x20, 0x62, 0x79, 0x74, 0x65, 0x73, 0x29];
            Unambiguous(bytes) && Decoded(Logged(bytes)) == ([], Some(5))
  {
    hide Escapes, Unescaped, Truncation, Decimal;
    var bytes: seq<Byte> := [0x2e, 0x2e, 0x2e, 0x28, 0x35, 0x20, 0x62, 0x79, 0x74, 0x65, 0x73, 0x29];
    EscapesOfFour(bytes);
    EscapesOfFour(bytes[4..]);
    EscapesOfFour(bytes[8..]);
    EscapesOfNone();
    DigitFive();
    assert bytes[4..][4..] == bytes[8..] && bytes[8..][4..] == [];
    assert Logged(bytes) == "" + Marker(5);
    MarkerReads("", 5);
    UnescapedNothing();
  }

  lemma DigitFive()
    ensures Decimal(5) == "5"
  {
  }

  /** A backslash logged in front of an n is read as a line feed. */
  lemma BackslashIsMistaken()
    ensures Logged([BACKSLASH, 0x6e]) == "\\n" && Decoded("\\n") == ([0x0a], None)
  {
    hide Unescaped, Escapes;
    var bytes: seq<Byte>, text := [BACKSLASH, 0x6e], "\\n";
    EscapesOfTwo(bytes);
    EscapesOfNone();
    assert bytes[2..] == [] && Escapes(bytes) == text;
    UnescapedFrom(text, 0);
    UnescapedNothing();
    assert text[0..] == text && text[0 + 2..] == "" && EscapeAt(text) == (2, 0x0a);
    assert Unescaped(text) == [0x0a];
  }

  /* ----- In characters ----- */

  /** How one byte is logged. */
  lemma LoggedByte(b: Byte)
    ensures Logged([b])
            == if b == 0x0a then "\\n" else if b == 0x0d then "\\r" else if b == 0x09 then "\\t"
               else if 0x20 <= b <= 0x7e then [b as char]
               else ['\\', 'x', "0123456789abcdef"[b / 16], "0123456789abcdef"[b % 16]]
  {
    EscapesAppend([], b);
    EscapesOfNone();
    assert [] + [b] == [b];
    HexCharacters(b / 16);
    HexCharacters(b % 16);
  }

  lemma HexCharacters(d: int)
    requires 0 <= d < 16
    ensures HexDigit(d) == "0123456789abcdef"[d]
  {
  }

  lemma {:induction false} EscapesTogether(a: seq<Byte>, b: seq<Byte>)
    ensures Escapes(a + b) == Escapes(a) + Escapes(b)
  {
    hide Escape;
    if a == [] {
      assert a + b == b;
    } else {
      assert (a + b)[1..] == a[1..] + b;
      EscapesTogether(a[1..], b);
    }
  }

  /** Bytes are logged one after the other, up to 512 of them. */
  lemma LoggedTogether(a: seq<Byte>, b: seq<Byte>)
    requires |a| + |b| <= 512
    ensures Logged([]) == "" && Logged(a + b) == Logged(a) + Logged(b)
  {
    EscapesTogether(a, b);
    EscapesOfNone();
  }

  /** A number in decimal. */
  predicate IsDecimal(digits: string, n: nat) {
    && digits != "" && digits[|digits| - 1] == "0123456789"[n % 10]
    && if n < 10 then |digits| == 1 else IsDecimal(digits[..|digits| - 1], n / 10)
  }

  lemma {:induction false} DecimalIsDecimal(n: nat, digits: string)
    ensures IsDecimal(digits, n) <==> digits == Decimal(n)
  {
    var last := ('0' as int + n % 10) as char;
    assert last == "0123456789"[n % 10];
    if n < 10 {
      assert Decimal(n) == [last];
    } else {
      assert Decimal(n) == Decimal(n / 10) + [last];
      if digits != "" {
        DecimalIsDecimal(n / 10, digits[..|digits| - 1]);
        assert digits == digits[..|digits| - 1] + [digits[|digits| - 1]];
      }
    }
  }

  /** Of more than 512 bytes the first 512 are logged, and then how many there were. */
  lemma LongDataIsCut(bytes: seq<Byte>) returns (digits: string)
    requires |bytes| > 512
    ensures IsDecimal(digits, |bytes|)
    ensures Logged(bytes) == Logged(bytes[..512]) + "...(" + digits + " bytes)"
  {
    hide Escapes, Decimal;
    digits := Decimal(|bytes|);
    DecimalIsDecimal(|bytes|, digits);
  }

  /** The marker is read back with its number, whatever text stands in front of it on the line. */
  lemma MarkerIsRead(text: string, digits: string, n: nat)
    requires '\n' !in text && IsDecimal(digits, n)
    ensures Decoded(text + "...(" + digits + " bytes)") == (Unescaped(text), Some(n))
  {
    hide Decimal, Truncation, IsDecimal, Unescaped;
    DecimalIsDecimal(n, digits);
    MarkerReads(text, n);
    assert text + Marker(n) == text + "...(" + digits + " bytes)";
  }

  /** Text that ends in neither a parenthesis nor a line feed has no marker. */
  lemma NoMarkerNoLength(text: string)
    requires text != "" && text[|text| - 1] != ')' && text[|text| - 1] != '\n'
    ensures Decoded(text) == (Unescaped(text), None)
  {
    hide Unescaped, TrailingDigits, Number, EndsWith;
    EndsInLast(text, " bytes)");
    EndsInLast(text, "\n");
  }

  lemma EndsInLast(s: string, tail: string)
    requires s != "" && tail != "" && s[|s| - 1] != tail[|tail| - 1]
    ensures !EndsWith(s, tail)
  {
    if |tail| <= |s| {
      assert s[|s| - |tail|..][|tail| - 1] == s[|s| - 1];
    }
  }

  predicate IsHex(c: char) {
    c in "0123456789abcdefABCDEF"
  }

  /** The blanks that Latin text has. */
  predicate IsSpace(c: char) {
    c as int in [9, 10, 11, 12, 13, 28, 29, 30, 31, 32, 0x85, 0xa0]
  }

  /** Two characters are read as a byte exactly when they are two hexadecimal digits, or one with a blank beside it, or
      one behind a plus sign, or minus zero. */
  lemma HexByteExactlyWhen(a: char, b: char)
    ensures HexByte(a, b).Some? <==> || (IsHex(a) && (IsHex(b) || IsSpace(b)))
                                     || (IsHex(b) && (IsSpace(a) || a == '+')) || (a == '-' && b == '0')
  {
    IsHexExactlyWhen(a);
    IsHexExactlyWhen(b);
    SpaceIsBlank(a);
    SpaceIsBlank(b);
    hide HexValue, IsBlank, IsHex, IsSpace;
    OnlyZero(b);
    NoSign(a);
  }

  lemma IsHexExactlyWhen(c: char)
    ensures HexValue(c).Some? <==> IsHex(c)
  {
    var digits := "0123456789abcdefABCDEF";
    if HexValue(c).Some? {
      var v := HexValue(c).value;
      assert c == digits[if c <= '9' then v else if 'a' <= c then v else v + 6];
    }
  }

  lemma SpaceIsBlank(c: char)
    ensures IsBlank(c) <==> IsSpace(c)
  {
  }

  lemma OnlyZero(c: char)
    ensures HexValue(c) == Some(0) <==> c == '0'
  {
  }

  lemma NoSign(c: char)
    ensures c == '+' || c == '-' || IsBlank(c) ==> HexValue(c) == None
  {
  }

  /** A hexadecimal escape, in small or capital digits, is read as its byte. */
  lemma HexEscapeIsRead(high: nat, low: nat, a: char, b: char, rest: string)
    requires high < 16 && low < 16
    requires a == "0123456789abcdef"[high] || a == "0123456789ABCDEF"[high]
    requires b == "0123456789abcdef"[low] || b == "0123456789ABCDEF"[low]
    ensures Unescaped(['\\', 'x', a, b] + rest) == [high * 16 + low] + Unescaped(rest)
  {
    HexDigitIsRead(high, a);
    HexDigitIsRead(low, b);
    PairIsRead(a, b, rest);
  }

  lemma PairIsRead(a: char, b: char, rest: string)
    requires HexValue(a).Some? && HexValue(b).Some?
    ensures Unescaped(['\\', 'x', a, b] + rest) == [HexValue(a).value * 16 + HexValue(b).value] + Unescaped(rest)
  {
    hide HexValue, Unescaped;
    var s := ['\\', 'x', a, b] + rest;
    UnescapedFrom(s, 0);
    assert s[0..] == s && s[0 + 4..] == rest;
  }

  lemma HexDigitIsRead(v: nat, c: char)
    requires v < 16 && (c == "0123456789abcdef"[v] || c == "0123456789ABCDEF"[v])
    ensures HexValue(c) == Some(v)
  {
  }

  /** The short escapes. */
  lemma ShortEscapesAreRead(rest: string)
    ensures Unescaped("\\n" + rest) == [0x0a] + Unescaped(rest)
    ensures Unescaped("\\r" + rest) == [0x0d] + Unescaped(rest)
    ensures Unescaped("\\t" + rest) == [0x09] + Unescaped(rest)
  {
    hide Unescaped;
    ShortEscapeIsRead('n', 0x0a, rest);
    ShortEscapeIsRead('r', 0x0d, rest);
    ShortEscapeIsRead('t', 0x09, rest);
  }

  lemma ShortEscapeIsRead(c: char, b: Byte, rest: string)
    requires c != 'x' && Control(c) == Some(b)
    ensures Unescaped(['\\', c] + rest) == [b] + Unescaped(rest)
  {
    hide Unescaped, Control;
    var s := ['\\', c] + rest;
    UnescapedFrom(s, 0);
    assert s[0..] == s && s[0 + 2..] == rest;
  }

  /** Any other character stands for itself: one byte up to 255, its UTF-8 bytes beyond. */
  lemma CharacterIsRead(c: char, rest: string)
    requires c != '\\'
    ensures Unescaped([c] + rest) == Literal(c) + Unescaped(rest)
    ensures c as int <= 0xff ==> Literal(c) == [c as int]
  {
    hide Unescaped, Utf8;
    var s := [c] + rest;
    UnescapedFrom(s, 0);
    assert s[0..] == s && s[0 + 1..] == rest;
  }

  /** The bits that a byte of the UTF-8 form adds to those before it. */
  function SixBits(before: int, b: Byte): int {
    before * 64 + b - 0x80
  }

  /** The UTF-8 form: a leading byte that tells the length, and six bits in each byte that follows. */
  lemma CharactersInUtf8(c: char)
    requires 0x100 <= c as int
    ensures var bytes, codepoint := Literal(c), c as int;
            && (forall i | 0 < i < |bytes| :: 0x80 <= bytes[i] < 0xc0)
            && (codepoint < 0x800 ==>
                  |bytes| == 2 && 0xc0 <= bytes[0] < 0xe0 && codepoint == SixBits(bytes[0] as int - 0xc0, bytes[1]))
            && (0x800 <= codepoint < 0x1_0000 ==>
                  && |bytes| == 3 && 0xe0 <= bytes[0] < 0xf0
                  && codepoint == SixBits(SixBits(bytes[0] as int - 0xe0, bytes[1]), bytes[2]))
            && (0x1_0000 <= codepoint ==>
                  && |bytes| == 4 && 0xf0 <= bytes[0] < 0xf8
                  && codepoint == SixBits(SixBits(SixBits(bytes[0] as int - 0xf0, bytes[1]), bytes[2]), bytes[3]))
  {
    var n := c as int;
    var a: int, b: int := n / 0x40, n / 0x1000;
    assert n / 0x1000 == a / 0x40 && n / 0x4_0000 == b / 0x40;
    assert n == a * 64 + n % 0x40 && a == b * 64 + a % 0x40 && b == b / 0x40 * 64 + b % 0x40;
  }
}
