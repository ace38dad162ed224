/** JSON string literals, as section 7 of RFC 8259 defines them: the writer the printers use and
    the reader the parsers hand a delimited literal to. */
module JsonStrings {
  import opened Results

  // ----- Writing ---------------------------------------------------------------------------------------

  function HexDigit(n: nat): char
    requires n < 16
  {
    if n < 10 then ('0' as int + n) as char else ('a' as int + n - 10) as char
  }

  /** Quotes, backslashes and control characters are escaped, everything else stands for itself. */
  function EscapeChar(c: char): string {
    if c == '"' then "\\\""
    else if c == '\\' then "\\\\"
    else if c == '\U{8}' then "\\b"
    else if c == '\t' then "\\t"
    else if c == '\n' then "\\n"
    else if c == '\U{C}' then "\\f"
    else if c == '\r' then "\\r"
    else if c < ' ' then ['\\', 'u', '0', '0', HexDigit(c as int / 16), HexDigit(c as int % 16)]
    else [c]
  }

  function Escape(text: string): string {
    if text == [] then [] else EscapeChar(text[0]) + Escape(text[1..])
  }

  function Quote(text: string): string {
    "\"" + Escape(text) + "\""
  }

  // ----- Reading ---------------------------------------------------------------------------------------

  function HexValue(c: char): Option<nat> {
    if '0' <= c <= '9' then Some(c as int - '0' as int)
    else if 'a' <= c <= 'f' then Some(c as int - 'a' as int + 10)
    else if 'A' <= c <= 'F' then Some(c as int - 'A' as int + 10)
    else None
  }

  /** Four hexadecimal digits at the front of `s`. */
  function HexQuad(s: string): (r: Option<nat>)
    ensures r.Some? ==> r.value < 0x10000 && |s| >= 4
  {
    if |s| < 4 then None
    else
      match (HexValue(s[0]), HexValue(s[1]), HexValue(s[2]), HexValue(s[3]))
      case (Some(a), Some(b), Some(c), Some(d)) =>
        if a < 16 && b < 16 && c < 16 && d < 16 then Some(((a * 16 + b) * 16 + c) * 16 + d) else None
      case _ => None
  }

  datatype Unescaped = Unescaped(value: char, length: nat)

  /** One `\u` escape, or a surrogate pair of them; `s` starts after the first `\u`. */
  function UnicodeEscape(s: string): (r: Option<Unescaped>)
    ensures r.Some? ==> 0 < r.value.length <= |s|
  {
    match HexQuad(s)
    case None => None
    case Some(n) =>
      if 0xDC00 <= n < 0xE000 then None
      else if n < 0xD800 || 0xE000 <= n then Some(Unescaped(n as char, 4))
      else if |s| < 10 || s[4] != '\\' || s[5] != 'u' then None
      else
        match HexQuad(s[6..])
        case None => None
        case Some(m) =>
          if 0xDC00 <= m < 0xE000
          then Some(Unescaped((0x10000 + (n - 0xD800) * 0x400 + (m - 0xDC00)) as char, 10))
          else None
  }

  function SimpleEscape(c: char): Option<char> {
    if c == '"' || c == '\\' || c == '/' then Some(c)
    else if c == 'b' then Some('\U{8}')
    else if c == 'f' then Some('\U{C}')
    else if c == 'n' then Some('\n')
    else if c == 'r' then Some('\r')
    else if c == 't' then Some('\t')
    else None
  }

  /** The next character of a literal's body and how much of the body it takes. */
  function NextChar(s: string): (r: Option<Unescaped>)
    requires s != []
    ensures r.Some? ==> 0 < r.value.length <= |s|
  {
    if s[0] == '"' || s[0] < ' ' then None
    else if s[0] != '\\' then Some(Unescaped(s[0], 1))
    else if |s| == 1 then None
    else if s[1] == 'u' then
      match UnicodeEscape(s[2..])
      case None => None
      case Some(u) => Some(Unescaped(u.value, u.length + 2))
    else
      match SimpleEscape(s[1])
      case None => None
      case Some(c) => Some(Unescaped(c, 2))
  }

  /** The text a literal's body stands for; `None` if the body is not valid. */
  function Unescape(s: string): Option<string>
    decreases |s|
  {
    if s == [] then Some([])
    else
      match NextChar(s)
      case None => None
      case Some(u) =>
        match Unescape(s[u.length..])
        case None => None
        case Some(rest) => Some([u.value] + rest)
  }

  /** The position of the quote that closes a literal whose body starts at the front of `s`. */
  function ClosingQuote(s: string, escaped: bool): (r: Option<nat>)
    ensures r.Some? ==> r.value < |s|
  {
    if s == [] then None
    else if !escaped && s[0] == '"' then Some(0)
    else
      match ClosingQuote(s[1..], !escaped && s[0] == '\\')
      case None => None
      case Some(n) => Some(n + 1)
  }

  // ----- Round trip --------------------------------------------------------------------------------------

  lemma NextCharOfEscape(c: char, rest: string)
    ensures EscapeChar(c) != [] && NextChar(EscapeChar(c) + rest) == Some(Unescaped(c, |EscapeChar(c)|))
  {
    var s := EscapeChar(c) + rest;
    if |EscapeChar(c)| == 6 {
      assert s[2..] == ['0', '0', HexDigit(c as int / 16), HexDigit(c as int % 16)] + rest;
    }
  }

  lemma {:induction false} UnescapeOfEscape(text: string)
    ensures Unescape(Escape(text)) == Some(text)
  {
    if text != [] {
      NextCharOfEscape(text[0], Escape(text[1..]));
      assert Escape(text)[|EscapeChar(text[0])|..] == Escape(text[1..]);
      UnescapeOfEscape(text[1..]);
      assert text == [text[0]] + text[1..];
    }
  }

  function Shift(position: Option<nat>, n: nat): Option<nat> {
    match position
    case None => None
    case Some(k) => Some(k + n)
  }

  lemma {:induction false} ScanPlain(plain: string, rest: string)
    requires forall i :: 0 <= i < |plain| ==> plain[i] != '"' && plain[i] != '\\'
    ensures ClosingQuote(plain + rest, false) == Shift(ClosingQuote(rest, false), |plain|)
  {
    if plain == [] {
      assert plain + rest == rest;
    } else {
      assert (plain + rest)[1..] == plain[1..] + rest;
      ScanPlain(plain[1..], rest);
    }
  }

  lemma ScanEscapedChar(c: char, rest: string)
    ensures ClosingQuote(EscapeChar(c) + rest, false) == Shift(ClosingQuote(rest, false), |EscapeChar(c)|)
  {
    var e := EscapeChar(c);
    if |e| == 1 {
      ScanPlain(e, rest);
    } else {
      assert (e + rest)[1..][1..] == e[2..] + rest;
      ScanPlain(e[2..], rest);
    }
  }

  /** Escaped text never closes its literal early. */
  lemma {:induction false} ScanOfEscape(text: string, rest: string)
    ensures ClosingQuote(Escape(text) + ("\"" + rest), false) == Some(|Escape(text)|)
  {
    if text == [] {
      assert Escape(text) + ("\"" + rest) == "\"" + rest;
    } else {
      var tail := Escape(text[1..]) + ("\"" + rest);
      assert Escape(text) + ("\"" + rest) == EscapeChar(text[0]) + tail;
      ScanEscapedChar(text[0], tail);
      ScanOfEscape(text[1..], rest);
    }
  }

  // ----- What a literal stands for -------------------------------------------------------------------------

  predicate IsNibble(c: char, d: nat) {
    d < 16 && ("0123456789abcdef"[d] == c || "0123456789ABCDEF"[d] == c)
  }

  predicate IsQuad(s: string, a: nat, b: nat, c: nat, d: nat) {
    |s| == 4 && IsNibble(s[0], a) && IsNibble(s[1], b) && IsNibble(s[2], c) && IsNibble(s[3], d)
  }

  /** The four digits of a number. */
  ghost predicate IsHex(s: string, n: nat) {
    exists a: nat, b: nat, c: nat, d: nat :: IsQuad(s, a, b, c, d) && n == 4096 * a + 256 * b + 16 * c + d
  }

  /** One character of a literal, plain or escaped (section 7 of RFC 8259). */
  ghost predicate Stands(piece: string, c: char) {
    || (piece == [c] && c != '"' && c != '\\' && c >= ' ')
    || (piece == "\\\"" && c == '"') || (piece == "\\\\" && c == '\\') || (piece == "\\/" && c == '/')
    || (piece == "\\b" && c == '\U{8}') || (piece == "\\f" && c == '\U{C}') || (piece == "\\n" && c == '\n')
    || (piece == "\\r" && c == '\r') || (piece == "\\t" && c == '\t')
    || (|piece| == 6 && piece[..2] == "\\u" && IsHex(piece[2..], c as nat))
    || (|piece| == 12 && StandsAsPair(piece, c))
  }

  /** A surrogate pair: the high half, then the low one. */
  ghost predicate StandsAsPair(piece: string, c: char)
    requires |piece| == 12
  {
    && c >= '\U{10000}' && piece[..2] == "\\u" && piece[6..8] == "\\u"
    && var n := c as nat - 0x10000;
       IsHex(piece[2..6], 0xD800 + n / 0x400) && IsHex(piece[8..], 0xDC00 + n % 0x400)
  }

  lemma NibbleExactly(c: char, d: nat)
    ensures HexValue(c) == Some(d) <==> IsNibble(c, d)
  {
    if d < 8 {
      assert d in {0, 1, 2, 3, 4, 5, 6, 7};
    } else if d < 16 {
      assert d in {8, 9, 10, 11, 12, 13, 14, 15};
    }
  }

  lemma QuadExactly(s: string, n: nat)
    requires |s| >= 4
    ensures HexQuad(s) == Some(n) <==> IsHex(s[..4], n)
  {
    hide HexValue, IsNibble;
    forall c, d: nat ensures HexValue(c) == Some(d) <==> IsNibble(c, d) {
      NibbleExactly(c, d);
    }
    forall c ensures HexValue(c).Some? ==> HexValue(c).value < 16 {
      NibbleIsSmall(c);
    }
    if HexQuad(s) == Some(n) {
      var a, b, c, d := HexValue(s[0]).value, HexValue(s[1]).value, HexValue(s[2]).value, HexValue(s[3]).value;
      assert IsQuad(s[..4], a, b, c, d);
      assert n == 4096 * a + 256 * b + 16 * c + d;
    }
    if IsHex(s[..4], n) {
      var a: nat, b: nat, c: nat, d: nat :| IsQuad(s[..4], a, b, c, d) && n == 4096 * a + 256 * b + 16 * c + d;
      assert HexValue(s[0]) == Some(a) && HexValue(s[1]) == Some(b);
    }
  }

  lemma NibbleIsSmall(c: char)
    ensures HexValue(c).Some? ==> HexValue(c).value < 16
  {
  }

  lemma OneAtATime(s: string, c: char)
    requires s != []
    ensures s[0] != '\\' ==> (NextChar(s) == Some(Unescaped(c, 1)) <==> Stands(s[..1], c))
    ensures |s| >= 2 && s[0] == '\\' && s[1] != 'u' ==> (NextChar(s) == Some(Unescaped(c, 2)) <==> Stands(s[..2], c))
  {
    hide UnicodeEscape, IsHex, StandsAsPair;
    if |s| >= 2 {
      assert s[..2] == [s[0], s[1]];
    }
  }

  lemma ShortUnicodeExactly(s: string, c: char)
    requires |s| >= 6 && s[0] == '\\' && s[1] == 'u'
    ensures NextChar(s) == Some(Unescaped(c, 6)) <==> Stands(s[..6], c)
  {
    hide HexQuad, IsHex, SimpleEscape;
    assert s[2..][..4] == s[..6][2..] && s[..6][..2] == "\\u";
    QuadExactly(s[2..], c as nat);
  }

  lemma Halves(n: nat, high: nat, low: nat)
    requires low < 0x400
    ensures n == high * 0x400 + low <==> n / 0x400 == high && n % 0x400 == low
  {
  }

  /** The number of a pair of halves. */
  lemma PairExactly(s: string, c: char)
    requires |s| >= 12 && s[0] == '\\' && s[1] == 'u'
    ensures NextChar(s) == Some(Unescaped(c, 12)) <==> StandsAsPair(s[..12], c)
  {
    hide HexQuad, IsHex, SimpleEscape;
    assert s[..12][2..6] == s[2..][..4] && s[..12][8..] == s[8..][..4] && s[2..][6..] == s[8..];
    assert s[..12][..2] == "\\u" && (s[..12][6..8] == "\\u" <==> s[6] == '\\' && s[7] == 'u');
    if c >= '\U{10000}' {
      var n := c as nat - 0x10000;
      QuadExactly(s[2..], 0xD800 + n / 0x400);
      QuadExactly(s[8..], 0xDC00 + n % 0x400);
    }
    var high, low := HexQuad(s[2..]), HexQuad(s[8..]);
    if high.Some? && low.Some? && 0xD800 <= high.value < 0xDC00 && 0xDC00 <= low.value < 0xE000 && c >= '\U{10000}' {
      Halves(c as nat - 0x10000, high.value - 0xD800, low.value - 0xDC00);
    }
  }

  lemma LongUnicodeExactly(s: string, c: char)
    requires |s| >= 12 && s[0] == '\\' && s[1] == 'u'
    ensures NextChar(s) == Some(Unescaped(c, 12)) <==> Stands(s[..12], c)
  {
    hide NextChar, StandsAsPair, IsHex;
    PairExactly(s, c);
  }

  predicate Takes(s: string, n: nat) {
    && s != [] && n <= |s|
    && if s[0] != '\\' then n == 1 else |s| >= 2 && (if s[1] != 'u' then n == 2 else n == 6 || n == 12)
  }

  lemma NextCharTakes(s: string)
    requires s != [] && NextChar(s).Some?
    ensures Takes(s, NextChar(s).value.length)
  {
  }

  lemma StandsTakes(s: string, n: nat, c: char)
    requires n <= |s| && Stands(s[..n], c)
    ensures Takes(s, n)
  {
    hide IsHex, StandsAsPair;
    assert forall i :: 0 <= i < n ==> s[..n][i] == s[i];
    if n >= 2 {
      assert s[..n][..2] == [s[0], s[1]];
      if n == 12 && StandsAsPair(s[..n], c) { PairStarts(s[..n], c); }
    }
  }

  lemma PairStarts(piece: string, c: char)
    requires |piece| == 12 && StandsAsPair(piece, c)
    ensures piece[0] == '\\' && piece[1] == 'u'
  {
    assert piece[0] == piece[..2][0] && piece[1] == piece[..2][1];
  }

  /** The reader takes exactly one character of a literal at a time, whichever way it is written. */
  lemma NextCharExactly(s: string, c: char, n: nat)
    requires s != []
    ensures NextChar(s) == Some(Unescaped(c, n)) <==> n <= |s| && Stands(s[..n], c)
  {
    hide NextChar, Stands;
    if NextChar(s) == Some(Unescaped(c, n)) {
      NextCharTakes(s);
    }
    if n <= |s| && Stands(s[..n], c) {
      StandsTakes(s, n, c);
    }
    if Takes(s, n) {
      if n <= 2 {
        OneAtATime(s, c);
      } else if n == 6 {
        ShortUnicodeExactly(s, c);
      } else {
        LongUnicodeExactly(s, c);
      }
    }
  }

  ghost function Concat(pieces: seq<string>): string {
    if pieces == [] then [] else pieces[0] + Concat(pieces[1..])
  }

  ghost predicate AllStand(pieces: seq<string>, text: string) {
    |pieces| == |text| && forall i :: 0 <= i < |text| ==> Stands(pieces[i], text[i])
  }

  lemma {:induction false} PiecesOf(s: string) returns (pieces: seq<string>)
    requires Unescape(s).Some?
    ensures s == Concat(pieces) && AllStand(pieces, Unescape(s).value)
    decreases |s|
  {
    hide NextChar, Stands;
    pieces := [];
    if s != [] {
      var u := NextChar(s).value;
      NextCharExactly(s, u.value, u.length);
      var others := PiecesOf(s[u.length..]);
      pieces := [s[..u.length]] + others;
      assert pieces[1..] == others;
    }
  }

  lemma {:induction false} PiecesRead(pieces: seq<string>, text: string)
    requires AllStand(pieces, text)
    ensures Unescape(Concat(pieces)) == Some(text)
    decreases |pieces|
  {
    hide NextChar, Stands;
    if pieces != [] {
      var s, n := Concat(pieces), |pieces[0]|;
      assert s[..n] == pieces[0] && s[n..] == Concat(pieces[1..]);
      assert Stands(pieces[0], text[0]);
      NotEmpty(pieces[0], text[0]);
      NextCharExactly(s, text[0], n);
      PiecesRead(pieces[1..], text[1..]);
      assert text == [text[0]] + text[1..];
    }
  }

  lemma NotEmpty(piece: string, c: char)
    requires Stands(piece, c)
    ensures piece != []
  {
    hide IsHex, StandsAsPair;
  }

  /** A literal's body stands for a text exactly when it is that text written character by character. */
  lemma UnescapeExactly(s: string, text: string)
    ensures Unescape(s) == Some(text) <==> exists pieces :: s == Concat(pieces) && AllStand(pieces, text)
  {
    hide Unescape, AllStand;
    if Unescape(s) == Some(text) {
      var pieces := PiecesOf(s);
      assert s == Concat(pieces) && AllStand(pieces, text);
    }
    forall pieces | s == Concat(pieces) && AllStand(pieces, text) ensures Unescape(s) == Some(text) {
      PiecesRead(pieces, text);
    }
  }
}
