/** The lexical layer shared by the configuration readers: white space, comments, tokens and
    string literals, as functions of the text still to be read and as a cursor over the source. */
module Lexer {
  import opened Results
  import opened JsonStrings

  datatype LexError =
    | ExpectedToken
    | ExpectedString
    | UnterminatedString
    | InvalidEscape

  /** A value read from the front of a text, and the text after it. */
  datatype Parsed<+T> = Parsed(value: T, rest: string)

  /** Unicode white space. */
  predicate IsWhitespace(c: char) {
    || '\t' <= c <= '\r' || c == ' ' || c == '\U{85}' || c == '\U{A0}' || c == '\U{1680}'
    || '\U{2000}' <= c <= '\U{200A}' || c == '\U{2028}' || c == '\U{2029}' || c == '\U{202F}'
    || c == '\U{205F}' || c == '\U{3000}'
  }

  /** Whether a token goes on with `c`. Only the field readers also stop at a quote. */
  predicate ContinuesToken(c: char, quoteEnds: bool) {
    !IsWhitespace(c) && c != '(' && c != ')' && c != ';' && !(quoteEnds && c == '"')
  }

  function DropLine(s: string): (r: string)
    ensures |r| <= |s|
  {
    if s == [] || s[0] == '\n' then s else DropLine(s[1..])
  }

  function SkipIgnored(s: string): (r: string)
    ensures |r| <= |s|
    decreases |s|
  {
    if s == [] then s
    else if IsWhitespace(s[0]) then SkipIgnored(s[1..])
    else if s[0] == ';' then SkipIgnored(DropLine(s))
    else s
  }

  function TokenLength(s: string, quoteEnds: bool): (n: nat)
    ensures n <= |s|
  {
    if s == [] || !ContinuesToken(s[0], quoteEnds) then 0 else 1 + TokenLength(s[1..], quoteEnds)
  }

  function ReadToken(s: string, quoteEnds: bool): (r: Result<Parsed<string>, LexError>)
    ensures r.Ok? ==> |r.value.rest| < |s|
  {
    var t := SkipIgnored(s);
    var n := TokenLength(t, quoteEnds);
    if n == 0 then Err(ExpectedToken) else Ok(Parsed(t[..n], t[n..]))
  }

  function ReadString(s: string): (r: Result<Parsed<string>, LexError>)
    ensures r.Ok? ==> |r.value.rest| < |s|
  {
    var t := SkipIgnored(s);
    if t == [] || t[0] != '"' then Err(ExpectedString)
    else
      match ClosingQuote(t[1..], false)
      case None => Err(UnterminatedString)
      case Some(n) =>
        match Unescape(t[1..][..n])
        case None => Err(InvalidEscape)
        case Some(text) => Ok(Parsed(text, t[1..][n + 1..]))
  }

  // ----- The cursor ------------------------------------------------------------------------------------

  class Cursor {
    const source: string
    const quoteEnds: bool
    var position: nat

    constructor (source: string, quoteEnds: bool)
      ensures this.source == source && this.quoteEnds == quoteEnds
      ensures Valid() && position == 0 && Rest() == source
    {
      this.source, this.quoteEnds, position := source, quoteEnds, 0;
    }

    predicate Valid()
      reads this
    {
      position <= |source|
    }

    function Rest(): string
      reads this
      requires Valid()
    {
      source[position..]
    }

    function Peek(): (c: Option<char>)
      reads this
      requires Valid()
      ensures c == if Rest() == [] then None else Some(Rest()[0])
    {
      if position == |source| then None else Some(source[position])
    }

    method Bump() returns (c: Option<char>)
      requires Valid()
      modifies this
      ensures Valid() && c == old(Peek())
      ensures Rest() == if c == None then old(Rest()) else old(Rest())[1..]
    {
      c := Peek();
      if c.Some? {
        position := position + 1;
      }
    }

    method SkipLine()
      requires Valid()
      modifies this
      ensures Valid() && Rest() == DropLine(old(Rest()))
    {
      while Peek().Some? && Peek().value != '\n'
        invariant Valid() && DropLine(Rest()) == DropLine(old(Rest()))
        decreases |source| - position
      {
        var _ := Bump();
      }
    }

    method SkipSpace()
      requires Valid()
      modifies this
      ensures Valid() && position >= old(position)
      ensures SkipIgnored(Rest()) == SkipIgnored(old(Rest()))
      ensures Rest() == [] || !IsWhitespace(Rest()[0])
    {
      while Peek().Some? && IsWhitespace(Peek().value)
        invariant Valid() && position >= old(position) && SkipIgnored(Rest()) == SkipIgnored(old(Rest()))
        decreases |source| - position
      {
        var _ := Bump();
      }
    }

    method Skip()
      requires Valid()
      modifies this
      ensures Valid() && Rest() == SkipIgnored(old(Rest()))
    {
      while true
        invariant Valid() && SkipIgnored(Rest()) == SkipIgnored(old(Rest()))
        decreases |source| - position
      {
        SkipSpace();
        if Peek() != Some(';') {
          return;
        }
        ghost var line := Rest();
        assert line[0] == ';' && DropLine(line) == DropLine(line[1..]);
        SkipLine();
      }
    }

    method Token() returns (r: Result<string, LexError>)
      requires Valid()
      modifies this
      ensures Valid()
      ensures match ReadToken(old(Rest()), quoteEnds)
              case Ok(p) => r == Ok(p.value) && Rest() == p.rest
              case Err(e) => r == Err(e)
    {
      Skip();
      var start := position;
      ghost var s := Rest();
      while Peek().Some? && ContinuesToken(Peek().value, quoteEnds)
        invariant Valid() && start <= position
        invariant TokenLength(s, quoteEnds) == position - start + TokenLength(Rest(), quoteEnds)
        decreases |source| - position
      {
        var _ := Bump();
      }
      assert position == start + TokenLength(s, quoteEnds);
      if start == position {
        return Err(ExpectedToken);
      }
      assert source[start..position] == s[..position - start];
      return Ok(source[start..position]);
    }

    /** The scanning loop of `string`: find the quote that closes the literal. */
    method ScanBody() returns (closed: bool)
      requires Valid()
      modifies this
      ensures Valid()
      ensures match ClosingQuote(old(Rest()), false)
              case None => !closed
              case Some(n) => closed && position == old(position) + n + 1
    {
      var escaped := false;
      while Peek().Some?
        invariant Valid() && old(position) <= position
        invariant ClosingQuote(old(Rest()), false) == Shift(ClosingQuote(Rest(), escaped), position - old(position))
        decreases |source| - position
      {
        var c := Bump();
        if escaped {
          escaped := false;
        } else if c == Some('\\') {
          escaped := true;
        } else if c == Some('"') {
          return true;
        }
      }
      return false;
    }

    method String() returns (r: Result<string, LexError>)
      requires Valid()
      modifies this
      ensures Valid()
      ensures match ReadString(old(Rest()))
              case Ok(p) => r == Ok(p.value) && Rest() == p.rest
              case Err(e) => r == Err(e)
    {
      Skip();
      var open := Bump();
      if open != Some('"') {
        return Err(ExpectedString);
      }
      var start := position;
      ghost var body := Rest();
      var closed := ScanBody();
      if !closed {
        return Err(UnterminatedString);
      }
      assert source[start..position - 1] == body[..position - 1 - start];
      match Unescape(source[start..position - 1]) {
        case None => return Err(InvalidEscape);
        case Some(text) => return Ok(text);
      }
    }
  }

  // ----- Reading what was printed ----------------------------------------------------------------------

  ghost predicate AllWhitespace(s: string) {
    forall i :: 0 <= i < |s| ==> IsWhitespace(s[i])
  }

  lemma {:induction false} SkipWhitespace(ws: string, s: string)
    requires AllWhitespace(ws)
    ensures SkipIgnored(ws + s) == SkipIgnored(s)
  {
    if ws == [] {
      assert ws + s == s;
    } else {
      assert (ws + s)[1..] == ws[1..] + s;
      SkipWhitespace(ws[1..], s);
    }
  }

  /** Text after which a token ends. */
  predicate Ended(s: string, quoteEnds: bool) {
    s == [] || !ContinuesToken(s[0], quoteEnds)
  }

  /** A word made of the characters the printers use in names and numbers. */
  predicate IsWord(s: string) {
    s != [] && forall i :: 0 <= i < |s| ==>
      'a' <= s[i] <= 'z' || '0' <= s[i] <= '9' || s[i] == '-' || s[i] == '#' || s[i] == '.'
  }

  lemma {:induction false} TokenLengthOfWord(word: string, rest: string, quoteEnds: bool)
    requires word == [] || IsWord(word)
    requires Ended(rest, quoteEnds)
    ensures TokenLength(word + rest, quoteEnds) == |word|
  {
    if word == [] {
      assert word + rest == rest;
    } else {
      assert (word + rest)[1..] == word[1..] + rest;
      TokenLengthOfWord(word[1..], rest, quoteEnds);
    }
  }

  lemma ReadWord(ws: string, word: string, rest: string, quoteEnds: bool)
    requires AllWhitespace(ws) && IsWord(word) && Ended(rest, quoteEnds)
    ensures ReadToken(ws + (word + rest), quoteEnds) == Ok(Parsed(word, rest))
  {
    SkipWhitespace(ws, word + rest);
    assert SkipIgnored(word + rest) == word + rest;
    TokenLengthOfWord(word, rest, quoteEnds);
  }

  lemma ReadQuoted(ws: string, text: string, rest: string)
    requires AllWhitespace(ws)
    ensures ReadString(ws + (Quote(text) + rest)) == Ok(Parsed(text, rest))
  {
    var t := Quote(text) + rest;
    SkipWhitespace(ws, t);
    assert SkipIgnored(t) == t;
    assert t[1..] == Escape(text) + ("\"" + rest);
    ScanOfEscape(text, rest);
    assert t[1..][..|Escape(text)|] == Escape(text);
    assert t[1..][|Escape(text)| + 1..] == rest;
    UnescapeOfEscape(text);
  }

  /** The characters with the Unicode property White_Space, one by one. */
  lemma WhitespaceExactly(c: char)
    ensures IsWhitespace(c) <==>
            c in {'\t', '\n', '\U{B}', '\U{C}', '\r', ' ', '\U{85}', '\U{A0}', '\U{1680}', '\U{2000}', '\U{2001}',
                  '\U{2002}', '\U{2003}', '\U{2004}', '\U{2005}', '\U{2006}', '\U{2007}', '\U{2008}', '\U{2009}',
                  '\U{200A}', '\U{2028}', '\U{2029}', '\U{202F}', '\U{205F}', '\U{3000}'}
  {
  }

  /** A token is the longest run without white space, parentheses and semicolons, and without quotes where
      those end it. */
  lemma {:induction false} TokenExactly(s: string, quoteEnds: bool, n: nat)
    ensures TokenLength(s, quoteEnds) == n <==>
            && n <= |s|
            && (forall i :: 0 <= i < n ==> !EndsToken(s[i], quoteEnds))
            && (n < |s| ==> EndsToken(s[n], quoteEnds))
  {
    hide IsWhitespace;
    if s != [] && !EndsToken(s[0], quoteEnds) && n > 0 {
      TokenExactly(s[1..], quoteEnds, n - 1);
      assert forall i :: 0 <= i < |s| - 1 ==> s[1..][i] == s[i + 1];
    }
  }

  predicate EndsToken(c: char, quoteEnds: bool) {
    IsWhitespace(c) || c in "();" || (quoteEnds && c == '"')
  }
}
