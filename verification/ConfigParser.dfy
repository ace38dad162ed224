/** The workspace configuration parser: size limit, one form, nothing after it, then decoding. */
module ConfigParser {
  import opened Results
  import opened Behavior
  import opened Lexer
  import opened Forms
  import opened ConfigDecoder

  const MAX_CONFIG_BYTES: nat := 1_048_576

  function Utf8Width(c: char): nat {
    if c < '\U{80}' then 1 else if c < '\U{800}' then 2 else if c < '\U{10000}' then 3 else 4
  }

  /** The length of a text in bytes. */
  function Utf8Length(s: string): nat {
    if s == [] then 0 else Utf8Width(s[0]) + Utf8Length(s[1..])
  }

  function ParseConfig(source: string, root: string, floats: FloatText): Result<Workspace, ConfigError> {
    if Utf8Length(source) > MAX_CONFIG_BYTES then Err(TooLarge)
    else
      match ReadForm(source)
      case Err(e) => Err(Malformed(e))
      case Ok(form) =>
        if SkipIgnored(form.rest) != [] then Err(TrailingForm) else DecodeWorkspace(form.value, root, floats)
  }

  /** A text of more than 1048576 bytes in UTF-8 is refused unread, and no other is for its size. */
  lemma TooLargeExactly(source: string, root: string, floats: FloatText)
    ensures Utf8Length(source) > 1048576 ==> ParseConfig(source, root, floats) == Err(TooLarge)
    ensures ParseConfig(source, root, floats) == Err(TooLarge) ==>
              Utf8Length(source) > 1048576 || (ReadForm(source).Ok? && SkipIgnored(ReadForm(source).value.rest) == [])
  {
    hide Utf8Length, ReadForm, DecodeWorkspace;
  }

  /** The bytes of a text are those of its characters, of which each takes the fewest that hold it. */
  lemma {:induction false} Utf8LengthOfJoin(s: string, t: string)
    ensures Utf8Length(s + t) == Utf8Length(s) + Utf8Length(t)
    ensures forall c: char :: Utf8Length([c]) == if c as int <= 0x7F then 1 else if c as int <= 0x7FF then 2
                                                 else if c as int <= 0xFFFF then 3 else 4
  {
    if s == [] {
      assert s + t == t;
    } else {
      Utf8LengthOfJoin(s[1..], t);
      assert (s + t)[1..] == s[1..] + t;
    }
    forall c: char ensures Utf8Length([c]) == Utf8Width(c) {
      assert [c][1..] == [];
    }
  }

  class NativeWorkspaceParser {
    const root: string
    const reader: FormReader

    constructor (source: string, root: string)
      ensures this.root == root && fresh(reader) && fresh(reader.cursor)
      ensures reader.Valid() && reader.cursor.source == source && reader.cursor.position == 0
    {
      this.root := root;
      reader := new FormReader(source);
    }

    method Parse(floats: FloatText) returns (r: Result<Workspace, ConfigError>)
      requires reader.Valid() && reader.cursor.position == 0
      modifies reader.cursor
      ensures r == ParseConfig(reader.cursor.source, root, floats)
    {
      if Utf8Length(reader.cursor.source) > MAX_CONFIG_BYTES {
        return Err(TooLarge);
      }
      assert reader.cursor.Rest() == reader.cursor.source;
      var form := reader.Form();
      if form.Err? {
        return Err(Malformed(form.error));
      }
      reader.cursor.Skip();
      if reader.cursor.position != |reader.cursor.source| {
        return Err(TrailingForm);
      }
      return DecodeWorkspace(form.value, root, floats);
    }
  }
}
