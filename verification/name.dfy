/** The `Name` value object: a caller-supplied string that has passed validation. */
module Names {
  import opened Results
  import opened Text

  /** Longest accepted name, in UTF-8 bytes (the unit of Rust's `String::len`). */
  const MaxNameLength: nat := 100

  /** The invariant every `Name` keeps: not blank, and at most `MaxNameLength` bytes long. */
  predicate IsValidName(s: string) {
    !AllWhitespace(s) && ByteLen(s) <= MaxNameLength
  }

  /** Why `New` refused its input. */
  datatype NameError = Empty | TooLong {

    /** The error's display text (its `thiserror` `#[error]` literal). */
    function Message(): string {
      match this
      case Empty => "Name cannot be empty"
      case TooLong => "Name is too long (maximum 100 characters)"
    }
  }

  /** The stored string of a `Name`. The subset type makes the invariant part of the type,
      as the private field and the single constructor `New` do in the source. */
  datatype NameValue = NameValue(raw: string)

  type Name = n: NameValue | IsValidName(n.raw) witness NameValue("a")

  /** `Name::value`: the stored string, exactly as it was given to `New`. */
  function Value(n: Name): (v: string)
    ensures IsValidName(v)
    ensures New(v) == Ok(n)
  {
    n.raw
  }

  /** `AsRef<str> for Name`: the same view of the stored string as `Value`. */
  function AsRef(n: Name): (v: string)
    ensures v == Value(n)
  {
    Value(n)
  }

  /** `Name::new`: blankness is checked first (on the trimmed string), then the byte length
      of the untrimmed string; on success the input is stored unchanged. */
  function New(value: string): (r: Result<Name, NameError>)
    ensures r.Ok? <==> IsValidName(value)
    ensures r.Ok? ==> r.value.raw == value
    ensures r == Err(Empty) <==> AllWhitespace(value)
    ensures r == Err(TooLong) <==> !AllWhitespace(value) && ByteLen(value) > MaxNameLength
  {
    if Trim(value) == [] then Err(Empty)
    else if ByteLen(value) > MaxNameLength then Err(TooLong)
    else Ok(NameValue(value))
  }

  /** The display text identifies the variant: distinct errors never share a message,
      and no message is empty. */
  lemma MessageIdentifiesError(a: NameError, b: NameError)
    ensures a.Message() != []
    ensures a.Message() == b.Message() <==> a == b
  {
  }

  /** Blankness is checked before length: an all-whitespace input is `Empty` however long
      it is, e.g. 101 spaces. */
  lemma BlankBeatsLength(s: string)
    requires AllWhitespace(s) && ByteLen(s) > MaxNameLength
    ensures New(s) == Err(Empty)
  {
  }

  /** 101 spaces: over the limit, yet reported as `Empty`. */
  lemma LongBlankIsEmpty()
    ensures New(Repeat(' ', 101)) == Err(Empty)
    ensures ByteLen(Repeat(' ', 101)) > MaxNameLength
  {
  }

  /** The limit is inclusive: a non-blank input of exactly 100 bytes is accepted,
      one of 101 bytes is `TooLong`. */
  lemma LengthBoundary(s: string)
    requires !AllWhitespace(s)
    ensures ByteLen(s) == MaxNameLength ==> New(s).Ok? && Value(New(s).value) == s
    ensures ByteLen(s) == MaxNameLength + 1 ==> New(s) == Err(TooLong)
  {
  }

  /** One hundred `a`s are accepted verbatim; one hundred and one are `TooLong`. */
  lemma RepeatedLetterBoundary()
    ensures New(Repeat('a', 100)).Ok?
    ensures New(Repeat('a', 100)).value.raw == Repeat('a', 100)
    ensures New(Repeat('a', 101)) == Err(TooLong)
  {
    ByteLenRepeat('a', 100);
    ByteLenRepeat('a', 101);
    assert !IsWhitespace(Repeat('a', 100)[0]);
    assert !IsWhitespace(Repeat('a', 101)[0]);
  }

  /** The limit counts UTF-8 bytes, not characters: 51 copies of U+00E9 are only 51
      characters but 102 bytes, so they are `TooLong`. */
  lemma LimitCountsBytes()
    ensures |Repeat('\U{E9}', 51)| <= MaxNameLength
    ensures New(Repeat('\U{E9}', 51)) == Err(TooLong)
  {
    ByteLenRepeat('\U{E9}', 51);
    assert !IsWhitespace(Repeat('\U{E9}', 51)[0]);
  }

  /** On ASCII input bytes are characters, so the rule reads "at most 100 characters". */
  lemma AsciiNameRule(s: string)
    requires IsAscii(s)
    ensures New(s).Ok? <==> !AllWhitespace(s) && |s| <= MaxNameLength
  {
    ByteLenAscii(s);
  }

  /** Two names are equal exactly when their stored strings are. */
  lemma ValueInjective(a: Name, b: Name)
    ensures Value(a) == Value(b) <==> a == b
  {
  }

  /** The examples of the source's tests: "John" is stored and read back verbatim through
      both accessors, and the empty string is `Empty`. */
  lemma NameExamples()
    ensures New("John").Ok? && Value(New("John").value) == "John"
    ensures AsRef(New("John").value) == "John"
    ensures New("") == Err(Empty)
    ensures New("   ") == Err(Empty)
  {
    assert !IsWhitespace("John"[0]);
  }
}
