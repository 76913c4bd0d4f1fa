/**
 * Turning a comment token's spelling into the text that is classified, and
 * wrapping that text into the synthetic C++ function handed to the parser.
 */
module Comments {
  import opened Text

  datatype Option<T> = None | Some(value: T)

  // Python's `spelling[2:-2]` on a spelling that starts with `/*`: the
  // two characters at each end are dropped, and a spelling of fewer than
  // four characters leaves nothing.
  function BlockInterior(spelling: string): (r: string)
    requires "/*" <= spelling
    ensures |spelling| >= 4 ==> "/*" + r + spelling[|spelling| - 2..] == spelling
    ensures |spelling| < 4 ==> r == []
  {
    if |spelling| >= 4 then spelling[2..|spelling| - 2] else []
  }

  // The comment text of a token. A `//` comment gives the text after the
  // delimiter, a `/*` comment the text between the delimiters; in both
  // cases only surrounding whitespace is dropped and the rest is
  // lower-cased, so the result is normalized. Any other spelling is kept
  // exactly as it is, neither trimmed nor lower-cased.
  function StripDelimiters(spelling: string): (comment: string)
    ensures "//" <= spelling ==> Normalized(comment) && Cleaned(comment, spelling[2..])
    ensures !("//" <= spelling) && "/*" <= spelling ==> Normalized(comment) && Cleaned(comment, BlockInterior(spelling))
    ensures !("//" <= spelling) && !("/*" <= spelling) ==> comment == spelling
  {
    if "//" <= spelling then
      StripLower(spelling[2..])
    else if "/*" <= spelling then
      StripLower(BlockInterior(spelling))
    else
      spelling
  }

  /** Writing a normalized text as a line comment, with any whitespace after
      the `//`, and extracting it again gives the text back. */
  lemma LineCommentRoundTrip(pad: string, text: string, trail: string)
    requires AllSpace(pad) && AllSpace(trail) && Normalized(text)
    ensures StripDelimiters("//" + pad + text + trail) == text
  {
    var spelling := "//" + pad + text + trail;
    assert spelling[..2] == "//";
    assert spelling[2..] == pad + text + trail;
    StripLowerPadded(pad, text, trail);
  }

  /** Writing a normalized text as a block comment, with any whitespace
      inside the delimiters, and extracting it again gives the text back. */
  lemma BlockCommentRoundTrip(pad: string, text: string, trail: string)
    requires AllSpace(pad) && AllSpace(trail) && Normalized(text)
    ensures StripDelimiters("/*" + pad + text + trail + "*/") == text
  {
    var spelling := "/*" + pad + text + trail + "*/";
    assert spelling[..2] == "/*";
    assert spelling[1] == '*';
    assert spelling[2..|spelling| - 2] == pad + text + trail;
    StripLowerPadded(pad, text, trail);
  }

  // The two comment styles carry the same text: `// x` and `/* x */`
  // are classified alike.
  lemma CommentStylesAgree(body: string)
    ensures StripDelimiters("/*" + body + "*/") == StripDelimiters("//" + body)
  {
    var block := "/*" + body + "*/";
    var line := "//" + body;
    assert block[..2] == "/*" && block[1] == '*';
    assert block[2..|block| - 2] == body;
    assert line[..2] == "//" && line[2..] == body;
  }

  /** Text placed before the comment inside the synthetic function. */
  const Prologue: string := "void f() { "
  /** Text placed after the comment: an empty statement and the closing brace. */
  const Epilogue: string := " ; }"

  /** The synthetic translation unit: the comment as the body of a function
      `f`, followed by a statement terminator. */
  function Wrap(code: string): (source: string)
    ensures |source| == |code| + 15
    ensures source[..11] == "void f() { "
    ensures source[11..11 + |code|] == code
    ensures source[11 + |code|..] == " ; }"
  {
    Prologue + code + Epilogue
  }

  /** Recovers the comment from a synthetic translation unit, or `None` for
      a text that is not one. */
  function Unwrap(source: string): (code: Option<string>)
    ensures code.Some? ==> |code.value| == |source| - 15
    ensures code.Some? ==> Wrap(code.value) == source
  {
    if |source| >= 15 && source[..11] == Prologue && source[|source| - 4..] == Epilogue then
      Some(source[11..|source| - 4])
    else
      None
  }

  /** Unwrapping a wrapped comment gives the comment back. */
  lemma UnwrapWrap(code: string)
    ensures Unwrap(Wrap(code)) == Some(code)
  {
    var source := Wrap(code);
    assert source[|source| - 4..] == Epilogue;
  }

  /** Every text that unwraps is the wrapping of what it unwraps to, so
      `Wrap` hits exactly the texts `Unwrap` accepts. */
  lemma WrapUnwrap(source: string)
    requires Unwrap(source).Some?
    ensures Wrap(Unwrap(source).value) == source
  {
    var code := Unwrap(source).value;
    assert source == source[..11] + code + source[|source| - 4..];
  }

  /** Different comments give different synthetic translation units. */
  lemma WrapInjective(a: string, b: string)
    requires Wrap(a) == Wrap(b)
    ensures a == b
  {
    UnwrapWrap(a);
    UnwrapWrap(b);
  }
}
