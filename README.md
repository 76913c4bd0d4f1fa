# Commented-code detector

A Dafny model of the commented-code detector in `sniff.py`. The detector
reads the tokens of a C/C++ file one at a time. It looks only at comment
tokens. For each one it:

- strips the `//` or `/* */` delimiters;
- trims surrounding whitespace and lower-cases the rest;
- wraps the text as the body of a function, `void f() { <text> ; }`;
- has the C++ parser parse that synthetic translation unit;
- walks the returned syntax tree, counting its cursors and its deepest depth.

A tree deeper than 2 or larger than 3 cursors is taken for code, and a
`Smell` record ("Commented code", with the comment's file, line and column)
is appended to the shared report list.

The model has four modules:

- `Text` (text.dfy): Python's `str.strip()` and `str.lower()` on ASCII.
- `Comments` (comments.dfy): delimiter stripping, and the wrapping into the
  synthetic function together with its inverse.
- `Syntax` (syntax.dfy): the parse tree as a rose tree `Node(children)`. It
  holds its size and height, the depths a depth-first walk enters, and the
  verdict.
- `Sniff` (sniff.dfy): tokens, smells, the report list as a `Report` object,
  and the `CommentedCodeScanner` class. The class has the three counters the
  source mutates: `treeSize`, `treeDepth` and `currentDepth`.

The parser is a foreign library. It enters the model as a parameter
`parse: string -> Node`, and the model says nothing about which tree it
builds for a given text. What is proved is:

- the recursive walk leaves the tree's size in `treeSize` and its height in
  `treeDepth`, and restores `currentDepth`;
- the verdict depends only on the tree;
- because a tree of height h has at least h + 1 cursors, the depth test
  never decides anything: the verdict is exactly "more than 3 cursors".

Each comment token is classified on its own. There is no merging of
adjacent comments, no separator-line filtering and no other classifier. The
thresholds are `depth > 2 or size > 3`.

## Model

| member | source | states |
|---|---|---|
| `Text.Strip` | sniff.py:43 | `str.strip()`: the result neither starts nor ends with whitespace, and the input is the result with only whitespace before and after it |
| `Text.Lower` | sniff.py:43 | `str.lower()`: same length, each A–Z letter becomes its lower-case counterpart, every other character is kept, no upper-case letter remains |
| `Text.StripLower` | sniff.py:43 | `strip().lower()` yields a normalized text (trimmed, lower-case) that is the input less surrounding whitespace, lower-cased |
| `Text.StripPadded` | sniff.py:43 | stripping a trimmed text padded with whitespace on both sides returns exactly that text |
| `Text.StripTrimmed` | sniff.py:43 | a text that neither starts nor ends with whitespace is left unchanged by stripping |
| `Text.StripUnique` | sniff.py:43 | at most one text is trimmed and sits in the input with only whitespace around it, so the contract of `Strip` fixes its result |
| `Text.StripIdempotent` | sniff.py:43 | stripping twice is stripping once |
| `Text.StripLowerPadded` | sniff.py:43 | a normalized text padded with whitespace survives `strip().lower()` unchanged |
| `Comments.BlockInterior` | sniff.py:45 | Python's `[2:-2]` on a `/*` spelling: the spelling is `/*` + result + its last two characters; a spelling shorter than 4 gives the empty text |
| `Comments.StripDelimiters` | sniff.py:39-45 | a `//` spelling gives the normalized, lower-cased text after the first two characters less surrounding whitespace; a `/*` spelling gives the same for the text between the first two and last two characters; any other spelling comes back unchanged, neither trimmed nor lower-cased |
| `Comments.LineCommentRoundTrip` | sniff.py:42-43 | a normalized text written as `//` + whitespace + text + whitespace is extracted back exactly |
| `Comments.BlockCommentRoundTrip` | sniff.py:44-45 | a normalized text written as `/*` + whitespace + text + whitespace + `*/` is extracted back exactly |
| `Comments.CommentStylesAgree` | sniff.py:41-45 | `/*x*/` and `//x` give the same comment text for every x |
| `Comments.Wrap` | sniff.py:59 | the synthetic unit is 15 characters longer than the code, starts with `void f() { `, holds the code at offset 11 and ends with ` ; }` |
| `Comments.Unwrap` | sniff.py:59 | a recovered code is 15 characters shorter than the synthetic unit and wraps back to exactly that unit; any other text gives `None` |
| `Comments.UnwrapWrap` | sniff.py:59 | unwrapping a wrapped comment gives the comment back |
| `Comments.WrapUnwrap` | sniff.py:59 | every text that unwraps is the wrapping of what it unwraps to |
| `Comments.WrapInjective` | sniff.py:59 | different comments give different synthetic units |
| `Syntax.VisitsCount` | sniff.py:75-87 | the depth-first walk (the depths `RecurseCode` records on entry) enters every cursor once: the number of entries is `Size`, the number of cursors, root included |
| `Syntax.VisitsDeepest` | sniff.py:79-87 | every depth the walk reaches lies between its starting depth and that depth plus `Height`, and the deepest is reached |
| `Syntax.HeightBelowSize` | sniff.py:71-73 | a tree of height h has at least h + 1 cursors |
| `Syntax.Verdict` | sniff.py:71-73 | the verdict `depth > 2 or size > 3` holds exactly when the tree has more than 3 cursors |
| `Sniff.NewSmell` | sniff.py:19-23 | the smell carries the description, and its file, line and column read back as the location it was given |
| `Sniff.Finding` | sniff.py:48-49 | a comment yields at most one smell, exactly when its tree has more than 3 cursors, described "Commented code" and located at the comment token |
| `Sniff.Report.constructor` | sniff.py:26 | the report list starts empty |
| `Sniff.CommentedCodeScanner.Visit` | sniff.py:35-49 | a non-comment token changes neither the report nor the scanner; a comment token appends its finding (at most one smell) after the earlier entries, which stay untouched, and leaves the counters at the size and height of its tree |
| `Sniff.CommentedCodeScanner.IsCode` | sniff.py:51-73 | after resetting the counters and walking the parse of `void f() { code ; }`, they hold that tree's size and height, `currentDepth` is 0, and the result is the verdict on that tree alone |
| `Sniff.CommentedCodeScanner.RecurseCode` | sniff.py:75-87 | the walk adds the subtree's size to `treeSize`, raises `treeDepth` to the maximum of its old value and the entry depth plus the subtree's height, returns with `currentDepth` as it found it, and has entered the cursors at exactly the depths `Visits` lists |

## Left out

- The C++ parser and tokenizer are a foreign library. Parsing is a parameter
  `parse: string -> Node`. Tokens are plain records. The index creation and
  the parser's options are not modelled. A parse failure, which raises in
  the library, is not modelled either.
- The parse tree keeps only the children of each cursor. Cursor kinds,
  spellings and extents play no part in the verdict.
- `str.strip()` and `str.lower()` are modelled on ASCII only. Non-ASCII
  whitespace and non-ASCII case mappings are not covered.
- `FileScanner` and `DirectoryScanner` are not modelled: directory walking,
  path handling, the file-extension filter and printing the report are
  operating-system I/O.
- The library setup at the top of the file and the script run at its end
  are not modelled.
- `TokenScanner.visit` only prints the token kind, so it is not modelled.
- `Smell.filename` is `str(location.file)` in the source. The model takes
  the file's name as a string in the location.
- The scanner class in the source has no constructor. Its counters first
  appear when a comment is classified. The model's constructor sets them to
  0, and `IsCode` resets them as the source does.
- The tests in test.py are not modelled. Their expected verdicts depend on
  the tree the parser builds for each text.
- The counters are unbounded integers, as Python integers are.
