/**
 * The commented-code detector: it takes the tokens of a C/C++ file one at a
 * time and records a smell for every comment whose contents parse into a
 * syntax tree too large to be prose.
 */
module Sniff {
  import opened Comments
  import opened Syntax

  /** The five token kinds the C++ tokenizer distinguishes. */
  datatype TokenKind = Punctuation | Keyword | Identifier | Literal | Comment

  /** Where a token starts: the file's name and its 1-based line and column. */
  datatype SourceLocation = SourceLocation(file: string, line: int, column: int)

  datatype Token = Token(kind: TokenKind, spelling: string, location: SourceLocation)

  /** Information about an identified smell. */
  datatype Smell = Smell(description: string, filename: string, line: int, column: int)
  {
    /** The source location the smell was recorded at. */
    function Location(): SourceLocation {
      SourceLocation(filename, line, column)
    }
  }

  const CommentedCode: string := "Commented code"

  /** A smell with the given description, reported at the given location:
      the location can be read back from it unchanged. */
  function NewSmell(description: string, location: SourceLocation): (smell: Smell)
    ensures smell.description == description
    ensures smell.Location() == location
  {
    Smell(description, location.file, location.line, location.column)
  }

  /** Smells recorded for one comment: one commented-code smell at the
      comment's location when the verdict on its parse tree is "code". */
  function Finding(token: Token, tree: Node): (found: seq<Smell>)
    ensures |found| <= 1
    ensures |found| == 1 <==> Size(tree) > ProseSize
    ensures forall s :: s in found ==> s.description == CommentedCode && s.Location() == token.location
  {
    if Verdict(tree) then [NewSmell(CommentedCode, token.location)] else []
  }

  /** The list of identified smells, shared by every scanner of a run. */
  class Report {
    var smells: seq<Smell>

    constructor ()
      ensures smells == []
    {
      smells := [];
    }
  }

  /** Detector for commented code. The three counters are scratch state of
      one classification: the size of the tree walked so far, the deepest
      depth reached so far, and the depth of the cursor being walked. */
  class CommentedCodeScanner {
    var treeSize: int
    var treeDepth: int
    var currentDepth: int
    /** The depths at which the walk has entered cursors, in order. */
    ghost var entries: seq<int>

    constructor ()
      ensures treeSize == 0 && treeDepth == 0 && currentDepth == 0 && entries == []
    {
      treeSize, treeDepth, currentDepth := 0, 0, 0;
      entries := [];
    }

    /** Looks at one token of the file. A comment token is stripped of its
        delimiters, its contents are parsed inside a synthetic function, and
        a smell at the token's location is appended to the report when the
        parse tree is too large for prose. Any other token changes nothing.
        The parser is `parse`. */
    method Visit(token: Token, parse: string -> Node, report: Report)
      modifies this, report
      ensures token.kind != Comment ==> report.smells == old(report.smells) && unchanged(this)
      ensures token.kind == Comment ==>
        var tree := parse(Wrap(StripDelimiters(token.spelling)));
        && report.smells == old(report.smells) + Finding(token, tree)
        && treeSize == Size(tree) && treeDepth == Height(tree) && currentDepth == 0
    {
      if token.kind == Comment {
        var comment := StripDelimiters(token.spelling);
        var isCode := IsCode(comment, parse);
        if isCode {
          report.smells := report.smells + [NewSmell(CommentedCode, token.location)];
        }
      }
    }

    /** Whether a comment's contents look like code: the contents become the
        body of a function, are parsed, and the tree is measured. The
        counters are reset first, so the verdict depends on the tree alone;
        afterwards they hold the tree's size and height. */
    method IsCode(code: string, parse: string -> Node) returns (isCode: bool)
      modifies this
      ensures treeSize == Size(parse(Wrap(code)))
      ensures treeDepth == Height(parse(Wrap(code)))
      ensures currentDepth == 0
      ensures entries == Visits(parse(Wrap(code)), 0)
      ensures isCode == Verdict(parse(Wrap(code)))
      ensures isCode <==> Size(parse(Wrap(code))) > ProseSize
    {
      var codeInFunc := Wrap(code);
      var syntaxTree := parse(codeInFunc);
      treeSize := 0;
      treeDepth := 0;
      currentDepth := 0;
      entries := [];
      RecurseCode(syntaxTree);
      isCode := treeDepth > ProseDepth || treeSize > ProseSize;
      HeightBelowSize(syntaxTree);
    }

    /** Walks the tree below `cursor` depth first. Adds its number of
        cursors to `treeSize`, raises `treeDepth` to the deepest depth
        reached, counting `cursor` at `currentDepth`, and leaves
        `currentDepth` as it found it. */
    method RecurseCode(cursor: Node)
      modifies this
      decreases cursor
      ensures treeSize == old(treeSize) + Size(cursor)
      ensures treeDepth == Max(old(treeDepth), old(currentDepth) + Height(cursor))
      ensures currentDepth == old(currentDepth)
      ensures entries == old(entries) + Visits(cursor, old(currentDepth))
    {
      treeSize := treeSize + 1;
      entries := entries + [currentDepth];
      if currentDepth > treeDepth {
        treeDepth := currentDepth;
      }
      ghost var reached := treeDepth;
      currentDepth := currentDepth + 1;
      var children := cursor.children;
      for i := 0 to |children|
        invariant currentDepth == old(currentDepth) + 1
        invariant treeSize == old(treeSize) + 1 + ForestSize(children[..i])
        invariant treeDepth == if i == 0 then reached else Max(reached, currentDepth + ForestHeight(children[..i]))
        invariant entries == old(entries) + [old(currentDepth)] + ForestVisits(children[..i], currentDepth)
      {
        RecurseCode(children[i]);
        assert children[..i + 1][..i] == children[..i];
      }
      assert children[..|children|] == children;
      currentDepth := currentDepth - 1;
    }
  }
}
