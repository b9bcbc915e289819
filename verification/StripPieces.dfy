/** What the stripper leaves of a source text, piece by piece: code as it is, comments and literals emptied. */
module StripPieces {
  import opened Wrappers
  import opened StripSource

  // ---- The lexer, read from the front ----

  function Head(s: string): Option<char> {
    if s == "" then None else Some(s[0])
  }

  /** What the rest of a text leaves in the output when it is entered in `mode`. */
  function Lex(mode: Mode, s: string): string
    decreases |s|
  {
    if s == "" then Finish(mode)
    else Emit(mode, s[0], Head(s[1..])) + Lex(NextMode(mode, s[0], Head(s[1..])), s[1..])
  }

  lemma {:induction false} LexFrom(src: string, i: nat)
    requires i <= |src|
    ensures OutAt(src, i) + Lex(ModeAt(src, i), src[i..]) == Stripped(src)
    decreases |src| - i
  {
    if i < |src| {
      LexFrom(src, i + 1);
      var rest := src[i..];
      assert rest[0] == src[i] && rest[1..] == src[i + 1..] && Head(rest[1..]) == CharAt(src, i + 1);
    } else {
      assert src[i..] == "";
    }
  }

  lemma {:induction false} StrippedIsLex(src: string)
    ensures Stripped(src) == Lex(Code, src)
  {
    LexFrom(src, 0);
    assert src[0..] == src;
  }

  lemma Assoc(a: string, b: string, c: string)
    ensures a + b + c == a + (b + c)
  {}

  lemma LexStep(mode: Mode, c: char, rest: string)
    ensures Lex(mode, [c] + rest) == Emit(mode, c, Head(rest)) + Lex(NextMode(mode, c, Head(rest)), rest)
  {
    assert ([c] + rest)[1..] == rest;
  }

  // ---- Pieces of a source text ----

  /** Inside a template literal: plain text, an escaped character, or code in braces. */
  datatype Part = Plain(text: string) | Escaped(c: char) | Braced(code: string)

  /** A text is code, a division sign, comments, strings with their escapes, and template literals. */
  datatype Piece =
    | CodeText(text: string)
    | Slash
    | LineNote(text: string)
    | BlockNote(text: string)
    | Quoted(double: bool, text: string)
    | Templated(parts: seq<Part>)

  predicate Plainly(c: char) {
    c != '/' && c != '\'' && c != '\"' && c != '`'
  }

  /** What may stand between quotes: anything but that quote, a backslash only with the character it escapes. */
  predicate QuotedText(text: string, quote: char)
    decreases |text|
  {
    text == ""
    || (text[0] == '\\' && |text| > 1 && QuotedText(text[2..], quote))
    || (text[0] != '\\' && text[0] != quote && QuotedText(text[1..], quote))
  }

  /** The braces opened and not closed again; None once one is closed too many. */
  function Open(code: string, depth: nat): Option<nat>
    decreases |code|
  {
    if code == "" then Some(depth)
    else if code[0] == '{' then Open(code[1..], depth + 1)
    else if code[0] == '}' then (if depth == 0 then None else Open(code[1..], depth - 1))
    else Open(code[1..], depth)
  }

  /** A dollar sign is not followed by a brace, in the text or behind it. */
  predicate NoBraceBehind(text: string, i: nat, rest: string)
    requires i < |text|
  {
    text[i] == '$' ==> if i + 1 < |text| then text[i + 1] != '{' else Head(rest) != Some('{')
  }

  predicate PartFits(part: Part, rest: string) {
    match part
    case Plain(text) =>
      && (forall i :: 0 <= i < |text| ==> text[i] != '\\' && text[i] != '`')
      && (forall i :: 0 <= i < |text| ==> NoBraceBehind(text, i, rest))
    case Escaped(_) => true
    case Braced(code) => Open(code, 0) == Some(0)
  }

  predicate PartsFit(parts: seq<Part>) {
    parts == [] || (PartFits(parts[0], RenderParts(parts[1..]) + "`") && PartsFit(parts[1..]))
  }

  function RenderPart(part: Part): string {
    match part
    case Plain(text) => text
    case Escaped(c) => "\\" + [c]
    case Braced(code) => "${" + code + "}"
  }

  function RenderParts(parts: seq<Part>): string {
    if parts == [] then "" else RenderPart(parts[0]) + RenderParts(parts[1..])
  }

  function Render(piece: Piece): string {
    match piece
    case CodeText(text) => text
    case Slash => "/"
    case LineNote(text) => "//" + text + "\n"
    case BlockNote(text) => "/*" + text + "*/"
    case Quoted(double, text) => [QuoteOf(double)] + text + [QuoteOf(double)]
    case Templated(parts) => "`" + RenderParts(parts) + "`"
  }

  function RenderAll(pieces: seq<Piece>): string {
    if pieces == [] then "" else Render(pieces[0]) + RenderAll(pieces[1..])
  }

  /** The piece is what it is called; a division sign is not followed by what would make it a comment. */
  predicate Fits(piece: Piece, rest: string) {
    match piece
    case CodeText(text) => forall i :: 0 <= i < |text| ==> Plainly(text[i])
    case Slash => Head(rest) != Some('/') && Head(rest) != Some('*')
    case LineNote(text) => '\n' !in text
    case BlockNote(text) => forall i :: 0 <= i < |text| - 1 ==> !(text[i] == '*' && text[i + 1] == '/')
    case Quoted(double, text) => QuotedText(text, QuoteOf(double))
    case Templated(parts) => PartsFit(parts)
  }

  predicate AllFit(pieces: seq<Piece>) {
    pieces == [] || (Fits(pieces[0], RenderAll(pieces[1..])) && AllFit(pieces[1..]))
  }

  // ---- What is left of them ----

  function LineBreak(c: char): string {
    if c == '\n' then "\n" else ""
  }

  /** Only the newlines of a text. */
  function LineBreaks(text: string): string {
    if text == "" then "" else LineBreak(text[0]) + LineBreaks(text[1..])
  }

  function LeftOfPart(part: Part): string {
    match part
    case Plain(text) => LineBreaks(text)
    case Escaped(_) => ""
    case Braced(code) => "${" + code + "}"
  }

  function LeftOfParts(parts: seq<Part>): string {
    if parts == [] then "" else LeftOfPart(parts[0]) + LeftOfParts(parts[1..])
  }

  /** Code stays; a comment leaves its newlines, a literal those between its delimiters, and braced code in a
      template. */
  function Left(piece: Piece): string {
    match piece
    case CodeText(text) => text
    case Slash => "/"
    case LineNote(_) => "\n"
    case BlockNote(text) => LineBreaks(text)
    case Quoted(double, text) => [QuoteOf(double)] + LineBreaks(text) + [QuoteOf(double)]
    case Templated(parts) => "`" + LeftOfParts(parts) + "`"
  }

  function LeftOfAll(pieces: seq<Piece>): string {
    if pieces == [] then "" else Left(pieces[0]) + LeftOfAll(pieces[1..])
  }

  // ---- One piece after the other ----

  lemma {:induction false} CodeStays(text: string, rest: string)
    requires forall i :: 0 <= i < |text| ==> Plainly(text[i])
    ensures Lex(Code, text + rest) == text + Lex(Code, rest)
  {
    if text == "" {
      assert text + rest == rest;
    } else {
      assert text + rest == [text[0]] + (text[1..] + rest);
      LexStep(Code, text[0], text[1..] + rest);
      CodeStays(text[1..], rest);
    }
  }

  lemma {:induction false} LineNoteGoes(text: string, rest: string)
    requires '\n' !in text
    ensures Lex(LineComment, text + "\n" + rest) == "\n" + Lex(Code, rest)
  {
    if text == "" {
      assert text + "\n" + rest == "\n" + rest;
      LexStep(LineComment, '\n', rest);
    } else {
      assert text + "\n" + rest == [text[0]] + (text[1..] + "\n" + rest);
      LexStep(LineComment, text[0], text[1..] + "\n" + rest);
      LineNoteGoes(text[1..], rest);
    }
  }

  lemma BlockNoteEnds(rest: string)
    ensures Lex(BlockComment, "*/" + rest) == Lex(Code, rest)
  {
    assert "*/" + rest == "*" + ("/" + rest);
    LexStep(BlockComment, '*', "/" + rest);
    LexStep(BlockClose, '/', rest);
  }

  /** `closing` is the end of the comment and what follows; `after` what is left of it. */
  lemma {:induction false} BlockNoteGoes(text: string, closing: string, after: string)
    requires forall i :: 0 <= i < |text| - 1 ==> !(text[i] == '*' && text[i + 1] == '/')
    requires Lex(BlockComment, closing) == after && Head(closing) == Some('*')
    ensures Lex(BlockComment, text + closing) == LineBreaks(text) + after
  {
    if text == "" {
      assert text + closing == closing;
    } else {
      var more := text[1..];
      assert Head(more + closing) == Some(if |text| > 1 then text[1] else '*');
      assert text + closing == [text[0]] + (more + closing);
      LexStep(BlockComment, text[0], more + closing);
      BlockNoteGoes(more, closing, after);
      Assoc(LineBreak(text[0]), LineBreaks(more), after);
    }
  }

  lemma {:induction false} LineBreaksCons(c: char, text: string)
    ensures LineBreaks([c] + text) == LineBreak(c) + LineBreaks(text)
  {
    assert ([c] + text)[1..] == text;
  }

  lemma EscapeIsEmptied(double: bool, c: char, rest: string)
    ensures Lex(Str(double), "\\" + ([c] + rest)) == LineBreak(c) + Lex(Str(double), rest)
  {
    LexStep(Str(double), '\\', [c] + rest);
    LexStep(StrEscape(double), c, rest);
  }

  lemma CharIsEmptied(double: bool, c: char, rest: string)
    requires c != '\\' && c != QuoteOf(double)
    ensures Lex(Str(double), [c] + rest) == LineBreak(c) + Lex(Str(double), rest)
  {
    LexStep(Str(double), c, rest);
  }

  lemma EscapeSplit(text: string, closing: string)
    requires |text| > 1 && text[0] == '\\'
    ensures text + closing == "\\" + ([text[1]] + (text[2..] + closing))
  {}

  lemma {:induction false} EscapeBreaks(text: string, after: string)
    requires |text| > 1 && text[0] == '\\'
    ensures LineBreaks(text) + after == LineBreak(text[1]) + (LineBreaks(text[2..]) + after)
  {
    assert text[1..][1..] == text[2..];
    Assoc(LineBreak(text[1]), LineBreaks(text[2..]), after);
  }

  lemma CharFront(double: bool, c: char, more: string, closing: string, after: string)
    requires Lex(Str(double), more + closing) == LineBreaks(more) + after && c != '\\' && c != QuoteOf(double)
    ensures Lex(Str(double), [c] + more + closing) == LineBreaks([c] + more) + after
  {
    CharIsEmptied(double, c, more + closing);
    Assoc([c], more, closing);
    LineBreaksCons(c, more);
    Assoc(LineBreak(c), LineBreaks(more), after);
  }

  /** `closing` is the quote and what follows; `after` what is left of it. */
  lemma {:induction false} QuotedIsEmptied(text: string, double: bool, closing: string, after: string)
    requires QuotedText(text, QuoteOf(double)) && Lex(Str(double), closing) == after
    ensures Lex(Str(double), text + closing) == LineBreaks(text) + after
    decreases |text|
  {
    if text == "" {
      assert text + closing == closing;
    } else if text[0] == '\\' {
      QuotedIsEmptied(text[2..], double, closing, after);
      EscapeIsEmptied(double, text[1], text[2..] + closing);
      EscapeSplit(text, closing);
      EscapeBreaks(text, after);
    } else {
      QuotedIsEmptied(text[1..], double, closing, after);
      CharFront(double, text[0], text[1..], closing, after);
      assert text == [text[0]] + text[1..];
    }
  }

  // ---- Template literals ----

  lemma {:induction false} PlainIsEmptied(text: string, rest: string)
    requires PartFits(Plain(text), rest)
    ensures Lex(Template, text + rest) == LineBreaks(text) + Lex(Template, rest)
  {
    if text == "" {
      assert text + rest == rest;
    } else {
      var more := text[1..];
      assert text + rest == [text[0]] + (more + rest);
      assert Head(more + rest) == if more == "" then Head(rest) else Some(text[1]);
      LexStep(Template, text[0], more + rest);
      assert NoBraceBehind(text, 0, rest);
      forall i | 0 <= i < |more|
        ensures more[i] != '\\' && more[i] != '`' && NoBraceBehind(more, i, rest)
      {
        assert more[i] == text[i + 1] && NoBraceBehind(text, i + 1, rest);
      }
      PlainIsEmptied(more, rest);
      Assoc(LineBreak(text[0]), LineBreaks(more), Lex(Template, rest));
    }
  }

  lemma EscapedGoes(c: char, rest: string)
    ensures Lex(Template, "\\" + [c] + rest) == Lex(Template, rest)
  {
    assert "\\" + [c] + rest == "\\" + ([c] + rest);
    LexStep(Template, '\\', [c] + rest);
    LexStep(TemplateEscape, c, rest);
  }

  /** `closing` is the brace that ends the code and what follows; `after` what is left of it. */
  lemma {:induction false} BracedStays(code: string, depth: nat, closing: string, after: string)
    requires Open(code, depth) == Some(0) && Lex(Interpolation(1), closing) == after
    ensures Lex(Interpolation(depth + 1), code + closing) == code + after
    decreases |code|
  {
    if code == "" {
      assert code + closing == closing && code + after == after;
    } else {
      var more := code[1..];
      var inner := if code[0] == '{' then depth + 1 else if code[0] == '}' then depth - 1 else depth;
      BracedStays(more, inner, closing, after);
      LexStep(Interpolation(depth + 1), code[0], more + closing);
      Front(code, closing);
      Front(code, after);
    }
  }

  lemma Front(text: string, rest: string)
    requires text != ""
    ensures text + rest == [text[0]] + (text[1..] + rest)
  {}

  lemma {:induction false} InterpolationStays(code: string, rest: string)
    requires Open(code, 0) == Some(0)
    ensures Lex(Template, "${" + code + "}" + rest) == "${" + code + "}" + Lex(Template, rest)
  {
    LexStep(Interpolation(1), '}', rest);
    BracedStays(code, 0, "}" + rest, "}" + Lex(Template, rest));
    Opened(code + ("}" + rest));
    Assoc("${" + code, "}", rest);
    Assoc("${", code, "}" + rest);
    Assoc("${" + code, "}", Lex(Template, rest));
    Assoc("${", code, "}" + Lex(Template, rest));
  }

  lemma Opened(inner: string)
    ensures Lex(Template, "${" + inner) == "${" + Lex(Interpolation(1), inner)
  {
    assert "${" + inner == "$" + ("{" + inner);
    LexStep(Template, '$', "{" + inner);
    LexStep(InterpolationOpen, '{', inner);
  }

  lemma {:induction false} PartLeft(part: Part, rest: string)
    requires PartFits(part, rest)
    ensures Lex(Template, RenderPart(part) + rest) == LeftOfPart(part) + Lex(Template, rest)
  {
    match part
    case Plain(text) => PlainIsEmptied(text, rest);
    case Escaped(c) => EscapedGoes(c, rest);
    case Braced(code) => InterpolationStays(code, rest);
  }

  lemma {:induction false} FitsBehind(part: Part, parts: seq<Part>, rest: string)
    requires PartFits(part, RenderParts(parts) + "`")
    ensures PartFits(part, RenderParts(parts) + ("`" + rest))
  {
    assert Head(RenderParts(parts) + "`") == Head(RenderParts(parts) + ("`" + rest));
    if part.Plain? {
      forall i | 0 <= i < |part.text| ensures NoBraceBehind(part.text, i, RenderParts(parts) + ("`" + rest)) {
        assert NoBraceBehind(part.text, i, RenderParts(parts) + "`");
      }
    }
  }

  lemma {:induction false} PartsLeft(parts: seq<Part>, rest: string)
    requires PartsFit(parts)
    ensures Lex(Template, RenderParts(parts) + ("`" + rest)) == LeftOfParts(parts) + ("`" + Lex(Code, rest))
  {
    var closing, after := "`" + rest, "`" + Lex(Code, rest);
    if parts == [] {
      assert RenderParts(parts) + closing == closing;
      LexStep(Template, '`', rest);
    } else {
      Assoc(RenderPart(parts[0]), RenderParts(parts[1..]), closing);
      FitsBehind(parts[0], parts[1..], rest);
      PartLeft(parts[0], RenderParts(parts[1..]) + closing);
      PartsLeft(parts[1..], rest);
      Assoc(LeftOfPart(parts[0]), LeftOfParts(parts[1..]), after);
    }
  }

  // ---- The whole text ----

  lemma LineNoteSplit(text: string, rest: string)
    ensures "//" + text + "\n" + rest == "/" + ("/" + (text + "\n" + rest))
  {}

  lemma {:induction false} LineNoteLeft(text: string, rest: string)
    requires '\n' !in text
    ensures Lex(Code, Render(LineNote(text)) + rest) == Left(LineNote(text)) + Lex(Code, rest)
  {
    var more := text + "\n" + rest;
    LineNoteSplit(text, rest);
    LexStep(Code, '/', "/" + more);
    LexStep(LineComment, '/', more);
    LineNoteGoes(text, rest);
  }

  lemma BlockNoteSplit(text: string, rest: string)
    ensures "/*" + text + "*/" + rest == "/" + ("*" + (text + ("*/" + rest)))
  {}

  lemma {:induction false} BlockNoteLeft(text: string, rest: string)
    requires Fits(BlockNote(text), rest)
    ensures Lex(Code, Render(BlockNote(text)) + rest) == Left(BlockNote(text)) + Lex(Code, rest)
  {
    var closing := "*/" + rest;
    BlockNoteSplit(text, rest);
    LexStep(Code, '/', "*" + (text + closing));
    LexStep(BlockOpen, '*', text + closing);
    BlockNoteEnds(rest);
    BlockNoteGoes(text, closing, Lex(Code, rest));
  }

  lemma {:induction false} QuotedLeft(double: bool, text: string, rest: string)
    requires QuotedText(text, QuoteOf(double))
    ensures Lex(Code, Render(Quoted(double, text)) + rest) == Left(Quoted(double, text)) + Lex(Code, rest)
  {
    var quote := [QuoteOf(double)];
    var closing, after := quote + rest, quote + Lex(Code, rest);
    LexStep(Str(double), QuoteOf(double), rest);
    QuotedIsEmptied(text, double, closing, after);
    LexStep(Code, QuoteOf(double), text + closing);
    Assoc(quote, text, quote);
    Assoc(quote, text + quote, rest);
    Assoc(text, quote, rest);
    Assoc(quote + LineBreaks(text), quote, Lex(Code, rest));
    Assoc(quote, LineBreaks(text), after);
  }

  lemma {:induction false} TemplatedLeft(parts: seq<Part>, rest: string)
    requires PartsFit(parts)
    ensures Lex(Code, Render(Templated(parts)) + rest) == Left(Templated(parts)) + Lex(Code, rest)
  {
    var inner, left := RenderParts(parts), LeftOfParts(parts);
    PartsLeft(parts, rest);
    LexStep(Code, '`', inner + ("`" + rest));
    Assoc("`" + inner, "`", rest);
    Assoc("`", inner, "`" + rest);
    Assoc("`" + left, "`", Lex(Code, rest));
    Assoc("`", left, "`" + Lex(Code, rest));
  }

  lemma {:induction false} PieceLeft(piece: Piece, rest: string)
    requires Fits(piece, rest)
    ensures Lex(Code, Render(piece) + rest) == Left(piece) + Lex(Code, rest)
  {
    match piece
    case CodeText(text) => CodeStays(text, rest);
    case Slash => LexStep(Code, '/', rest);
    case LineNote(text) => LineNoteLeft(text, rest);
    case BlockNote(text) => BlockNoteLeft(text, rest);
    case Quoted(double, text) => QuotedLeft(double, text, rest);
    case Templated(parts) => TemplatedLeft(parts, rest);
  }

  lemma {:induction false} PiecesLeft(pieces: seq<Piece>)
    requires AllFit(pieces)
    ensures Lex(Code, RenderAll(pieces)) == LeftOfAll(pieces)
  {
    if pieces != [] {
      PieceLeft(pieces[0], RenderAll(pieces[1..]));
      PiecesLeft(pieces[1..]);
    }
  }

  /** Of a text written as pieces the stripper leaves what is left of each: all code, and nothing else but the
      delimiters of literals, the braced code of templates, and newlines. */
  lemma {:induction false} StripsPieceByPiece(pieces: seq<Piece>)
    requires AllFit(pieces)
    ensures Stripped(RenderAll(pieces)) == LeftOfAll(pieces)
  {
    StrippedIsLex(RenderAll(pieces));
    PiecesLeft(pieces);
  }
}
