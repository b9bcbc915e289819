/** The comment and string stripper of the mirror check, against a character-by-character lexer. */
module StripSource {
  import opened Wrappers

  // ---- The lexer ----

  /** What the next character belongs to. */
  datatype Mode =
    | Code
    | LineComment
    | BlockOpen | BlockComment | BlockClose
    | Str(double: bool) | StrEscape(double: bool)
    | Template | TemplateEscape
    | InterpolationOpen | Interpolation(depth: nat)

  function QuoteOf(double: bool): char {
    if double then '\"' else '\''
  }

  function CharAt(src: string, i: nat): Option<char> {
    if i < |src| then Some(src[i]) else None
  }

  /** The mode after reading `c`, with one character of lookahead. */
  function NextMode(mode: Mode, c: char, next: Option<char>): Mode {
    match mode
    case Code =>
      if c == '/' && next == Some('/') then LineComment
      else if c == '/' && next == Some('*') then BlockOpen
      else if c == '\'' || c == '\"' then Str(c == '\"')
      else if c == '`' then Template
      else Code
    case LineComment => if c == '\n' then Code else LineComment
    case BlockOpen => BlockComment
    case BlockComment => if c == '*' && next == Some('/') then BlockClose else BlockComment
    case BlockClose => Code
    case Str(d) => if c == QuoteOf(d) then Code else if c == '\\' then StrEscape(d) else mode
    case StrEscape(d) => Str(d)
    case Template =>
      if c == '\\' then TemplateEscape
      else if c == '`' then Code
      else if c == '$' && next == Some('{') then InterpolationOpen
      else Template
    case TemplateEscape => Template
    case InterpolationOpen => Interpolation(1)
    case Interpolation(d) =>
      if c == '{' then Interpolation(d + 1)
      else if c == '}' then (if d <= 1 then Template else Interpolation(d - 1))
      else mode
  }

  function KeepNewline(c: char): string {
    if c == '\n' then "\n" else ""
  }

  /** What reading `c` leaves in the output. */
  function Emit(mode: Mode, c: char, next: Option<char>): string {
    match mode
    case Code => if c == '/' && (next == Some('/') || next == Some('*')) then "" else [c]
    case LineComment => KeepNewline(c)
    case BlockOpen => ""
    case BlockComment => KeepNewline(c)
    case BlockClose => ""
    case Str(d) => if c == QuoteOf(d) then [c] else KeepNewline(c)
    case StrEscape(_) => KeepNewline(c)
    case Template => if c == '`' then "`" else if c == '$' && next == Some('{') then "${" else KeepNewline(c)
    case TemplateEscape => ""
    case InterpolationOpen => ""
    case Interpolation(_) => [c]
  }

  /** What the end of the input adds: the closing delimiter of an open string or interpolation. */
  function Finish(mode: Mode): string {
    match mode
    case Str(d) => [QuoteOf(d)]
    case StrEscape(d) => [QuoteOf(d)]
    case Interpolation(_) => "}"
    case _ => ""
  }

  function ModeAt(src: string, i: nat): Mode
    requires i <= |src|
  {
    if i == 0 then Code else NextMode(ModeAt(src, i - 1), src[i - 1], CharAt(src, i))
  }

  function OutAt(src: string, i: nat): string
    requires i <= |src|
  {
    if i == 0 then "" else OutAt(src, i - 1) + Emit(ModeAt(src, i - 1), src[i - 1], CharAt(src, i))
  }

  function Stripped(src: string): string {
    OutAt(src, |src|) + Finish(ModeAt(src, |src|))
  }

  /** Two-character delimiters are always followed by their second character. */
  lemma DelimitersComplete(src: string, i: nat)
    requires i <= |src|
    ensures ModeAt(src, i).BlockOpen? ==> i < |src| && src[i] == '*'
    ensures ModeAt(src, i).BlockClose? ==> i < |src| && src[i] == '/'
    ensures ModeAt(src, i).InterpolationOpen? ==> i < |src| && src[i] == '{'
  {}

  // ---- The outer scan ----

  /** The outer scan has come to `i`: to code, or to the newline that ends a line comment. */
  ghost predicate ScannedTo(src: string, i: nat, out: string) {
    if i < |src| then out == OutAt(src, i) && (ModeAt(src, i).Code? || (ModeAt(src, i).LineComment? && src[i] == '\n'))
    else out == Stripped(src)
  }

  // ---- Plain strings ----

  /** Scanning a plain string has come to `i`; behind an escape at the very end it steps past the input. */
  ghost predicate StringAt(src: string, i: nat, double: bool, out: string) {
    if i <= |src| then ModeAt(src, i) == Str(double) && out == OutAt(src, i)
    else ModeAt(src, |src|) == StrEscape(double) && out == OutAt(src, |src|)
  }

  /** One round of the loop: `j` is the character read, behind the backslash if there is one. */
  lemma StringRound(src: string, i: nat, j: nat, double: bool, before: string, out: string)
    requires i < |src| && StringAt(src, i, double, before) && src[i] != QuoteOf(double)
    requires j == if src[i] == '\\' then i + 1 else i
    requires out == if j < |src| && src[j] == '\n' then before + "\n" else before
    ensures StringAt(src, j + 1, double, out)
  {
    assert out == before + if j < |src| then KeepNewline(src[j]) else "";
    if src[i] == '\\' {
      assert ModeAt(src, i + 1) == StrEscape(double) && OutAt(src, i + 1) == OutAt(src, i) + "";
    }
  }

  lemma StringEnd(src: string, i: nat, double: bool, out: string)
    requires StringAt(src, i, double, out) && (i < |src| ==> src[i] == QuoteOf(double))
    ensures ScannedTo(src, i + 1, out + [QuoteOf(double)])
  {}

  /** Scans a plain string from behind its opening quote; returns where scanning goes on. */
  method SkipString(src: string, start: nat, double: bool, before: string) returns (i: nat, out: string)
    requires start <= |src| && ModeAt(src, start) == Str(double) && before == OutAt(src, start)
    ensures i > start && ScannedTo(src, i, out)
  {
    i, out := start, before;
    var n := |src|;
    while i < n && src[i] != QuoteOf(double)
      invariant start <= i && StringAt(src, i, double, out)
    {
      ghost var was, text := i, out;
      if src[i] == '\\' {
        i := i + 1;
      }
      if i < n && src[i] == '\n' {
        out := out + "\n";
      }
      StringRound(src, was, i, double, text, out);
      i := i + 1;
    }
    StringEnd(src, i, double, out);
    out := out + [QuoteOf(double)];
    i := i + 1;
  }

  // ---- Template literals ----

  /** Scanning a template literal has come to `i`, and is `done` behind the closing backtick. */
  ghost predicate TemplateAt(src: string, i: nat, out: string, done: bool) {
    if done then ScannedTo(src, i, out)
    else if i < |src| then ModeAt(src, i).Template? && out == OutAt(src, i)
    else out == Stripped(src)
  }

  predicate OpensInterpolation(src: string, i: nat) {
    i + 1 < |src| && src[i] == '$' && src[i + 1] == '{'
  }

  lemma TemplateEscaped(src: string, i: nat, out: string)
    requires i < |src| && TemplateAt(src, i, out, false) && src[i] == '\\'
    ensures TemplateAt(src, i + 2, out, false)
  {
    assert ModeAt(src, i + 1).TemplateEscape? && OutAt(src, i + 1) == OutAt(src, i) + "";
  }

  lemma TemplateClosed(src: string, i: nat, out: string)
    requires i < |src| && TemplateAt(src, i, out, false) && src[i] == '`'
    ensures TemplateAt(src, i + 1, out + "`", true)
  {}

  lemma TemplateOpens(src: string, i: nat, out: string)
    requires TemplateAt(src, i, out, false) && OpensInterpolation(src, i)
    ensures ModeAt(src, i + 2) == Interpolation(1) && out + "${" == OutAt(src, i + 2)
  {
    assert ModeAt(src, i + 1).InterpolationOpen? && OutAt(src, i + 1) == OutAt(src, i) + "${";
  }

  lemma TemplateStep(src: string, i: nat, out: string)
    requires i < |src| && TemplateAt(src, i, out, false)
    requires src[i] != '\\' && src[i] != '`' && !OpensInterpolation(src, i)
    ensures TemplateAt(src, i + 1, out + KeepNewline(src[i]), false)
  {}

  /** Scans one interpolation from behind its opening brace. */
  method CopyInterpolation(src: string, start: nat, before: string) returns (i: nat, out: string)
    requires start <= |src| && ModeAt(src, start) == Interpolation(1) && before == OutAt(src, start)
    ensures start <= i <= |src|
    ensures i < |src| ==> ModeAt(src, i).Template? && out == OutAt(src, i)
    ensures i == |src| ==> out == Stripped(src)
  {
    i, out := start, before;
    var depth := 1;
    while i < |src| && depth > 0
      invariant start <= i <= |src|
      invariant depth > 0 ==> ModeAt(src, i) == Interpolation(depth) && out == OutAt(src, i)
      invariant depth == 0 ==> ModeAt(src, i) == Template && out + "}" == OutAt(src, i)
      invariant depth >= 0
    {
      if src[i] == '{' {
        depth := depth + 1;
      } else if src[i] == '}' {
        depth := depth - 1;
      }
      if depth > 0 {
        out := out + [src[i]];
      }
      i := i + 1;
    }
    out := out + "}";
  }

  /** Scans a template literal from behind its opening backtick. */
  method SkipTemplate(src: string, start: nat, before: string) returns (i: nat, out: string)
    requires start <= |src| && ModeAt(src, start) == Template && before == OutAt(src, start)
    ensures i >= start && ScannedTo(src, i, out)
  {
    i, out := start, before;
    var n, done := |src|, false;
    while i < n && !done
      invariant start <= i && TemplateAt(src, i, out, done)
      decreases n - i, !done
    {
      if src[i] == '\\' {
        TemplateEscaped(src, i, out);
        i := i + 2;
        continue;
      }
      if src[i] == '`' {
        TemplateClosed(src, i, out);
        out := out + "`";
        i := i + 1;
        done := true;
        continue;
      }
      if src[i] == '$' && i + 1 < n && src[i + 1] == '{' {
        TemplateOpens(src, i, out);
        i, out := CopyInterpolation(src, i + 2, out + "${");
        continue;
      }
      TemplateStep(src, i, out);
      if src[i] == '\n' {
        out := out + "\n";
      }
      i := i + 1;
    }
  }

  // ---- Comments and code ----

  lemma BlockOpens(src: string, i: nat)
    requires i + 1 < |src| && src[i] == '/' && src[i + 1] == '*' && ModeAt(src, i).Code?
    ensures ModeAt(src, i + 2).BlockComment? && OutAt(src, i + 2) == OutAt(src, i)
  {
    assert ModeAt(src, i + 1).BlockOpen? && OutAt(src, i + 1) == OutAt(src, i) + "";
  }

  predicate ClosesBlock(src: string, i: nat) {
    i + 1 < |src| && src[i] == '*' && src[i + 1] == '/'
  }

  lemma BlockStep(src: string, i: nat)
    requires i < |src| && ModeAt(src, i).BlockComment? && !ClosesBlock(src, i)
    ensures ModeAt(src, i + 1).BlockComment? && OutAt(src, i + 1) == OutAt(src, i) + KeepNewline(src[i])
  {}

  lemma BlockCloses(src: string, i: nat)
    requires ClosesBlock(src, i) && ModeAt(src, i).BlockComment?
    ensures ScannedTo(src, i + 2, OutAt(src, i))
  {
    assert ModeAt(src, i + 1).BlockClose? && OutAt(src, i + 1) == OutAt(src, i) + "";
  }

  /** Scans a block comment from its opening slash; `i` may end up behind the input. */
  method SkipBlockComment(src: string, start: nat, before: string) returns (i: nat, out: string)
    requires start + 1 < |src| && src[start] == '/' && src[start + 1] == '*'
    requires ModeAt(src, start).Code? && before == OutAt(src, start)
    ensures i > start && ScannedTo(src, i, out)
  {
    i, out := start + 2, before;
    var n := |src|;
    BlockOpens(src, start);
    while i < n && !(src[i] == '*' && i + 1 < n && src[i + 1] == '/')
      invariant start + 2 <= i <= n && ModeAt(src, i).BlockComment? && out == OutAt(src, i)
    {
      BlockStep(src, i);
      if src[i] == '\n' {
        out := out + "\n";
      }
      i := i + 1;
    }
    if i < n { BlockCloses(src, i); }
    i := i + 2;
  }

  lemma LineCommentOpens(src: string, i: nat)
    requires i + 1 < |src| && src[i] == '/' && src[i + 1] == '/' && ModeAt(src, i).Code?
    ensures ModeAt(src, i + 1).LineComment? && OutAt(src, i + 1) == OutAt(src, i)
  {}

  lemma LineCommentStep(src: string, i: nat)
    requires i < |src| && ModeAt(src, i).LineComment?
    ensures OutAt(src, i + 1) == OutAt(src, i) + KeepNewline(src[i])
    ensures if src[i] == '\n' then ModeAt(src, i + 1).Code? else ModeAt(src, i + 1).LineComment?
  {}

  /** Runs over a line comment from its first slash up to the newline, which is not consumed. */
  method SkipLineComment(src: string, start: nat) returns (i: nat)
    requires start + 1 < |src| && src[start] == '/' && src[start + 1] == '/' && ModeAt(src, start).Code?
    ensures start < i && ScannedTo(src, i, OutAt(src, start))
  {
    i := start;
    LineCommentOpens(src, start);
    while i < |src| && src[i] != '\n'
      invariant start <= i <= |src| && OutAt(src, i) == OutAt(src, start)
      invariant if i == start then ModeAt(src, i).Code? else ModeAt(src, i).LineComment?
    {
      if i > start { LineCommentStep(src, i); }
      i := i + 1;
    }
  }

  lemma OpensQuote(src: string, i: nat, out: string)
    requires i < |src| && ScannedTo(src, i, out) && (src[i] == '\'' || src[i] == '\"')
    ensures ModeAt(src, i + 1) == Str(src[i] == '\"') && OutAt(src, i + 1) == out + [src[i]]
  {}

  lemma OpensTemplate(src: string, i: nat, out: string)
    requires i < |src| && ScannedTo(src, i, out) && src[i] == '`'
    ensures ModeAt(src, i + 1).Template? && OutAt(src, i + 1) == out + "`"
  {}

  lemma PlainStep(src: string, i: nat, out: string)
    requires i < |src| && ScannedTo(src, i, out) && src[i] != '\'' && src[i] != '\"' && src[i] != '`'
    requires !(src[i] == '/' && i + 1 < |src| && (src[i + 1] == '/' || src[i + 1] == '*'))
    ensures ScannedTo(src, i + 1, out + [src[i]])
  {
    if ModeAt(src, i).LineComment? { LineCommentStep(src, i); }
  }

  method StripCommentsAndStrings(src: string) returns (out: string)
    ensures out == Stripped(src)
  {
    out := "";
    var i, n := 0, |src|;
    while i < n
      invariant ScannedTo(src, i, out)
    {
      var c := src[i];
      if c == '/' && i + 1 < n && src[i + 1] == '/' {
        i := SkipLineComment(src, i);
        continue;
      }
      if c == '/' && i + 1 < n && src[i + 1] == '*' {
        i, out := SkipBlockComment(src, i, out);
        continue;
      }
      if c == '\'' || c == '\"' {
        OpensQuote(src, i, out);
        i, out := SkipString(src, i + 1, c == '\"', out + [c]);
        continue;
      }
      if c == '`' {
        OpensTemplate(src, i, out);
        i, out := SkipTemplate(src, i + 1, out + "`");
        continue;
      }
      PlainStep(src, i, out);
      out := out + [c];
      i := i + 1;
    }
  }

  // ---- Line structure ----

  function Newlines(s: string): nat {
    if s == [] then 0 else Newlines(s[..|s| - 1]) + if s[|s| - 1] == '\n' then 1 else 0
  }

  /** Newlines swallowed as the second character of an escape in a template body. */
  function SwallowedNewlines(src: string, i: nat): nat
    requires i <= |src|
  {
    if i == 0 then 0
    else SwallowedNewlines(src, i - 1) + if ModeAt(src, i - 1).TemplateEscape? && src[i - 1] == '\n' then 1 else 0
  }

  lemma {:induction false} NewlinesAppend(a: string, b: string)
    ensures Newlines(a + b) == Newlines(a) + Newlines(b)
  {
    if b == [] {
      assert a + b == a;
    } else {
      assert (a + b)[..|a + b| - 1] == a + b[..|b| - 1];
      NewlinesAppend(a, b[..|b| - 1]);
    }
  }

  lemma {:induction false} NewlinesEmitted(mode: Mode, c: char, next: Option<char>)
    ensures Newlines(Emit(mode, c, next)) ==
      if c == '\n' && !mode.TemplateEscape? && !mode.BlockOpen? && !mode.BlockClose? && !mode.InterpolationOpen? then 1
      else 0
  {
    var e := Emit(mode, c, next);
    if |e| == 1 {
      assert e[..0] == [];
    } else if |e| == 2 {
      assert e == "${" && e[..1] == "$" && e[..1][..0] == [];
      NewlinesAppend("$", "{");
      assert "$" + "{" == "${" && "$"[..0] == [] && "{"[..0] == [];
    }
  }

  /** Up to any position the output has the newlines of the input, less the swallowed ones, so the line
      number of everything kept is exact wherever nothing was swallowed. */
  lemma {:induction false} NewlinesKept(src: string, i: nat)
    requires i <= |src|
    ensures Newlines(OutAt(src, i)) + SwallowedNewlines(src, i) == Newlines(src[..i])
  {
    if i > 0 {
      NewlinesKept(src, i - 1);
      var mode, c, next := ModeAt(src, i - 1), src[i - 1], CharAt(src, i);
      DelimitersComplete(src, i - 1);
      NewlinesEmitted(mode, c, next);
      NewlinesAppend(OutAt(src, i - 1), Emit(mode, c, next));
      assert src[..i][..i - 1] == src[..i - 1];
    }
  }

  /** The newline count of the whole output. */
  lemma {:induction false} StrippedNewlines(src: string)
    ensures Newlines(Stripped(src)) + SwallowedNewlines(src, |src|) == Newlines(src)
  {
    NewlinesKept(src, |src|);
    assert src[..|src|] == src;
    var tail := Finish(ModeAt(src, |src|));
    NewlinesAppend(OutAt(src, |src|), tail);
    if tail != [] { assert tail[..0] == []; }
  }

  /** A swallowed newline always stands right behind a backslash. */
  lemma {:induction false} NoContinuationNothingSwallowed(src: string, i: nat)
    requires i <= |src|
    requires forall j :: 0 <= j < |src| - 1 ==> !(src[j] == '\\' && src[j + 1] == '\n')
    ensures SwallowedNewlines(src, i) == 0
  {
    if i > 0 {
      NoContinuationNothingSwallowed(src, i - 1);
      if ModeAt(src, i - 1).TemplateEscape? {
        assert i >= 2 && src[i - 2] == '\\';
      }
    }
  }

  /** Line numbers are exact for every source without a backslash-newline pair. */
  lemma {:induction false} LineNumbersExact(src: string)
    requires forall j :: 0 <= j < |src| - 1 ==> !(src[j] == '\\' && src[j + 1] == '\n')
    ensures Newlines(Stripped(src)) == Newlines(src)
  {
    NoContinuationNothingSwallowed(src, |src|);
    StrippedNewlines(src);
  }

  /** One source that loses a line: a template literal holding a backslash and a newline. */
  lemma ContinuationLosesLine()
    ensures var src := "`\\\n`"; Newlines(src) == 1 && Stripped(src) == "``" && Newlines(Stripped(src)) == 0
  {
    var src := "`\\\n`";
    assert |src| == 4 && src[0] == '`' && src[1] == '\\' && src[2] == '\n' && src[3] == '`';
    assert ModeAt(src, 1).Template? && OutAt(src, 1) == "`";
    assert ModeAt(src, 2).TemplateEscape? && OutAt(src, 2) == "`";
    assert ModeAt(src, 3).Template? && OutAt(src, 3) == "`";
    assert ModeAt(src, 4).Code? && OutAt(src, 4) == "``";
    var three, two, one := src[..3], src[..2], src[..1];
    assert three[..2] == two && two[..1] == one && one[..0] == [];
    assert Newlines(one) == 0 && Newlines(two) == 0 && Newlines(three) == 1;
    assert "``"[..1] == "`" && "`"[..0] == [];
  }
}
