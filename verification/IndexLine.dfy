/** Index lines of the body archive: their JSON text, and why torn or merged lines never parse. */
module IndexLine {
  import Decimal

  datatype ArchiveEntry = ArchiveEntry(name: string, offset: nat, compressedLength: nat, size: nat, mtimeMs: nat)

  function HexDigit(d: nat): char
    requires d < 16
  {
    if d < 10 then '0' + d as char else 'a' + (d - 10) as char
  }

  function EscapeChar(c: char): string {
    if c == '\"' then "\\\""
    else if c == '\\' then "\\\\"
    else if c == '\n' then "\\n"
    else if c == '\r' then "\\r"
    else if c == '\t' then "\\t"
    else if c == '\U{8}' then "\\b"
    else if c == '\U{C}' then "\\f"
    else if c < ' ' then "\\u00" + [HexDigit(c as int / 16), HexDigit(c as int % 16)]
    else [c]
  }

  function Escape(s: string): string {
    if s == [] then [] else Escape(s[..|s| - 1]) + EscapeChar(s[|s| - 1])
  }

  const NAME_OPEN := "{\"n\":\""

  function NameText(name: string): string {
    NAME_OPEN + Escape(name) + "\""
  }

  function KeyText(c: char): string {
    [',', '\"', c, '\"', ':']
  }

  function WithField(before: string, c: char, n: nat): string {
    before + KeyText(c) + Decimal.Render(n)
  }

  /** The JSON text of an entry, without its newline. */
  function Encode(e: ArchiveEntry): string {
    var sized := WithField(WithField(NameText(e.name), 'o', e.offset), 'l', e.compressedLength);
    WithField(WithField(sized, 's', e.size), 'm', e.mtimeMs) + "}"
  }

  // ---- The text determines the entry ----

  /** No escaped character is the beginning of another. */
  lemma {:induction false} EscapesPrefixFree(a: char, b: char, restA: string, restB: string)
    requires EscapeChar(a) + restA == EscapeChar(b) + restB
    ensures a == b && restA == restB
  {
    var whole, eb := EscapeChar(a) + restA, EscapeChar(b);
    assert whole[0] == EscapeChar(a)[0] == eb[0];
    if |EscapeChar(a)| > 1 && |eb| > 1 {
      assert whole[1] == EscapeChar(a)[1] == eb[1];
      if |eb| == 6 && |EscapeChar(a)| == 6 {
        assert whole[4] == EscapeChar(a)[4] == eb[4] && whole[5] == EscapeChar(a)[5] == eb[5];
        HexInjective(a as int / 16, b as int / 16);
        HexInjective(a as int % 16, b as int % 16);
        assert a as int == 16 * (a as int / 16) + a as int % 16;
        assert b as int == 16 * (b as int / 16) + b as int % 16;
      }
    }
    assert a == b;
    assert restA == whole[|eb|..] == restB;
  }

  lemma HexInjective(a: nat, b: nat)
    requires a < 16 && b < 16 && HexDigit(a) == HexDigit(b)
    ensures a == b
  {}

  lemma {:induction false} EscapeFront(s: string)
    requires s != []
    ensures Escape(s) == EscapeChar(s[0]) + Escape(s[1..])
  {
    if |s| > 1 {
      EscapeFront(s[..|s| - 1]);
      assert s[..|s| - 1][1..] == s[1..][..|s| - 2];
    } else {
      assert s[..0] == [] && s[1..] == [];
    }
  }

  lemma {:induction false} EscapeHeads(a: string, b: string)
    requires a != [] && b != [] && Escape(a) == Escape(b)
    ensures a[0] == b[0] && Escape(a[1..]) == Escape(b[1..])
  {
    EscapeFront(a);
    EscapeFront(b);
    EscapesPrefixFree(a[0], b[0], Escape(a[1..]), Escape(b[1..]));
  }

  lemma EscapeEmpty(s: string)
    ensures Escape(s) == [] <==> s == []
  {}

  lemma {:induction false} EscapeInjective(a: string, b: string)
    requires Escape(a) == Escape(b)
    ensures a == b
  {
    EscapeEmpty(a);
    EscapeEmpty(b);
    if a != [] {
      EscapeHeads(a, b);
      EscapeInjective(a[1..], b[1..]);
      assert a == [a[0]] + a[1..] && b == [b[0]] + b[1..];
    }
  }

  lemma {:induction false} FieldLengths(a: string, b: string, c: char, m: nat, n: nat)
    requires WithField(a, c, m) == WithField(b, c, n)
    ensures |Decimal.Render(m)| <= |Decimal.Render(n)|
  {
    var whole, digits := WithField(a, c, m), |Decimal.Render(n)|;
    assert whole[|whole| - 1 - digits] == ':';
    forall i | |whole| - |Decimal.Render(m)| <= i < |whole| ensures whole[i] != ':' {
      assert whole[i] == Decimal.Render(m)[i - (|whole| - |Decimal.Render(m)|)];
    }
  }

  /** A number field ends where its digits begin, so it can be split off again. */
  lemma {:induction false} FieldInjective(a: string, b: string, c: char, m: nat, n: nat)
    requires WithField(a, c, m) == WithField(b, c, n)
    ensures a == b && m == n
  {
    FieldLengths(a, b, c, m, n);
    FieldLengths(b, a, c, n, m);
    var whole, digits := WithField(a, c, m), |Decimal.Render(n)|;
    assert Decimal.Render(m) == whole[|whole| - digits..] == Decimal.Render(n);
    Decimal.RenderInjective(m, n);
    assert a == whole[..|whole| - digits - 5] == b;
  }

  /** An index line determines its entry, whatever characters the name has. */
  lemma {:induction false} EncodeInjective(a: ArchiveEntry, b: ArchiveEntry)
    requires Encode(a) == Encode(b)
    ensures a == b
  {
    var a1, b1 := WithField(NameText(a.name), 'o', a.offset), WithField(NameText(b.name), 'o', b.offset);
    var a2, b2 := WithField(a1, 'l', a.compressedLength), WithField(b1, 'l', b.compressedLength);
    var a3, b3 := WithField(a2, 's', a.size), WithField(b2, 's', b.size);
    assert WithField(a3, 'm', a.mtimeMs) == Encode(a)[..|Encode(a)| - 1] == WithField(b3, 'm', b.mtimeMs);
    FieldInjective(a3, b3, 'm', a.mtimeMs, b.mtimeMs);
    FieldInjective(a2, b2, 's', a.size, b.size);
    FieldInjective(a1, b1, 'l', a.compressedLength, b.compressedLength);
    FieldInjective(NameText(a.name), NameText(b.name), 'o', a.offset, b.offset);
    NameInjective(a.name, b.name);
  }

  lemma {:induction false} NameInjective(a: string, b: string)
    requires NameText(a) == NameText(b)
    ensures a == b
  {
    assert Escape(a) == NameText(a)[|NAME_OPEN|..|NameText(a)| - 1] == Escape(b);
    EscapeInjective(a, b);
  }

  // ---- What every JSON object text looks like ----

  /** A scanner that only follows strings, escapes, braces and what may follow a string. */
  datatype Scan = Out(depth: nat) | Str(depth: nat) | Esc(depth: nat) | Closed(depth: nat) | End | Bad

  predicate Blank(c: char) {
    c == ' ' || c == '\t' || c == '\r'
  }

  function Next(st: Scan, c: char): Scan {
    match st
    case Bad => Bad
    case End => if Blank(c) then End else Bad
    case Str(d) => if c == '\\' then Esc(d) else if c == '\"' then Closed(d) else st
    case Esc(d) => Str(d)
    case Closed(d) =>
      if c == ',' || c == ':' || c == ']' || Blank(c) then Out(d)
      else if c == '}' then Close(d)
      else Bad
    case Out(d) =>
      if c == '{' then Out(d + 1)
      else if d == 0 then Bad
      else if c == '\"' then Str(d)
      else if c == '}' then Close(d)
      else st
  }

  function Close(d: nat): Scan {
    if d == 1 then End else if d == 0 then Bad else Out(d - 1)
  }

  function ScanFrom(st: Scan, s: string): Scan {
    if s == [] then st else Next(ScanFrom(st, s[..|s| - 1]), s[|s| - 1])
  }

  /** Necessary for `line` to be a complete JSON object. */
  predicate ObjectShaped(line: string) {
    ScanFrom(Out(0), line) == End
  }

  lemma {:induction false} ScanAppend(st: Scan, a: string, b: string)
    ensures ScanFrom(st, a + b) == ScanFrom(ScanFrom(st, a), b)
  {
    if b == [] {
      assert a + b == a;
    } else {
      assert (a + b)[..|a + b| - 1] == a + b[..|b| - 1];
      ScanAppend(st, a, b[..|b| - 1]);
    }
  }

  lemma {:induction false} ScanDigits(s: string)
    requires forall i :: 0 <= i < |s| ==> '0' <= s[i] <= '9'
    ensures ScanFrom(Out(1), s) == Out(1)
  {
    if s != [] { ScanDigits(s[..|s| - 1]); }
  }

  lemma {:induction false} ScanPlain(s: string)
    requires forall i :: 0 <= i < |s| ==> s[i] != '\\' && s[i] != '\"'
    ensures ScanFrom(Str(1), s) == Str(1)
  {
    if s != [] { ScanPlain(s[..|s| - 1]); }
  }

  lemma {:induction false} ScanEscaped(c: char)
    ensures ScanFrom(Str(1), EscapeChar(c)) == Str(1)
    ensures '\n' !in EscapeChar(c)
  {
    var s := EscapeChar(c);
    if |s| == 1 {
      ScanPlain(s);
    } else if |s| == 2 {
      ScanAppend(Str(1), s[..1], s[1..]);
      assert s == s[..1] + s[1..];
    } else {
      assert s == "\\u" + s[2..];
      ScanAppend(Str(1), "\\u", s[2..]);
      ScanPlain(s[2..]);
    }
  }

  lemma {:induction false} ScanName(s: string)
    ensures ScanFrom(Str(1), Escape(s)) == Str(1)
    ensures '\n' !in Escape(s)
  {
    if s != [] {
      ScanName(s[..|s| - 1]);
      ScanEscaped(s[|s| - 1]);
      ScanAppend(Str(1), Escape(s[..|s| - 1]), EscapeChar(s[|s| - 1]));
    }
  }

  lemma {:induction false} ScanFront(st: Scan, s: string)
    requires s != []
    ensures ScanFrom(st, s) == ScanFrom(Next(st, s[0]), s[1..])
  {
    assert s == [s[0]] + s[1..] && [s[0]][..0] == [];
    ScanAppend(st, [s[0]], s[1..]);
  }

  lemma {:induction false} ScanNameOpen()
    ensures ScanFrom(Out(0), NAME_OPEN) == Str(1)
  {
    var s := NAME_OPEN;
    ScanFront(Out(0), s);
    ScanFront(Out(1), s[1..]);
    ScanFront(Str(1), s[1..][1..]);
    ScanFront(Str(1), s[1..][1..][1..]);
    ScanFront(Closed(1), s[1..][1..][1..][1..]);
    ScanFront(Out(1), s[1..][1..][1..][1..][1..]);
  }

  lemma {:induction false} ScanNameText(name: string)
    ensures ScanFrom(Out(0), NameText(name)) == Closed(1)
    ensures '\n' !in NameText(name) && NameText(name)[..3] == "{\"n"
  {
    ScanNameOpen();
    ScanName(name);
    ScanAppend(Out(0), NAME_OPEN, Escape(name));
    ScanFront(Str(1), "\"");
    ScanAppend(Out(0), NAME_OPEN + Escape(name), "\"");
    assert NameText(name)[..3] == NAME_OPEN[..3];
  }

  lemma {:induction false} ScanKeyText(st: Scan, c: char)
    requires st == Closed(1) || st == Out(1)
    requires 'a' <= c <= 'z'
    ensures ScanFrom(st, KeyText(c)) == Out(1)
  {
    var s := KeyText(c);
    ScanFront(st, s);
    ScanFront(Out(1), s[1..]);
    ScanFront(Str(1), s[1..][1..]);
    ScanFront(Str(1), s[1..][1..][1..]);
    ScanFront(Closed(1), s[1..][1..][1..][1..]);
  }

  lemma {:induction false} FieldText(before: string, c: char, n: nat)
    requires '\n' !in before && 'a' <= c <= 'z' && |before| >= 3
    ensures '\n' !in WithField(before, c, n)
    ensures |WithField(before, c, n)| >= 3 && WithField(before, c, n)[..3] == before[..3]
  {
    assert forall x :: x in WithField(before, c, n) ==> x in before || x in KeyText(c) || x in Decimal.Render(n);
  }

  /** A number field after a string or another number leaves the scanner inside the object. */
  lemma {:induction false} ScanField(before: string, c: char, n: nat)
    requires ScanFrom(Out(0), before) == Closed(1) || ScanFrom(Out(0), before) == Out(1)
    requires '\n' !in before && 'a' <= c <= 'z' && |before| >= 3
    ensures ScanFrom(Out(0), WithField(before, c, n)) == Out(1)
    ensures '\n' !in WithField(before, c, n)
    ensures |WithField(before, c, n)| >= 3 && WithField(before, c, n)[..3] == before[..3]
  {
    FieldText(before, c, n);
    ScanKeyText(ScanFrom(Out(0), before), c);
    ScanAppend(Out(0), before, KeyText(c));
    ScanAppend(Out(0), before + KeyText(c), Decimal.Render(n));
    ScanDigits(Decimal.Render(n));
  }

  /** The text of an entry is object-shaped, holds no newline, and opens with its name field. */
  lemma {:induction false} EncodeShape(e: ArchiveEntry)
    ensures ObjectShaped(Encode(e)) && '\n' !in Encode(e)
    ensures |Encode(e)| > 3 && Encode(e)[..3] == "{\"n" && Encode(e)[|Encode(e)| - 1] == '}'
  {
    ScanNameText(e.name);
    ScanField(NameText(e.name), 'o', e.offset);
    var s1 := WithField(NameText(e.name), 'o', e.offset);
    ScanField(s1, 'l', e.compressedLength);
    var s2 := WithField(s1, 'l', e.compressedLength);
    ScanField(s2, 's', e.size);
    var s3 := WithField(s2, 's', e.size);
    ScanField(s3, 'm', e.mtimeMs);
    var s4 := WithField(s3, 'm', e.mtimeMs);
    ScanFront(Out(1), "}");
    ScanAppend(Out(0), s4, "}");
    assert (s4 + "}")[..3] == s4[..3];
  }

  // ---- Torn and merged lines ----

  /** Some object or string is still open, or the text is already malformed. */
  predicate Unfinished(st: Scan) {
    st.Bad? || (!st.End? && st.depth > 0)
  }

  lemma {:induction false} AfterEnd(s: string)
    requires s != [] && !Blank(s[|s| - 1])
    ensures ScanFrom(End, s) == Bad
  {
    EndOrBad(s[..|s| - 1]);
  }

  lemma {:induction false} EndOrBad(s: string)
    ensures ScanFrom(End, s) == End || ScanFrom(End, s) == Bad
  {
    if s != [] { EndOrBad(s[..|s| - 1]); }
  }

  lemma {:induction false} StaysBad(s: string)
    ensures ScanFrom(Bad, s) == Bad
  {
    if s != [] { StaysBad(s[..|s| - 1]); }
  }

  lemma {:induction false} EndOrUnfinished(s: string, st: Scan)
    requires st.End? || Unfinished(st) || (st == Out(0) && s != [])
    ensures ScanFrom(st, s) == End || Unfinished(ScanFrom(st, s))
  {
    if |s| > 1 {
      EndOrUnfinished(s[..|s| - 1], st);
    } else if |s| == 1 {
      assert s[..0] == [];
    }
  }

  lemma {:induction false} PrefixNotEnded(st: Scan, text: string, k: nat)
    requires k < |text| && ScanFrom(st, text) == End && !Blank(text[|text| - 1])
    ensures ScanFrom(st, text[..k]) != End
  {
    ScanAppend(st, text[..k], text[k..]);
    assert text == text[..k] + text[k..];
    if ScanFrom(st, text[..k]) == End { AfterEnd(text[k..]); }
  }

  /** A proper prefix of an entry's text is unfinished. */
  lemma {:induction false} PrefixUnfinished(e: ArchiveEntry, k: nat)
    requires 0 < k < |Encode(e)|
    ensures Unfinished(ScanFrom(Out(0), Encode(e)[..k]))
  {
    EncodeShape(e);
    PrefixNotEnded(Out(0), Encode(e), k);
    EndOrUnfinished(Encode(e)[..k], Out(0));
  }

  function Deeper(st: Scan, d: nat): Scan {
    match st
    case Out(x) => Out(x + d)
    case Str(x) => Str(x + d)
    case Esc(x) => Esc(x + d)
    case Closed(x) => Closed(x + d)
    case End => Out(d)
    case Bad => Bad
  }

  lemma DeeperStep(st: Scan, c: char, d: nat)
    requires Unfinished(st) && d > 0
    ensures Next(Deeper(st, d), c) == Deeper(Next(st, c), d)
  {}

  /** Inside an open object, an entry's text only nests deeper. */
  lemma {:induction false} NestedScan(e: ArchiveEntry, k: nat, d: nat)
    requires k <= |Encode(e)| && d > 0
    ensures ScanFrom(Out(d), Encode(e)[..k]) == Deeper(ScanFrom(Out(0), Encode(e)[..k]), d)
  {
    if k > 0 {
      EncodeShape(e);
      assert Encode(e)[..k][..k - 1] == Encode(e)[..k - 1];
      NestedScan(e, k - 1, d);
      if k == 1 {
        assert Encode(e)[0] == Encode(e)[..3][0] == '{';
      } else {
        PrefixUnfinished(e, k - 1);
        DeeperStep(ScanFrom(Out(0), Encode(e)[..k - 1]), Encode(e)[k - 1], d);
      }
    }
  }

  /** Behind a string or a finished object, the opening of an entry is malformed from its third character on. */
  lemma {:induction false} GluedHead(st: Scan)
    requires !st.Out?
    ensures ScanFrom(st, "{") != End && ScanFrom(st, "{\"") != End && ScanFrom(st, "{\"n") == Bad
  {
    assert "{"[..0] == [] && "{\""[..1] == "{" && "{\"n"[..2] == "{\"";
    assert ScanFrom(st, "{") == Next(st, '{') && ScanFrom(st, "{\"") == Next(Next(st, '{'), '\"');
  }

  lemma {:induction false} GluedWhole(st: Scan, text: string)
    requires !st.Out? && |text| >= 3 && text[..3] == "{\"n"
    ensures ScanFrom(st, text) == Bad
  {
    GluedHead(st);
    ScanAppend(st, text[..3], text[3..]);
    assert text == text[..3] + text[3..];
    StaysBad(text[3..]);
  }

  lemma {:induction false} GluedOutsideObject(st: Scan, e: ArchiveEntry, k: nat)
    requires !st.Out? && 0 < k <= |Encode(e)|
    ensures ScanFrom(st, Encode(e)[..k]) != End
  {
    EncodeShape(e);
    var text := Encode(e)[..k];
    if k >= 3 {
      assert text[..3] == Encode(e)[..3];
      GluedWhole(st, text);
    } else {
      GluedHead(st);
      assert text == Encode(e)[..3][..k] == "{\"n"[..k];
      assert "{\"n"[..1] == "{" && "{\"n"[..2] == "{\"";
    }
  }

  /** Whatever unfinished or finished text a fragment of a new entry is glued to, the result is not a
      complete object. */
  lemma {:induction false} GluedFragmentUnfinished(st: Scan, e: ArchiveEntry, k: nat)
    requires (st.End? || Unfinished(st)) && 0 < k <= |Encode(e)|
    ensures Unfinished(ScanFrom(st, Encode(e)[..k]))
  {
    EndOrUnfinished(Encode(e)[..k], st);
    if st.Out? {
      EncodeShape(e);
      NestedScan(e, k, st.depth);
    } else {
      GluedOutsideObject(st, e, k);
    }
  }
}
