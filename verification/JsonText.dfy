/** Reading an index line back: JSON strings and numbers as RFC 8259 defines them (sections 6 and 7). */
module JsonText {
  import opened Wrappers
  import opened IndexLine
  import Decimal

  // ---- Numbers ----

  /** The number a text of decimal digits stands for. */
  function ReadDigits(s: string): Option<nat> {
    if s == "" then Some(0)
    else
      var c, front := s[|s| - 1], ReadDigits(s[..|s| - 1]);
      if front.None? || c < '0' || c > '9' then None else Some(10 * front.value + (c - '0') as nat)
  }

  lemma {:induction false} NumbersReadBack(n: nat)
    ensures ReadDigits(Decimal.Render(n)) == Some(n) && Decimal.Render(n) != ""
    ensures |Decimal.Render(n)| > 1 ==> Decimal.Render(n)[0] != '0'
    decreases n
  {
    var s := Decimal.Render(n);
    if n >= 10 {
      NumbersReadBack(n / 10);
      assert s[..|s| - 1] == Decimal.Render(n / 10);
      FirstDigit(n / 10);
    } else {
      assert s[..|s| - 1] == "";
    }
  }

  lemma {:induction false} FirstDigit(n: nat)
    requires n > 0
    ensures Decimal.Render(n)[0] != '0'
    decreases n
  {
    if n >= 10 { FirstDigit(n / 10); }
  }

  // ---- Strings ----

  function HexValue(c: char): Option<nat> {
    if '0' <= c <= '9' then Some((c - '0') as nat)
    else if 'a' <= c <= 'f' then Some((c - 'a') as nat + 10)
    else if 'A' <= c <= 'F' then Some((c - 'A') as nat + 10)
    else None
  }

  /** What the character behind a backslash stands for, `u` aside. */
  function ShortEscape(c: char): Option<char> {
    match c
    case '\"' => Some('\"')
    case '\\' => Some('\\')
    case '/' => Some('/')
    case 'b' => Some('\U{8}')
    case 'f' => Some('\U{C}')
    case 'n' => Some('\U{A}')
    case 'r' => Some('\U{D}')
    case 't' => Some('\U{9}')
    case _ => None
  }

  /** The text between the quotes of a JSON string; control characters must be escaped, code units up to 255 may be
      given in hexadecimal. */
  function ReadString(s: string): Option<string>
    decreases |s|
  {
    if s == "" then Some("")
    else if s[0] == '\"' || s[0] < ' ' then None
    else if s[0] != '\\' then Before(s[0], ReadString(s[1..]))
    else if |s| < 2 then None
    else if s[1] != 'u' then
      (var c := ShortEscape(s[1]); if c.None? then None else Before(c.value, ReadString(s[2..])))
    else if |s| < 6 || s[2] != '0' || s[3] != '0' then None
    else
      var high, low := HexValue(s[4]), HexValue(s[5]);
      if high.None? || low.None? then None
      else Before((16 * high.value + low.value) as char, ReadString(s[6..]))
  }

  function Before(c: char, rest: Option<string>): Option<string> {
    if rest.None? then None else Some([c] + rest.value)
  }

  lemma {:induction false} EscapedCharReads(c: char, rest: string)
    ensures ReadString(EscapeChar(c) + rest) == Before(c, ReadString(rest))
  {
    var s, e := EscapeChar(c) + rest, EscapeChar(c);
    assert s[|e|..] == rest;
    if |e| == 6 {
      var n := c as int;
      assert n / 16 < 2;
      HexReads(n / 16);
      HexReads(n % 16);
      assert s[4] == HexDigit(n / 16) && s[5] == HexDigit(n % 16);
      assert (16 * (n / 16) + n % 16) as char == c;
    }
  }

  lemma HexReads(d: nat)
    requires d < 16
    ensures HexValue(HexDigit(d)) == Some(d)
  {}

  /** A name, whatever its characters, is read back from its escaped text. */
  lemma {:induction false} NamesReadBack(s: string)
    ensures ReadString(Escape(s)) == Some(s)
  {
    if s != "" {
      EscapeFront(s);
      NamesReadBack(s[1..]);
      EscapedCharReads(s[0], Escape(s[1..]));
      assert s == [s[0]] + s[1..];
    }
  }

  // ---- The line ----

  /** An index line is a JSON object with the name as `n`, and offset, compressed length, size and time as `o`, `l`, `s`
      and `m`. */
  lemma {:induction false} LineText(e: ArchiveEntry)
    ensures Encode(e) == "{\"n\":\"" + Escape(e.name) + "\",\"o\":" + Decimal.Render(e.offset)
                         + ",\"l\":" + Decimal.Render(e.compressedLength) + ",\"s\":" + Decimal.Render(e.size)
                         + ",\"m\":" + Decimal.Render(e.mtimeMs) + "}"
  {
    FieldIs(NameText(e.name), 'o', e.offset);
    var a := WithField(NameText(e.name), 'o', e.offset);
    FieldIs(a, 'l', e.compressedLength);
    var b := WithField(a, 'l', e.compressedLength);
    FieldIs(b, 's', e.size);
    FieldIs(WithField(b, 's', e.size), 'm', e.mtimeMs);
    Quoted("{\"n\":\"" + Escape(e.name));
  }

  lemma FieldIs(before: string, c: char, n: nat)
    ensures WithField(before, c, n) == before + (",\"" + [c] + "\":") + Decimal.Render(n)
  {
    assert KeyText(c) == ",\"" + [c] + "\":";
  }

  lemma Quoted(s: string)
    ensures s + "\"" + ",\"o\":" == s + "\",\"o\":"
  {}
}
