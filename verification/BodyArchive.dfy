/** The append-only body archive under crashes: two files per month, written lump first, index line
    second, either of which may stop part-way. */
module BodyArchive {
  import opened Wrappers
  import opened IndexLine
  import StableSort

  type Bytes = seq<bv8>

  /** Compression and the JSON reader, as the archive relies on them. */
  datatype Codec = Codec(gzip: Bytes -> Bytes, gunzip: Bytes -> Option<Bytes>, parse: string -> Option<ArchiveEntry>) {
    ghost predicate Sound() {
      && (forall d :: gunzip(gzip(d)) == Some(d))
      && (forall e :: parse(Encode(e)) == Some(e))
      && (forall line :: line != [] && line[0] == '{' && '\n' !in line && parse(line).Some? ==> ObjectShaped(line))
    }
  }

  /** What is left of a line without the white space at its end, the newline included. */
  function TrimEnd(line: string): string {
    if line != [] && (Blank(line[|line| - 1]) || line[|line| - 1] == '\n') then TrimEnd(line[..|line| - 1]) else line
  }

  /** A reader of entry texts that, like the program's, does not mind white space or a newline behind them. */
  ghost function ReadLine(line: string): Option<ArchiveEntry> {
    if exists e :: Encode(e) == TrimEnd(line) then (var e :| Encode(e) == TrimEnd(line); Some(e)) else None
  }

  lemma {:induction false} TrimmedShape(line: string)
    requires ObjectShaped(TrimEnd(line)) && '\n' !in line
    ensures ObjectShaped(line)
  {
    if line != [] && Blank(line[|line| - 1]) { TrimmedShape(line[..|line| - 1]); }
  }

  /** The assumptions can be met, by a reader that accepts more than exact entry texts. */
  lemma {:induction false} SoundCodecExists()
    ensures exists codec: Codec :: codec.Sound() && forall e :: codec.parse(Encode(e) + "\n") == Some(e)
  {
    var codec := Codec((d: Bytes) => d, (d: Bytes) => Some(d), (line: string) => ReadLine(line));
    forall e: ArchiveEntry ensures codec.parse(Encode(e)) == Some(e) && codec.parse(Encode(e) + "\n") == Some(e) {
      EncodeShape(e);
      assert TrimEnd(Encode(e)) == Encode(e);
      assert (Encode(e) + "\n")[..|Encode(e)|] == Encode(e);
      assert TrimEnd(Encode(e) + "\n") == Encode(e);
      EncodeInjective(ReadLine(Encode(e)).value, e);
      EncodeInjective(ReadLine(Encode(e) + "\n").value, e);
    }
    forall line | '\n' !in line && codec.parse(line).Some? ensures ObjectShaped(line) {
      EncodeShape(codec.parse(line).value);
      TrimmedShape(line);
    }
    assert codec.Sound();
  }

  /** One call of the append, and how much of its two writes reached the disk before any crash. */
  datatype Put = Put(name: string, data: Bytes, mtimeMs: nat, lumpKept: nat, lineKept: nat)

  datatype Volume = Volume(bytes: Bytes, idx: string)

  const EMPTY := Volume([], [])

  function EntryOf(volume: Volume, p: Put, codec: Codec): ArchiveEntry {
    ArchiveEntry(p.name, |volume.bytes|, |codec.gzip(p.data)|, |p.data|, p.mtimeMs)
  }

  function LineOf(volume: Volume, p: Put, codec: Codec): string {
    Encode(EntryOf(volume, p, codec)) + "\n"
  }

  /** The index is only touched once the whole lump is on disk. */
  predicate Possible(volume: Volume, p: Put, codec: Codec) {
    && p.lumpKept <= |codec.gzip(p.data)|
    && p.lineKept <= |LineOf(volume, p, codec)|
    && (p.lineKept > 0 ==> p.lumpKept == |codec.gzip(p.data)|)
  }

  function AfterPut(volume: Volume, p: Put, codec: Codec): Volume
    requires Possible(volume, p, codec)
  {
    Volume(volume.bytes + codec.gzip(p.data)[..p.lumpKept], volume.idx + LineOf(volume, p, codec)[..p.lineKept])
  }

  predicate PossibleRun(puts: seq<Put>, codec: Codec)
    decreases |puts|, 0
  {
    puts == [] ||
    var init := puts[..|puts| - 1];
    PossibleRun(init, codec) && Possible(AfterRun(init, codec), puts[|puts| - 1], codec)
  }

  /** One month's files after a run of appends, from an empty directory. */
  function AfterRun(puts: seq<Put>, codec: Codec): Volume
    requires PossibleRun(puts, codec)
    decreases |puts|, 1
  {
    if puts == [] then EMPTY else AfterPut(AfterRun(puts[..|puts| - 1], codec), puts[|puts| - 1], codec)
  }

  // ---- Which appends a reader gets to see ----

  /** The last index write stopped short of its newline. */
  predicate LineOpen(puts: seq<Put>, codec: Codec)
    requires PossibleRun(puts, codec)
  {
    if puts == [] then false
    else
      var init, p := puts[..|puts| - 1], puts[|puts| - 1];
      if p.lineKept == 0 then LineOpen(init, codec)
      else p.lineKept < |LineOf(AfterRun(init, codec), p, codec)|
  }

  datatype Filed = Filed(entry: ArchiveEntry, data: Bytes)

  /** Appends whose index line is complete and starts on a line of its own. */
  function Terminated(puts: seq<Put>, codec: Codec): seq<Filed>
    requires PossibleRun(puts, codec)
  {
    if puts == [] then []
    else
      var init, p := puts[..|puts| - 1], puts[|puts| - 1];
      var before := AfterRun(init, codec);
      Terminated(init, codec) +
      if p.lineKept == |LineOf(before, p, codec)| && !LineOpen(init, codec) then
        [Filed(EntryOf(before, p, codec), p.data)]
      else []
  }

  /** The append at the very end whose line lacks only its newline. */
  function Dangling(puts: seq<Put>, codec: Codec): Option<Filed>
    requires PossibleRun(puts, codec)
  {
    if puts == [] then None
    else
      var init, p := puts[..|puts| - 1], puts[|puts| - 1];
      var before := AfterRun(init, codec);
      if p.lineKept == 0 then Dangling(init, codec)
      else if p.lineKept == |LineOf(before, p, codec)| - 1 && !LineOpen(init, codec) then
        Some(Filed(EntryOf(before, p, codec), p.data))
      else None
  }

  /** What a reader gets to see. A torn line hides its own append and those glued to it up to the next
      newline, and nothing else. */
  function Visible(puts: seq<Put>, codec: Codec): seq<Filed>
    requires PossibleRun(puts, codec)
  {
    Terminated(puts, codec) + if Dangling(puts, codec).Some? then [Dangling(puts, codec).value] else []
  }

  function Entries(filed: seq<Filed>): seq<ArchiveEntry> {
    if filed == [] then [] else Entries(filed[..|filed| - 1]) + [filed[|filed| - 1].entry]
  }

  // ---- Reading the index ----

  function Split(s: string): (lines: seq<string>)
    ensures lines != []
  {
    if s == [] then [[]]
    else
      var before, c := Split(s[..|s| - 1]), s[|s| - 1];
      if c == '\n' then before + [[]] else before[..|before| - 1] + [before[|before| - 1] + [c]]
  }

  function ParseLines(lines: seq<string>, codec: Codec): seq<ArchiveEntry> {
    if lines == [] then []
    else
      var line := lines[|lines| - 1];
      ParseLines(lines[..|lines| - 1], codec) +
      if line != [] && codec.parse(line).Some? then [codec.parse(line).value] else []
  }

  method LoadVolumeIndex(volume: Volume, codec: Codec) returns (entries: seq<ArchiveEntry>)
    ensures entries == ParseLines(Split(volume.idx), codec)
  {
    var lines := Split(volume.idx);
    entries := [];
    for i := 0 to |lines|
      invariant entries == ParseLines(lines[..i], codec)
    {
      assert lines[..i + 1][..i] == lines[..i];
      var line := lines[i];
      if line == [] {
        continue;
      }
      var parsed := codec.parse(line);
      if parsed.Some? {
        entries := entries + [parsed.value];
      }
    }
    assert lines[..|lines|] == lines;
  }

  datatype ReadError = ShortRead | NotGzip

  function ReadArchiveEntry(volume: Volume, e: ArchiveEntry, codec: Codec): Result<Bytes, ReadError> {
    var from := if e.offset < |volume.bytes| then e.offset else |volume.bytes|;
    var to := if e.offset + e.compressedLength < |volume.bytes| then e.offset + e.compressedLength else |volume.bytes|;
    var got := volume.bytes[from..to];
    if |got| != e.compressedLength then Err(ShortRead)
    else
      var data := codec.gunzip(got);
      if data.None? then Err(NotGzip) else Ok(data.value)
  }

  /** Reading yields what unpacks from exactly the bytes the entry names; it fails when they are not all there, or when
      they do not unpack. */
  lemma ReadMeans(volume: Volume, e: ArchiveEntry, codec: Codec, data: Bytes)
    ensures var r, there := ReadArchiveEntry(volume, e, codec), e.offset + e.compressedLength <= |volume.bytes|;
            && (there ==> var part := volume.bytes[e.offset..e.offset + e.compressedLength];
                  && (r == Ok(data) <==> codec.gunzip(part) == Some(data))
                  && (r == Err(NotGzip) <==> codec.gunzip(part) == None))
            && (!there && e.compressedLength > 0 <==> r == Err(ShortRead))
  {}

  /** The lines with a newline between each two. */
  function Joined(lines: seq<string>): string {
    if lines == [] then ""
    else if |lines| == 1 then lines[0]
    else Joined(lines[..|lines| - 1]) + "\n" + lines[|lines| - 1]
  }

  /** Splitting cuts the text at its newlines and nowhere else. */
  lemma {:induction false} SplitJoins(s: string)
    ensures Joined(Split(s)) == s
    ensures forall line :: line in Split(s) ==> '\n' !in line
  {
    LinesHoldNoNewline(s);
    if s != [] {
      var before, c := Split(s[..|s| - 1]), s[|s| - 1];
      SplitJoins(s[..|s| - 1]);
      assert s == s[..|s| - 1] + [c];
      if c == '\n' {
        assert (before + [[]])[..|before|] == before;
        assert Joined(before) + "\n" + [] == s;
      } else {
        JoinedLast(before[..|before| - 1], before[|before| - 1], c);
        assert before == before[..|before| - 1] + [before[|before| - 1]];
      }
    }
  }

  lemma {:induction false} JoinedLast(lines: seq<string>, last: string, c: char)
    ensures Joined(lines + [last + [c]]) == Joined(lines + [last]) + [c]
  {
    assert (lines + [last])[..|lines|] == lines == (lines + [last + [c]])[..|lines|];
    if lines != [] { assert Joined(lines) + "\n" + (last + [c]) == Joined(lines) + "\n" + last + [c]; }
  }

  // ---- Lines of a run ----

  /** The lines with more text behind the last one. */
  function Continue(lines: seq<string>, more: string): seq<string>
    requires lines != []
  {
    lines[..|lines| - 1] + [lines[|lines| - 1] + more]
  }

  lemma {:induction false} SplitChar(s: string, c: char)
    requires c != '\n'
    ensures Split(s + [c]) == Continue(Split(s), [c])
  {
    assert (s + [c])[..|s|] == s;
  }

  lemma {:induction false} ContinueTwice(lines: seq<string>, a: string, b: string)
    requires lines != []
    ensures Continue(Continue(lines, a), b) == Continue(lines, a + b)
  {
    assert (lines[|lines| - 1] + a) + b == lines[|lines| - 1] + (a + b);
  }

  lemma {:induction false} SplitFragment(s: string, fragment: string)
    requires '\n' !in fragment
    ensures Split(s + fragment) == Continue(Split(s), fragment)
  {
    var lines := Split(s);
    if fragment == [] {
      assert s + fragment == s && lines[|lines| - 1] + fragment == lines[|lines| - 1];
    } else {
      var init, c := fragment[..|fragment| - 1], fragment[|fragment| - 1];
      SplitFragment(s, init);
      SplitChar(s + init, c);
      ContinueTwice(lines, init, [c]);
      assert fragment == init + [c] && s + fragment == s + init + [c];
    }
  }

  lemma {:induction false} LinesHoldNoNewline(s: string)
    ensures forall line :: line in Split(s) ==> '\n' !in line
  {
    if s != [] {
      LinesHoldNoNewline(s[..|s| - 1]);
      var before := Split(s[..|s| - 1]);
      assert before[|before| - 1] in before;
    }
  }

  /** The unterminated last line: empty, a complete object, or something that can never become one. */
  predicate TailState(tail: string, open: bool, whole: Option<ArchiveEntry>) {
    && (tail == [] <==> !open)
    && (tail != [] ==> tail[0] == '{')
    && (whole.Some? ==> tail == Encode(whole.value))
    && (whole.None? && open ==> Unfinished(ScanFrom(Out(0), tail)))
  }

  lemma {:induction false} TailGrows(tail: string, open: bool, whole: Option<ArchiveEntry>, e: ArchiveEntry, k: nat)
    requires TailState(tail, open, whole) && 0 < k <= |Encode(e)|
    ensures TailState(tail + Encode(e)[..k], true, if !open && k == |Encode(e)| then Some(e) else None)
  {
    EncodeShape(e);
    assert Encode(e)[0] == Encode(e)[..3][0] == '{';
    if open {
      if whole.Some? { EncodeShape(whole.value); }
      ScanAppend(Out(0), tail, Encode(e)[..k]);
      GluedFragmentUnfinished(ScanFrom(Out(0), tail), e, k);
    } else {
      assert tail + Encode(e)[..k] == Encode(e)[..k];
      if k < |Encode(e)| { PrefixUnfinished(e, k); } else { assert Encode(e)[..k] == Encode(e); }
    }
  }

  lemma TailParses(tail: string, open: bool, whole: Option<ArchiveEntry>, codec: Codec)
    requires TailState(tail, open, whole) && codec.Sound() && open && '\n' !in tail
    ensures codec.parse(tail) == whole
  {}

  /** The finished lines of an index and the state of its last, unterminated one. */
  predicate IndexState(idx: string, listed: seq<ArchiveEntry>, open: bool, whole: Option<ArchiveEntry>, codec: Codec) {
    var lines := Split(idx);
    ParseLines(lines[..|lines| - 1], codec) == listed && TailState(lines[|lines| - 1], open, whole)
  }

  lemma {:induction false} IndexFragment(idx: string, listed: seq<ArchiveEntry>, open: bool,
                                         whole: Option<ArchiveEntry>, e: ArchiveEntry, k: nat, codec: Codec)
    requires IndexState(idx, listed, open, whole, codec) && 0 < k <= |Encode(e)|
    ensures IndexState(idx + Encode(e)[..k], listed, true, if !open && k == |Encode(e)| then Some(e) else None, codec)
  {
    EncodeShape(e);
    SplitFragment(idx, Encode(e)[..k]);
    var lines, next := Split(idx), Split(idx + Encode(e)[..k]);
    TailGrows(lines[|lines| - 1], open, whole, e, k);
    assert next[..|next| - 1] == lines[..|lines| - 1];
  }

  lemma {:induction false} SplitNewline(s: string)
    ensures Split(s + "\n") == Split(s) + [[]]
  {
    assert (s + "\n")[..|s + "\n"| - 1] == s;
  }

  /** Ending the last line turns it into a finished one. */
  lemma {:induction false} LineEnds(idx: string, listed: seq<ArchiveEntry>, whole: Option<ArchiveEntry>, codec: Codec)
    requires IndexState(idx, listed, true, whole, codec) && codec.Sound()
    ensures IndexState(idx + "\n", if whole.Some? then listed + [whole.value] else listed, false, None, codec)
  {
    assert listed + [] == listed;
    var lines := Split(idx);
    LinesHoldNoNewline(idx);
    assert lines[|lines| - 1] in lines;
    TailParses(lines[|lines| - 1], true, whole, codec);
    SplitNewline(idx);
    assert (lines + [[]])[..|lines|] == lines;
  }

  lemma {:induction false} IndexWholeText(idx: string, listed: seq<ArchiveEntry>, open: bool,
                                          whole: Option<ArchiveEntry>, e: ArchiveEntry, codec: Codec)
    requires IndexState(idx, listed, open, whole, codec)
    ensures IndexState(idx + Encode(e), listed, true, if !open then Some(e) else None, codec)
  {
    EncodeShape(e);
    assert Encode(e)[..|Encode(e)|] == Encode(e);
    IndexFragment(idx, listed, open, whole, e, |Encode(e)|, codec);
  }

  lemma LineText(idx: string, line: string)
    ensures idx + line + "\n" == idx + (line + "\n")
  {}

  lemma {:induction false} IndexWholeLine(idx: string, listed: seq<ArchiveEntry>, open: bool,
                                          whole: Option<ArchiveEntry>,
                                          e: ArchiveEntry, codec: Codec)
    requires IndexState(idx, listed, open, whole, codec) && codec.Sound()
    ensures IndexState(idx + (Encode(e) + "\n"), if open then listed else listed + [e], false, None, codec)
  {
    var text := idx + Encode(e);
    LineText(idx, Encode(e));
    assert text + "\n" == idx + (Encode(e) + "\n");
    IndexWholeText(idx, listed, open, whole, e, codec);
    LineEnds(text, listed, if !open then Some(e) else None, codec);
  }

  predicate RunState(puts: seq<Put>, codec: Codec)
    requires PossibleRun(puts, codec)
  {
    var dangling := Dangling(puts, codec);
    IndexState(AfterRun(puts, codec).idx, Entries(Terminated(puts, codec)), LineOpen(puts, codec),
               if dangling.Some? then Some(dangling.value.entry) else None, codec)
  }

  lemma {:induction false} EntriesAppend(a: seq<Filed>, f: Filed)
    ensures Entries(a + [f]) == Entries(a) + [f.entry]
  {
    assert (a + [f])[..|a|] == a;
  }

  lemma {:induction false} WholeLineKeepsState(puts: seq<Put>, codec: Codec)
    requires puts != [] && PossibleRun(puts, codec) && codec.Sound() && RunState(puts[..|puts| - 1], codec)
    requires var before := AfterRun(puts[..|puts| - 1], codec);
             puts[|puts| - 1].lineKept == |LineOf(before, puts[|puts| - 1], codec)|
    ensures RunState(puts, codec)
  {
    var init, p := puts[..|puts| - 1], puts[|puts| - 1];
    var before, dangling, terminated := AfterRun(init, codec), Dangling(init, codec), Terminated(init, codec);
    var e, line := EntryOf(before, p, codec), LineOf(before, p, codec);
    assert line[..p.lineKept] == line;
    assert terminated + [] == terminated;
    IndexWholeLine(before.idx, Entries(terminated), LineOpen(init, codec),
                   if dangling.Some? then Some(dangling.value.entry) else None, e, codec);
    EntriesAppend(terminated, Filed(e, p.data));
  }

  lemma {:induction false} FragmentKeepsState(puts: seq<Put>, codec: Codec)
    requires puts != [] && PossibleRun(puts, codec) && codec.Sound() && RunState(puts[..|puts| - 1], codec)
    requires var before := AfterRun(puts[..|puts| - 1], codec);
             0 < puts[|puts| - 1].lineKept < |LineOf(before, puts[|puts| - 1], codec)|
    ensures RunState(puts, codec)
  {
    var init, p := puts[..|puts| - 1], puts[|puts| - 1];
    var before, dangling, terminated := AfterRun(init, codec), Dangling(init, codec), Terminated(init, codec);
    var e := EntryOf(before, p, codec);
    assert LineOf(before, p, codec)[..p.lineKept] == Encode(e)[..p.lineKept];
    assert terminated + [] == terminated;
    IndexFragment(before.idx, Entries(terminated), LineOpen(init, codec),
                  if dangling.Some? then Some(dangling.value.entry) else None, e, p.lineKept, codec);
  }

  lemma {:induction false} NoLineKeepsState(puts: seq<Put>, codec: Codec)
    requires puts != [] && PossibleRun(puts, codec) && RunState(puts[..|puts| - 1], codec)
    requires puts[|puts| - 1].lineKept == 0
    ensures RunState(puts, codec)
  {
    var init, p := puts[..|puts| - 1], puts[|puts| - 1];
    var before, terminated := AfterRun(init, codec), Terminated(init, codec);
    assert before.idx + LineOf(before, p, codec)[..0] == before.idx;
    assert terminated + [] == terminated;
  }

  lemma {:induction false} RunKeepsState(puts: seq<Put>, codec: Codec)
    requires PossibleRun(puts, codec) && codec.Sound()
    ensures RunState(puts, codec)
  {
    if puts != [] {
      var init, p := puts[..|puts| - 1], puts[|puts| - 1];
      RunKeepsState(init, codec);
      if p.lineKept == 0 {
        NoLineKeepsState(puts, codec);
      } else if p.lineKept == |LineOf(AfterRun(init, codec), p, codec)| {
        WholeLineKeepsState(puts, codec);
      } else {
        FragmentKeepsState(puts, codec);
      }
    }
  }

  /** After any run of appends and crashes the reader lists, in append order, exactly the visible ones:
      those whose line is complete and starts a line, plus a last one lacking only its newline. */
  lemma {:induction false} IndexListsVisible(puts: seq<Put>, codec: Codec)
    requires PossibleRun(puts, codec) && codec.Sound()
    ensures ParseLines(Split(AfterRun(puts, codec).idx), codec) == Entries(Visible(puts, codec))
  {
    RunKeepsState(puts, codec);
    var lines, dangling := Split(AfterRun(puts, codec).idx), Dangling(puts, codec);
    LinesHoldNoNewline(AfterRun(puts, codec).idx);
    assert lines[|lines| - 1] in lines;
    if LineOpen(puts, codec) {
      TailParses(lines[|lines| - 1], true, if dangling.Some? then Some(dangling.value.entry) else None, codec);
    } else if dangling.Some? {
      EncodeShape(dangling.value.entry);
    }
    if dangling.Some? { EntriesAppend(Terminated(puts, codec), dangling.value); }
    assert Terminated(puts, codec) + [] == Terminated(puts, codec);
  }

  // ---- Bytes of a run ----

  predicate Stored(volume: Volume, f: Filed, codec: Codec) {
    && f.entry.compressedLength == |codec.gzip(f.data)|
    && f.entry.size == |f.data|
    && f.entry.offset + f.entry.compressedLength <= |volume.bytes|
    && volume.bytes[f.entry.offset..f.entry.offset + f.entry.compressedLength] == codec.gzip(f.data)
  }

  lemma {:induction false} SliceOfPrefix(a: Bytes, b: Bytes, from: nat, to: nat)
    requires a <= b && from <= to <= |a|
    ensures b[from..to] == a[from..to]
  {
    forall i | 0 <= i < to - from ensures b[from..to][i] == a[from..to][i] {
      assert b[from + i] == a[from + i];
    }
  }

  lemma {:induction false} StoredStays(before: Volume, after: Volume, f: Filed, codec: Codec)
    requires Stored(before, f, codec) && before.bytes <= after.bytes
    ensures Stored(after, f, codec)
  {
    SliceOfPrefix(before.bytes, after.bytes, f.entry.offset, f.entry.offset + f.entry.compressedLength);
  }

  lemma {:induction false} PutIsStored(before: Volume, p: Put, codec: Codec)
    requires Possible(before, p, codec) && p.lineKept > 0
    ensures Stored(AfterPut(before, p, codec), Filed(EntryOf(before, p, codec), p.data), codec)
  {
    assert codec.gzip(p.data)[..p.lumpKept] == codec.gzip(p.data);
  }

  lemma StoredReadsBack(volume: Volume, f: Filed, codec: Codec)
    requires Stored(volume, f, codec) && codec.gunzip(codec.gzip(f.data)) == Some(f.data)
    ensures ReadArchiveEntry(volume, f.entry, codec) == Ok(f.data)
  {}

  lemma VisibleStep(puts: seq<Put>, f: Filed, codec: Codec)
    requires puts != [] && PossibleRun(puts, codec) && f in Visible(puts, codec)
    ensures var init, p := puts[..|puts| - 1], puts[|puts| - 1];
            f in Visible(init, codec)
              || (p.lineKept > 0 && f == Filed(EntryOf(AfterRun(init, codec), p, codec), p.data))
  {}

  predicate Matches(p: Put, f: Filed) {
    p.name == f.entry.name && p.mtimeMs == f.entry.mtimeMs && p.data == f.data
  }

  lemma {:induction false} VisibleAreStored(puts: seq<Put>, codec: Codec, f: Filed)
    requires PossibleRun(puts, codec) && f in Visible(puts, codec)
    ensures Stored(AfterRun(puts, codec), f, codec)
    ensures exists i :: 0 <= i < |puts| && Matches(puts[i], f)
  {
    var init, p := puts[..|puts| - 1], puts[|puts| - 1];
    VisibleStep(puts, f, codec);
    if f in Visible(init, codec) {
      VisibleAreStored(init, codec, f);
      StoredStays(AfterRun(init, codec), AfterRun(puts, codec), f, codec);
      var i :| 0 <= i < |init| && Matches(init[i], f);
      assert Matches(puts[i], f);
    } else {
      PutIsStored(AfterRun(init, codec), p, codec);
      assert Matches(puts[|puts| - 1], f);
    }
  }

  lemma {:induction false} EntriesHaveSources(filed: seq<Filed>, e: ArchiveEntry)
    requires e in Entries(filed)
    ensures exists f :: f in filed && f.entry == e
  {
    if e in Entries(filed[..|filed| - 1]) {
      EntriesHaveSources(filed[..|filed| - 1], e);
    } else {
      assert filed[|filed| - 1] in filed;
    }
  }

  /** Every entry a reader lists after any run points at exactly the bytes of the body it names, so
      reading it never comes up short and returns the original. */
  lemma {:induction false} ListedEntriesReadBack(puts: seq<Put>, codec: Codec, e: ArchiveEntry) returns (source: Put)
    requires PossibleRun(puts, codec) && codec.Sound()
    requires e in ParseLines(Split(AfterRun(puts, codec).idx), codec)
    ensures source in puts && source.name == e.name && source.mtimeMs == e.mtimeMs && |source.data| == e.size
    ensures ReadArchiveEntry(AfterRun(puts, codec), e, codec) == Ok(source.data)
  {
    IndexListsVisible(puts, codec);
    EntriesHaveSources(Visible(puts, codec), e);
    var f :| f in Visible(puts, codec) && f.entry == e;
    VisibleAreStored(puts, codec, f);
    StoredReadsBack(AfterRun(puts, codec), f, codec);
    var i :| 0 <= i < |puts| && Matches(puts[i], f);
    source := puts[i];
  }

  predicate Uninterrupted(puts: seq<Put>, codec: Codec)
    requires PossibleRun(puts, codec)
  {
    puts == [] ||
    var init, p := puts[..|puts| - 1], puts[|puts| - 1];
    Uninterrupted(init, codec) && p.lineKept == |LineOf(AfterRun(init, codec), p, codec)|
  }

  lemma {:induction false} WholeAppendTerminates(puts: seq<Put>, codec: Codec)
    requires puts != [] && PossibleRun(puts, codec) && !LineOpen(puts[..|puts| - 1], codec)
    requires puts[|puts| - 1].lineKept == |LineOf(AfterRun(puts[..|puts| - 1], codec), puts[|puts| - 1], codec)|
    ensures !LineOpen(puts, codec) && Dangling(puts, codec).None?
    ensures var init, p := puts[..|puts| - 1], puts[|puts| - 1];
            Terminated(puts, codec)
              == Terminated(init, codec) + [Filed(EntryOf(AfterRun(init, codec), p, codec), p.data)]
  {}

  /** The filed appends are those of `puts`, one for one. */
  predicate OneForOne(puts: seq<Put>, filed: seq<Filed>) {
    |filed| == |puts| && forall i :: 0 <= i < |puts| ==> Matches(puts[i], filed[i])
  }

  lemma {:induction false} OneMore(puts: seq<Put>, filed: seq<Filed>, f: Filed)
    requires puts != [] && OneForOne(puts[..|puts| - 1], filed) && Matches(puts[|puts| - 1], f)
    ensures OneForOne(puts, filed + [f])
  {
    forall i | 0 <= i < |puts| ensures Matches(puts[i], (filed + [f])[i]) {
      if i < |filed| { assert Matches(puts[..|puts| - 1][i], filed[i]); }
    }
  }

  lemma {:induction false} UninterruptedTerminates(puts: seq<Put>, codec: Codec)
    requires PossibleRun(puts, codec) && Uninterrupted(puts, codec)
    ensures !LineOpen(puts, codec) && Dangling(puts, codec).None? && OneForOne(puts, Terminated(puts, codec))
  {
    if puts != [] {
      var init, p := puts[..|puts| - 1], puts[|puts| - 1];
      UninterruptedTerminates(init, codec);
      WholeAppendTerminates(puts, codec);
      OneMore(puts, Terminated(init, codec), Filed(EntryOf(AfterRun(init, codec), p, codec), p.data));
    }
  }

  /** Without a crash every append stays visible, in order. */
  lemma {:induction false} UninterruptedAppendsVisible(puts: seq<Put>, codec: Codec)
    requires PossibleRun(puts, codec) && Uninterrupted(puts, codec)
    ensures OneForOne(puts, Visible(puts, codec))
  {
    UninterruptedTerminates(puts, codec);
  }

  // ---- The archive directory ----

  datatype ArchivedBody = ArchivedBody(month: nat, entry: ArchiveEntry)

  function InMonth(month: nat, entries: seq<ArchiveEntry>): seq<ArchivedBody> {
    seq(|entries|, i requires 0 <= i < |entries| => ArchivedBody(month, entries[i]))
  }

  /** The entries of the listed months, one volume after the other. */
  function Listing(months: seq<nat>, volumes: map<nat, Volume>, codec: Codec): seq<ArchivedBody>
    requires forall m :: m in months ==> m in volumes
  {
    if months == [] then []
    else
      var m := months[|months| - 1];
      Listing(months[..|months| - 1], volumes, codec) + InMonth(m, ParseLines(Split(volumes[m].idx), codec))
  }

  function Month(m: nat): int { m }

  /** The listed bodies of one month, in order. */
  function OfMonth(bodies: seq<ArchivedBody>, m: nat): seq<ArchivedBody> {
    if bodies == [] then []
    else OfMonth(bodies[..|bodies| - 1], m) + if bodies[|bodies| - 1].month == m then [bodies[|bodies| - 1]] else []
  }

  predicate OldestFirst(bodies: seq<ArchivedBody>) {
    forall i, j :: 0 <= i < j < |bodies| ==> bodies[i].month <= bodies[j].month
  }

  lemma {:induction false} OfMonthAppend(a: seq<ArchivedBody>, b: seq<ArchivedBody>, m: nat)
    ensures OfMonth(a + b, m) == OfMonth(a, m) + OfMonth(b, m)
  {
    if b == [] {
      assert a + b == a;
    } else {
      assert (a + b)[..|a + b| - 1] == a + b[..|b| - 1];
      OfMonthAppend(a, b[..|b| - 1], m);
    }
  }

  lemma {:induction false} OfMonthUniform(bodies: seq<ArchivedBody>, month: nat, m: nat)
    requires forall i :: 0 <= i < |bodies| ==> bodies[i].month == month
    ensures OfMonth(bodies, m) == if m == month then bodies else []
  {
    if bodies != [] {
      OfMonthUniform(bodies[..|bodies| - 1], month, m);
      assert bodies == bodies[..|bodies| - 1] + [bodies[|bodies| - 1]];
    }
  }

  lemma {:induction false} OfMonthSnoc(bodies: seq<ArchivedBody>, part: seq<ArchivedBody>, last: nat, m: nat)
    requires forall i :: 0 <= i < |part| ==> part[i].month == last
    ensures OfMonth(bodies + part, m) == if m == last then OfMonth(bodies, m) + part else OfMonth(bodies, m)
  {
    OfMonthAppend(bodies, part, m);
    OfMonthUniform(part, last, m);
  }

  lemma {:induction false} ListingStep(months: seq<nat>, volumes: map<nat, Volume>, codec: Codec, m: nat)
    requires months != [] && forall x :: x in months ==> x in volumes
    ensures var init, last := months[..|months| - 1], months[|months| - 1];
            && (forall x :: x in init ==> x in volumes)
            && OfMonth(Listing(months, volumes, codec), m)
               == OfMonth(Listing(init, volumes, codec), m)
                 + if m == last then InMonth(m, ParseLines(Split(volumes[m].idx), codec)) else []
  {
    var init, last := months[..|months| - 1], months[|months| - 1];
    OfMonthSnoc(Listing(init, volumes, codec), InMonth(last, ParseLines(Split(volumes[last].idx), codec)), last, m);
  }

  lemma {:induction false} NotListed(months: seq<nat>, volumes: map<nat, Volume>, codec: Codec, m: nat)
    requires (forall x :: x in months ==> x in volumes) && forall i :: 0 <= i < |months| ==> months[i] != m
    ensures OfMonth(Listing(months, volumes, codec), m) == []
  {
    if months != [] {
      ListingStep(months, volumes, codec, m);
      NotListed(months[..|months| - 1], volumes, codec, m);
    }
  }

  /** Listing each month once lists each month's index once and whole. */
  lemma {:induction false} ListedOnce(months: seq<nat>, volumes: map<nat, Volume>, codec: Codec, k: nat)
    requires (forall x :: x in months ==> x in volumes)
             && forall i, j :: 0 <= i < j < |months| ==> months[i] < months[j]
    requires k < |months|
    ensures OfMonth(Listing(months, volumes, codec), months[k])
            == InMonth(months[k], ParseLines(Split(volumes[months[k]].idx), codec))
  {
    ListingStep(months, volumes, codec, months[k]);
    if k < |months| - 1 {
      ListedOnce(months[..|months| - 1], volumes, codec, k);
    } else {
      NotListed(months[..|months| - 1], volumes, codec, months[k]);
    }
  }

  lemma {:induction false} ListingOldestFirst(months: seq<nat>, volumes: map<nat, Volume>, codec: Codec)
    requires (forall x :: x in months ==> x in volumes)
             && forall i, j :: 0 <= i < j < |months| ==> months[i] <= months[j]
    ensures OldestFirst(Listing(months, volumes, codec))
    ensures forall b :: b in Listing(months, volumes, codec) ==> b.month in months
  {
    if months != [] {
      var init, last := months[..|months| - 1], months[|months| - 1];
      ListingOldestFirst(init, volumes, codec);
      assert months == init + [last];
      assert forall b :: b in Listing(init, volumes, codec) ==> b.month <= last;
    }
  }

  /** Every volume of the directory, once, in any order. */
  ghost predicate ListsVolumes(names: seq<nat>, volumes: map<nat, Volume>) {
    (forall m :: m in names <==> m in volumes) && forall i, j :: 0 <= i < j < |names| ==> names[i] != names[j]
  }

  /** The listing holds each volume's index once and whole, and nothing else. */
  ghost predicate EveryVolumeOnce(out: seq<ArchivedBody>, volumes: map<nat, Volume>, codec: Codec) {
    forall m: nat ::
      OfMonth(out, m) == if m in volumes then InMonth(m, ParseLines(Split(volumes[m].idx), codec)) else []
  }

  lemma {:induction false} SortedListing(months: seq<nat>, volumes: map<nat, Volume>, codec: Codec)
    requires (forall m :: m in months <==> m in volumes)
             && forall i, j :: 0 <= i < j < |months| ==> months[i] < months[j]
    ensures EveryVolumeOnce(Listing(months, volumes, codec), volumes, codec)
            && OldestFirst(Listing(months, volumes, codec))
  {
    ListingOldestFirst(months, volumes, codec);
    forall m: nat
      ensures OfMonth(Listing(months, volumes, codec), m)
           == if m in volumes then InMonth(m, ParseLines(Split(volumes[m].idx), codec)) else []
    {
      if m in volumes {
        var k :| 0 <= k < |months| && months[k] == m;
        ListedOnce(months, volumes, codec, k);
      } else {
        NotListed(months, volumes, codec, m);
      }
    }
  }

  lemma {:induction false} SortedMonths(names: seq<nat>, volumes: map<nat, Volume>)
    requires ListsVolumes(names, volumes)
    ensures var months := StableSort.Sort(names, Month);
            && (forall m :: m in months <==> m in volumes)
            && forall i, j :: 0 <= i < j < |months| ==> months[i] < months[j]
  {
    StableSort.SortSorts(names, Month);
    var months := StableSort.Sort(names, Month);
    forall m ensures m in months <==> m in volumes {
      assert m in months <==> m in multiset(months);
      assert m in names <==> m in multiset(names);
    }
    forall i, j | 0 <= i < j < |months| ensures months[i] < months[j] {
      assert Month(months[i]) <= Month(months[j]);
      if months[i] == months[j] { TwiceInMultiset(months, i, j, names); }
    }
  }

  lemma {:induction false} TwiceInMultiset(a: seq<nat>, i: nat, j: nat, b: seq<nat>)
    requires i < j < |a| && a[i] == a[j] && multiset(a) == multiset(b)
    ensures exists k, l :: 0 <= k < l < |b| && b[k] == b[l]
  {
    var x := a[i];
    assert a == a[..i] + [x] + a[i + 1..j] + [x] + a[j + 1..];
    assert multiset(a)[x] >= 2;
    var k :| 0 <= k < |b| && b[k] == x;
    assert b == b[..k] + [x] + b[k + 1..];
    assert multiset(b[..k] + b[k + 1..])[x] >= 1;
    var l :| 0 <= l < |b| && l != k && b[l] == x;
    if k < l { assert b[k] == b[l]; } else { assert b[l] == b[k]; }
  }

  ghost predicate ReadsBack(b: ArchivedBody, volumes: map<nat, Volume>, log: map<nat, seq<Put>>, codec: Codec) {
    && b.month in volumes && b.month in log
    && exists p :: p in log[b.month] && p.name == b.entry.name
                   && ReadArchiveEntry(volumes[b.month], b.entry, codec) == Ok(p.data)
  }

  lemma {:induction false} RunGrows(puts: seq<Put>, p: Put, codec: Codec)
    requires PossibleRun(puts, codec) && Possible(AfterRun(puts, codec), p, codec)
    ensures PossibleRun(puts + [p], codec) && AfterRun(puts + [p], codec) == AfterPut(AfterRun(puts, codec), p, codec)
  {
    assert (puts + [p])[..|puts|] == puts;
  }

  /** A directory of monthly volumes. `log` records, month by month, every append ever attempted. */
  class Archive {
    const codec: Codec
    const monthOf: nat -> nat
    var volumes: map<nat, Volume>
    ghost var log: map<nat, seq<Put>>

    ghost predicate Valid()
      reads this
    {
      && volumes.Keys == log.Keys
      && forall m :: m in log ==> PossibleRun(log[m], codec) && volumes[m] == AfterRun(log[m], codec)
    }

    constructor (codec: Codec, monthOf: nat -> nat)
      ensures Valid() && volumes == map[] && log == map[] && this.codec == codec && this.monthOf == monthOf
    {
      this.codec, this.monthOf := codec, monthOf;
      volumes, log := map[], map[];
    }

    function VolumeOf(month: nat): Volume
      reads this
    {
      if month in volumes then volumes[month] else EMPTY
    }

    /** Appends the lump, then the index line; `lumpKept` and `lineKept` say how much survives a crash. */
    method AppendToArchive(name: string, data: Bytes, mtimeMs: nat, lumpKept: nat, lineKept: nat)
      requires Valid()
      requires Possible(VolumeOf(monthOf(mtimeMs)), Put(name, data, mtimeMs, lumpKept, lineKept), codec)
      modifies this
      ensures Valid()
      ensures var m, p := monthOf(mtimeMs), Put(name, data, mtimeMs, lumpKept, lineKept);
              && volumes == old(volumes)[m := AfterPut(old(VolumeOf(m)), p, codec)]
              && log == old(log)[m := (if m in old(log) then old(log)[m] else []) + [p]]
    {
      var month := monthOf(mtimeMs);
      ghost var before, p := VolumeOf(month), Put(name, data, mtimeMs, lumpKept, lineKept);
      ghost var past := if month in log then log[month] else [];
      RunGrows(past, p, codec);
      var volume := VolumeOf(month);
      var gz := codec.gzip(data);
      var offset := |volume.bytes|;
      volume := volume.(bytes := volume.bytes + gz[..lumpKept]);
      var line := Encode(ArchiveEntry(name, offset, |gz|, |data|, mtimeMs)) + "\n";
      volume := volume.(idx := volume.idx + line[..lineKept]);
      volumes := volumes[month := volume];
      log := log[month := past + [p]];
      assert volumes[month] == AfterPut(before, p, codec);
    }

    /** The entries of the given months, one volume after the other. */
    method ReadVolumes(months: seq<nat>) returns (out: seq<ArchivedBody>)
      requires Valid() && codec.Sound() && forall m :: m in months ==> m in volumes
      ensures out == Listing(months, volumes, codec)
      ensures forall b :: b in out ==> ReadsBack(b, volumes, log, codec)
    {
      out := [];
      for i := 0 to |months|
        invariant out == Listing(months[..i], volumes, codec)
        invariant forall b :: b in out ==> ReadsBack(b, volumes, log, codec)
      {
        assert months[..i + 1][..i] == months[..i];
        var m := months[i];
        var entries := LoadVolumeIndex(volumes[m], codec);
        forall e | e in entries
          ensures ReadsBack(ArchivedBody(m, e), volumes, log, codec)
        {
          var p := ListedEntriesReadBack(log[m], codec, e);
        }
        out := out + InMonth(m, entries);
      }
      assert months[..|months|] == months;
    }

    /** Lists every archived body, volume by volume from the oldest on; each one reads back as some body that was
        appended.
        `names` is the directory listing, in any order. */
    method ListArchiveEntries(names: seq<nat>) returns (out: seq<ArchivedBody>)
      requires Valid() && codec.Sound() && ListsVolumes(names, volumes)
      ensures EveryVolumeOnce(out, volumes, codec) && OldestFirst(out)
      ensures forall b :: b in out ==> ReadsBack(b, volumes, log, codec)
    {
      var months := StableSort.Sort(names, Month);
      SortedMonths(names, volumes);
      out := ReadVolumes(months);
      SortedListing(months, volumes, codec);
    }
  }
}
