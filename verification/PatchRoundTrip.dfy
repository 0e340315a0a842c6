/** When the patch parser undoes the patch printer, and what the printed hunk counts say. */
module PatchRoundTrip {
  import opened Wrappers
  import opened PatchFormat

  predicate NewlineFree(s: string) {
    '\n' !in s
  }

  predicate CleanLines(lines: seq<Line>) {
    lines == [] || (NewlineFree(lines[0].text) && CleanLines(lines[1..]))
  }

  predicate CleanChunks(chunks: seq<Chunk>) {
    chunks == [] || (CleanLines(chunks[0].lines) && CleanChunks(chunks[1..]))
  }

  predicate Clean(patches: seq<Patch>) {
    patches == [] ||
    (NewlineFree(patches[0].src) && NewlineFree(patches[0].dst) && CleanChunks(patches[0].chunks) && Clean(patches[1..]))
  }

  /** A deleted or added line whose printed form looks like a file header. */
  predicate LooksLikeHeader(l: Line) {
    (l.kind == SRC && "-- " <= l.text) || (l.kind == DST && "++ " <= l.text)
  }

  // ---------- Decimal numbers ----------

  lemma {:induction false} DecimalRoundTrip(n: nat)
    ensures |Decimal(n)| > 0 && forall i :: 0 <= i < |Decimal(n)| ==> IsDigit(Decimal(n)[i])
    ensures NumberOf(Decimal(n)) == n
  {
    if n >= 10 {
      DecimalRoundTrip(n / 10);
      assert Decimal(n)[..|Decimal(n)| - 1] == Decimal(n / 10);
    } else {
      assert Decimal(n)[..0] == "";
    }
  }

  lemma {:induction false} DigitCountExact(s: string, n: nat)
    requires n <= |s| && forall i :: 0 <= i < n ==> IsDigit(s[i])
    requires n < |s| ==> !IsDigit(s[n])
    ensures DigitCount(s) == n
  {
    if n > 0 {
      assert forall i :: 0 <= i < n - 1 ==> s[1..][i] == s[i + 1];
      DigitCountExact(s[1..], n - 1);
    }
  }

  lemma NumberThen(n: nat, literal: string, rest: string)
    requires literal != "" && !IsDigit(literal[0])
    ensures MatchNumberThen(Decimal(n) + (literal + rest), literal) == Some((n, rest))
  {
    var digits := Decimal(n);
    var s := digits + (literal + rest);
    DecimalRoundTrip(n);
    DigitCountExact(s, |digits|);
    assert s[..|digits|] == digits && s[|digits|..] == literal + rest;
    assert literal <= literal + rest && (literal + rest)[|literal|..] == rest;
  }

  /** The text of a hunk header with anything behind it. */
  function HeaderWith(a: nat, b: nat, d: nat, e: nat, rest: string): string {
    "@@ -" + (Decimal(a) + ("," + (Decimal(b) + (" +" + (Decimal(d) + ("," + (Decimal(e) + (" @@" + rest))))))))
  }

  /** A hunk header reads as its four numbers, whatever stands behind the second "@@". */
  lemma HeaderReads(a: nat, b: nat, d: nat, e: nat, rest: string)
    ensures MatchHeader(HeaderWith(a, b, d, e, rest)) == Some((a, b, d, e))
  {
    hide Decimal, MatchNumberThen;
    var s4 := Decimal(e) + (" @@" + rest);
    var s3 := Decimal(d) + ("," + s4);
    var s2 := Decimal(b) + (" +" + s3);
    var s1 := Decimal(a) + ("," + s2);
    assert "@@ -" <= "@@ -" + s1 && ("@@ -" + s1)[4..] == s1;
    NumberThen(a, ",", s2);
    NumberThen(b, " +", s3);
    NumberThen(d, ",", s4);
    NumberThen(e, " @@", rest);
  }

  lemma HeaderText(c: Chunk)
    ensures Header(c) == HeaderWith(c.srcPos, |Side(c.lines, IsSrc)|, c.dstPos, |Side(c.lines, IsDst)|, "\n")
  {
    hide Side, Decimal;
    assert " @@" + "\n" == " @@\n";
  }

  /** A printed hunk header reads back as both positions and the two line counts. */
  lemma HeaderRoundTrip(c: Chunk)
    ensures MatchHeader(Header(c)) == Some((c.srcPos, |Side(c.lines, IsSrc)|, c.dstPos, |Side(c.lines, IsDst)|))
  {
    hide *;
    HeaderText(c);
    HeaderReads(c.srcPos, |Side(c.lines, IsSrc)|, c.dstPos, |Side(c.lines, IsDst)|, "\n");
  }

  // ---------- What each printed line means ----------

  lemma PrintedRest(prefix: string, text: string)
    requires NewlineFree(text)
    ensures MatchRest(prefix + text + "\n", prefix) == Some(text)
  {
    var line := prefix + text + "\n";
    assert prefix <= line && line[|prefix|..] == text + "\n";
    assert (text + "\n")[..|text|] == text;
  }

  lemma PrefixMismatch(line: string, prefix: string, i: nat)
    requires i < |line| && i < |prefix| && line[i] != prefix[i]
    ensures MatchRest(line, prefix) == None && After(line, prefix) == None
  {
  }

  lemma NameMeaning(prefix: string, name: string)
    requires NewlineFree(name) && (prefix == "--- " || prefix == "+++ ")
    ensures Classify(prefix + name + "\n") == if prefix == "--- " then SrcFile(name) else DstFile(name)
  {
    hide MatchRest, MatchHeader, After;
    PrintedRest(prefix, name);
    if prefix == "+++ " {
      PrefixMismatch(prefix + name + "\n", "--- ", 0);
    }
  }

  lemma HeaderMeaning(c: Chunk)
    ensures Classify(Header(c)) == ChunkStart(c.srcPos, c.dstPos)
  {
    HeaderRoundTrip(c);
    var line := Header(c);
    assert line[0] == '@';
    hide MatchRest, MatchHeader, Header;
    PrefixMismatch(line, "--- ", 0);
    PrefixMismatch(line, "+++ ", 0);
  }

  lemma NotAHeader(line: string)
    requires line != "" && line[0] != '@'
    ensures MatchHeader(line) == None
  {
    PrefixMismatch(line, "@@ -", 0);
  }

  /** A three-character marker behind the first character. */
  lemma MarkerRest(text: string, marker: string, prefix: string, sign: string)
    requires NewlineFree(text) && NewlineFree(marker) && |marker| == 3 && |sign| == 1 && prefix == sign + marker
    ensures MatchRest(sign + text + "\n", prefix).Some? <==> marker <= text
  {
    var line := sign + text + "\n";
    if marker <= text {
      assert line == prefix + text[3..] + "\n";
      PrintedRest(prefix, text[3..]);
    } else if |text| >= 3 {
      assert marker != text[..3];
      var i :| 0 <= i < 3 && marker[i] != text[i];
      assert line[i + 1] == text[i] && prefix[i + 1] == marker[i];
      PrefixMismatch(line, prefix, i + 1);
    } else if |text| == 2 {
      assert line[3] == '\n' && marker[2] in marker && prefix[3] == marker[2];
      PrefixMismatch(line, prefix, 3);
    }
  }

  /** A content line reads back as itself unless it looks like a file header. */
  lemma LineMeaning(l: Line)
    requires NewlineFree(l.text)
    ensures !LooksLikeHeader(l) ==> Classify(WriteLine(l)) == Content(l)
    ensures LooksLikeHeader(l) ==> Classify(WriteLine(l)).SrcFile? || Classify(WriteLine(l)).DstFile?
  {
    hide MatchRest, MatchHeader, After;
    var line := WriteLine(l);
    NotAHeader(line);
    match l.kind {
      case SRC =>
        assert line == "-" + l.text + "\n";
        PrintedRest("-", l.text);
        MarkerRest(l.text, "-- ", "--- ", "-");
        PrefixMismatch(line, "+++ ", 0);
      case DST =>
        assert line == "+" + l.text + "\n";
        PrintedRest("+", l.text);
        MarkerRest(l.text, "++ ", "+++ ", "+");
        PrefixMismatch(line, "--- ", 0);
        PrefixMismatch(line, "-", 0);
      case BOTH =>
        assert line == " " + l.text + "\n";
        PrintedRest(" ", l.text);
        PrefixMismatch(line, "--- ", 0);
        PrefixMismatch(line, "+++ ", 0);
        PrefixMismatch(line, "-", 0);
        PrefixMismatch(line, "+", 0);
    }
  }

  // ---------- Reading a printed patch set ----------

  predicate GoodLines(lines: seq<Line>) {
    lines == [] || (!LooksLikeHeader(lines[0]) && GoodLines(lines[1..]))
  }

  predicate GoodChunks(chunks: seq<Chunk>) {
    chunks == [] || (GoodLines(chunks[0].lines) && GoodChunks(chunks[1..]))
  }

  /** No deleted line starts with "-- " and no added line with "++ ". */
  predicate Good(patches: seq<Patch>) {
    patches == [] || (GoodChunks(patches[0].chunks) && Good(patches[1..]))
  }

  lemma {:induction false} ReadConcat(r: Reader, a: seq<string>, b: seq<string>)
    requires ReaderOk(r)
    ensures ReadAll(r, a + b) == if ReadAll(r, a).Some? then ReadAll(ReadAll(r, a).value, b) else None
    decreases |a|
  {
    if a == [] {
      assert a + b == b;
    } else {
      assert (a + b)[1..] == a[1..] + b;
      if Apply(r, Classify(a[0])).Some? {
        ReadConcat(Apply(r, Classify(a[0])).value, a[1..], b);
      }
    }
  }

  lemma ReadStep(r: Reader, line: string, next: Reader, rest: seq<string>)
    requires ReaderOk(r) && Apply(r, Classify(line)) == Some(next)
    ensures ReadAll(r, [line] + rest) == ReadAll(next, rest)
  {
    assert ([line] + rest)[1..] == rest;
  }

  /** Reading in the last chunk of the last patch. */
  ghost function InChunk(before: seq<Patch>, p: Patch, chunks: seq<Chunk>, c: Chunk): Reader {
    Reader(before + [p.(chunks := chunks + [c])], Some(|before|))
  }

  lemma AddLineStep(before: seq<Patch>, p: Patch, chunks: seq<Chunk>, c: Chunk, l: Line)
    ensures Apply(InChunk(before, p, chunks, c), Content(l)) == Some(InChunk(before, p, chunks, AddLine(c, l)))
  {
    var all := chunks + [c];
    assert all[|chunks| := AddLine(c, l)] == chunks + [AddLine(c, l)];
    var ps := before + [p.(chunks := all)];
    assert ps[|before|] == p.(chunks := all);
    assert ps[|before| := p.(chunks := chunks + [AddLine(c, l)])] == before + [p.(chunks := chunks + [AddLine(c, l)])];
  }

  lemma {:induction false} ReadPrintedLines(before: seq<Patch>, p: Patch, chunks: seq<Chunk>, c: Chunk, lines: seq<Line>)
    requires CleanLines(lines) && GoodLines(lines)
    ensures ReadAll(InChunk(before, p, chunks, c), WriteLines(lines)) ==
            Some(InChunk(before, p, chunks, c.(lines := c.lines + lines)))
    decreases |lines|
  {
    hide InChunk, Classify, Apply, WriteLine, LooksLikeHeader, NewlineFree;
    InChunkOk(before, p, chunks, c);
    if lines == [] {
      assert c.lines + lines == c.lines;
    } else {
      LineMeaning(lines[0]);
      AddLineStep(before, p, chunks, c, lines[0]);
      InChunkOk(before, p, chunks, AddLine(c, lines[0]));
      ReadStep(InChunk(before, p, chunks, c), WriteLine(lines[0]),
               InChunk(before, p, chunks, AddLine(c, lines[0])), WriteLines(lines[1..]));
      ReadPrintedLines(before, p, chunks, AddLine(c, lines[0]), lines[1..]);
      assert c.lines + [lines[0]] + lines[1..] == c.lines + lines;
    }
  }

  lemma InChunkOk(before: seq<Patch>, p: Patch, chunks: seq<Chunk>, c: Chunk)
    ensures ReaderOk(InChunk(before, p, chunks, c))
  {
  }

  /** Reading in the last patch, whose chunks so far are given. */
  ghost function InPatch(before: seq<Patch>, p: Patch, chunks: seq<Chunk>, at: Option<nat>): Reader {
    Reader(before + [p.(chunks := chunks)], at)
  }

  lemma StartChunkStep(before: seq<Patch>, p: Patch, chunks: seq<Chunk>, at: Option<nat>, c: Chunk)
    requires ReaderOk(InPatch(before, p, chunks, at))
    ensures Apply(InPatch(before, p, chunks, at), ChunkStart(c.srcPos, c.dstPos)) ==
            Some(InChunk(before, p, chunks, c.(lines := [])))
  {
    var ps := before + [p.(chunks := chunks)];
    assert ps[|before|] == p.(chunks := chunks);
    var q := p.(chunks := chunks + [c.(lines := [])]);
    assert ps[|before| := q] == before + [q];
  }

  lemma ReadPrintedChunk(before: seq<Patch>, p: Patch, chunks: seq<Chunk>, at: Option<nat>, c: Chunk)
    requires ReaderOk(InPatch(before, p, chunks, at)) && CleanLines(c.lines) && GoodLines(c.lines)
    ensures ReadAll(InPatch(before, p, chunks, at), WriteChunk(c)) ==
            Some(InPatch(before, p, chunks + [c], Some(|before|)))
  {
    hide Classify, Apply, WriteLines, Header, CleanLines, GoodLines, ReadAll;
    HeaderMeaning(c);
    StartChunkStep(before, p, chunks, at, c);
    ReadStep(InPatch(before, p, chunks, at), Header(c), InChunk(before, p, chunks, c.(lines := [])), WriteLines(c.lines));
    ReadPrintedLines(before, p, chunks, c.(lines := []), c.lines);
    assert [] + c.lines == c.lines;
  }

  lemma {:induction false} ReadPrintedChunks(before: seq<Patch>, p: Patch, chunks: seq<Chunk>, at: Option<nat>,
                                             more: seq<Chunk>) returns (end: Option<nat>)
    requires ReaderOk(InPatch(before, p, chunks, at)) && CleanChunks(more) && GoodChunks(more)
    ensures ReaderOk(InPatch(before, p, chunks + more, end))
    ensures ReadAll(InPatch(before, p, chunks, at), WriteChunks(more)) == Some(InPatch(before, p, chunks + more, end))
    decreases |more|
  {
    hide WriteChunk, CleanLines, GoodLines, Classify, Apply;
    if more == [] {
      end := at;
      assert chunks + more == chunks;
    } else {
      var c := more[0];
      ReadPrintedChunk(before, p, chunks, at, c);
      end := ReadPrintedChunks(before, p, chunks + [c], Some(|before|), more[1..]);
      assert chunks + [c] + more[1..] == chunks + more;
      ReadConcat(InPatch(before, p, chunks, at), WriteChunk(c), WriteChunks(more[1..]));
    }
  }

  lemma NamesStep(before: seq<Patch>, at: Option<nat>, p: Patch)
    requires ReaderOk(Reader(before, at)) && NewlineFree(p.src) && NewlineFree(p.dst)
    ensures ReaderOk(InPatch(before, p, [], at))
    ensures ReadAll(Reader(before, at), ["--- " + p.src + "\n", "+++ " + p.dst + "\n"]) == Some(InPatch(before, p, [], at))
  {
    var first, second := "--- " + p.src + "\n", "+++ " + p.dst + "\n";
    NameMeaning("--- ", p.src);
    NameMeaning("+++ ", p.dst);
    var r0, r1 := Reader(before, at), Reader(before + [Patch(p.src, "", [])], at);
    assert r1.patches[|before|] == Patch(p.src, "", []);
    assert r1.patches[|before| := p.(chunks := [])] == before + [p.(chunks := [])];
    assert Apply(r1, DstFile(p.dst)) == Some(InPatch(before, p, [], at));
    ReadStep(r0, first, r1, [second]);
    ReadStep(r1, second, InPatch(before, p, [], at), []);
    assert [first, second] == [first] + [second] && [second] == [second] + [];
  }

  lemma {:induction false} ReadPrintedPatches(before: seq<Patch>, at: Option<nat>, patches: seq<Patch>)
    requires ReaderOk(Reader(before, at)) && Clean(patches) && Good(patches)
    ensures var r := ReadAll(Reader(before, at), WriteAll(patches)); r.Some? && r.value.patches == before + patches
    decreases |patches|
  {
    hide NewlineFree, CleanChunks, GoodChunks, WriteChunks, Classify, Apply;
    if patches == [] {
      assert before + patches == before;
    } else {
      var p := patches[0];
      var names := ["--- " + p.src + "\n", "+++ " + p.dst + "\n"];
      NamesStep(before, at, p);
      var end := ReadPrintedChunks(before, p, [], at, p.chunks);
      assert [] + p.chunks == p.chunks && p.(chunks := p.chunks) == p;
      ReadConcat(Reader(before, at), names, WriteChunks(p.chunks));
      ReadPrintedPatches(before + [p], end, patches[1..]);
      assert before + [p] + patches[1..] == before + patches;
      ReadConcat(Reader(before, at), WritePatch(p), WriteAll(patches[1..]));
    }
  }

  // ---------- What happens to lines that look like file headers ----------

  function ChunkLines(chunks: seq<Chunk>): nat {
    if chunks == [] then 0 else ChunkLines(chunks[..|chunks| - 1]) + |chunks[|chunks| - 1].lines|
  }

  function TotalLines(patches: seq<Patch>): nat {
    if patches == [] then 0 else
      TotalLines(patches[..|patches| - 1]) + ChunkLines(patches[|patches| - 1].chunks)
  }

  function ContentCount(lines: seq<string>): nat {
    if lines == [] then 0 else
      (if Classify(lines[0]).Content? then 1 else 0) + ContentCount(lines[1..])
  }

  lemma {:induction false} ChunkLinesUpdate(chunks: seq<Chunk>, i: nat, c: Chunk)
    requires i < |chunks|
    ensures ChunkLines(chunks[i := c]) + |chunks[i].lines| == ChunkLines(chunks) + |c.lines|
  {
    var front, n := chunks[..|chunks| - 1], |chunks| - 1;
    if i < n {
      ChunkLinesUpdate(front, i, c);
      assert chunks[i := c][..n] == front[i := c];
    } else {
      assert chunks[i := c][..n] == front;
    }
  }

  lemma {:induction false} TotalLinesUpdate(patches: seq<Patch>, i: nat, p: Patch)
    requires i < |patches|
    ensures TotalLines(patches[i := p]) + ChunkLines(patches[i].chunks) == TotalLines(patches) + ChunkLines(p.chunks)
  {
    var front, n := patches[..|patches| - 1], |patches| - 1;
    if i < n {
      TotalLinesUpdate(front, i, p);
      assert patches[i := p][..n] == front[i := p];
    } else {
      assert patches[i := p][..n] == front;
    }
  }

  /** Only content lines add a line, and each adds one. */
  lemma ApplyCounts(r: Reader, m: Meaning)
    requires ReaderOk(r) && Apply(r, m).Some?
    ensures TotalLines(Apply(r, m).value.patches) == TotalLines(r.patches) + if m.Content? then 1 else 0
  {
    var last := |r.patches| - 1;
    match m {
      case SrcFile(name) => assert (r.patches + [Patch(name, "", [])])[..|r.patches|] == r.patches;
      case DstFile(name) => TotalLinesUpdate(r.patches, last, r.patches[last].(dst := name));
      case ChunkStart(srcPos, dstPos) =>
        var p := r.patches[last];
        var chunks := p.chunks + [Chunk(srcPos, dstPos, [])];
        assert chunks[..|p.chunks|] == p.chunks;
        TotalLinesUpdate(r.patches, last, p.(chunks := chunks));
      case Content(line) =>
        var at := r.chunkAt.value;
        var p := r.patches[at];
        ChunkLinesUpdate(p.chunks, |p.chunks| - 1, AddLine(p.chunks[|p.chunks| - 1], line));
        TotalLinesUpdate(r.patches, at, AddToLastChunk(p, line));
      case Unknown =>
    }
  }

  lemma {:induction false} ReadCounts(r: Reader, lines: seq<string>)
    requires ReaderOk(r) && ReadAll(r, lines).Some?
    ensures TotalLines(ReadAll(r, lines).value.patches) == TotalLines(r.patches) + ContentCount(lines)
    decreases |lines|
  {
    hide TotalLines, Apply, Classify;
    if lines != [] {
      ApplyCounts(r, Classify(lines[0]));
      ReadCounts(Apply(r, Classify(lines[0])).value, lines[1..]);
    }
  }

  function BadLines(lines: seq<Line>): nat {
    if lines == [] then 0 else (if LooksLikeHeader(lines[0]) then 1 else 0) + BadLines(lines[1..])
  }

  function BadInChunks(chunks: seq<Chunk>): nat {
    if chunks == [] then 0 else BadLines(chunks[0].lines) + BadInChunks(chunks[1..])
  }

  function BadInPatches(patches: seq<Patch>): nat {
    if patches == [] then 0 else BadInChunks(patches[0].chunks) + BadInPatches(patches[1..])
  }

  lemma {:induction false} ContentConcat(a: seq<string>, b: seq<string>)
    ensures ContentCount(a + b) == ContentCount(a) + ContentCount(b)
    decreases |a|
  {
    if a == [] {
      assert a + b == b;
    } else {
      assert (a + b)[1..] == a[1..] + b;
      ContentConcat(a[1..], b);
    }
  }

  lemma {:induction false} ChunkLinesFront(chunks: seq<Chunk>)
    requires chunks != []
    ensures ChunkLines(chunks) == |chunks[0].lines| + ChunkLines(chunks[1..])
  {
    if |chunks| > 1 {
      ChunkLinesFront(chunks[..|chunks| - 1]);
      assert chunks[..|chunks| - 1][1..] == chunks[1..][..|chunks| - 2];
    } else {
      assert chunks[..0] == [] && chunks[1..] == [];
    }
  }

  lemma {:induction false} TotalLinesFront(patches: seq<Patch>)
    requires patches != []
    ensures TotalLines(patches) == ChunkLines(patches[0].chunks) + TotalLines(patches[1..])
  {
    if |patches| > 1 {
      TotalLinesFront(patches[..|patches| - 1]);
      assert patches[..|patches| - 1][1..] == patches[1..][..|patches| - 2];
    } else {
      assert patches[..0] == [] && patches[1..] == [];
    }
  }

  lemma {:induction false} PrintedLinesCount(lines: seq<Line>)
    requires CleanLines(lines)
    ensures ContentCount(WriteLines(lines)) + BadLines(lines) == |lines|
    ensures GoodLines(lines) <==> BadLines(lines) == 0
  {
    hide Classify, WriteLine, LooksLikeHeader, NewlineFree;
    if lines != [] {
      LineMeaning(lines[0]);
      PrintedLinesCount(lines[1..]);
    }
  }

  lemma {:induction false} PrintedChunksCount(chunks: seq<Chunk>)
    requires CleanChunks(chunks)
    ensures ContentCount(WriteChunks(chunks)) + BadInChunks(chunks) == ChunkLines(chunks)
    ensures GoodChunks(chunks) <==> BadInChunks(chunks) == 0
  {
    hide Classify, Header, CleanLines, GoodLines, BadLines, WriteLines;
    if chunks != [] {
      var c := chunks[0];
      HeaderMeaning(c);
      PrintedLinesCount(c.lines);
      PrintedChunksCount(chunks[1..]);
      ChunkLinesFront(chunks);
      ContentConcat([Header(c)], WriteLines(c.lines));
      ContentConcat(WriteChunk(c), WriteChunks(chunks[1..]));
    }
  }

  lemma NamesCount(p: Patch)
    requires NewlineFree(p.src) && NewlineFree(p.dst)
    ensures ContentCount(["--- " + p.src + "\n", "+++ " + p.dst + "\n"]) == 0
  {
    hide Classify, NewlineFree;
    NameMeaning("--- ", p.src);
    NameMeaning("+++ ", p.dst);
    var first, second := "--- " + p.src + "\n", "+++ " + p.dst + "\n";
    assert [first, second][1..] == [second] && [second][1..] == [];
    assert ContentCount([second]) == 0;
  }

  lemma {:induction false} PrintedPatchesCount(patches: seq<Patch>)
    requires Clean(patches)
    ensures ContentCount(WriteAll(patches)) + BadInPatches(patches) == TotalLines(patches)
    ensures Good(patches) <==> BadInPatches(patches) == 0
  {
    hide Classify, NewlineFree, CleanChunks, GoodChunks, BadInChunks, WriteChunks;
    if patches != [] {
      var p := patches[0];
      NamesCount(p);
      PrintedChunksCount(p.chunks);
      PrintedPatchesCount(patches[1..]);
      TotalLinesFront(patches);
      ContentConcat(["--- " + p.src + "\n", "+++ " + p.dst + "\n"], WriteChunks(p.chunks));
      ContentConcat(WritePatch(p), WriteAll(patches[1..]));
    }
  }

  /**
   * Parsing undoes printing exactly when no deleted line starts with "-- " and no added line
   * with "++ ".
   */
  lemma RoundTripIffGood(patches: seq<Patch>)
    requires Clean(patches)
    ensures ParseSpec(WriteAll(patches)) == Some(patches) <==> Good(patches)
  {
    if Good(patches) {
      ReadPrintedPatches([], None, patches);
      assert [] + patches == patches;
    }
    if ParseSpec(WriteAll(patches)) == Some(patches) {
      ReadCounts(Reader([], None), WriteAll(patches));
      PrintedPatchesCount(patches);
    }
  }

  lemma OneBadChunk(c: Chunk)
    requires !GoodLines(c.lines)
    ensures !GoodChunks([c])
  {
    hide GoodLines;
    assert [c][0] == c;
  }

  /** Deleting the line "-- x" prints as a file header and is lost. */
  lemma DeletedHeaderIsBad()
    ensures LooksLikeHeader(Line(SRC, "-- x")) && NewlineFree("-- x")
  {
    assert "-- " <= "-- x";
  }

  lemma DeletedHeaderExample()
    ensures var p := [Patch("a", "b", [Chunk(1, 1, [Line(SRC, "-- x")])])];
            Clean(p) && !Good(p) && ParseSpec(WriteAll(p)) != Some(p)
  {
    hide ParseSpec, WriteAll, LooksLikeHeader;
    var l := Line(SRC, "-- x");
    var chunks := [Chunk(1, 1, [l])];
    var p := [Patch("a", "b", chunks)];
    DeletedHeaderIsBad();
    assert LooksLikeHeader([l][0]) && !GoodLines([l]);
    assert chunks[0].lines == [l];
    assert CleanLines([]) && CleanChunks([]) && Clean([]);
    assert [l][1..] == [] && chunks[1..] == [] && p[1..] == [];
    assert CleanLines([l]) && CleanChunks(chunks);
    OneBadChunk(chunks[0]);
    assert p[0].chunks == chunks;
    RoundTripIffGood(p);
  }

  // ---------- Which inputs the parser rejects ----------

  /** At most the last character is a newline. */
  predicate SingleLine(line: string) {
    forall i :: 0 <= i < |line| - 1 ==> line[i] != '\n'
  }

  predicate IsMarked(line: string) {
    line != "" && (line[0] == '-' || line[0] == '+' || line[0] == ' ')
  }

  lemma MarkedRest(line: string, c: char)
    ensures MatchRest(line, [c]).Some? <==> line != "" && line[0] == c && SingleLine(line[1..])
  {
    if line != "" && line[0] == c {
      assert [c] <= line;
      var rest := line[1..];
      var text := if rest != "" && rest[|rest| - 1] == '\n' then rest[..|rest| - 1] else rest;
      if SingleLine(rest) {
        assert forall i :: 0 <= i < |text| ==> text[i] == rest[i];
      } else {
        var i :| 0 <= i < |rest| - 1 && rest[i] == '\n';
        assert text[i] == '\n';
      }
    }
  }

  lemma FileHeaderIsMarked(line: string, prefix: string)
    requires |prefix| > 1 && MatchRest(line, prefix).Some? && '\n' !in prefix
    ensures line != "" && line[0] == prefix[0] && SingleLine(line)
  {
    var rest := line[|prefix|..];
    assert line == prefix + rest;
    MatchedIsSingle(line, prefix);
    forall i | 0 <= i < |line| - 1
      ensures line[i] != '\n'
    {
      if i >= |prefix| { assert line[i] == rest[i - |prefix|]; }
    }
  }

  lemma MatchedIsSingle(line: string, prefix: string)
    requires MatchRest(line, prefix).Some?
    ensures prefix <= line && SingleLine(line[|prefix|..])
  {
    var rest := line[|prefix|..];
    var text := if rest != "" && rest[|rest| - 1] == '\n' then rest[..|rest| - 1] else rest;
    assert forall i :: 0 <= i < |text| ==> rest[i] == text[i];
  }

  /** A line is understood iff it is a hunk header, or one line that starts with a marker. */
  lemma UnknownIff(line: string)
    ensures Classify(line).Unknown? <==> MatchHeader(line).None? && !(IsMarked(line) && SingleLine(line[1..]))
  {
    hide MatchRest, MatchHeader, SingleLine;
    MarkedRest(line, '-');
    MarkedRest(line, '+');
    MarkedRest(line, ' ');
    if MatchRest(line, "--- ").Some? {
      FileHeaderIsMarked(line, "--- ");
      TailIsSingle(line);
    }
    if MatchRest(line, "+++ ").Some? {
      FileHeaderIsMarked(line, "+++ ");
      TailIsSingle(line);
    }
  }

  lemma TailIsSingle(line: string)
    requires line != "" && SingleLine(line)
    ensures SingleLine(line[1..])
  {
  }

  predicate PatchBefore(lines: seq<string>, i: nat)
    requires i <= |lines|
  {
    exists j :: 0 <= j < i && Classify(lines[j]).SrcFile?
  }

  predicate ChunkBefore(lines: seq<string>, i: nat)
    requires i <= |lines|
  {
    exists j :: 0 <= j < i && Classify(lines[j]).ChunkStart?
  }

  /** Line i is not understood, or comes before what it belongs to. */
  predicate FailsAt(lines: seq<string>, i: nat, hasPatch: bool, hasChunk: bool)
    requires i < |lines|
  {
    match Classify(lines[i])
    case Unknown => true
    case DstFile(_) => !hasPatch && !PatchBefore(lines, i)
    case ChunkStart(_, _) => !hasPatch && !PatchBefore(lines, i)
    case Content(_) => !hasChunk && !ChunkBefore(lines, i)
    case SrcFile(_) => false
  }

  lemma BeforeShift(lines: seq<string>, i: nat)
    requires i < |lines| - 1
    ensures PatchBefore(lines, i + 1) <==> Classify(lines[0]).SrcFile? || PatchBefore(lines[1..], i)
    ensures ChunkBefore(lines, i + 1) <==> Classify(lines[0]).ChunkStart? || ChunkBefore(lines[1..], i)
  {
    hide Classify;
    var rest := lines[1..];
    if PatchBefore(lines, i + 1) {
      var j :| 0 <= j < i + 1 && Classify(lines[j]).SrcFile?;
      assert j > 0 ==> rest[j - 1] == lines[j];
    }
    if ChunkBefore(lines, i + 1) {
      var j :| 0 <= j < i + 1 && Classify(lines[j]).ChunkStart?;
      assert j > 0 ==> rest[j - 1] == lines[j];
    }
    assert forall j :: 0 <= j < i ==> rest[j] == lines[j + 1];
  }

  lemma FailsShift(lines: seq<string>, i: nat, hasPatch: bool, hasChunk: bool)
    requires i < |lines| - 1
    ensures FailsAt(lines, i + 1, hasPatch, hasChunk) <==>
            FailsAt(lines[1..], i, hasPatch || Classify(lines[0]).SrcFile?, hasChunk || Classify(lines[0]).ChunkStart?)
  {
    hide Classify, PatchBefore, ChunkBefore;
    BeforeShift(lines, i);
  }

  lemma FailsFirst(r: Reader, lines: seq<string>)
    requires ReaderOk(r) && lines != []
    ensures Apply(r, Classify(lines[0])).None? <==> FailsAt(lines, 0, r.patches != [], r.chunkAt.Some?)
    ensures Apply(r, Classify(lines[0])).Some? ==>
              var next := Apply(r, Classify(lines[0])).value;
              && (next.patches != [] <==> r.patches != [] || Classify(lines[0]).SrcFile?)
              && (next.chunkAt.Some? <==> r.chunkAt.Some? || Classify(lines[0]).ChunkStart?)
  {
    hide Classify;
  }

  predicate SomeLineFails(lines: seq<string>, hasPatch: bool, hasChunk: bool) {
    exists i :: 0 <= i < |lines| && FailsAt(lines, i, hasPatch, hasChunk)
  }

  lemma SomeFailsStep(lines: seq<string>, hasPatch: bool, hasChunk: bool)
    requires lines != []
    ensures SomeLineFails(lines, hasPatch, hasChunk) <==>
            || FailsAt(lines, 0, hasPatch, hasChunk)
            || SomeLineFails(lines[1..], hasPatch || Classify(lines[0]).SrcFile?,
                             hasChunk || Classify(lines[0]).ChunkStart?)
  {
    hide Classify, FailsAt;
    var patch, chunk := hasPatch || Classify(lines[0]).SrcFile?, hasChunk || Classify(lines[0]).ChunkStart?;
    if SomeLineFails(lines, hasPatch, hasChunk) && !FailsAt(lines, 0, hasPatch, hasChunk) {
      var i :| 0 <= i < |lines| && FailsAt(lines, i, hasPatch, hasChunk);
      FailsShift(lines, i - 1, hasPatch, hasChunk);
      assert FailsAt(lines[1..], i - 1, patch, chunk);
    }
    if SomeLineFails(lines[1..], patch, chunk) {
      var i :| 0 <= i < |lines[1..]| && FailsAt(lines[1..], i, patch, chunk);
      FailsShift(lines, i, hasPatch, hasChunk);
    }
  }

  lemma {:induction false} ReadFailsIff(r: Reader, lines: seq<string>)
    requires ReaderOk(r)
    ensures ReadAll(r, lines).None? <==> SomeLineFails(lines, r.patches != [], r.chunkAt.Some?)
    decreases |lines|
  {
    hide Classify, Apply, FailsAt, ReaderOk, SomeLineFails;
    if lines != [] {
      FailsFirst(r, lines);
      SomeFailsStep(lines, r.patches != [], r.chunkAt.Some?);
      var first := Apply(r, Classify(lines[0]));
      if first.Some? { ReadFailsIff(first.value, lines[1..]); }
    } else {
      NothingFails(r.patches != [], r.chunkAt.Some?);
    }
  }

  lemma NothingFails(hasPatch: bool, hasChunk: bool)
    ensures !SomeLineFails([], hasPatch, hasChunk)
  {
  }

  /**
   * Parsing fails exactly if some line is not understood, or a destination name or a hunk header comes
   * before any source name, or a content line before any hunk header.
   */
  lemma ParseFailsIff(lines: seq<string>)
    ensures ParseSpec(lines).None? <==> exists i :: 0 <= i < |lines| && FailsAt(lines, i, false, false)
  {
    hide FailsAt, ReadAll;
    ReadFailsIff(Reader([], None), lines);
  }

  // ---------- An example ----------

  lemma ContentReads(l: Line)
    requires NewlineFree(l.text) && !LooksLikeHeader(l)
    ensures Classify(WriteLine(l)) == Content(l)
  {
    hide *;
    LineMeaning(l);
  }

  lemma HeaderWithMeaning(a: nat, b: nat, d: nat, e: nat, rest: string)
    ensures Classify(HeaderWith(a, b, d, e, rest)) == ChunkStart(a, d)
  {
    var line := HeaderWith(a, b, d, e, rest);
    HeaderReads(a, b, d, e, rest);
    assert line[0] == '@';
    hide MatchRest, MatchHeader, HeaderWith;
    PrefixMismatch(line, "--- ", 0);
    PrefixMismatch(line, "+++ ", 0);
  }

  lemma ExampleLines()
    ensures Classify("--- a\n") == SrcFile("a") && Classify("+++ b\n") == DstFile("b")
    ensures Classify("@@ -3,9 +4,9 @@ f()\n") == ChunkStart(3, 4)
    ensures Classify("-x \n") == Content(Line(SRC, "x ")) && Classify("+y\n") == Content(Line(DST, "y"))
    ensures Classify(" z\n") == Content(Line(BOTH, "z"))
  {
    hide Classify;
    NameMeaning("--- ", "a");
    NameMeaning("+++ ", "b");
    assert "--- " + "a" + "\n" == "--- a\n" && "+++ " + "b" + "\n" == "+++ b\n";
    HeaderWithMeaning(3, 9, 4, 9, " f()\n");
    assert Decimal(3) == "3" && Decimal(4) == "4" && Decimal(9) == "9";
    assert HeaderWith(3, 9, 4, 9, " f()\n") == "@@ -3,9 +4,9 @@ f()\n";
    ContentReads(Line(SRC, "x "));
    ContentReads(Line(DST, "y"));
    ContentReads(Line(BOTH, "z"));
    assert "-" + "x " + "\n" == "-x \n" && "+" + "y" + "\n" == "+y\n" && " " + "z" + "\n" == " z\n";
  }

  lemma ReadThree(r: Reader, s: string, t: string, u: string, r1: Reader, r2: Reader, r3: Reader)
    requires ReaderOk(r) && Apply(r, Classify(s)) == Some(r1) && Apply(r1, Classify(t)) == Some(r2)
    requires Apply(r2, Classify(u)) == Some(r3)
    ensures ReadAll(r, [s, t, u]) == Some(r3)
  {
    hide Classify, Apply;
    ReadStep(r, s, r1, [t, u]);
    ReadStep(r1, t, r2, [u]);
    ReadStep(r2, u, r3, []);
    assert [s] + [t, u] == [s, t, u] && [t] + [u] == [t, u] && [u] + [] == [u];
  }

  /** What one small patch reads as; the numbers of lines and the function name are not looked at. */
  lemma ReadExample()
    ensures ParseSpec(["--- a\n", "+++ b\n", "@@ -3,9 +4,9 @@ f()\n", "-x \n", "+y\n", " z\n"]) ==
            Some([Patch("a", "b", [Chunk(3, 4, [Line(SRC, "x "), Line(DST, "y"), Line(BOTH, "z")])])])
  {
    hide Classify, Apply, ReadAll;
    ExampleLines();
    var x, y, z := Line(SRC, "x "), Line(DST, "y"), Line(BOTH, "z");
    ReadInChunk("--- a\n", "+++ b\n", "@@ -3,9 +4,9 @@ f()\n", ["-x \n", "+y\n", " z\n"], "a", "b", 3, 4);
    assert [] + [x] == [x] && [x] + [y] == [x, y] && [x, y] + [z] == [x, y, z];
    ContentStep("a", "b", Chunk(3, 4, []), x);
    ContentStep("a", "b", Chunk(3, 4, [x]), y);
    ContentStep("a", "b", Chunk(3, 4, [x, y]), z);
    ReadThree(ReaderIn("a", "b", Chunk(3, 4, [])), "-x \n", "+y\n", " z\n", ReaderIn("a", "b", Chunk(3, 4, [x])),
              ReaderIn("a", "b", Chunk(3, 4, [x, y])), ReaderIn("a", "b", Chunk(3, 4, [x, y, z])));
    SixLines("--- a\n", "+++ b\n", "@@ -3,9 +4,9 @@ f()\n", "-x \n", "+y\n", " z\n");
  }

  lemma SixLines(a: string, b: string, c: string, d: string, e: string, f: string)
    ensures [a, b, c] + [d, e, f] == [a, b, c, d, e, f]
  {
  }

  ghost function ReaderIn(a: string, b: string, c: Chunk): (r: Reader)
    ensures ReaderOk(r)
  {
    Reader([Patch(a, b, [c])], Some(0))
  }

  lemma OneReplaced<T>(p: T, q: T)
    ensures [p][0 := q] == [q]
  {
  }

  lemma ContentStep(a: string, b: string, c: Chunk, l: Line)
    ensures Apply(ReaderIn(a, b, c), Content(l)) == Some(ReaderIn(a, b, AddLine(c, l)))
  {
    OneReplaced(c, AddLine(c, l));
    OneReplaced(Patch(a, b, [c]), Patch(a, b, [AddLine(c, l)]));
  }

  /** The three lines that open a first hunk. */
  lemma ReadInChunk(src: string, dst: string, header: string, rest: seq<string>, a: string, b: string, i: nat, j: nat)
    requires Classify(src) == SrcFile(a) && Classify(dst) == DstFile(b) && Classify(header) == ChunkStart(i, j)
    ensures ReadAll(Reader([], None), [src, dst, header] + rest) ==
            ReadAll(ReaderIn(a, b, Chunk(i, j, [])), rest)
  {
    hide Classify;
    var r0, r1 := Reader([], None), Reader([Patch(a, "", [])], None);
    var r2, r3 := Reader([Patch(a, b, [])], None), Reader([Patch(a, b, [Chunk(i, j, [])])], Some(0));
    assert Apply(r0, SrcFile(a)) == Some(r1) by { assert [] + [Patch(a, "", [])] == [Patch(a, "", [])]; }
    assert Apply(r1, DstFile(b)) == Some(r2) by { OneReplaced(r1.patches[0], r2.patches[0]); }
    assert Apply(r2, ChunkStart(i, j)) == Some(r3) by {
      assert [] + [Chunk(i, j, [])] == [Chunk(i, j, [])];
      OneReplaced(r2.patches[0], r3.patches[0]);
    }
    ReadStep(r0, src, r1, [dst] + ([header] + rest));
    ReadStep(r1, dst, r2, [header] + rest);
    ReadStep(r2, header, r3, rest);
    assert [src, dst, header] + rest == [src] + ([dst] + ([header] + rest));
  }

  /** A content line behind a new source name still goes to the last hunk of the patch before. */
  lemma StaleChunkExample()
    ensures ParseSpec(["--- a\n", "+++ b\n", "@@ -3,9 +4,9 @@ f()\n", "--- a\n", "+y\n"]) ==
            Some([Patch("a", "b", [Chunk(3, 4, [Line(DST, "y")])]), Patch("a", "", [])])
  {
    hide Classify, ReadAll;
    ExampleLines();
    var y := Line(DST, "y");
    var c, c' := Chunk(3, 4, []), Chunk(3, 4, [y]);
    var p, p', q := Patch("a", "b", [c]), Patch("a", "b", [c']), Patch("a", "", []);
    ReadInChunk("--- a\n", "+++ b\n", "@@ -3,9 +4,9 @@ f()\n", ["--- a\n", "+y\n"], "a", "b", 3, 4);
    var r0, r1, r2 := ReaderIn("a", "b", c), Reader([p, q], Some(0)), Reader([p', q], Some(0));
    assert Apply(r0, SrcFile("a")) == Some(r1) by { assert [p] + [q] == [p, q]; }
    assert Apply(r1, Content(y)) == Some(r2) by {
      assert [] + [y] == [y] && [p, q][0 := p'] == [p', q];
      OneReplaced(c, c');
    }
    ReadStep(r0, "--- a\n", r1, ["+y\n"]);
    ReadStep(r1, "+y\n", r2, []);
    ReadNothing(r2);
    assert ["--- a\n"] + ["+y\n"] == ["--- a\n", "+y\n"] && ["+y\n"] + [] == ["+y\n"];
    assert ["--- a\n", "+++ b\n", "@@ -3,9 +4,9 @@ f()\n"] + ["--- a\n", "+y\n"] ==
           ["--- a\n", "+++ b\n", "@@ -3,9 +4,9 @@ f()\n", "--- a\n", "+y\n"];
  }

  lemma ReadNothing(r: Reader)
    requires ReaderOk(r)
    ensures ReadAll(r, []) == Some(r)
  {
  }
}
