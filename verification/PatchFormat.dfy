/** Unified-diff patches: the line-by-line parser and the printer. */
module PatchFormat {
  import opened Wrappers

  datatype Kind = SRC | DST | BOTH

  datatype Line = Line(kind: Kind, text: string)

  datatype Chunk = Chunk(srcPos: nat, dstPos: nat, lines: seq<Line>)

  datatype Patch = Patch(src: string, dst: string, chunks: seq<Chunk>)

  predicate IsSrc(l: Line) {
    l.kind == SRC || l.kind == BOTH
  }

  predicate IsDst(l: Line) {
    l.kind == DST || l.kind == BOTH
  }

  /** The lines of one side, in order. */
  function Side(lines: seq<Line>, wanted: Line -> bool): seq<Line> {
    if lines == [] then [] else
      Side(lines[..|lines| - 1], wanted) + if wanted(lines[|lines| - 1]) then [lines[|lines| - 1]] else []
  }

  // ---------- Decimal numbers ----------

  predicate IsDigit(c: char) {
    '0' <= c <= '9'
  }

  function Decimal(n: nat): string {
    if n < 10 then [('0' as int + n) as char] else Decimal(n / 10) + [('0' as int + n % 10) as char]
  }

  function NumberOf(digits: string): nat
    requires forall i :: 0 <= i < |digits| ==> IsDigit(digits[i])
  {
    if digits == "" then 0 else
      assert IsDigit(digits[|digits| - 1]);
      NumberOf(digits[..|digits| - 1]) * 10 + (digits[|digits| - 1] as int - '0' as int)
  }

  function DigitCount(s: string): (n: nat)
    ensures n <= |s| && forall i :: 0 <= i < n ==> IsDigit(s[i])
  {
    if s == "" || !IsDigit(s[0]) then 0 else 1 + DigitCount(s[1..])
  }

  // ---------- The parser's regular expressions ----------

  /** What is left of s behind a literal prefix. */
  function After(s: string, literal: string): Option<string> {
    if literal <= s then Some(s[|literal|..]) else None
  }

  /** A prefix and the rest of a single line, whose final newline is not matched. */
  function MatchRest(line: string, prefix: string): Option<string> {
    match After(line, prefix)
    case None => None
    case Some(rest) =>
      var text := if rest != "" && rest[|rest| - 1] == '\n' then rest[..|rest| - 1] else rest;
      if '\n' in text then None else Some(text)
  }

  /** A number of at least one digit, with what follows it. */
  function MatchNumber(s: string): Option<(nat, string)> {
    var n := DigitCount(s);
    if n == 0 then None else Some((NumberOf(s[..n]), s[n..]))
  }

  function MatchNumberThen(s: string, literal: string): Option<(nat, string)> {
    match MatchNumber(s)
    case None => None
    case Some((n, rest)) =>
      match After(rest, literal)
      case None => None
      case Some(more) => Some((n, more))
  }

  /** The four numbers of a chunk header. */
  function MatchHeader(line: string): Option<(nat, nat, nat, nat)> {
    match After(line, "@@ -")
    case None => None
    case Some(s) =>
      match MatchNumberThen(s, ",")
      case None => None
      case Some((a, s)) =>
        match MatchNumberThen(s, " +")
        case None => None
        case Some((b, s)) =>
          match MatchNumberThen(s, ",")
          case None => None
          case Some((c, s)) =>
            match MatchNumberThen(s, " @@")
            case None => None
            case Some((d, _)) => Some((a, b, c, d))
  }

  // ---------- Reading one line ----------

  datatype Meaning =
    | SrcFile(name: string)
    | DstFile(name: string)
    | ChunkStart(srcPos: nat, dstPos: nat)
    | Content(line: Line)
    | Unknown

  /** The expressions are tried in the parser's order. */
  function Classify(line: string): Meaning {
    if MatchRest(line, "--- ").Some? then SrcFile(MatchRest(line, "--- ").value)
    else if MatchRest(line, "+++ ").Some? then DstFile(MatchRest(line, "+++ ").value)
    else if MatchHeader(line).Some? then ChunkStart(MatchHeader(line).value.0, MatchHeader(line).value.2)
    else if MatchRest(line, "-").Some? then Content(Line(SRC, MatchRest(line, "-").value))
    else if MatchRest(line, "+").Some? then Content(Line(DST, MatchRest(line, "+").value))
    else if MatchRest(line, " ").Some? then Content(Line(BOTH, MatchRest(line, " ").value))
    else Unknown
  }

  /**
   * The patches so far. The current patch is the last one; the current chunk is the last chunk of
   * patch number chunkAt, which need not be the current patch.
   */
  datatype Reader = Reader(patches: seq<Patch>, chunkAt: Option<nat>)

  predicate ReaderOk(r: Reader) {
    r.chunkAt.Some? ==> r.chunkAt.value < |r.patches| && r.patches[r.chunkAt.value].chunks != []
  }

  function AddLine(c: Chunk, l: Line): Chunk {
    c.(lines := c.lines + [l])
  }

  function AddToLastChunk(p: Patch, l: Line): Patch
    requires p.chunks != []
  {
    var last := |p.chunks| - 1;
    p.(chunks := p.chunks[last := AddLine(p.chunks[last], l)])
  }

  /** None stands for the exceptions: no current patch or chunk yet, or an unknown line. */
  function Apply(r: Reader, m: Meaning): Option<Reader>
    requires ReaderOk(r)
    ensures Apply(r, m).Some? ==> ReaderOk(Apply(r, m).value)
  {
    var last := |r.patches| - 1;
    match m
    case SrcFile(name) => Some(r.(patches := r.patches + [Patch(name, "", [])]))
    case DstFile(name) =>
      if r.patches == [] then None
      else Some(r.(patches := r.patches[last := r.patches[last].(dst := name)]))
    case ChunkStart(srcPos, dstPos) =>
      if r.patches == [] then None else
        var p := r.patches[last];
        Some(Reader(r.patches[last := p.(chunks := p.chunks + [Chunk(srcPos, dstPos, [])])], Some(last)))
    case Content(line) =>
      if r.chunkAt.None? then None else
        var at := r.chunkAt.value;
        Some(r.(patches := r.patches[at := AddToLastChunk(r.patches[at], line)]))
    case Unknown => None
  }

  function ReadAll(r: Reader, lines: seq<string>): Option<Reader>
    requires ReaderOk(r)
    ensures ReadAll(r, lines).Some? ==> ReaderOk(ReadAll(r, lines).value)
    decreases |lines|
  {
    if lines == [] then Some(r) else
      match Apply(r, Classify(lines[0]))
      case None => None
      case Some(next) => ReadAll(next, lines[1..])
  }

  function ParseSpec(lines: seq<string>): Option<seq<Patch>> {
    match ReadAll(Reader([], None), lines)
    case None => None
    case Some(r) => Some(r.patches)
  }

  /** The parser loop; None where the original raises. */
  method ParsePatchset(generator: seq<string>) returns (result: Option<seq<Patch>>)
    ensures result == ParseSpec(generator)
  {
    hide MatchRest, MatchHeader, AddToLastChunk;
    var patchset: seq<Patch> := [];
    var currentPatch := -1;
    var chunkAt: Option<nat> := None;
    for i := 0 to |generator|
      invariant currentPatch == |patchset| - 1
      invariant ReaderOk(Reader(patchset, chunkAt))
      invariant ReadAll(Reader([], None), generator) == ReadAll(Reader(patchset, chunkAt), generator[i..])
    {
      var line := generator[i];
      assert generator[i..][1..] == generator[i + 1..];
      var m := MatchRest(line, "--- ");
      if m.Some? {
        patchset := patchset + [Patch(m.value, "", [])];
        currentPatch := |patchset| - 1;
        continue;
      }
      m := MatchRest(line, "+++ ");
      if m.Some? {
        if currentPatch < 0 {
          return None;
        }
        patchset := patchset[currentPatch := patchset[currentPatch].(dst := m.value)];
        continue;
      }
      var h := MatchHeader(line);
      if h.Some? {
        if currentPatch < 0 {
          return None;
        }
        var p := patchset[currentPatch];
        patchset := patchset[currentPatch := p.(chunks := p.chunks + [Chunk(h.value.0, h.value.2, [])])];
        chunkAt := Some(currentPatch);
        continue;
      }
      var kind := SRC;
      m := MatchRest(line, "-");
      if m.None? {
        kind := DST;
        m := MatchRest(line, "+");
      }
      if m.None? {
        kind := BOTH;
        m := MatchRest(line, " ");
      }
      if m.None? || chunkAt.None? {
        return None;
      }
      patchset := patchset[chunkAt.value := AddToLastChunk(patchset[chunkAt.value], Line(kind, m.value))];
    }
    assert generator[|generator|..] == [];
    return Some(patchset);
  }

  // ---------- The printer ----------

  function WriteLine(l: Line): string {
    (match l.kind case SRC => "-" case DST => "+" case BOTH => " ") + l.text + "\n"
  }

  function WriteLines(lines: seq<Line>): seq<string> {
    if lines == [] then [] else [WriteLine(lines[0])] + WriteLines(lines[1..])
  }

  function Header(c: Chunk): string {
    "@@ -" + Decimal(c.srcPos) + "," + Decimal(|Side(c.lines, IsSrc)|) +
    " +" + Decimal(c.dstPos) + "," + Decimal(|Side(c.lines, IsDst)|) + " @@\n"
  }

  function WriteChunk(c: Chunk): seq<string> {
    [Header(c)] + WriteLines(c.lines)
  }

  function WriteChunks(chunks: seq<Chunk>): seq<string> {
    if chunks == [] then [] else WriteChunk(chunks[0]) + WriteChunks(chunks[1..])
  }

  function WritePatch(p: Patch): seq<string> {
    ["--- " + p.src + "\n", "+++ " + p.dst + "\n"] + WriteChunks(p.chunks)
  }

  function WriteAll(patches: seq<Patch>): seq<string> {
    if patches == [] then [] else WritePatch(patches[0]) + WriteAll(patches[1..])
  }
}
