/**
 * The in-place rewrite that takes back removals of a trailing blank. Lines are objects, and a
 * line of both sides is one object seen from two lists.
 */
module TrailingWhitespace {
  import opened Wrappers
  import opened PatchFormat
  import opened Sequences

  class PatchChunkLine {
    const kind: Kind
    var text: string

    constructor (kind: Kind, text: string)
      ensures this.kind == kind && this.text == text
    {
      this.kind, this.text := kind, text;
    }

    method AppendToLine(s: string)
      modifies this`text
      ensures text == old(text) + s
    {
      text := text + s;
    }

    predicate IsSrc()
    {
      kind == SRC || kind == BOTH
    }

    predicate IsDst()
    {
      kind == DST || kind == BOTH
    }
  }

  predicate IsBlank(c: char) {
    c == ' ' || c == '\t'
  }

  /** A line as its text before the last blank, and that blank. */
  function MatchTrailing(line: string): Option<(string, string)> {
    var text := if line != "" && line[|line| - 1] == '\n' then line[..|line| - 1] else line;
    if text == "" || '\n' in text || !IsBlank(text[|text| - 1]) then None
    else Some((text[..|text| - 1], [text[|text| - 1]]))
  }

  /** The destination text after it has been compared with its source text. */
  function Restored(src: string, dst: string): string {
    var m := MatchTrailing(src);
    if m.Some? && m.value.0 == dst then dst + m.value.1 else dst
  }

  /** src(): the lines of the source side, as the objects they are. */
  function Src(lines: seq<PatchChunkLine>): (side: seq<PatchChunkLine>)
    ensures forall i :: 0 <= i < |side| ==> side[i] in lines && side[i].IsSrc()
    ensures forall i :: 0 <= i < |lines| && lines[i].IsSrc() ==> lines[i] in side
  {
    if lines == [] then [] else
      Src(lines[..|lines| - 1]) + if lines[|lines| - 1].IsSrc() then [lines[|lines| - 1]] else []
  }

  function Dst(lines: seq<PatchChunkLine>): (side: seq<PatchChunkLine>)
    ensures forall i :: 0 <= i < |side| ==> side[i] in lines && side[i].IsDst()
    ensures forall i :: 0 <= i < |lines| && lines[i].IsDst() ==> lines[i] in side
  {
    if lines == [] then [] else
      Dst(lines[..|lines| - 1]) + if lines[|lines| - 1].IsDst() then [lines[|lines| - 1]] else []
  }

  lemma {:induction false} DstDistinct(lines: seq<PatchChunkLine>)
    requires Distinct(lines)
    ensures Distinct(Dst(lines))
  {
    if lines != [] {
      var front, last := lines[..|lines| - 1], lines[|lines| - 1];
      DstDistinct(front);
      assert last !in front;
    }
  }

  type Texts = map<PatchChunkLine, string>

  ghost function TextsOf(lines: seq<PatchChunkLine>): (t: Texts)
    reads lines
    ensures forall i :: 0 <= i < |lines| ==> lines[i] in t && t[lines[i]] == lines[i].text
    ensures t.Keys == ToSet(lines)
  {
    map l | l in lines :: l.text
  }

  ghost predicate Covers(t: Texts, lines: seq<PatchChunkLine>) {
    forall l :: l in lines ==> l in t
  }

  /** A line of both sides that would be extended because of another source line. */
  ghost predicate Hazard(t: Texts, src: seq<PatchChunkLine>, dst: seq<PatchChunkLine>, i: nat)
    requires i < |src| && i < |dst| && Covers(t, src) && Covers(t, dst)
  {
    dst[i].IsSrc() && dst[i] != src[i] && Restored(t[src[i]], t[dst[i]]) != t[dst[i]]
  }

  ghost function Shorter(src: seq<PatchChunkLine>, dst: seq<PatchChunkLine>): nat {
    if |src| <= |dst| then |src| else |dst|
  }

  ghost predicate NoHazard(t: Texts, src: seq<PatchChunkLine>, dst: seq<PatchChunkLine>, n: nat)
    requires n <= |src| && n <= |dst| && Covers(t, src) && Covers(t, dst)
  {
    forall i :: 0 <= i < n ==> !Hazard(t, src, dst, i)
  }

  ghost predicate SameTexts(before: Texts, after: Texts, lines: seq<PatchChunkLine>)
    requires Covers(before, lines) && Covers(after, lines)
  {
    forall i :: 0 <= i < |lines| ==> after[lines[i]] == before[lines[i]]
  }

  predicate GainsBlank(before: string, after: string) {
    after == before || exists c :: IsBlank(c) && after == before + [c]
  }

  lemma RestoredAdds(src: string, dst: string)
    ensures GainsBlank(dst, Restored(src, dst))
  {
    var m := MatchTrailing(src);
    if m.Some? && m.value.0 == dst {
      var c := m.value.1[0];
      assert IsBlank(c) && Restored(src, dst) == dst + [c];
    }
  }

  lemma RestoredMeans(src: string, dst: string)
    ensures var m := MatchTrailing(src);
            Restored(src, dst) == if m.Some? && m.value.0 == dst then dst + m.value.1 else dst
    ensures src == dst ==> Restored(src, dst) == dst
  {
  }

  /**
   * A destination line is extended by a character exactly if that is a space or a tab and the source line
   * is the destination line with it, up to a final newline.
   */
  lemma ExtendedBy(src: string, dst: string, c: char)
    ensures Restored(src, dst) == dst + [c] <==>
            (c == ' ' || c == '\t') && '\n' !in dst && (src == dst + [c] || src == dst + [c] + "\n")
  {
    var text := if src != "" && src[|src| - 1] == '\n' then src[..|src| - 1] else src;
    if text != "" {
      assert text == text[..|text| - 1] + [text[|text| - 1]];
      assert src == text || src == text + "\n";
    }
    if (c == ' ' || c == '\t') && '\n' !in dst && (src == dst + [c] || src == dst + [c] + "\n") {
      assert text == dst + [c];
      assert text[..|text| - 1] == dst;
    }
    assert |dst + [c]| != |dst|;
  }

  /** Otherwise it stays. */
  lemma ExtendedOrNot(src: string, dst: string)
    ensures Restored(src, dst) == dst || exists c :: Restored(src, dst) == dst + [c]
  {
    RestoredAdds(src, dst);
  }

  /** Blanks and tabs alike, but only the last one of several. */
  lemma ExtendedExamples()
    ensures Restored("a ", "a") == "a " && Restored("a\t", "a") == "a\t" && Restored("a \t", "a ") == "a \t"
    ensures Restored("a  ", "a") == "a" && Restored("ab", "a") == "a"
  {
    hide Restored;
    ExtendedBy("a ", "a", ' ');
    ExtendedBy("a\t", "a", '\t');
    ExtendedBy("a \t", "a ", '\t');
    NotExtended("a  ", "a");
    NotExtended("ab", "a");
  }

  lemma NotExtended(src: string, dst: string)
    requires || |src| > |dst| + 2
             || (|src| == |dst| + 1 && !IsBlank(src[|dst|]))
             || (|src| == |dst| + 2 && src[|dst| + 1] != '\n')
    ensures Restored(src, dst) == dst
  {
    hide Restored;
    ExtendedOrNot(src, dst);
    forall c
      ensures Restored(src, dst) != dst + [c]
    {
      ExtendedBy(src, dst, c);
    }
  }

  /** Every line gains at most one blank, and only destination lines compared so far gain any. */
  ghost predicate OnlyBlanksGained(before: Texts, after: Texts, dst: seq<PatchChunkLine>, n: nat)
    requires n <= |dst|
  {
    && after.Keys == before.Keys
    && (forall l :: l in before ==> GainsBlank(before[l], after[l]))
    && (forall l :: l in before && l !in dst[..n] ==> after[l] == before[l])
  }

  /**
   * The effect of comparing the first n source lines with their partners: without a hazard, exactly
   * the blanks of the source lines come back; and the source side keeps its text iff there is no hazard.
   */
  ghost predicate Compared(before: Texts, after: Texts, src: seq<PatchChunkLine>, dst: seq<PatchChunkLine>, n: nat)
    requires Covers(before, src) && Covers(before, dst)
  {
    && n <= |src| && n <= |dst|
    && OnlyBlanksGained(before, after, dst, n)
    && (NoHazard(before, src, dst, n) ==>
          forall i :: 0 <= i < n ==> after[dst[i]] == Restored(before[src[i]], before[dst[i]]))
    && (SameTexts(before, after, src) <==> NoHazard(before, src, dst, n))
  }

  lemma NothingCompared(t: Texts, src: seq<PatchChunkLine>, dst: seq<PatchChunkLine>)
    requires Covers(t, src) && Covers(t, dst)
    ensures Compared(t, t, src, dst, 0)
  {
  }

  lemma NextUnchanged(before: Texts, after: Texts, dst: seq<PatchChunkLine>, n: nat)
    requires Distinct(dst) && n < |dst| && Covers(before, dst) && OnlyBlanksGained(before, after, dst, n)
    ensures dst[n] !in dst[..n] && dst[n] in after && after[dst[n]] == before[dst[n]]
  {
    assert dst[n] in dst;
  }

  lemma OnlyBlanksNext(before: Texts, after: Texts, dst: seq<PatchChunkLine>, n: nat, text: string)
    requires Distinct(dst) && n < |dst| && Covers(before, dst) && OnlyBlanksGained(before, after, dst, n)
    requires GainsBlank(before[dst[n]], text)
    ensures OnlyBlanksGained(before, after[dst[n] := text], dst, n + 1)
  {
    hide GainsBlank;
    NextUnchanged(before, after, dst, n);
    assert dst[..n + 1] == dst[..n] + [dst[n]];
    assert after[dst[n] := text].Keys == after.Keys;
  }

  lemma NoHazardNext(before: Texts, after: Texts, src: seq<PatchChunkLine>, dst: seq<PatchChunkLine>, n: nat,
                     text: string)
    requires Covers(before, src) && Covers(before, dst) && Distinct(dst)
    requires forall l :: l in dst && l.IsSrc() ==> l in src
    requires forall l :: l in src ==> l.IsSrc()
    requires Compared(before, after, src, dst, n) && n < |src| && n < |dst|
    requires NoHazard(before, src, dst, n)
    requires text == Restored(before[src[n]], before[dst[n]])
    ensures Compared(before, after[dst[n] := text], src, dst, n + 1)
  {
    hide Restored, GainsBlank, Distinct;
    var s, d := src[n], dst[n];
    NextUnchanged(before, after, dst, n);
    RestoredMeans(before[s], before[d]);
    RestoredAdds(before[s], before[d]);
    OnlyBlanksNext(before, after, dst, n, text);
    forall i | 0 <= i < n
      ensures dst[i] != d
    {
      assert dst[..n][i] == dst[i];
    }
    var next := after[d := text];
    if Hazard(before, src, dst, n) {
      assert d in dst && d in src;
      var k :| 0 <= k < |src| && src[k] == d;
      assert next[src[k]] != before[src[k]];
      assert !SameTexts(before, next, src);
    } else {
      NoHazardExtends(before, src, dst, n);
      assert SameTexts(before, next, src);
    }
  }

  lemma NoHazardExtends(t: Texts, src: seq<PatchChunkLine>, dst: seq<PatchChunkLine>, n: nat)
    requires n < |src| && n < |dst| && Covers(t, src) && Covers(t, dst)
    ensures NoHazard(t, src, dst, n + 1) <==> NoHazard(t, src, dst, n) && !Hazard(t, src, dst, n)
  {
  }

  lemma HazardNext(before: Texts, after: Texts, src: seq<PatchChunkLine>, dst: seq<PatchChunkLine>, n: nat,
                   text: string)
    requires Covers(before, src) && Covers(before, dst) && Distinct(dst)
    requires Compared(before, after, src, dst, n) && n < |src| && n < |dst|
    requires !NoHazard(before, src, dst, n)
    requires GainsBlank(before[dst[n]], text)
    ensures Compared(before, after[dst[n] := text], src, dst, n + 1)
  {
    hide Restored, GainsBlank, Hazard;
    OnlyBlanksNext(before, after, dst, n, text);
    NextUnchanged(before, after, dst, n);
    NoHazardExtends(before, src, dst, n);
    var next := after[dst[n] := text];
    var k :| 0 <= k < |src| && after[src[k]] != before[src[k]];
    assert src[k] in src && src[k] != dst[n];
    assert next[src[k]] != before[src[k]];
  }

  /** One comparison, whatever happened before. */
  lemma ComparedNext(before: Texts, after: Texts, src: seq<PatchChunkLine>, dst: seq<PatchChunkLine>, n: nat)
    requires Covers(before, src) && Covers(before, dst) && Distinct(dst)
    requires forall l :: l in dst && l.IsSrc() ==> l in src
    requires forall l :: l in src ==> l.IsSrc()
    requires Compared(before, after, src, dst, n) && n < |src| && n < |dst|
    requires src[n] in after && dst[n] in after
    ensures Compared(before, after[dst[n] := Restored(after[src[n]], after[dst[n]])], src, dst, n + 1)
  {
    hide Restored, GainsBlank, Distinct;
    NextUnchanged(before, after, dst, n);
    RestoredAdds(after[src[n]], before[dst[n]]);
    if NoHazard(before, src, dst, n) {
      assert after[src[n]] == before[src[n]];
      NoHazardNext(before, after, src, dst, n, Restored(after[src[n]], after[dst[n]]));
    } else {
      HazardNext(before, after, src, dst, n, Restored(after[src[n]], after[dst[n]]));
    }
  }

  /** Extend d by the blank that s has in front of its end, if that is all they differ in. */
  method RestoreLine(s: PatchChunkLine, d: PatchChunkLine)
    modifies d`text
    ensures d.text == Restored(old(s.text), old(d.text))
  {
    var m := MatchTrailing(s.text);
    if m.Some? && m.value.0 == d.text {
      d.AppendToLine(m.value.1);
    }
  }

  lemma SidesOfHunk(lines: seq<PatchChunkLine>)
    requires Distinct(lines)
    ensures Distinct(Dst(lines))
    ensures forall l :: l in Src(lines) <==> l in lines && l.IsSrc()
    ensures forall l :: l in Dst(lines) <==> l in lines && l.IsDst()
  {
    DstDistinct(lines);
  }

  /** The comparison loop of one hunk; stopped tells whether it ended with an index error. */
  method RestoreHunk(lines: seq<PatchChunkLine>) returns (stopped: bool)
    requires Distinct(lines)
    modifies lines
    ensures stopped <==> |Dst(lines)| < |Src(lines)|
    ensures Covers(old(TextsOf(lines)), Src(lines)) && Covers(old(TextsOf(lines)), Dst(lines))
    ensures Compared(old(TextsOf(lines)), TextsOf(lines), Src(lines), Dst(lines), Shorter(Src(lines), Dst(lines)))
  {
    hide Compared, Src, Dst, Restored, Distinct;
    var src, dst := Src(lines), Dst(lines);
    ghost var before := TextsOf(lines);
    SidesOfHunk(lines);
    NothingCompared(before, src, dst);
    stopped := false;
    var i := 0;
    while i < |src|
      invariant i <= |src| && i <= |dst|
      invariant !stopped
      invariant Compared(before, TextsOf(lines), src, dst, i)
    {
      if i >= |dst| {
        stopped := true;
        break;
      }
      ghost var now := TextsOf(lines);
      assert src[i] in src && dst[i] in dst;
      RestoreLine(src[i], dst[i]);
      assert TextsOf(lines) == now[dst[i] := Restored(now[src[i]], now[dst[i]])];
      ComparedNext(before, now, src, dst, i);
      i := i + 1;
    }
  }

  // ---------- Hunks whose shared lines are aligned ----------

  /** Every line of both sides is at the same position of both. */
  ghost predicate Aligned(src: seq<PatchChunkLine>, dst: seq<PatchChunkLine>) {
    forall i, j :: 0 <= i < |src| && 0 <= j < |dst| && src[i] == dst[j] ==> i == j
  }

  /** Aligned hunks have no hazard, so their source side is left alone. */
  lemma AlignedHasNoHazard(t: Texts, lines: seq<PatchChunkLine>)
    requires Covers(t, Src(lines)) && Covers(t, Dst(lines)) && Aligned(Src(lines), Dst(lines))
    ensures NoHazard(t, Src(lines), Dst(lines), Shorter(Src(lines), Dst(lines)))
  {
    var src, dst := Src(lines), Dst(lines);
    forall i | 0 <= i < Shorter(src, dst)
      ensures !Hazard(t, src, dst, i)
    {
      if dst[i].IsSrc() {
        assert dst[i] in dst && dst[i] in src;
        var j :| 0 <= j < |src| && src[j] == dst[i];
      }
    }
  }

  // ---------- The whole patch set ----------

  /** Different hunks share no line object. */
  ghost predicate SeparateHunks(hunks: seq<seq<PatchChunkLine>>) {
    && (forall h :: 0 <= h < |hunks| ==> Distinct(hunks[h]))
    && (forall g, h :: 0 <= g < h < |hunks| ==> ToSet(hunks[g]) !! ToSet(hunks[h]))
  }

  /** One hunk compared to its end, or to the end of its destination side. */
  ghost predicate HunkCompared(before: Texts, after: Texts, lines: seq<PatchChunkLine>) {
    && Covers(before, Src(lines)) && Covers(before, Dst(lines))
    && Compared(before, after, Src(lines), Dst(lines), Shorter(Src(lines), Dst(lines)))
  }

  ghost predicate StopsAt(lines: seq<PatchChunkLine>) {
    |Dst(lines)| < |Src(lines)|
  }

  lemma HunkIsCompared(before: Texts, after: Texts, lines: seq<PatchChunkLine>, stopped: bool)
    requires Covers(before, Src(lines)) && Covers(before, Dst(lines)) && (stopped <==> |Dst(lines)| < |Src(lines)|)
    requires Compared(before, after, Src(lines), Dst(lines), Shorter(Src(lines), Dst(lines)))
    ensures HunkCompared(before, after, lines) && (stopped <==> StopsAt(lines))
  {
  }

  /**
   * The hunks of all patches in order, up to the first one with fewer destination than source
   * lines: those are compared, and the hunks behind it keep every line.
   */
  method RestoreHunks(hunks: seq<seq<PatchChunkLine>>) returns (compared: nat)
    requires SeparateHunks(hunks)
    modifies set h, l | 0 <= h < |hunks| && l in hunks[h] :: l
    ensures compared <= |hunks|
    ensures forall h :: 0 <= h < compared ==> HunkCompared(old(TextsOf(hunks[h])), TextsOf(hunks[h]), hunks[h])
    ensures forall h :: compared <= h < |hunks| ==> TextsOf(hunks[h]) == old(TextsOf(hunks[h]))
    ensures forall h :: 0 <= h < compared - 1 ==> !StopsAt(hunks[h])
    ensures compared < |hunks| ==> compared > 0 && StopsAt(hunks[compared - 1])
  {
    hide Src, Dst, Compared, HunkCompared, StopsAt, Distinct, Covers;
    compared := 0;
    while compared < |hunks|
      invariant compared <= |hunks|
      invariant forall h :: 0 <= h < compared ==> HunkCompared(old(TextsOf(hunks[h])), TextsOf(hunks[h]), hunks[h])
      invariant forall h :: compared <= h < |hunks| ==> TextsOf(hunks[h]) == old(TextsOf(hunks[h]))
      invariant forall h :: 0 <= h < compared ==> !StopsAt(hunks[h])
    {
      label Before:
      var stopped := RestoreHunk(hunks[compared]);
      HunkIsCompared(old(TextsOf(hunks[compared])), TextsOf(hunks[compared]), hunks[compared], stopped);
      forall h | 0 <= h < |hunks| && h != compared
        ensures TextsOf(hunks[h]) == old@Before(TextsOf(hunks[h]))
      {
        assert ToSet(hunks[h]) !! ToSet(hunks[compared]);
        forall l | l in hunks[h]
          ensures l.text == old@Before(l.text)
        {
          assert l in ToSet(hunks[h]);
        }
      }
      compared := compared + 1;
      if stopped {
        return;
      }
    }
  }

  // ---------- From the parsed patch set to the returned one ----------

  /** All hunks of a patch set, in the order of the pass. */
  function Chunks(patches: seq<Patch>): seq<Chunk> {
    if patches == [] then [] else patches[0].chunks + Chunks(patches[1..])
  }

  /** The patch set with other hunks in the same places. */
  function WithChunks(patches: seq<Patch>, chunks: seq<Chunk>): seq<Patch>
    requires |chunks| == |Chunks(patches)|
  {
    if patches == [] then [] else
      var n := |patches[0].chunks|;
      [patches[0].(chunks := chunks[..n])] + WithChunks(patches[1..], chunks[n..])
  }

  lemma {:induction false} ChunksReplaced(patches: seq<Patch>, chunks: seq<Chunk>)
    requires |chunks| == |Chunks(patches)|
    ensures Chunks(WithChunks(patches, chunks)) == chunks
  {
    if patches != [] {
      var n := |patches[0].chunks|;
      ChunksReplaced(patches[1..], chunks[n..]);
      assert chunks == chunks[..n] + chunks[n..];
      assert WithChunks(patches, chunks)[1..] == WithChunks(patches[1..], chunks[n..]);
    }
  }

  /** The line values of line objects with the given texts. */
  ghost function LinesOf(lines: seq<PatchChunkLine>, t: Texts): (values: seq<Line>)
    requires Covers(t, lines)
    ensures |values| == |lines|
    ensures forall i :: 0 <= i < |lines| ==> values[i] == Line(lines[i].kind, t[lines[i]])
  {
    seq(|lines|, i requires 0 <= i < |lines| => Line(lines[i].kind, t[lines[i]]))
  }

  /** Kinds stay, lines gain at most one blank, and deleted lines none: so the printed counts stay. */
  predicate SameShape(before: seq<Line>, after: seq<Line>) {
    && |after| == |before|
    && forall i :: 0 <= i < |before| ==>
         && after[i].kind == before[i].kind
         && GainsBlank(before[i].text, after[i].text)
         && (before[i].kind == SRC ==> after[i] == before[i])
  }

  /** Every line of both sides has as many source lines as destination lines in front of it. */
  predicate LinesAligned(lines: seq<Line>) {
    forall p :: 0 <= p < |lines| && lines[p].kind == BOTH ==>
      |Side(lines[..p], IsSrc)| == |Side(lines[..p], IsDst)|
  }

  /** Destination line i once it has been compared with source line i, if there is one. */
  function RestoredAt(src: seq<Line>, dst: seq<Line>, i: nat): Line
    requires i < |dst|
  {
    if i < |src| then dst[i].(text := Restored(src[i].text, dst[i].text)) else dst[i]
  }

  /** In an aligned hunk the source side stays, and exactly its trailing blanks come back. */
  predicate HunkRewritten(before: seq<Line>, after: seq<Line>) {
    && SameShape(before, after)
    && (LinesAligned(before) ==>
          var src, dst := Side(before, IsSrc), Side(before, IsDst);
          && Side(after, IsSrc) == src
          && Side(after, IsDst) == seq(|dst|, i requires 0 <= i < |dst| => RestoredAt(src, dst, i)))
  }

  lemma SidesCovered(lines: seq<PatchChunkLine>, t: Texts)
    requires Covers(t, lines)
    ensures Covers(t, Src(lines)) && Covers(t, Dst(lines))
  {
  }

  /** The sides, one line more. */
  lemma SidesUnfold(lines: seq<PatchChunkLine>)
    requires lines != []
    ensures var front, last := lines[..|lines| - 1], lines[|lines| - 1];
            && Src(lines) == Src(front) + (if last.IsSrc() then [last] else [])
            && Dst(lines) == Dst(front) + (if last.IsDst() then [last] else [])
  {
  }

  lemma SideUnfold(lines: seq<Line>, wanted: Line -> bool)
    requires lines != []
    ensures Side(lines, wanted) ==
            Side(lines[..|lines| - 1], wanted) + if wanted(lines[|lines| - 1]) then [lines[|lines| - 1]] else []
  {
  }

  lemma LinesOfAppend(front: seq<PatchChunkLine>, more: seq<PatchChunkLine>, t: Texts)
    requires Covers(t, front) && Covers(t, more) && Covers(t, front + more)
    ensures LinesOf(front + more, t) == LinesOf(front, t) + LinesOf(more, t)
  {
  }

  lemma OneLineOf(l: PatchChunkLine, t: Texts)
    requires l in t
    ensures Covers(t, [l]) && LinesOf([l], t) == [Line(l.kind, t[l])]
    ensures Covers(t, []) && LinesOf([], t) == []
    ensures IsSrc(Line(l.kind, t[l])) == l.IsSrc() && IsDst(Line(l.kind, t[l])) == l.IsDst()
  {
  }

  lemma LastLine(lines: seq<PatchChunkLine>, t: Texts)
    requires Covers(t, lines) && lines != []
    ensures var n := |lines| - 1;
            && lines[n] in t && Covers(t, lines[..n])
            && LinesOf(lines, t)[..n] == LinesOf(lines[..n], t)
            && LinesOf(lines, t)[n] == Line(lines[n].kind, t[lines[n]])
  {
  }

  lemma NoSides(t: Texts)
    ensures Src([]) == [] && Dst([]) == [] && Side([], IsSrc) == [] && Side([], IsDst) == []
  {
  }

  lemma {:induction false} SidesOfLines(lines: seq<PatchChunkLine>, t: Texts)
    requires Covers(t, lines)
    ensures Covers(t, Src(lines)) && Covers(t, Dst(lines))
    ensures Side(LinesOf(lines, t), IsSrc) == LinesOf(Src(lines), t)
    ensures Side(LinesOf(lines, t), IsDst) == LinesOf(Dst(lines), t)
  {
    hide *;
    SidesCovered(lines, t);
    if lines == [] {
      NoSides(t);
      assert LinesOf(lines, t) == [];
    } else {
      var front, last := lines[..|lines| - 1], lines[|lines| - 1];
      LastLine(lines, t);
      SidesOfLines(front, t);
      SidesUnfold(lines);
      SideUnfold(LinesOf(lines, t), IsSrc);
      SideUnfold(LinesOf(lines, t), IsDst);
      OneLineOf(last, t);
      LinesOfAppend(Src(front), if last.IsSrc() then [last] else [], t);
      LinesOfAppend(Dst(front), if last.IsDst() then [last] else [], t);
    }
  }

  /** Where a line stands on its sides. */
  lemma {:induction false} PlaceOnSides(lines: seq<PatchChunkLine>, p: nat)
    requires p < |lines|
    ensures lines[p].IsSrc() ==> |Src(lines[..p])| < |Src(lines)| && Src(lines)[|Src(lines[..p])|] == lines[p]
    ensures lines[p].IsDst() ==> |Dst(lines[..p])| < |Dst(lines)| && Dst(lines)[|Dst(lines[..p])|] == lines[p]
    decreases |lines|
  {
    if p < |lines| - 1 {
      var front := lines[..|lines| - 1];
      PlaceOnSides(front, p);
      assert front[..p] == lines[..p];
    }
  }

  lemma {:induction false} SrcDistinct(lines: seq<PatchChunkLine>)
    requires Distinct(lines)
    ensures Distinct(Src(lines))
  {
    if lines != [] {
      var front, last := lines[..|lines| - 1], lines[|lines| - 1];
      SrcDistinct(front);
      assert last !in front;
    }
  }

  lemma SharedLineAligned(lines: seq<PatchChunkLine>, t: Texts, p: nat)
    requires Covers(t, lines) && LinesAligned(LinesOf(lines, t)) && p < |lines| && lines[p].kind == BOTH
    ensures |Src(lines[..p])| == |Dst(lines[..p])|
  {
    hide Side, Src, Dst;
    assert Covers(t, lines[..p]);
    SidesOfLines(lines[..p], t);
    assert LinesOf(lines, t)[..p] == LinesOf(lines[..p], t);
    assert LinesOf(lines, t)[p].kind == BOTH;
  }

  lemma OnePlace<T>(s: seq<T>, i: nat, k: nat)
    requires Distinct(s) && i < |s| && k < |s| && s[i] == s[k]
    ensures i == k
  {
  }

  lemma MemberOfSides(lines: seq<PatchChunkLine>, i: nat, j: nat) returns (p: nat)
    requires i < |Src(lines)| && j < |Dst(lines)| && Src(lines)[i] == Dst(lines)[j]
    ensures p < |lines| && lines[p] == Src(lines)[i] && lines[p].kind == BOTH && lines[p].IsSrc() && lines[p].IsDst()
  {
    hide Src, Dst;
    p :| 0 <= p < |lines| && lines[p] == Src(lines)[i];
  }

  lemma AlignedObjects(lines: seq<PatchChunkLine>, t: Texts)
    requires Covers(t, lines) && Distinct(lines) && LinesAligned(LinesOf(lines, t))
    ensures Aligned(Src(lines), Dst(lines))
  {
    hide Side, LinesOf, LinesAligned, Distinct, Src, Dst, Covers;
    SrcDistinct(lines);
    DstDistinct(lines);
    forall i, j | 0 <= i < |Src(lines)| && 0 <= j < |Dst(lines)| && Src(lines)[i] == Dst(lines)[j]
      ensures i == j
    {
      var p := MemberOfSides(lines, i, j);
      PlaceOnSides(lines, p);
      SharedLineAligned(lines, t, p);
      OnePlace(Src(lines), i, |Src(lines[..p])|);
      OnePlace(Dst(lines), j, |Dst(lines[..p])|);
    }
  }

  lemma RewrittenShape(before: Texts, after: Texts, lines: seq<PatchChunkLine>)
    requires HunkCompared(before, after, lines) && Covers(before, lines)
    ensures Covers(after, lines) && SameShape(LinesOf(lines, before), LinesOf(lines, after))
  {
    hide GainsBlank, NoHazard, Restored;
    forall i | 0 <= i < |lines| && lines[i].kind == SRC
      ensures after[lines[i]] == before[lines[i]]
    {
      assert lines[i] !in Dst(lines);
    }
  }

  lemma AlignedRewritten(before: Texts, after: Texts, lines: seq<PatchChunkLine>)
    requires HunkCompared(before, after, lines) && Covers(before, lines) && Covers(after, lines) && Distinct(lines)
    requires Aligned(Src(lines), Dst(lines))
    ensures SameTexts(before, after, Src(lines))
    ensures forall i :: 0 <= i < |Dst(lines)| ==>
              after[Dst(lines)[i]] ==
              if i < |Src(lines)| then Restored(before[Src(lines)[i]], before[Dst(lines)[i]]) else before[Dst(lines)[i]]
  {
    hide GainsBlank, Restored, Hazard;
    var src, dst := Src(lines), Dst(lines);
    AlignedHasNoHazard(before, lines);
    DstDistinct(lines);
    forall i | |src| <= i < |dst|
      ensures after[dst[i]] == before[dst[i]]
    {
      assert dst[i] in dst;
      assert dst[i] !in dst[..|src|];
    }
  }

  /** What one compared hunk comes to, told without objects. */
  lemma ComparedIsRewritten(before: Texts, after: Texts, lines: seq<PatchChunkLine>)
    requires HunkCompared(before, after, lines) && Covers(before, lines) && Distinct(lines)
    ensures Covers(after, lines) && HunkRewritten(LinesOf(lines, before), LinesOf(lines, after))
  {
    hide HunkCompared, SameShape, LinesAligned, Side, Restored, Aligned, Src, Dst;
    RewrittenShape(before, after, lines);
    SidesOfLines(lines, before);
    SidesOfLines(lines, after);
    if LinesAligned(LinesOf(lines, before)) {
      AlignedObjects(lines, before);
      AlignedRewritten(before, after, lines);
    }
  }

  /** How many hunks the pass compares: it ends behind the first with too few destination lines. */
  function ComparedHunks(chunks: seq<Chunk>): (n: nat)
    ensures n <= |chunks|
  {
    if chunks == [] then 0
    else if |Side(chunks[0].lines, IsDst)| < |Side(chunks[0].lines, IsSrc)| then 1
    else 1 + ComparedHunks(chunks[1..])
  }

  ghost predicate StopsShort(c: Chunk) {
    |Side(c.lines, IsDst)| < |Side(c.lines, IsSrc)|
  }

  lemma {:induction false} ComparedHunksIs(chunks: seq<Chunk>, n: nat)
    requires n <= |chunks|
    requires forall h :: 0 <= h < n - 1 ==> !StopsShort(chunks[h])
    requires n < |chunks| ==> n > 0 && StopsShort(chunks[n - 1])
    ensures n == ComparedHunks(chunks)
  {
    hide Side;
    if chunks != [] && n > 1 {
      assert chunks[1..][n - 2] == chunks[n - 1];
      forall h | 0 <= h < n - 2
        ensures !StopsShort(chunks[1..][h])
      {
        assert chunks[1..][h] == chunks[h + 1];
      }
      assert !StopsShort(chunks[0]);
      ComparedHunksIs(chunks[1..], n - 1);
    }
  }

  /** What the pass makes of the hunks: positions stay, and only compared hunks change. */
  ghost predicate PassResult(before: seq<Chunk>, after: seq<Chunk>) {
    && |after| == |before|
    && forall h :: 0 <= h < |before| ==> ChunkResult(before[h], after[h], h < ComparedHunks(before))
  }

  ghost predicate ChunkResult(before: Chunk, after: Chunk, compared: bool) {
    && after.srcPos == before.srcPos && after.dstPos == before.dstPos
    && if compared then HunkRewritten(before.lines, after.lines) else after.lines == before.lines
  }

  lemma {:induction false} SameCounts(before: seq<Line>, after: seq<Line>)
    requires |after| == |before| && forall i :: 0 <= i < |before| ==> after[i].kind == before[i].kind
    ensures |Side(after, IsSrc)| == |Side(before, IsSrc)| && |Side(after, IsDst)| == |Side(before, IsDst)|
  {
    if before != [] {
      SameCounts(before[..|before| - 1], after[..|after| - 1]);
    }
  }

  /** Printed, every hunk keeps its header, and an aligned hunk keeps its whole source side. */
  lemma PassKeepsSource(before: seq<Chunk>, after: seq<Chunk>, h: nat)
    requires PassResult(before, after) && h < |before|
    ensures Header(after[h]) == Header(before[h])
    ensures LinesAligned(before[h].lines) ==> Side(after[h].lines, IsSrc) == Side(before[h].lines, IsSrc)
  {
    hide Side, LinesAligned, RestoredAt, Decimal, GainsBlank;
    assert ChunkResult(before[h], after[h], h < ComparedHunks(before));
    SameCounts(before[h].lines, after[h].lines);
  }

  ghost predicate FreshHunk(lines: seq<PatchChunkLine>, values: seq<Line>)
    reads lines
  {
    Distinct(lines) && LinesOf(lines, TextsOf(lines)) == values
  }

  /** One new line object per line. */
  method NewLines(values: seq<Line>) returns (lines: seq<PatchChunkLine>)
    ensures forall l :: l in lines ==> fresh(l)
    ensures FreshHunk(lines, values)
  {
    lines := [];
    for i := 0 to |values|
      invariant forall l :: l in lines ==> fresh(l)
      invariant |lines| == i && Distinct(lines)
      invariant forall j :: 0 <= j < i ==> lines[j].kind == values[j].kind && lines[j].text == values[j].text
    {
      var l := new PatchChunkLine(values[i].kind, values[i].text);
      lines := lines + [l];
    }
  }

  /** Line objects for all hunks, none in two of them. */
  method NewHunks(chunks: seq<Chunk>) returns (hunks: seq<seq<PatchChunkLine>>)
    ensures forall h, l :: 0 <= h < |hunks| && l in hunks[h] ==> fresh(l)
    ensures SeparateHunks(hunks) && |hunks| == |chunks|
    ensures forall h :: 0 <= h < |hunks| ==> FreshHunk(hunks[h], chunks[h].lines)
  {
    hide LinesOf;
    hunks := [];
    for i := 0 to |chunks|
      invariant forall h, l :: 0 <= h < |hunks| && l in hunks[h] ==> fresh(l)
      invariant SeparateHunks(hunks) && |hunks| == i
      invariant forall h :: 0 <= h < |hunks| ==> FreshHunk(hunks[h], chunks[h].lines)
    {
      var lines := NewLines(chunks[i].lines);
      hunks := hunks + [lines];
    }
  }

  method ReadLines(lines: seq<PatchChunkLine>) returns (values: seq<Line>)
    ensures values == LinesOf(lines, TextsOf(lines))
  {
    values := [];
    for i := 0 to |lines|
      invariant |values| == i
      invariant forall j :: 0 <= j < i ==> values[j] == Line(lines[j].kind, lines[j].text)
    {
      values := values + [Line(lines[i].kind, lines[i].text)];
    }
  }

  ghost function AllTexts(hunks: seq<seq<PatchChunkLine>>): (texts: seq<Texts>)
    reads set h, l | 0 <= h < |hunks| && l in hunks[h] :: l
    ensures |texts| == |hunks| && forall h :: 0 <= h < |hunks| ==> texts[h] == TextsOf(hunks[h])
  {
    if hunks == [] then [] else AllTexts(hunks[..|hunks| - 1]) + [TextsOf(hunks[|hunks| - 1])]
  }

  ghost predicate ReadBack(hunks: seq<seq<PatchChunkLine>>, texts: seq<Texts>, before: seq<Chunk>, after: seq<Chunk>) {
    && |hunks| == |texts| == |before| == |after|
    && forall h :: 0 <= h < |hunks| ==>
         Covers(texts[h], hunks[h]) && after[h] == before[h].(lines := LinesOf(hunks[h], texts[h]))
  }

  method ReadHunks(hunks: seq<seq<PatchChunkLine>>, chunks: seq<Chunk>) returns (after: seq<Chunk>)
    requires |hunks| == |chunks|
    ensures ReadBack(hunks, AllTexts(hunks), chunks, after)
  {
    hide LinesOf;
    after := [];
    for h := 0 to |hunks|
      invariant |after| == h
      invariant forall g :: 0 <= g < h ==> after[g] == chunks[g].(lines := LinesOf(hunks[g], TextsOf(hunks[g])))
    {
      var lines := ReadLines(hunks[h]);
      after := after + [chunks[h].(lines := lines)];
    }
  }

  /** A hunk's result from what its objects were and are. */
  lemma ChunkFromObjects(lines: seq<PatchChunkLine>, before: Texts, after: Texts, chunk: Chunk, compared: bool)
    requires Distinct(lines) && Covers(before, lines) && Covers(after, lines) && LinesOf(lines, before) == chunk.lines
    requires if compared then HunkCompared(before, after, lines) else after == before
    ensures ChunkResult(chunk, chunk.(lines := LinesOf(lines, after)), compared)
    ensures StopsAt(lines) <==> StopsShort(chunk)
  {
    hide HunkCompared, HunkRewritten;
    SidesOfLines(lines, before);
    if compared { ComparedIsRewritten(before, after, lines); }
  }

  ghost predicate PassedOver(hunks: seq<seq<PatchChunkLine>>, before: seq<Texts>, after: seq<Texts>, compared: nat) {
    && |before| == |after| == |hunks| && compared <= |hunks|
    && (forall h :: 0 <= h < |hunks| ==>
          if h < compared then HunkCompared(before[h], after[h], hunks[h]) else after[h] == before[h])
    && (forall h :: 0 <= h < compared - 1 ==> !StopsAt(hunks[h]))
    && (compared < |hunks| ==> compared > 0 && StopsAt(hunks[compared - 1]))
  }

  lemma PassFromObjects(hunks: seq<seq<PatchChunkLine>>, before: seq<Texts>, after: seq<Texts>, compared: nat,
                        chunks: seq<Chunk>, result: seq<Chunk>)
    requires SeparateHunks(hunks) && PassedOver(hunks, before, after, compared)
    requires ReadBack(hunks, before, chunks, chunks) && ReadBack(hunks, after, chunks, result)
    ensures PassResult(chunks, result)
  {
    hide ChunkResult, HunkCompared, StopsAt, StopsShort, LinesOf, Covers, Distinct, ComparedHunks;
    forall h | 0 <= h < |hunks|
      ensures ChunkResult(chunks[h], result[h], h < compared) && (StopsAt(hunks[h]) <==> StopsShort(chunks[h]))
    {
      ChunkFromObjects(hunks[h], before[h], after[h], chunks[h], h < compared);
    }
    ComparedHunksIs(chunks, compared);
  }

  lemma FreshReadsBack(hunks: seq<seq<PatchChunkLine>>, chunks: seq<Chunk>)
    requires |hunks| == |chunks| && forall h :: 0 <= h < |hunks| ==> FreshHunk(hunks[h], chunks[h].lines)
    ensures ReadBack(hunks, AllTexts(hunks), chunks, chunks)
  {
    hide LinesOf, AllTexts;
  }

  /** The pass over the hunks of a parsed patch set, by way of their line objects. */
  method RestoreChunks(chunks: seq<Chunk>) returns (result: seq<Chunk>)
    ensures PassResult(chunks, result)
  {
    hide PassResult, ReadBack, HunkCompared, StopsAt, AllTexts, FreshHunk, TextsOf;
    var hunks := NewHunks(chunks);
    FreshReadsBack(hunks, chunks);
    ghost var before := AllTexts(hunks);
    var compared := RestoreHunks(hunks);
    assert PassedOver(hunks, before, AllTexts(hunks), compared);
    result := ReadHunks(hunks, chunks);
    PassFromObjects(hunks, before, AllTexts(hunks), compared, chunks, result);
  }

  /**
   * The patch set that is returned: the parsed one, with the hunks that the pass makes of its hunks;
   * None where parsing raises.
   */
  method RemoveTrailingWhitespaceChanges(patchGenerator: seq<string>) returns (result: Option<seq<Patch>>)
    ensures result.Some? <==> ParseSpec(patchGenerator).Some?
    ensures result.Some? ==>
              var parsed := ParseSpec(patchGenerator).value;
              && PassResult(Chunks(parsed), Chunks(result.value))
              && |Chunks(result.value)| == |Chunks(parsed)|
              && result.value == WithChunks(parsed, Chunks(result.value))
  {
    hide PassResult, Chunks, WithChunks, ParseSpec;
    var patchset := ParsePatchset(patchGenerator);
    if patchset.None? {
      return None;
    }
    var chunks := RestoreChunks(Chunks(patchset.value));
    PassKeepsNumber(Chunks(patchset.value), chunks);
    ChunksReplaced(patchset.value, chunks);
    return Some(WithChunks(patchset.value, chunks));
  }

  lemma PassKeepsNumber(before: seq<Chunk>, after: seq<Chunk>)
    requires PassResult(before, after)
    ensures |after| == |before|
  {
  }

  lemma ExampleSides(x: PatchChunkLine, y: PatchChunkLine)
    requires x.kind == SRC && y.kind == BOTH
    ensures Src([x, y]) == [x, y] && Dst([x, y]) == [y]
  {
    assert [x, y][..1] == [x] && [x][..0] == [];
    assert Src([x]) == [] + [x] && Src([x, y]) == Src([x]) + [y];
    assert Dst([x]) == [] && Dst([x, y]) == Dst([x]) + [y];
  }

  lemma ExampleRestored()
    ensures Restored("a ", "a") == "a "
  {
    assert "a "[..1] == "a" && "a" + " " == "a ";
    assert MatchTrailing("a ") == Some(("a", " "));
  }

  /** A deleted "a " in front of a kept "a": the kept line is extended, on its source side, too. */
  lemma HazardExample(x: PatchChunkLine, y: PatchChunkLine)
    requires x.kind == SRC && y.kind == BOTH
    ensures Src([x, y]) == [x, y] && Dst([x, y]) == [y]
    ensures !NoHazard(map[x := "a ", y := "a"], [x, y], [y], 1)
  {
    hide Restored, Src, Dst;
    ExampleSides(x, y);
    ExampleRestored();
    var t := map[x := "a ", y := "a"];
    assert x != y && |"a "| != |"a"|;
    assert Hazard(t, [x, y], [y], 0);
  }
}
