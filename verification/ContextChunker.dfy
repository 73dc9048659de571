/** The text chunker of the context-injection handler
    (services/db-writer/context_injection_handler.py): cut into paragraphs, long ones into lines,
    long lines anywhere, without losing a character that is not white space. */
module ContextChunker {

  import opened Sequences
  import opened Texts

  lemma BlankCons(s: string, i: nat, b: nat)
    requires i < b <= |s|
    ensures Blank(s[i..b]) <==> IsSpace(s[i]) && Blank(s[i + 1..b])
  {
    assert s[i..b] == [s[i]] + s[i + 1..b];
  }

  /** The end of the run of white space at `i`. */
  function RunEnd(s: string, i: nat): (e: nat)
    requires i <= |s|
    ensures i <= e <= |s| && Blank(s[i..e])
    ensures forall b :: i <= b < |s| && Blank(s[i..b]) && IsSpace(s[b]) ==> b < e
    decreases |s| - i
  {
    if i < |s| && IsSpace(s[i]) then
      var e := RunEnd(s, i + 1);
      BlankCons(s, i, e);
      assert forall b :: i < b < |s| && Blank(s[i..b]) ==> Blank(s[i + 1..b]) by {
        forall b | i < b < |s| && Blank(s[i..b]) ensures Blank(s[i + 1..b]) { BlankCons(s, i, b); }
      }
      e
    else
      assert forall b :: i < b < |s| ==> !Blank(s[i..b]) by {
        forall b | i < b < |s| ensures !Blank(s[i..b]) { BlankCons(s, i, b); }
      }
      i
  }

  /** The last newline in s[i..e], or `i`. */
  function LastNewline(s: string, i: nat, e: nat): (j: nat)
    requires i <= e <= |s|
    ensures i <= j && (j < e || j == i) && (j > i ==> s[j] == '\n')
    ensures forall b :: i <= b < e && s[b] == '\n' ==> b <= j
    decreases e
  {
    if e <= i then i else if s[e - 1] == '\n' then e - 1 else LastNewline(s, i, e - 1)
  }

  /** \n\s*\n matches from `i` up to and including `b`. */
  predicate IsBreak(s: string, i: nat, b: nat) {
    i < b < |s| && s[i] == '\n' && s[b] == '\n' && Blank(s[i..b])
  }

  /** Where the longest match of \n\s*\n at `i` ends, or `i` when there is none. */
  function BreakEnd(s: string, i: nat): (e: nat)
    requires i < |s|
    ensures i <= e <= |s| && Blank(s[i..e])
    ensures e > i ==> e >= i + 2 && s[i] == '\n' && s[e - 1] == '\n'
    ensures forall b: nat :: IsBreak(s, i, b) ==> b < e
  {
    if s[i] != '\n' then i
    else
      var r := RunEnd(s, i);
      var j := LastNewline(s, i, r);
      if j > i then
        assert s[i..j + 1] == s[i..r][..j + 1 - i];
        j + 1
      else i
  }

  /** re.split(r"\n\s*\n", s), from the piece that began at `from`. */
  function SplitParagraphs(s: string, from: nat, i: nat): seq<string>
    requires from <= i <= |s|
    decreases |s| - i
  {
    if i == |s| then [s[from..]]
    else if BreakEnd(s, i) > i then [s[from..i]] + SplitParagraphs(s, BreakEnd(s, i), BreakEnd(s, i))
    else SplitParagraphs(s, from, i + 1)
  }

  ghost predicate Unbroken(p: string) { forall a: nat, b: nat :: !IsBreak(p, a, b) }

  lemma BreakInPiece(s: string, from: nat, i: nat, a: nat, b: nat)
    requires from <= i <= |s| && IsBreak(s[from..i], a, b)
    ensures from + a < i && BreakEnd(s, from + a) > from + b
  {
    var p := s[from..i];
    forall c | c in s[from + a..from + b] ensures IsSpace(c) {
      var k :| from + a <= k < from + b && s[k] == c;
      assert p[a..b][k - from - a] == c;
    }
    assert IsBreak(s, from + a, from + b);
  }

  lemma PieceIsUnbroken(s: string, from: nat, i: nat)
    requires from <= i <= |s|
    requires forall a :: from <= a < i ==> BreakEnd(s, a) == a
    ensures Unbroken(s[from..i])
  {
    var p := s[from..i];
    forall a: nat, b: nat ensures !IsBreak(p, a, b) {
      if IsBreak(p, a, b) {
        BreakInPiece(s, from, i, a, b);
        assert false;
      }
    }
  }

  /** What the split is for: no paragraph has a blank line left in it. */
  lemma {:induction false} ParagraphsAreUnbroken(s: string, from: nat, i: nat)
    requires from <= i <= |s|
    requires forall a :: from <= a < i ==> BreakEnd(s, a) == a
    ensures forall p :: p in SplitParagraphs(s, from, i) ==> Unbroken(p)
    decreases |s| - i
  {
    if i == |s| {
      PieceIsUnbroken(s, from, i);
      assert s[from..i] == s[from..];
    } else {
      var e := BreakEnd(s, i);
      if e > i {
        PieceIsUnbroken(s, from, i);
        ParagraphsAreUnbroken(s, e, e);
      } else {
        ParagraphsAreUnbroken(s, from, i + 1);
      }
    }
  }

  /** A cut that drops s[i..e], all white space, loses no ink. */
  lemma CutKeepsInk(s: string, from: nat, i: nat, e: nat)
    requires from <= i <= e <= |s| && Blank(s[i..e])
    ensures Ink(s[from..i]) + Ink(s[e..]) == Ink(s[from..])
  {
    var gap := s[i..e] + s[e..];
    assert s[from..] == s[from..i] + gap;
    InkAppend(s[from..i], gap);
    InkAppend(s[i..e], s[e..]);
    BlankHasNoInk(s[i..e]);
    assert Ink(gap) == Ink(s[e..]);
  }

  lemma {:induction false} ParagraphsKeepInk(s: string, from: nat, i: nat)
    requires from <= i <= |s|
    ensures InkOf(SplitParagraphs(s, from, i)) == Ink(s[from..])
    decreases |s| - i
  {
    if i == |s| {
      InkOfOne(s[from..]);
    } else {
      var e := BreakEnd(s, i);
      if e > i {
        ParagraphsKeepInk(s, e, e);
        CutKeepsInk(s, from, i, e);
        InkCons(s[from..i], SplitParagraphs(s, e, e));
      } else {
        ParagraphsKeepInk(s, from, i + 1);
      }
    }
  }

  /** s.split("\n"), from the line that began at `from`. */
  function SplitLines(s: string, from: nat, i: nat): seq<string>
    requires from <= i <= |s|
    decreases |s| - i
  {
    if i == |s| then [s[from..]]
    else if s[i] == '\n' then [s[from..i]] + SplitLines(s, i + 1, i + 1)
    else SplitLines(s, from, i + 1)
  }

  lemma {:induction false} LinesKeepInk(s: string, from: nat, i: nat)
    requires from <= i <= |s|
    ensures InkOf(SplitLines(s, from, i)) == Ink(s[from..])
    decreases |s| - i
  {
    if i == |s| {
      InkOfOne(s[from..]);
    } else if s[i] == '\n' {
      LinesKeepInk(s, i + 1, i + 1);
      assert s[i..i + 1] == [s[i]];
      CutKeepsInk(s, from, i, i + 1);
      InkCons(s[from..i], SplitLines(s, i + 1, i + 1));
    } else {
      LinesKeepInk(s, from, i + 1);
    }
  }

  // ---- The chunker ----

  predicate Fits(chunks: seq<string>, max: nat) { forall c :: c in chunks ==> |c| <= max }

  /** The hard cut: pieces of exactly `max` characters while the buffer is too long. */
  method CutBuffer(chunks: seq<string>, line: string, max: nat) returns (out: seq<string>, buf: string)
    requires max > 0
    ensures |buf| <= max && chunks <= out && (line != "" ==> buf != "")
    ensures forall k :: |chunks| <= k < |out| ==> |out[k]| == max
    ensures Concat(out[|chunks|..]) + buf == line
    ensures |line| <= max ==> out == chunks && buf == line
  {
    out, buf := chunks, line;
    assert out[|chunks|..] == [];
    while |buf| > max
      invariant chunks <= out && (line != "" ==> buf != "")
      invariant forall k :: |chunks| <= k < |out| ==> |out[k]| == max
      invariant Concat(out[|chunks|..]) + buf == line
      invariant |line| <= max ==> out == chunks && buf == line
      decreases |buf|
    {
      var more := out + [buf[..max]];
      assert more[|chunks|..] == out[|chunks|..] + [buf[..max]];
      ConcatSnoc(out[|chunks|..], buf[..max]);
      Assoc(Concat(out[|chunks|..]), buf[..max], buf[max..]);
      assert buf == buf[..max] + buf[max..];
      out, buf := more, buf[max..];
    }
  }

  /** So the hard cut keeps the ink and the bound. */
  lemma CutKeeps(chunks: seq<string>, out: seq<string>, line: string, buf: string, max: nat)
    requires Fits(chunks, max) && chunks <= out && Concat(out[|chunks|..]) + buf == line
    requires forall k :: |chunks| <= k < |out| ==> |out[k]| == max
    ensures Fits(out, max) && InkOf(out) + Ink(buf) == InkOf(chunks) + Ink(line)
  {
    var pieces := out[|chunks|..];
    assert out == chunks + pieces;
    ConcatAppend(chunks, pieces);
    InkAppend(Concat(chunks), Concat(pieces));
    InkAppend(Concat(pieces), buf);
    Assoc(InkOf(chunks), InkOf(pieces), Ink(buf));
  }

  lemma InkAcross(a: string, gap: string, b: string)
    requires Blank(gap)
    ensures Ink(a + gap + b) == Ink(a) + Ink(b)
  {
    InkAppend(a + gap, b);
    InkAppend(a, gap);
    BlankHasNoInk(gap);
  }

  /** The buffer with one more line, if it is to be packed. */
  function Candidate(buf: string, line: string): string { if buf != "" then Strip(buf + "\n" + line) else line }

  lemma CandidateInk(buf: string, line: string)
    ensures Ink(Candidate(buf, line)) == Ink(buf) + Ink(line)
  {
    StripInk(buf + "\n" + line);
    InkAcross(buf, "\n", line);
  }

  /** Appends the stripped buffer, which the caller knows to be non-empty before stripping. */
  method Flush(chunks: seq<string>, buf: string, max: nat) returns (out: seq<string>)
    requires Fits(chunks, max) && |buf| <= max
    ensures out == chunks + [Strip(buf)] && Fits(out, max)
    ensures InkOf(out) == InkOf(chunks) + Ink(buf)
  {
    StripInk(buf);
    InkSnoc(chunks, Strip(buf));
    out := chunks + [Strip(buf)];
  }

  /** A line that does not go behind the buffer: the buffer is flushed and the line cut. */
  method FlushAndCut(chunks: seq<string>, buf: string, line: string, max: nat) returns (out: seq<string>, rest: string)
    requires max > 0 && Fits(chunks, max) && |buf| <= max
    ensures Fits(out, max) && |rest| <= max && chunks <= out
    ensures InkOf(out) + Ink(rest) == (InkOf(chunks) + Ink(buf)) + Ink(line)
    ensures |line| <= max ==> rest == line && out == if buf != "" then chunks + [Strip(buf)] else chunks
  {
    out := chunks;
    if buf != "" { out := Flush(chunks, buf, max); }
    ghost var before := out;
    out, rest := CutBuffer(out, line, max);
    CutKeeps(before, out, line, rest, max);
  }

  /** One turn of the loop over the lines of a long paragraph. */
  method PackLine(chunks: seq<string>, buf: string, line: string, max: nat) returns (out: seq<string>, rest: string)
    requires max > 0 && Fits(chunks, max) && |buf| <= max
    ensures Fits(out, max) && |rest| <= max && chunks <= out
    ensures InkOf(out) + Ink(rest) == (InkOf(chunks) + Ink(buf)) + Ink(line)
    ensures |Candidate(buf, line)| <= max ==> out == chunks && rest == Candidate(buf, line)
    ensures |line| <= max < |Candidate(buf, line)| ==> buf != "" && out == chunks + [Strip(buf)] && rest == line
  {
    var candidate := Candidate(buf, line);
    CandidateInk(buf, line);
    if |candidate| > max {
      out, rest := FlushAndCut(chunks, buf, line, max);
    } else {
      Assoc(InkOf(chunks), Ink(buf), Ink(line));
      out, rest := chunks, candidate;
    }
  }

  lemma PrefixTrans(a: seq<string>, b: seq<string>, c: seq<string>)
    requires a <= b <= c
    ensures a <= c
  {}

  lemma NextLine(chunks: seq<string>, lines: seq<string>, i: nat)
    requires i < |lines|
    ensures InkOf(chunks) + InkOf(lines[..i + 1]) == (InkOf(chunks) + InkOf(lines[..i])) + Ink(lines[i])
  {
    assert lines[..i + 1] == lines[..i] + [lines[i]];
    InkSnoc(lines[..i], lines[i]);
    Assoc(InkOf(chunks), InkOf(lines[..i]), Ink(lines[i]));
  }

  // ---- Where a long paragraph is cut ----

  /** The chunk ends because the next line would not fit behind it. */
  ghost predicate Overflows(piece: string, line: string, max: nat) {
    exists buf :: piece == Strip(buf) && |Candidate(buf, line)| > max
  }

  /** `piece` holds the lines from `a` up to `b`, and the one at `b` no longer fits. */
  ghost predicate HoldsLines(piece: string, lines: seq<string>, a: nat, b: nat, max: nat) {
    a <= b < |lines| && Ink(piece) == InkOf(lines[a..b]) && Overflows(piece, lines[b], max)
  }

  /** Where the last piece ends. */
  function LastEnd(ends: seq<nat>): nat { if ends == [] then 0 else ends[|ends| - 1] }

  /** The pieces hold the lines one after the other, `ends` telling where each ends. */
  ghost predicate AllHold(pieces: seq<string>, lines: seq<string>, ends: seq<nat>, max: nat) {
    && |ends| == |pieces|
    && (pieces != [] ==>
          var n := |pieces| - 1;
          HoldsLines(pieces[n], lines, LastEnd(ends[..n]), ends[n], max) && AllHold(pieces[..n], lines, ends[..n], max))
  }

  predicate HoldsRest(buf: string, lines: seq<string>, from: nat, n: nat) {
    from <= n <= |lines| && Ink(buf) == InkOf(lines[from..n])
  }

  /** The pieces hold the lines up to the last of `ends`, and `buf` those from there up to `n`. */
  ghost predicate CutAtLines(pieces: seq<string>, buf: string, lines: seq<string>, n: nat, ends: seq<nat>, max: nat) {
    AllHold(pieces, lines, ends, max) && HoldsRest(buf, lines, LastEnd(ends), n)
  }

  lemma RestGrows(buf: string, lines: seq<string>, from: nat, n: nat)
    requires HoldsRest(buf, lines, from, n) && n < |lines|
    ensures HoldsRest(Candidate(buf, lines[n]), lines, from, n + 1)
  {
    CandidateInk(buf, lines[n]);
    assert lines[from..n + 1] == lines[from..n] + [lines[n]];
    InkSnoc(lines[from..n], lines[n]);
  }

  lemma RestStarts(lines: seq<string>, n: nat)
    requires n < |lines|
    ensures HoldsRest(lines[n], lines, n, n + 1)
  {
    assert lines[n..n + 1] == [lines[n]];
    InkOfOne(lines[n]);
  }

  lemma PieceHolds(buf: string, lines: seq<string>, from: nat, n: nat, max: nat)
    requires HoldsRest(buf, lines, from, n) && n < |lines| && |Candidate(buf, lines[n])| > max
    ensures HoldsLines(Strip(buf), lines, from, n, max)
  {
    StripInk(buf);
    assert Overflows(Strip(buf), lines[n], max);
  }

  lemma OneMoreHolds(pieces: seq<string>, piece: string, lines: seq<string>, ends: seq<nat>, n: nat, max: nat)
    requires AllHold(pieces, lines, ends, max) && HoldsLines(piece, lines, LastEnd(ends), n, max)
    ensures AllHold(pieces + [piece], lines, ends + [n], max) && LastEnd(ends + [n]) == n
  {
    assert (pieces + [piece])[..|pieces|] == pieces && (ends + [n])[..|ends|] == ends;
  }

  predicate LinesFit(lines: seq<string>, max: nat) { forall k :: 0 <= k < |lines| ==> |lines[k]| <= max }

  /** One line more, and where the pieces then end. */
  lemma CutsGoOn(pieces: seq<string>, buf: string, lines: seq<string>, n: nat, ends: seq<nat>, max: nat)
      returns (after: seq<nat>)
    requires CutAtLines(pieces, buf, lines, n, ends, max) && n < |lines|
    ensures if |Candidate(buf, lines[n])| <= max then
              CutAtLines(pieces, Candidate(buf, lines[n]), lines, n + 1, after, max)
            else
              CutAtLines(pieces + [Strip(buf)], lines[n], lines, n + 1, after, max)
  {
    var from := LastEnd(ends);
    if |Candidate(buf, lines[n])| <= max {
      RestGrows(buf, lines, from, n);
      after := ends;
    } else {
      PieceHolds(buf, lines, from, n, max);
      OneMoreHolds(pieces, Strip(buf), lines, ends, n, max);
      RestStarts(lines, n);
      after := ends + [n];
    }
  }

  lemma TailSnoc(chunks: seq<string>, out: seq<string>, piece: string)
    requires chunks <= out
    ensures chunks <= out + [piece] && (out + [piece])[|chunks|..] == out[|chunks|..] + [piece]
  {}

  /** Where the loop over the lines stands after `i` of them. */
  ghost predicate PackedSoFar(chunks: seq<string>, out: seq<string>, buf: string, lines: seq<string>, i: nat,
                              max: nat, ends: seq<nat>) {
    && i <= |lines| && Fits(out, max) && |buf| <= max && chunks <= out
    && InkOf(out) + Ink(buf) == InkOf(chunks) + InkOf(lines[..i])
    && (LinesFit(lines, max) ==> CutAtLines(out[|chunks|..], buf, lines, i, ends, max))
  }

  lemma NothingPacked(chunks: seq<string>, lines: seq<string>, max: nat)
    requires max > 0 && Fits(chunks, max)
    ensures PackedSoFar(chunks, chunks, "", lines, 0, max, [])
  {
    assert chunks[|chunks|..] == [] && lines[0..0] == [] && lines[..0] == [];
  }

  /** One turn of the loop, with the bookkeeping of where the pieces end. */
  method PackNext(ghost chunks: seq<string>, out: seq<string>, buf: string, lines: seq<string>, i: nat, max: nat,
                  ghost ends: seq<nat>)
      returns (more: seq<string>, rest: string, ghost after: seq<nat>)
    requires max > 0 && i < |lines| && PackedSoFar(chunks, out, buf, lines, i, max, ends)
    ensures PackedSoFar(chunks, more, rest, lines, i + 1, max, after)
  {
    more, rest := PackLine(out, buf, lines[i], max);
    NextLine(chunks, lines, i);
    PrefixTrans(chunks, out, more);
    TailSnoc(chunks, out, Strip(buf));
    after := ends;
    if LinesFit(lines, max) { after := CutsGoOn(out[|chunks|..], buf, lines, i, ends, max); }
  }

  /** The loop over the lines of a paragraph that is too long.  When every line fits, no line is cut:
      each chunk holds some lines and ends where the next one would not fit. */
  method PackLines(chunks: seq<string>, lines: seq<string>, max: nat)
      returns (out: seq<string>, buf: string, ghost ends: seq<nat>)
    requires max > 0 && Fits(chunks, max)
    ensures Fits(out, max) && |buf| <= max && chunks <= out
    ensures InkOf(out) + Ink(buf) == InkOf(chunks) + InkOf(lines)
    ensures LinesFit(lines, max) ==> CutAtLines(out[|chunks|..], buf, lines, |lines|, ends, max)
  {
    out, buf, ends := chunks, "", [];
    var i := 0;
    NothingPacked(chunks, lines, max);
    while i < |lines|
      invariant PackedSoFar(chunks, out, buf, lines, i, max, ends)
    {
      out, buf, ends := PackNext(chunks, out, buf, lines, i, max, ends);
      i := i + 1;
    }
    assert lines[..|lines|] == lines;
  }

  /** A paragraph whose lines all fit: its chunks hold its lines, in order, none cut, each chunk but
      the last ending where the next line would not fit. */
  ghost predicate PackedByLine(pieces: seq<string>, p: string, max: nat) {
    exists whole: seq<string>, last: string, ends: seq<nat> ::
      CutAtLines(whole, last, SplitLines(p, 0, 0), |SplitLines(p, 0, 0)|, ends, max)
      && pieces == if Strip(last) == "" then whole else whole + [Strip(last)]
  }

  lemma IsPacked(whole: seq<string>, last: string, p: string, ends: seq<nat>, max: nat, pieces: seq<string>)
    requires CutAtLines(whole, last, SplitLines(p, 0, 0), |SplitLines(p, 0, 0)|, ends, max)
    requires pieces == if Strip(last) == "" then whole else whole + [Strip(last)]
    ensures PackedByLine(pieces, p, max)
  {}

  /** One paragraph that is too long. */
  method ChunkParagraph(chunks: seq<string>, p: string, max: nat) returns (out: seq<string>)
    requires max > 0 && Fits(chunks, max)
    ensures Fits(out, max) && chunks <= out
    ensures InkOf(out) == InkOf(chunks) + Ink(p)
    ensures LinesFit(SplitLines(p, 0, 0), max) ==> PackedByLine(out[|chunks|..], p, max)
  {
    LinesKeepInk(p, 0, 0);
    assert p[0..] == p;
    var buf;
    ghost var ends;
    out, buf, ends := PackLines(chunks, SplitLines(p, 0, 0), max);
    ghost var whole := out[|chunks|..];
    TailSnoc(chunks, out, Strip(buf));
    StripInk(buf);
    if Strip(buf) != "" { out := Flush(out, buf, max); }
    if LinesFit(SplitLines(p, 0, 0), max) { IsPacked(whole, buf, p, ends, max, out[|chunks|..]); }
  }

  method DropEmpty(chunks: seq<string>) returns (out: seq<string>)
    ensures forall c :: c in out <==> c in chunks && c != ""
    ensures Concat(out) == Concat(chunks)
  {
    out := [];
    var i := 0;
    while i < |chunks|
      invariant 0 <= i <= |chunks|
      invariant forall c :: c in out <==> c in chunks[..i] && c != ""
      invariant Concat(out) == Concat(chunks[..i])
    {
      assert chunks[..i + 1] == chunks[..i] + [chunks[i]];
      ConcatSnoc(chunks[..i], chunks[i]);
      ConcatSnoc(out, chunks[i]);
      if chunks[i] != "" { out := out + [chunks[i]]; }
      i := i + 1;
    }
    assert chunks[..|chunks|] == chunks;
  }

  predicate Keeps(chunks: seq<string>, para: string, max: nat) {
    0 < |Strip(para)| <= max ==> Strip(para) in chunks
  }

  /** One turn of the loop over the paragraphs. */
  method AddParagraph(chunks: seq<string>, para: string, max: nat) returns (out: seq<string>)
    requires max > 0 && Fits(chunks, max)
    ensures Fits(out, max) && chunks <= out
    ensures InkOf(out) == InkOf(chunks) + Ink(para)
    ensures Keeps(out, para, max)
    ensures |Strip(para)| <= max ==> out == chunks + if Strip(para) == "" then [] else [Strip(para)]
    ensures |Strip(para)| > max && LinesFit(SplitLines(Strip(para), 0, 0), max) ==>
              PackedByLine(out[|chunks|..], Strip(para), max)
  {
    var p := Strip(para);
    StripInk(para);
    if p == "" {
      out := chunks;
    } else if |p| <= max {
      InkSnoc(chunks, p);
      out := chunks + [p];
    } else {
      out := ChunkParagraph(chunks, p, max);
    }
  }

  predicate KeepsAll(chunks: seq<string>, paras: seq<string>, max: nat) {
    forall k :: 0 <= k < |paras| ==> Keeps(chunks, paras[k], max)
  }

  lemma KeepsAllGrows(chunks: seq<string>, out: seq<string>, paras: seq<string>, para: string, max: nat)
    requires chunks <= out && KeepsAll(chunks, paras, max) && Keeps(out, para, max)
    ensures KeepsAll(out, paras + [para], max)
  {}

  /** A text that has to be cut: the loop over its paragraphs. */
  method ChunkParagraphs(paras: seq<string>, max: nat) returns (chunks: seq<string>)
    requires max > 0
    ensures Fits(chunks, max) && InkOf(chunks) == InkOf(paras)
    ensures KeepsAll(chunks, paras, max)
  {
    chunks := [];
    var i := 0;
    while i < |paras|
      invariant 0 <= i <= |paras|
      invariant Fits(chunks, max)
      invariant InkOf(chunks) == InkOf(paras[..i])
      invariant KeepsAll(chunks, paras[..i], max)
    {
      assert paras[..i + 1] == paras[..i] + [paras[i]];
      InkSnoc(paras[..i], paras[i]);
      ghost var before := chunks;
      chunks := AddParagraph(chunks, paras[i], max);
      KeepsAllGrows(before, chunks, paras[..i], paras[i], max);
      i := i + 1;
    }
    assert paras[..|paras|] == paras;
  }

  /** `chunk_context_raw_text`: every chunk is non-empty and at most `maxChunk` long, and the chunks
      one after the other are the input with nothing but white space removed or added.  A text
      that fits is one chunk, and so is every paragraph that fits. */
  method ChunkContextRawText(raw: string, maxChunk: nat) returns (chunks: seq<string>)
    requires maxChunk > 0
    ensures forall c :: c in chunks ==> 0 < |c| <= maxChunk
    ensures InkOf(chunks) == Ink(raw)
    ensures 0 < |Strip(raw)| <= maxChunk ==> chunks == [Strip(raw)]
    ensures |Strip(raw)| > maxChunk ==>
              KeepsAll(chunks, SplitParagraphs(Strip(raw), 0, 0), maxChunk)
  {
    var text := Strip(raw);
    StripInk(raw);
    if text == "" { return []; }
    if |text| <= maxChunk {
      InkOfOne(text);
      return [text];
    }
    var paras := SplitParagraphs(text, 0, 0);
    ParagraphsKeepInk(text, 0, 0);
    assert text[0..] == text;
    var kept := ChunkParagraphs(paras, maxChunk);
    chunks := DropEmpty(kept);
  }
}
