/** The fallback line chunker: greedy, paragraph-aware splitting under two budgets.

    The specification speaks about positions in the list of lines and does not mention the
    algorithm: what a chunk may span, and where a cut is allowed.  It determines the chunks
    uniquely, so the two-level greedy splitter is the only splitter that satisfies it.
 */
module LineChunker {

  const MAX_LINES := 200
  const MAX_CHARS := 4000

  /** A block of lines with its one-based, inclusive line range. */
  datatype Chunk = Chunk(startLine: nat, endLine: nat, block: seq<string>)

  // ----- paragraphs

  predicate IsSpace(c: char)
  {
    var k := c as int;
    || 0x09 <= k <= 0x0d || 0x1c <= k <= 0x20 || k == 0x85 || k == 0xa0 || k == 0x1680
    || 0x2000 <= k <= 0x200a || k == 0x2028 || k == 0x2029 || k == 0x202f || k == 0x205f || k == 0x3000
  }

  /** Nothing is left of the line after stripping. */
  predicate Blank(line: string)
  {
    line == [] || (IsSpace(line[0]) && Blank(line[1..]))
  }

  /** A paragraph starts at the first line, at every blank line, and after every blank line. */
  predicate Starts(lines: seq<string>, i: nat)
    requires i < |lines|
  {
    i == 0 || Blank(lines[i]) || Blank(lines[i - 1])
  }

  ghost function StartOf(lines: seq<string>, i: nat): (q: nat)
    requires i < |lines|
    ensures q <= i
  {
    if Starts(lines, i) then i else StartOf(lines, i - 1)
  }

  ghost function EndOf(lines: seq<string>, i: nat): (e: nat)
    requires i < |lines|
    ensures i < e <= |lines|
    decreases |lines| - i
  {
    if i + 1 == |lines| || Starts(lines, i + 1) then i + 1 else EndOf(lines, i + 1)
  }

  ghost predicate IsParagraph(lines: seq<string>, q: nat, e: nat)
  {
    q < |lines| && Starts(lines, q) && e == EndOf(lines, q)
  }

  lemma {:induction false} NoStartInside(lines: seq<string>, q: nat, i: nat)
    requires q < i < |lines| && i < EndOf(lines, q)
    ensures !Starts(lines, i) && EndOf(lines, i) == EndOf(lines, q)
    decreases i - q
  {
    if q + 1 < i {
      NoStartInside(lines, q + 1, i);
    }
  }

  lemma {:induction false} StartOfInside(lines: seq<string>, q: nat, i: nat)
    requires q <= i < |lines| && i < EndOf(lines, q) && Starts(lines, q)
    ensures StartOf(lines, i) == q && EndOf(lines, i) == EndOf(lines, q)
    decreases i
  {
    if q < i {
      NoStartInside(lines, q, i);
      StartOfInside(lines, q, i - 1);
    }
  }

  lemma {:induction false} EndOfRun(lines: seq<string>, q: nat, e: nat)
    requires q < e <= |lines|
    requires forall i :: q < i < e ==> !Starts(lines, i)
    requires e < |lines| ==> Starts(lines, e)
    ensures EndOf(lines, q) == e
    decreases e - q
  {
    if q + 1 < e {
      EndOfRun(lines, q + 1, e);
    }
  }

  /** In plain words, a paragraph is a single blank line or a maximal run of non-blank lines. */
  lemma ParagraphMeaning(lines: seq<string>, q: nat, e: nat)
    requires q < e <= |lines|
    ensures IsParagraph(lines, q, e) <==>
            if Blank(lines[q]) then e == q + 1
            else
              && (forall i :: q <= i < e ==> !Blank(lines[i]))
              && (e < |lines| ==> Blank(lines[e]))
              && (0 < q ==> Blank(lines[q - 1]))
  {
    if Blank(lines[q]) {
      EndOfRun(lines, q, q + 1);
    } else if IsParagraph(lines, q, e) {
      forall i | q <= i < e ensures !Blank(lines[i]) {
        if q < i {
          NoStartInside(lines, q, i);
        }
      }
      if e < |lines| {
        EndIsStart(lines, q);
        assert !Blank(lines[e - 1]);
      }
    } else if forall i :: q <= i < e ==> !Blank(lines[i]) {
      if e < |lines| ==> Blank(lines[e]) {
        EndOfRun(lines, q, e);
      }
    }
  }

  lemma {:induction false} EndIsStart(lines: seq<string>, i: nat)
    requires i < |lines| && EndOf(lines, i) < |lines|
    ensures Starts(lines, EndOf(lines, i))
    decreases |lines| - i
  {
    if !Starts(lines, i + 1) {
      EndIsStart(lines, i + 1);
    }
  }

  /** `ls` is the stretch of `lines` that begins at `q`. */
  ghost predicate InPlace(lines: seq<string>, ls: seq<string>, q: nat)
  {
    q + |ls| <= |lines| && forall i :: 0 <= i < |ls| ==> ls[i] == lines[q + i]
  }

  ghost function Offset(paras: seq<seq<string>>, k: nat): nat
    requires k <= |paras|
  {
    if k == 0 then 0 else Offset(paras, k - 1) + |paras[k - 1]|
  }

  lemma {:induction false} OffsetPrefix(paras: seq<seq<string>>, more: seq<seq<string>>, k: nat)
    requires k <= |paras|
    ensures Offset(paras + more, k) == Offset(paras, k)
  {
    if k > 0 {
      OffsetPrefix(paras, more, k - 1);
    }
  }

  /** The k-th paragraph is the paragraph of `lines` at its offset. */
  ghost predicate ParagraphAt(lines: seq<string>, paras: seq<seq<string>>, k: nat)
    requires k < |paras|
  {
    var q, e := Offset(paras, k), Offset(paras, k + 1);
    q <= e && IsParagraph(lines, q, e) && InPlace(lines, paras[k], q)
  }

  ghost predicate Grouped(lines: seq<string>, paras: seq<seq<string>>, upTo: nat)
  {
    && Offset(paras, |paras|) == upTo
    && forall k :: 0 <= k < |paras| ==> ParagraphAt(lines, paras, k)
  }

  lemma GroupedAppend(lines: seq<string>, paras: seq<seq<string>>, para: seq<string>, q: nat)
    requires Grouped(lines, paras, q) && IsParagraph(lines, q, q + |para|) && InPlace(lines, para, q)
    ensures Grouped(lines, paras + [para], q + |para|)
  {
    var p := paras + [para];
    forall k | 0 <= k <= |paras| ensures Offset(p, k) == Offset(paras, k) {
      OffsetPrefix(paras, [para], k);
    }
    assert Offset(p, |p|) == q + |para|;
    forall k | 0 <= k < |p| ensures ParagraphAt(lines, p, k) {
      if k < |paras| {
        assert ParagraphAt(lines, paras, k);
      }
    }
  }

  /** Between two lines of the loop: what lies before `current` is grouped, and `current` is the open
      run of non-blank lines up to line `i`. */
  ghost predicate Grouping(lines: seq<string>, paras: seq<seq<string>>, current: seq<string>, i: nat)
  {
    |current| <= i <= |lines| &&
    var q := i - |current|;
    && InPlace(lines, current, q)
    && (forall k :: q <= k < i ==> !Blank(lines[k]))
    && (0 < q ==> Blank(lines[q - 1]))
    && Grouped(lines, paras, q)
  }

  /** A blank line or the end of the file closes the open run. */
  lemma CloseRun(lines: seq<string>, paras: seq<seq<string>>, current: seq<string>, i: nat)
    requires Grouping(lines, paras, current, i) && current != [] && (i < |lines| ==> Blank(lines[i]))
    ensures Grouped(lines, paras + [current], i)
  {
    EndOfRun(lines, i - |current|, i);
    GroupedAppend(lines, paras, current, i - |current|);
  }

  /** A blank line is a paragraph of its own. */
  lemma BlankLine(lines: seq<string>, paras: seq<seq<string>>, i: nat)
    requires Grouped(lines, paras, i) && i < |lines| && Blank(lines[i])
    ensures Grouping(lines, paras + [[lines[i]]], [], i + 1)
  {
    EndOfRun(lines, i, i + 1);
    GroupedAppend(lines, paras, [lines[i]], i);
  }

  lemma ExtendRun(lines: seq<string>, paras: seq<seq<string>>, current: seq<string>, i: nat)
    requires Grouping(lines, paras, current, i) && i < |lines| && !Blank(lines[i])
    ensures Grouping(lines, paras, current + [lines[i]], i + 1)
  {
  }

  method GroupParagraphs(lines: seq<string>) returns (paras: seq<seq<string>>)
    ensures Grouped(lines, paras, |lines|)
  {
    paras := [];
    var current: seq<string> := [];
    for i := 0 to |lines|
      invariant Grouping(lines, paras, current, i)
    {
      if Blank(lines[i]) {
        if current != [] {
          CloseRun(lines, paras, current, i);
          paras, current := paras + [current], [];
        }
        BlankLine(lines, paras, i);
        paras := paras + [[lines[i]]];
      } else {
        ExtendRun(lines, paras, current, i);
        current := current + [lines[i]];
      }
    }
    if current != [] {
      CloseRun(lines, paras, current, |lines|);
      paras := paras + [current];
    }
  }

  // ----- costs and budgets

  /** Characters of the first `t` lines, one more per line for its newline. */
  function Upto(lines: seq<string>, t: nat): nat
    requires t <= |lines|
  {
    if t == 0 then 0 else Upto(lines, t - 1) + |lines[t - 1]| + 1
  }

  function SpanCost(lines: seq<string>, s: nat, t: nat): int
    requires s <= t <= |lines|
  {
    Upto(lines, t) - Upto(lines, s)
  }

  lemma {:induction false} UptoMonotone(lines: seq<string>, s: nat, t: nat)
    requires s <= t <= |lines|
    ensures Upto(lines, s) <= Upto(lines, t)
  {
    if s < t {
      UptoMonotone(lines, s, t - 1);
    }
  }

  /** A paragraph costs the same on its own as in its place. */
  lemma {:induction false} CostInPlace(lines: seq<string>, para: seq<string>, q: nat, i: nat)
    requires i <= |para| && InPlace(lines, para, q)
    ensures Upto(para, i) == SpanCost(lines, q, q + i)
  {
    if i > 0 {
      CostInPlace(lines, para, q, i - 1);
      assert para[i - 1] == lines[q + (i - 1)];
    }
  }

  predicate Exceeds(lines: seq<string>, s: nat, t: nat)
    requires s <= t <= |lines|
  {
    t - s > MAX_LINES || SpanCost(lines, s, t) > MAX_CHARS
  }

  // ----- the specification of a chunk

  /** What a chunk may hold: it stays within both budgets unless it is one single over-long line,
      and no oversized paragraph begins in its middle. */
  ghost predicate SpanOk(lines: seq<string>, s: nat, t: nat)
  {
    && s < t <= |lines|
    && t - s <= MAX_LINES
    && (SpanCost(lines, s, t) <= MAX_CHARS || t == s + 1)
    && forall q: nat, e: nat :: s < q < t && IsParagraph(lines, q, e) ==> !Exceeds(lines, q, e)
  }

  /** A cut at `t` is forced: the next whole paragraph would not have fitted, or `t` is inside a
      paragraph that exceeds a budget on its own and the next line would not have fitted. */
  ghost predicate ForcedCut(lines: seq<string>, s: nat, t: nat)
    requires s <= t < |lines|
  {
    var q, e := StartOf(lines, t), EndOf(lines, t);
    if q == t then Exceeds(lines, s, e)
    else Exceeds(lines, q, e) && Exceeds(lines, s, t + 1)
  }

  ghost predicate GoodSpan(lines: seq<string>, s: nat, t: nat)
  {
    SpanOk(lines, s, t) && (t < |lines| ==> ForcedCut(lines, s, t))
  }

  ghost predicate GoodChunk(lines: seq<string>, c: Chunk)
  {
    && 1 <= c.startLine <= c.endLine + 1
    && GoodSpan(lines, c.startLine - 1, c.endLine)
    && InPlace(lines, c.block, c.startLine - 1) && |c.block| == c.endLine - (c.startLine - 1)
  }

  ghost function EndBefore(cs: seq<Chunk>, k: nat): nat
    requires k <= |cs|
  {
    if k == 0 then 0 else cs[k - 1].endLine
  }

  /** The k-th chunk is good and starts right after the previous one. */
  ghost predicate TileOk(lines: seq<string>, cs: seq<Chunk>, k: nat)
    requires k < |cs|
  {
    GoodChunk(lines, cs[k]) && cs[k].startLine == EndBefore(cs, k) + 1
  }

  /** Good chunks that tile the lines from line 1 up to `upTo` without gap or overlap. */
  ghost predicate Tiles(lines: seq<string>, cs: seq<Chunk>, upTo: nat)
  {
    EndBefore(cs, |cs|) == upTo && forall k :: 0 <= k < |cs| ==> TileOk(lines, cs, k)
  }

  // ----- the splitter

  /** The chunk under construction with its running counters, and the chunks emitted so far. */
  datatype Builder = Builder(out: seq<Chunk>, current: seq<string>, start: nat, lineCount: nat, charCount: int)

  function Emit(b: Builder): Builder
    requires b.current != [] && 1 <= b.start + b.lineCount
  {
    Builder(b.out + [Chunk(b.start, b.start + b.lineCount - 1, b.current)], [], b.start + b.lineCount, 0, 0)
  }

  function Extend(b: Builder, ls: seq<string>, chars: int): Builder
  {
    b.(current := b.current + ls, lineCount := b.lineCount + |ls|, charCount := b.charCount + chars)
  }

  /** The counters describe `lines[start - 1..pos]`, which may become a chunk. */
  ghost predicate CurrentOk(lines: seq<string>, b: Builder, pos: nat)
  {
    && 1 <= b.start && b.start - 1 <= pos <= |lines|
    && InPlace(lines, b.current, b.start - 1)
    && |b.current| == b.lineCount == pos - (b.start - 1)
    && b.charCount == SpanCost(lines, b.start - 1, pos)
    && (b.current != [] ==> SpanOk(lines, b.start - 1, pos))
  }

  ghost predicate BuilderOk(lines: seq<string>, b: Builder, pos: nat)
  {
    CurrentOk(lines, b, pos) && Tiles(lines, b.out, b.start - 1)
  }

  lemma TilesAppend(lines: seq<string>, cs: seq<Chunk>, upTo: nat, c: Chunk)
    requires Tiles(lines, cs, upTo) && GoodChunk(lines, c) && c.startLine == upTo + 1
    ensures Tiles(lines, cs + [c], c.endLine)
  {
    var t := cs + [c];
    forall k | 0 <= k < |t| ensures TileOk(lines, t, k) {
      if k < |cs| {
        assert TileOk(lines, cs, k);
      }
    }
  }

  lemma EmitGood(lines: seq<string>, b: Builder, pos: nat)
    requires CurrentOk(lines, b, pos) && b.current != []
    requires pos < |lines| ==> ForcedCut(lines, b.start - 1, pos)
    ensures GoodChunk(lines, Chunk(b.start, b.start + b.lineCount - 1, b.current))
    ensures CurrentOk(lines, Emit(b), pos)
  {
  }

  lemma EmitOk(lines: seq<string>, b: Builder, pos: nat)
    requires BuilderOk(lines, b, pos) && b.current != []
    requires pos < |lines| ==> ForcedCut(lines, b.start - 1, pos)
    ensures BuilderOk(lines, Emit(b), pos)
  {
    EmitGood(lines, b, pos);
    TilesAppend(lines, b.out, b.start - 1, Chunk(b.start, b.start + b.lineCount - 1, b.current));
  }

  /** The chunk from `s` must be closed before the paragraph `lines[pos..e]`. */
  lemma CutBeforeParagraph(lines: seq<string>, s: nat, pos: nat, e: nat)
    requires s <= pos && IsParagraph(lines, pos, e)
    requires pos - s + (e - pos) > MAX_LINES || SpanCost(lines, s, pos) + SpanCost(lines, pos, e) > MAX_CHARS
    ensures ForcedCut(lines, s, pos)
  {
  }

  /** The chunk from `s` must be closed before line `pos` of the oversized paragraph `lines[q..e]`. */
  lemma CutInsideParagraph(lines: seq<string>, s: nat, q: nat, e: nat, pos: nat)
    requires s <= pos && IsParagraph(lines, q, e) && q < pos < e && Exceeds(lines, q, e)
    requires pos - s + 1 > MAX_LINES || SpanCost(lines, s, pos) + SpanCost(lines, pos, pos + 1) > MAX_CHARS
    ensures ForcedCut(lines, s, pos)
  {
    StartOfInside(lines, q, pos);
  }

  lemma NoOversizedInside(lines: seq<string>, s: nat, q: nat, e: nat)
    requires s <= q && IsParagraph(lines, q, e)
    requires s < q ==> SpanOk(lines, s, q) && !Exceeds(lines, q, e)
    ensures forall q': nat, e': nat :: s < q' < e && IsParagraph(lines, q', e') ==> !Exceeds(lines, q', e')
  {
    forall q': nat, e': nat | s < q' < e && IsParagraph(lines, q', e') ensures !Exceeds(lines, q', e') {
      if q < q' {
        NoStartInside(lines, q, q');
      }
    }
  }

  /** A whole paragraph that fits is added. */
  lemma ExtendParagraph(lines: seq<string>, b: Builder, para: seq<string>, q: nat, e: nat)
    requires InPlace(lines, para, q) && e == q + |para|
    requires CurrentOk(lines, b, q) && IsParagraph(lines, q, e) && !Exceeds(lines, q, e)
    requires b.current == [] || (b.lineCount + (e - q) <= MAX_LINES && b.charCount + SpanCost(lines, q, e) <= MAX_CHARS)
    ensures CurrentOk(lines, Extend(b, para, SpanCost(lines, q, e)), e)
  {
    NoOversizedInside(lines, b.start - 1, q, e);
  }

  /** A line of an oversized paragraph is added to a chunk that began inside that paragraph. */
  lemma ExtendLine(lines: seq<string>, b: Builder, q: nat, e: nat, pos: nat)
    requires CurrentOk(lines, b, pos) && IsParagraph(lines, q, e) && q <= b.start - 1 && q <= pos < e
    requires b.current == [] || (b.lineCount + 1 <= MAX_LINES && b.charCount + |lines[pos]| + 1 <= MAX_CHARS)
    ensures CurrentOk(lines, Extend(b, [lines[pos]], |lines[pos]| + 1), pos + 1)
  {
    forall q' | q < q' <= pos ensures !Starts(lines, q') {
      NoStartInside(lines, q, q');
    }
  }

  /** Closes the current chunk if `more` further lines costing `chars` would not fit. */
  method CloseIfFull(b0: Builder, more: nat, chars: int, ghost lines: seq<string>, ghost pos: nat) returns (b: Builder)
    requires BuilderOk(lines, b0, pos) && pos < |lines|
    requires b0.lineCount + more > MAX_LINES || b0.charCount + chars > MAX_CHARS ==> ForcedCut(lines, b0.start - 1, pos)
    ensures BuilderOk(lines, b, pos) && (b == b0 || (b.current == [] && b.start - 1 == pos))
    ensures b.current == [] || (b.lineCount + more <= MAX_LINES && b.charCount + chars <= MAX_CHARS)
  {
    b := b0;
    if b.current != [] && (b.lineCount + more > MAX_LINES || b.charCount + chars > MAX_CHARS) {
      EmitOk(lines, b, pos);
      b := Emit(b);
    }
  }

  /** Adds one line of an oversized paragraph, closing the current chunk first if need be. */
  method AddLine(line: string, b0: Builder, ghost lines: seq<string>, ghost pos: nat, ghost q: nat, ghost e: nat)
      returns (b: Builder)
    requires pos < |lines| && line == lines[pos]
    requires IsParagraph(lines, q, e) && Exceeds(lines, q, e) && q <= pos < e
    requires BuilderOk(lines, b0, pos) && q <= b0.start - 1
    ensures BuilderOk(lines, b, pos + 1) && q <= b.start - 1
  {
    var lineLen := |line| + 1;
    assert lineLen == SpanCost(lines, pos, pos + 1);
    if b0.lineCount + 1 > MAX_LINES || b0.charCount + lineLen > MAX_CHARS {
      if q < pos {
        CutInsideParagraph(lines, b0.start - 1, q, e, pos);
      } else {
        CutAtStart(lines, b0.start - 1, q, e);
      }
    }
    b := CloseIfFull(b0, 1, lineLen, lines, pos);
    ExtendLine(lines, b, q, e, pos);
    b := Extend(b, [line], lineLen);
  }

  lemma CutAtStart(lines: seq<string>, s: nat, q: nat, e: nat)
    requires s <= q && IsParagraph(lines, q, e) && Exceeds(lines, q, e)
    ensures ForcedCut(lines, s, q)
  {
    UptoMonotone(lines, s, q);
    CutBeforeParagraph(lines, s, q, e);
  }

  /** Slices an oversized paragraph line by line. */
  method SliceParagraph(para: seq<string>, b0: Builder, ghost lines: seq<string>, ghost q: nat) returns (b: Builder)
    requires InPlace(lines, para, q)
    requires IsParagraph(lines, q, q + |para|) && Exceeds(lines, q, q + |para|)
    requires BuilderOk(lines, b0, q) && b0.current == []
    ensures BuilderOk(lines, b, q + |para|)
  {
    b := b0;
    for i := 0 to |para|
      invariant BuilderOk(lines, b, q + i) && q <= b.start - 1
    {
      assert para[i] == lines[q + i];
      b := AddLine(para[i], b, lines, q + i, q, q + |para|);
    }
  }

  /** One round of the outer loop. */
  method AddParagraph(para: seq<string>, b0: Builder, ghost lines: seq<string>, ghost q: nat) returns (b: Builder)
    requires InPlace(lines, para, q) && IsParagraph(lines, q, q + |para|)
    requires BuilderOk(lines, b0, q)
    ensures BuilderOk(lines, b, q + |para|)
  {
    var paraChars := Upto(para, |para|);
    CostInPlace(lines, para, q, |para|);
    if b0.lineCount + |para| > MAX_LINES || b0.charCount + paraChars > MAX_CHARS {
      CutBeforeParagraph(lines, b0.start - 1, q, q + |para|);
    }
    b := CloseIfFull(b0, |para|, paraChars, lines, q);
    if |para| > MAX_LINES || paraChars > MAX_CHARS {
      CountersNonNegative(lines, b, q);
      b := SliceParagraph(para, b, lines, q);
    } else {
      ExtendParagraph(lines, b, para, q, q + |para|);
      b := Extend(b, para, paraChars);
    }
  }

  lemma CountersNonNegative(lines: seq<string>, b: Builder, pos: nat)
    requires CurrentOk(lines, b, pos)
    ensures 0 <= b.charCount
  {
    UptoMonotone(lines, b.start - 1, pos);
  }

  /** The chunks of a file: they tile it, and joining their code gives back its text. */
  method LineChunks(lines: seq<string>) returns (chunks: seq<Chunk>)
    ensures Tiles(lines, chunks, |lines|)
    ensures Join(CodeStrings(chunks)) == Join(lines)
  {
    if lines == [] {
      return [];
    }
    var paras := GroupParagraphs(lines);
    var b := Builder([], [], 1, 0, 0);
    for k := 0 to |paras|
      invariant BuilderOk(lines, b, Offset(paras, k))
    {
      assert ParagraphAt(lines, paras, k);
      b := AddParagraph(paras[k], b, lines, Offset(paras, k));
    }
    if b.current != [] {
      EmitOk(lines, b, |lines|);
      b := Emit(b);
    }
    chunks := b.out;
    ChunksKeepText(lines, chunks, |lines|);
    assert lines[..|lines|] == lines;
  }

  // ----- consequences

  lemma SubspanFits(lines: seq<string>, s: nat, m: nat, t: nat)
    requires SpanOk(lines, s, t) && s + 2 <= m <= t
    ensures !Exceeds(lines, s, m)
  {
    UptoMonotone(lines, m, t);
  }

  /** A chunk that ends earlier than another good one from the same start ends at an unforced cut. */
  lemma NoShorterSpan(lines: seq<string>, s: nat, t: nat, t': nat)
    requires SpanOk(lines, s, t) && GoodSpan(lines, s, t') && t < t'
    ensures !ForcedCut(lines, s, t)
  {
    var q, e := StartOf(lines, t), EndOf(lines, t);
    SubspanFits(lines, s, t + 1, t');
    if e <= t' {
      SubspanFits(lines, s, e, t');
    } else if q == t {
      StartOfInside(lines, t, t');
    }
    if q == t {
      assert Starts(lines, t) && IsParagraph(lines, t, e);
    }
  }

  /** From a given start only one end is possible. */
  lemma SpanEndUnique(lines: seq<string>, s: nat, t: nat, t': nat)
    requires GoodSpan(lines, s, t) && GoodSpan(lines, s, t')
    ensures t == t'
  {
    if t < t' {
      NoShorterSpan(lines, s, t, t');
    } else if t' < t {
      NoShorterSpan(lines, s, t', t);
    }
  }

  lemma {:induction false} ChunkUnique(lines: seq<string>, cs: seq<Chunk>, cs': seq<Chunk>, k: nat)
    requires Tiles(lines, cs, |lines|) && Tiles(lines, cs', |lines|)
    requires k < |cs| && k < |cs'|
    ensures cs[k] == cs'[k]
  {
    if k > 0 {
      ChunkUnique(lines, cs, cs', k - 1);
    }
    assert TileOk(lines, cs, k) && TileOk(lines, cs', k);
    GoodChunkUnique(lines, cs[k], cs'[k]);
  }

  lemma GoodChunkUnique(lines: seq<string>, c: Chunk, d: Chunk)
    requires GoodChunk(lines, c) && GoodChunk(lines, d) && c.startLine == d.startLine
    ensures c == d
  {
    SpanEndUnique(lines, c.startLine - 1, c.endLine, d.endLine);
    assert c.block == d.block;
  }

  lemma TilesEndOnce(lines: seq<string>, cs: seq<Chunk>, k: nat)
    requires Tiles(lines, cs, |lines|) && k < |cs|
    ensures cs[k].endLine == |lines| <==> k == |cs| - 1
  {
    if k + 1 < |cs| {
      assert TileOk(lines, cs, k + 1);
    }
  }

  lemma TilesSomething(lines: seq<string>, cs: seq<Chunk>)
    requires Tiles(lines, cs, |lines|)
    ensures cs == [] <==> lines == []
  {
    if cs != [] {
      assert TileOk(lines, cs, 0);
    }
  }

  /** The tiling into good chunks is unique: the specification leaves no freedom. */
  lemma ChunkingUnique(lines: seq<string>, cs: seq<Chunk>, cs': seq<Chunk>)
    requires Tiles(lines, cs, |lines|) && Tiles(lines, cs', |lines|)
    ensures cs == cs'
  {
    var m := if |cs| < |cs'| then |cs| else |cs'|;
    TilesSomething(lines, cs);
    TilesSomething(lines, cs');
    forall k | 0 <= k < m ensures cs[k] == cs'[k] {
      ChunkUnique(lines, cs, cs', k);
    }
    if m > 0 {
      TilesEndOnce(lines, cs, m - 1);
      TilesEndOnce(lines, cs', m - 1);
    }
  }

  /** The text of a list of lines, and of the emitted chunks, joined with newlines. */
  function Join(parts: seq<string>): string
  {
    if parts == [] then [] else if |parts| == 1 then parts[0]
    else Join(parts[..|parts| - 1]) + "\n" + parts[|parts| - 1]
  }

  function CodeStrings(cs: seq<Chunk>): seq<string>
  {
    seq(|cs|, i requires 0 <= i < |cs| => Join(cs[i].block))
  }

  lemma {:induction false} JoinAppend(a: seq<string>, b: seq<string>)
    requires a != [] && b != []
    ensures Join(a + b) == Join(a) + "\n" + Join(b)
  {
    var b' := b[..|b| - 1];
    assert (a + b)[..|a + b| - 1] == a + b';
    if b' == [] {
      assert a + b' == a;
    } else {
      JoinAppend(a, b');
    }
  }

  /** Joining the code of the chunks gives back the text: nothing is lost, moved or repeated. */
  lemma {:induction false} ChunksKeepText(lines: seq<string>, cs: seq<Chunk>, upTo: nat)
    requires Tiles(lines, cs, upTo)
    ensures upTo <= |lines| && Join(CodeStrings(cs)) == Join(lines[..upTo])
    decreases |cs|
  {
    if cs != [] {
      var front, c := cs[..|cs| - 1], cs[|cs| - 1];
      var mid := c.startLine - 1;
      TilesFront(lines, cs, upTo);
      ChunksKeepText(lines, front, mid);
      assert CodeStrings(cs) == CodeStrings(front) + [Join(c.block)];
      assert lines[..upTo] == lines[..mid] + c.block;
      if front == [] {
        assert CodeStrings(cs) == [Join(c.block)] && lines[..upTo] == c.block;
      } else {
        JoinAppend(lines[..mid], c.block);
        JoinAppend(CodeStrings(front), [Join(c.block)]);
      }
    }
  }

  lemma TilesFront(lines: seq<string>, cs: seq<Chunk>, upTo: nat)
    requires Tiles(lines, cs, upTo) && cs != []
    ensures var front, c := cs[..|cs| - 1], cs[|cs| - 1];
            GoodChunk(lines, c) && c.endLine == upTo && Tiles(lines, front, c.startLine - 1) &&
            (front == [] <==> c.startLine == 1)
  {
    var front := cs[..|cs| - 1];
    assert TileOk(lines, cs, |cs| - 1);
    forall k | 0 <= k < |front| ensures TileOk(lines, front, k) {
      assert TileOk(lines, cs, k);
    }
    if front != [] {
      assert TileOk(lines, front, |front| - 1);
    }
  }

  lemma {:induction false} UptoIsTextLength(lines: seq<string>, t: nat)
    requires 0 < t <= |lines|
    ensures Upto(lines, t) == |Join(lines[..t])| + 1
  {
    assert lines[..t][..t - 1] == lines[..t - 1];
    if t > 1 {
      UptoIsTextLength(lines, t - 1);
    }
  }

  /** What a stretch of lines costs is the length of its text and one more newline. */
  lemma CostIsTextLength(lines: seq<string>, s: nat, t: nat)
    requires s < t <= |lines|
    ensures SpanCost(lines, s, t) == |Join(lines[s..t])| + 1
  {
    var part := lines[s..t];
    assert InPlace(lines, part, s);
    CostInPlace(lines, part, s, |part|);
    UptoIsTextLength(part, |part|);
    assert part[..|part|] == part;
  }
}
