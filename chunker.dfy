/** The document chunker of the RAG service (`RAGService.chunk_document`).

    A document is cut at blank-line paragraph breaks; each stripped, non-blank
    paragraph is either packed into a running buffer, which is flushed as one
    chunk when the next paragraph would not fit, or, when it is longer than
    the chunk size on its own, force-sliced into windows of the chunk size
    that start `chunk_size - overlap` characters apart. After an overflow
    flush the next buffer is seeded with the tail of the old one. A document
    that yields nothing this way, yet is not empty, is force-sliced whole. */
module Chunker {
  import opened PyStr

  /** The paragraph separator: the chunker splits on it and puts it back
      after every paragraph it buffers. */
  const ParagraphBreak: string := "\n\n"

  /** How a chunk was produced: a flushed buffer, a slice of one long
      paragraph, or a slice of the whole document (the fallback). */
  datatype Origin = Buffered | Sliced | Whole

  /** A chunk with its provenance. `para` is the index of the paragraph a
      slice was cut from, or of the last paragraph that entered a flushed
      buffer; it is 0 for the fallback. */
  datatype Piece = Piece(text: string, para: nat, origin: Origin)

  function Min(a: int, b: int): int {
    if a < b then a else b
  }

  /** `[text[i:i + size] for i in range(start, len(text), stride)]` */
  function SlicesFrom(text: string, size: nat, stride: nat, start: nat): (r: seq<string>)
    requires 0 < stride <= size
    ensures forall j :: 0 <= j < |r| ==> 0 < |r[j]| <= size
    decreases |text| - start
  {
    if start >= |text| then []
    else [text[start..Min(start + size, |text|)]] + SlicesFrom(text, size, stride, start + stride)
  }

  /** The force split: windows of `size` characters starting every `stride`
      characters, as the loops over `range(0, len(text), stride)` produce. */
  function ForceSlices(text: string, size: nat, stride: nat): seq<string>
    requires 0 < stride <= size
  {
    SlicesFrom(text, size, stride, 0)
  }

  /** The force split again, as the chunk slices of paragraph `para`. */
  function SlicePieces(text: string, para: nat, size: nat, stride: nat, origin: Origin): (r: seq<Piece>)
    requires 0 < stride <= size
    ensures |r| == |ForceSlices(text, size, stride)|
    ensures forall j :: 0 <= j < |r| ==> r[j] == Piece(ForceSlices(text, size, stride)[j], para, origin)
  {
    var slices := ForceSlices(text, size, stride);
    seq(|slices|, j requires 0 <= j < |slices| => Piece(slices[j], para, origin))
  }

  /** The chunk texts, in order. */
  function Texts(pieces: seq<Piece>): (r: seq<string>)
    ensures |r| == |pieces|
    ensures forall j :: 0 <= j < |r| ==> r[j] == pieces[j].text
  {
    seq(|pieces|, j requires 0 <= j < |pieces| => pieces[j].text)
  }

  /** The paragraphs, each stripped (`para.strip()`). */
  function StripAll(paras: seq<string>): (ps: seq<string>)
    ensures |ps| == |paras|
    ensures forall k :: 0 <= k < |ps| ==> ps[k] == Strip(paras[k])
  {
    seq(|paras|, k requires 0 <= k < |paras| => Strip(paras[k]))
  }

  /** The loop state: chunks so far, the buffer `current`, and (for the
      provenance of the next buffered chunk) the last paragraph buffered. */
  datatype ChunkState = ChunkState(pieces: seq<Piece>, current: string, last: nat)

  /** The buffer flushed as a chunk: `current.strip()`. */
  function Flushed(st: ChunkState): Piece {
    Piece(Strip(st.current), st.last, Buffered)
  }

  /** The buffer after an overflow flush: its last `overlap` characters and
      a space, or nothing when it is not longer than `overlap`. */
  function Seed(current: string, overlap: nat): string {
    if |current| > overlap then SliceFrom(current, -(overlap as int)) + " " else ""
  }

  /** A stripped paragraph longer than a chunk: flush a non-blank buffer,
      then append the paragraph's slices. */
  function AbsorbLong(st: ChunkState, para: string, i: nat, size: nat, overlap: nat): ChunkState
    requires overlap < size
  {
    var sliced := SlicePieces(para, i, size, size - overlap, Sliced);
    if !Blank(st.current) then ChunkState(st.pieces + [Flushed(st)] + sliced, "", st.last)
    else ChunkState(st.pieces + sliced, st.current, st.last)
  }

  /** A stripped paragraph that fits in a chunk: when the buffer would
      overflow and is not blank, flush it and re-seed it; then buffer the
      paragraph and a paragraph break. */
  function AbsorbShort(st: ChunkState, para: string, i: nat, size: nat, overlap: nat): ChunkState {
    if |st.current| + |para| > size && !Blank(st.current) then
      ChunkState(st.pieces + [Flushed(st)], Seed(st.current, overlap) + para + ParagraphBreak, i)
    else
      ChunkState(st.pieces, st.current + para + ParagraphBreak, i)
  }

  /** One iteration of the paragraph loop, for the stripped paragraph `i`. */
  function Absorb(st: ChunkState, para: string, i: nat, size: nat, overlap: nat): ChunkState
    requires overlap < size
  {
    if para == [] then st
    else if |para| > size then AbsorbLong(st, para, i, size, overlap)
    else AbsorbShort(st, para, i, size, overlap)
  }

  /** The loop state after the first `n` stripped paragraphs. */
  function Scan(ps: seq<string>, size: nat, overlap: nat, n: nat): ChunkState
    requires overlap < size && n <= |ps|
  {
    if n == 0 then ChunkState([], "", 0)
    else Absorb(Scan(ps, size, overlap, n - 1), ps[n - 1], n - 1, size, overlap)
  }

  /** The chunks after the final flush of the buffer, if it is not blank. */
  function FinalFlush(st: ChunkState): seq<Piece> {
    if !Blank(st.current) then st.pieces + [Flushed(st)] else st.pieces
  }

  /** The chunks with their provenance: the paragraph loop, the final flush,
      and the whole-document fallback. */
  function ChunkPieces(content: string, size: nat, overlap: nat): seq<Piece>
    requires overlap < size
  {
    Assemble(content, StripAll(Split(content, ParagraphBreak)), size, overlap)
  }

  /** The chunks of `content` from its stripped paragraphs `ps`. */
  function Assemble(content: string, ps: seq<string>, size: nat, overlap: nat): seq<Piece>
    requires overlap < size
  {
    var pieces := FinalFlush(Scan(ps, size, overlap, |ps|));
    if pieces == [] && content != [] then SlicePieces(content, 0, size, size - overlap, Whole)
    else pieces
  }

  /** `chunk_document(content, size, overlap)` */
  function Chunks(content: string, size: nat, overlap: nat): seq<string>
    requires overlap < size
  {
    Texts(ChunkPieces(content, size, overlap))
  }

  // ---------------------------------------------------------------------
  // The imperative chunker, proved to compute `Chunks`

  /** `chunk_document`: the paragraph loop over a running buffer, the final
      flush and the whole-document fallback. */
  method ChunkDocument(content: string, chunkSize: nat, overlap: nat) returns (chunks: seq<string>)
    requires overlap < chunkSize
    ensures chunks == Chunks(content, chunkSize, overlap)
    ensures content == [] ==> chunks == []
    ensures forall j :: 0 <= j < |chunks| ==> chunks[j] != []
  {
    var paragraphs := Split(content, ParagraphBreak);
    var current;
    ghost var st;
    chunks, current, st := ScanParagraphs(paragraphs, chunkSize, overlap);
    chunks := FlushAndFallback(content, chunkSize, overlap, chunks, current, st);
    FinalStep(content, chunkSize, overlap, st, chunks);
    ChunksNonEmpty(content, chunkSize, overlap);
    EmptyDocument(chunkSize, overlap);
  }

  /** The paragraph loop of `chunk_document`. */
  method ScanParagraphs(paragraphs: seq<string>, chunkSize: nat, overlap: nat)
    returns (chunks: seq<string>, current: string, ghost st: ChunkState)
    requires overlap < chunkSize
    ensures st == Scan(StripAll(paragraphs), chunkSize, overlap, |paragraphs|)
    ensures chunks == Texts(st.pieces) && current == st.current
  {
    ghost var ps := StripAll(paragraphs);
    chunks := [];
    current := "";
    st := ChunkState([], "", 0);
    var i := 0;
    while i < |paragraphs|
      invariant i <= |paragraphs|
      invariant st == Scan(ps, chunkSize, overlap, i)
      invariant chunks == Texts(st.pieces) && current == st.current
    {
      chunks, current := AbsorbParagraph(chunks, current, paragraphs[i], chunkSize, overlap, st, i);
      ScanStep(ps, chunkSize, overlap, i);
      st := Absorb(st, ps[i], i, chunkSize, overlap);
      i := i + 1;
    }
  }

  /** The body of the paragraph loop, on the chunk list and the buffer: it
      does what `Absorb` does to the loop state `st`. */
  method AbsorbParagraph(chunks: seq<string>, current: string, raw: string, chunkSize: nat, overlap: nat,
                         ghost st: ChunkState, ghost i: nat)
    returns (chunks': seq<string>, current': string)
    requires overlap < chunkSize
    requires chunks == Texts(st.pieces) && current == st.current
    ensures chunks' == Texts(Absorb(st, Strip(raw), i, chunkSize, overlap).pieces)
    ensures current' == Absorb(st, Strip(raw), i, chunkSize, overlap).current
  {
    chunks', current' := chunks, current;
    var para := Strip(raw);
    if para == [] {
      return;
    }
    if |para| > chunkSize {
      if Strip(current') != [] {
        LongFlushStep(st, para, i, chunkSize, overlap);
        chunks' := chunks' + [Strip(current')];
        current' := "";
      } else {
        LongKeepStep(st, para, i, chunkSize, overlap);
      }
      var slices := ForceSplit(para, chunkSize, chunkSize - overlap);
      chunks' := chunks' + slices;
      return;
    }
    ShortStep(st, para, i, chunkSize, overlap);
    if |current'| + |para| > chunkSize {
      if Strip(current') != [] {
        chunks' := chunks' + [Strip(current')];
        if |current'| > overlap {
          current' := SliceFrom(current', -(overlap as int)) + " ";
        } else {
          current' := "";
        }
      }
    }
    current' := current' + para + ParagraphBreak;
  }

  /** The tail of `chunk_document`: the final flush of the buffer, then the
      whole-document fallback when no chunk came out. */
  method FlushAndFallback(content: string, chunkSize: nat, overlap: nat, chunks: seq<string>, current: string,
                          ghost st: ChunkState)
    returns (result: seq<string>)
    requires overlap < chunkSize
    requires chunks == Texts(st.pieces) && current == st.current
    ensures result == if Texts(FinalFlush(st)) == [] && content != [] then ForceSlices(content, chunkSize, chunkSize - overlap)
                      else Texts(FinalFlush(st))
  {
    FinalFlushTexts(st);
    result := chunks;
    if Strip(current) != [] {
      result := result + [Strip(current)];
    }
    if result == [] && content != [] {
      result := ForceSplit(content, chunkSize, chunkSize - overlap);
    }
  }

  /** The force-split loop: `for i in range(0, len(text), stride): out.append(text[i:i + size])`. */
  method ForceSplit(text: string, size: nat, stride: nat) returns (slices: seq<string>)
    requires 0 < stride <= size
    ensures slices == ForceSlices(text, size, stride)
  {
    slices := [];
    var i := 0;
    while i < |text|
      invariant slices + SlicesFrom(text, size, stride, i) == ForceSlices(text, size, stride)
      decreases |text| - i
    {
      slices := slices + [text[i..Min(i + size, |text|)]];
      i := i + stride;
    }
  }

  // The loop body and the tail, one branch at a time, on chunk texts.

  lemma TextsAppend(a: seq<Piece>, b: seq<Piece>)
    ensures Texts(a + b) == Texts(a) + Texts(b)
  {
  }

  lemma TextsSlices(text: string, para: nat, size: nat, stride: nat, origin: Origin)
    requires 0 < stride <= size
    ensures Texts(SlicePieces(text, para, size, stride, origin)) == ForceSlices(text, size, stride)
  {
  }

  lemma ScanStep(ps: seq<string>, size: nat, overlap: nat, i: nat)
    requires overlap < size && i < |ps|
    ensures Scan(ps, size, overlap, i + 1) == Absorb(Scan(ps, size, overlap, i), ps[i], i, size, overlap)
  {
    var n := i + 1;
    assert n - 1 == i;
  }

  /** A long paragraph after a non-blank buffer: the buffer, then the slices. */
  lemma LongFlushStep(st: ChunkState, para: string, i: nat, size: nat, overlap: nat)
    requires overlap < size && |para| > size && !Blank(st.current)
    ensures Texts(Absorb(st, para, i, size, overlap).pieces)
      == Texts(st.pieces) + [Strip(st.current)] + ForceSlices(para, size, size - overlap)
    ensures Absorb(st, para, i, size, overlap).current == ""
  {
    var sliced := SlicePieces(para, i, size, size - overlap, Sliced);
    assert Absorb(st, para, i, size, overlap) == AbsorbLong(st, para, i, size, overlap);
    assert AbsorbLong(st, para, i, size, overlap).pieces == st.pieces + [Flushed(st)] + sliced;
    TextsSlices(para, i, size, size - overlap, Sliced);
    TextsAppend(st.pieces + [Flushed(st)], sliced);
    TextsAppend(st.pieces, [Flushed(st)]);
    assert Texts([Flushed(st)]) == [Strip(st.current)];
  }

  /** A long paragraph after a blank buffer: only the slices. */
  lemma LongKeepStep(st: ChunkState, para: string, i: nat, size: nat, overlap: nat)
    requires overlap < size && |para| > size && Blank(st.current)
    ensures Texts(Absorb(st, para, i, size, overlap).pieces)
      == Texts(st.pieces) + ForceSlices(para, size, size - overlap)
    ensures Absorb(st, para, i, size, overlap).current == st.current
  {
    var sliced := SlicePieces(para, i, size, size - overlap, Sliced);
    assert Absorb(st, para, i, size, overlap) == AbsorbLong(st, para, i, size, overlap);
    assert AbsorbLong(st, para, i, size, overlap).pieces == st.pieces + sliced;
    TextsSlices(para, i, size, size - overlap, Sliced);
    TextsAppend(st.pieces, sliced);
  }

  /** A paragraph that fits: the flushed buffer, if any, and the new buffer. */
  lemma ShortStep(st: ChunkState, para: string, i: nat, size: nat, overlap: nat)
    requires overlap < size && 0 < |para| <= size
    ensures var flush := |st.current| + |para| > size && !Blank(st.current);
      && Texts(Absorb(st, para, i, size, overlap).pieces)
         == (if flush then Texts(st.pieces) + [Strip(st.current)] else Texts(st.pieces))
      && Absorb(st, para, i, size, overlap).current
         == (if flush then Seed(st.current, overlap) else st.current) + para + ParagraphBreak
  {
    TextsAppend(st.pieces, [Flushed(st)]);
  }

  lemma FinalFlushTexts(st: ChunkState)
    ensures Texts(FinalFlush(st))
      == if !Blank(st.current) then Texts(st.pieces) + [Strip(st.current)] else Texts(st.pieces)
  {
    TextsAppend(st.pieces, [Flushed(st)]);
  }

  /** After the loop: the final flush, then the fallback. */
  lemma FinalStep(content: string, size: nat, overlap: nat, st: ChunkState, result: seq<string>)
    requires overlap < size
    requires st == Scan(StripAll(Split(content, ParagraphBreak)), size, overlap, |Split(content, ParagraphBreak)|)
    requires result == if Texts(FinalFlush(st)) == [] && content != [] then ForceSlices(content, size, size - overlap)
                       else Texts(FinalFlush(st))
    ensures result == Chunks(content, size, overlap)
  {
    TextsSlices(content, 0, size, size - overlap, Whole);
  }

  // ---------------------------------------------------------------------
  // What every chunk satisfies, and the loop invariant behind it

  /** Every paragraph is stripped. */
  ghost predicate AllStripped(ps: seq<string>) {
    forall k :: 0 <= k < |ps| ==> IsStripped(ps[k])
  }

  /** A chunk is non-empty and names a real paragraph; a flushed buffer is
      stripped and ends with the last paragraph it took in; a slice is at
      most `size` characters long, and a slice of a long paragraph is a
      piece of that paragraph. */
  ghost predicate PieceOk(ps: seq<string>, size: nat, p: Piece) {
    && p.text != []
    && p.para < |ps|
    && (p.origin == Buffered ==> IsStripped(p.text) && EndsWith(p.text, ps[p.para]))
    && (p.origin == Sliced ==> Contains(ps[p.para], p.text))
    && (p.origin != Buffered ==> |p.text| <= size)
  }

  /** Chunks follow the paragraphs they come from: provenance never goes
      back, and a flushed buffer always ends with a later paragraph than any
      chunk before it. */
  ghost predicate Ordered(pieces: seq<Piece>) {
    forall j, k :: 0 <= j < k < |pieces| ==>
      pieces[j].para <= pieces[k].para
      && (pieces[k].origin == Buffered ==> pieces[j].para < pieces[k].para)
  }

  /** Every chunk of `pieces` is well formed, and they are in paragraph order. */
  ghost predicate AllOk(ps: seq<string>, size: nat, pieces: seq<Piece>) {
    && (forall j :: 0 <= j < |pieces| ==> PieceOk(ps, size, pieces[j]))
    && Ordered(pieces)
  }

  /** Every chunk comes from a paragraph before `n`, is well formed, and they are in order. */
  ghost predicate PiecesOk(ps: seq<string>, size: nat, pieces: seq<Piece>, n: nat) {
    && (forall j :: 0 <= j < |pieces| ==> pieces[j].para < n && PieceOk(ps, size, pieces[j]))
    && Ordered(pieces)
  }

  /** The buffer is empty, or ends with the last paragraph it took in (a
      stripped, non-blank paragraph that fits in a chunk) followed by a
      paragraph break, and that paragraph comes after every chunk so far. */
  ghost predicate BufferOk(ps: seq<string>, size: nat, st: ChunkState, n: nat) {
    st.current == [] ||
    (&& st.last < n && st.last < |ps|
     && ps[st.last] != [] && IsStripped(ps[st.last]) && |ps[st.last]| <= size
     && EndsWith(st.current, ps[st.last] + ParagraphBreak)
     && forall j :: 0 <= j < |st.pieces| ==> st.pieces[j].para < st.last)
  }

  /** The loop invariant of `chunk_document` after `n` paragraphs. */
  ghost predicate ScanOk(ps: seq<string>, size: nat, st: ChunkState, n: nat) {
    BufferOk(ps, size, st, n) && PiecesOk(ps, size, st.pieces, n)
  }

  /** A buffer in that shape strips to text ending with its last paragraph,
      so it is flushed exactly when it is not empty. */
  lemma FlushedEndsWithLast(ps: seq<string>, size: nat, st: ChunkState, n: nat)
    requires BufferOk(ps, size, st, n) && st.current != []
    ensures Strip(st.current) != [] && !Blank(st.current)
    ensures EndsWith(Strip(st.current), ps[st.last])
  {
    assert Blank(ParagraphBreak);
    StripEndsWithPiece(st.current, ps[st.last], ParagraphBreak);
  }

  /** The invariant holds after every paragraph. */
  lemma {:induction false} ScanInvariant(ps: seq<string>, size: nat, overlap: nat, n: nat)
    requires overlap < size && n <= |ps| && AllStripped(ps)
    ensures ScanOk(ps, size, Scan(ps, size, overlap, n), n)
  {
    if n > 0 {
      var m := n - 1;
      assert m + 1 == n;
      ScanInvariant(ps, size, overlap, m);
      AbsorbOk(ps, size, overlap, Scan(ps, size, overlap, m), m);
    }
  }

  /** One paragraph keeps the invariant. */
  lemma AbsorbOk(ps: seq<string>, size: nat, overlap: nat, st: ChunkState, m: nat)
    requires overlap < size && m < |ps| && IsStripped(ps[m]) && ScanOk(ps, size, st, m)
    ensures ScanOk(ps, size, Absorb(st, ps[m], m, size, overlap), m + 1)
  {
    if ps[m] == [] {
      assert Absorb(st, ps[m], m, size, overlap) == st;
      LaterOk(ps, size, st, m);
    } else if |ps[m]| > size {
      assert Absorb(st, ps[m], m, size, overlap) == AbsorbLong(st, ps[m], m, size, overlap);
      AbsorbLongOk(ps, size, overlap, st, m);
    } else {
      assert Absorb(st, ps[m], m, size, overlap) == AbsorbShort(st, ps[m], m, size, overlap);
      AbsorbShortOk(ps, size, overlap, st, m);
    }
  }

  /** A blank paragraph changes nothing. */
  lemma LaterOk(ps: seq<string>, size: nat, st: ChunkState, m: nat)
    requires ScanOk(ps, size, st, m)
    ensures ScanOk(ps, size, st, m + 1)
  {
  }

  lemma AbsorbLongOk(ps: seq<string>, size: nat, overlap: nat, st: ChunkState, m: nat)
    requires overlap < size && m < |ps| && ScanOk(ps, size, st, m)
    requires |ps[m]| > size
    ensures ScanOk(ps, size, AbsorbLong(st, ps[m], m, size, overlap), m + 1)
  {
    var sliced := SlicePieces(ps[m], m, size, size - overlap, Sliced);
    SlicesContained(ps[m], size, size - overlap);
    if st.current != [] {
      FlushOk(ps, size, st, m);
      assert AbsorbLong(st, ps[m], m, size, overlap) == ChunkState(st.pieces + [Flushed(st)] + sliced, "", st.last);
      SlicesOk(ps, size, st.pieces + [Flushed(st)], sliced, m);
    } else {
      assert Blank(st.current);
      assert AbsorbLong(st, ps[m], m, size, overlap) == ChunkState(st.pieces + sliced, [], st.last);
      SlicesOk(ps, size, st.pieces, sliced, m);
    }
  }

  lemma AbsorbShortOk(ps: seq<string>, size: nat, overlap: nat, st: ChunkState, m: nat)
    requires overlap < size && m < |ps| && IsStripped(ps[m]) && ScanOk(ps, size, st, m)
    requires 0 < |ps[m]| <= size
    ensures ScanOk(ps, size, AbsorbShort(st, ps[m], m, size, overlap), m + 1)
  {
    if st.current != [] {
      FlushOk(ps, size, st, m);
      if |st.current| + |ps[m]| > size {
        BufferedOk(ps, size, st.pieces + [Flushed(st)], Seed(st.current, overlap), m);
      } else {
        BufferedOk(ps, size, st.pieces, st.current, m);
      }
    } else {
      assert Blank(st.current);
      BufferedOk(ps, size, st.pieces, st.current, m);
    }
  }

  /** Flushing a non-empty buffer adds a well-formed chunk, later than all before it. */
  lemma FlushOk(ps: seq<string>, size: nat, st: ChunkState, m: nat)
    requires ScanOk(ps, size, st, m) && st.current != []
    ensures !Blank(st.current)
    ensures PiecesOk(ps, size, st.pieces + [Flushed(st)], m)
  {
    FlushedPieceOk(ps, size, st, m);
    AppendLater(ps, size, st.pieces, Flushed(st), m);
  }

  /** The flushed buffer is a well-formed chunk of its last paragraph. */
  lemma FlushedPieceOk(ps: seq<string>, size: nat, st: ChunkState, m: nat)
    requires BufferOk(ps, size, st, m) && st.current != []
    ensures !Blank(st.current)
    ensures PieceOk(ps, size, Flushed(st)) && Flushed(st).para < m
    ensures forall j :: 0 <= j < |st.pieces| ==> st.pieces[j].para < Flushed(st).para
  {
    FlushedEndsWithLast(ps, size, st, m);
  }

  /** A chunk of a paragraph later than every chunk so far keeps the order. */
  lemma AppendLater(ps: seq<string>, size: nat, pieces: seq<Piece>, x: Piece, m: nat)
    requires PiecesOk(ps, size, pieces, m)
    requires PieceOk(ps, size, x) && x.para < m
    requires forall j :: 0 <= j < |pieces| ==> pieces[j].para < x.para
    ensures PiecesOk(ps, size, pieces + [x], m)
  {
    var qs := pieces + [x];
    forall j | 0 <= j < |qs| ensures qs[j].para < m && PieceOk(ps, size, qs[j]) {
      if j < |pieces| {
        assert qs[j] == pieces[j];
      }
    }
    forall j, k | 0 <= j < k < |qs|
      ensures qs[j].para <= qs[k].para && (qs[k].origin == Buffered ==> qs[j].para < qs[k].para)
    {
      assert qs[j] == pieces[j];
    }
  }

  /** After paragraph `m` (short) enters the buffer, the buffer ends with it. */
  lemma BufferedOk(ps: seq<string>, size: nat, pieces: seq<Piece>, seed: string, m: nat)
    requires m < |ps| && ps[m] != [] && IsStripped(ps[m]) && |ps[m]| <= size
    requires PiecesOk(ps, size, pieces, m)
    ensures ScanOk(ps, size, ChunkState(pieces, seed + ps[m] + ParagraphBreak, m), m + 1)
  {
    var cur := seed + ps[m] + ParagraphBreak;
    assert cur[|cur| - |ps[m] + ParagraphBreak|..] == ps[m] + ParagraphBreak;
  }

  /** Slices of a long paragraph `m`, after chunks of earlier paragraphs. */
  lemma SlicesOk(ps: seq<string>, size: nat, pieces: seq<Piece>, sliced: seq<Piece>, m: nat)
    requires m < |ps| && PiecesOk(ps, size, pieces, m)
    requires forall j :: 0 <= j < |sliced| ==>
      && sliced[j].para == m && sliced[j].origin == Sliced && sliced[j].text != [] && |sliced[j].text| <= size
      && Contains(ps[m], sliced[j].text)
    ensures PiecesOk(ps, size, pieces + sliced, m + 1)
  {
    var qs := pieces + sliced;
    forall j | 0 <= j < |qs| ensures qs[j].para < m + 1 && PieceOk(ps, size, qs[j]) {
      if j < |pieces| {
        assert qs[j] == pieces[j];
      } else {
        assert qs[j] == sliced[j - |pieces|];
      }
    }
    AppendOrdered(pieces, sliced, m);
  }

  /** Slices of paragraph `m` appended after chunks of earlier paragraphs
      keep the order. */
  lemma AppendOrdered(pieces: seq<Piece>, sliced: seq<Piece>, m: nat)
    requires Ordered(pieces)
    requires forall j :: 0 <= j < |pieces| ==> pieces[j].para < m
    requires forall j :: 0 <= j < |sliced| ==> sliced[j].para == m && sliced[j].origin == Sliced
    ensures Ordered(pieces + sliced)
  {
  }

  /** The invariant, with the final flush and the fallback: every chunk is
      well formed and the chunks are in paragraph order; a fallback chunk is
      a piece of the whole document. */
  lemma ChunkPiecesWellFormed(content: string, size: nat, overlap: nat)
    requires overlap < size
    ensures AllOk(StripAll(Split(content, ParagraphBreak)), size, ChunkPieces(content, size, overlap))
    ensures forall j :: 0 <= j < |ChunkPieces(content, size, overlap)| && ChunkPieces(content, size, overlap)[j].origin == Whole ==>
      Contains(content, ChunkPieces(content, size, overlap)[j].text)
  {
    var ps := StripAll(Split(content, ParagraphBreak));
    assert AllStripped(ps);
    AssembleWellFormed(content, ps, size, overlap);
    var st := Scan(ps, size, overlap, |ps|);
    if FinalFlush(st) == [] && content != [] {
      SlicesContained(content, size, size - overlap);
    } else {
      ScanNoWhole(ps, size, overlap, |ps|);
    }
  }

  /** The paragraph loop and the final flush never produce a fallback chunk. */
  lemma {:induction false} ScanNoWhole(ps: seq<string>, size: nat, overlap: nat, n: nat)
    requires overlap < size && n <= |ps|
    ensures forall j :: 0 <= j < |FinalFlush(Scan(ps, size, overlap, n))| ==>
      FinalFlush(Scan(ps, size, overlap, n))[j].origin != Whole
  {
    if n > 0 {
      ScanNoWhole(ps, size, overlap, n - 1);
      var st := Scan(ps, size, overlap, n - 1);
      assert forall j :: 0 <= j < |st.pieces| ==> st.pieces[j].origin != Whole by {
        forall j | 0 <= j < |st.pieces| ensures st.pieces[j].origin != Whole {
          assert FinalFlush(st)[j] == st.pieces[j];
        }
      }
    }
  }

  lemma AssembleWellFormed(content: string, ps: seq<string>, size: nat, overlap: nat)
    requires overlap < size && |ps| > 0 && AllStripped(ps)
    ensures AllOk(ps, size, Assemble(content, ps, size, overlap))
  {
    var st := Scan(ps, size, overlap, |ps|);
    if FinalFlush(st) == [] && content != [] {
      assert Assemble(content, ps, size, overlap) == SlicePieces(content, 0, size, size - overlap, Whole);
      WholeOk(ps, content, size, size - overlap);
    } else {
      assert Assemble(content, ps, size, overlap) == FinalFlush(st);
      ScanInvariant(ps, size, overlap, |ps|);
      FinalFlushOk(ps, size, st);
    }
  }

  /** The final flush keeps every chunk well formed and in order. */
  lemma FinalFlushOk(ps: seq<string>, size: nat, st: ChunkState)
    requires ScanOk(ps, size, st, |ps|)
    ensures AllOk(ps, size, FinalFlush(st))
  {
    if st.current != [] {
      FlushOk(ps, size, st, |ps|);
    } else {
      assert Blank(st.current);
    }
  }

  /** The fallback slices are well formed and in order. */
  lemma WholeOk(ps: seq<string>, content: string, size: nat, stride: nat)
    requires 0 < stride <= size && |ps| > 0
    ensures AllOk(ps, size, SlicePieces(content, 0, size, stride, Whole))
  {
  }

  /** Every chunk is non-empty. */
  lemma ChunksNonEmpty(content: string, size: nat, overlap: nat)
    requires overlap < size
    ensures forall j :: 0 <= j < |Chunks(content, size, overlap)| ==> Chunks(content, size, overlap)[j] != []
  {
    ChunkPiecesWellFormed(content, size, overlap);
  }

  /** An empty document has no chunks. */
  lemma EmptyDocument(size: nat, overlap: nat)
    requires overlap < size
    ensures Chunks("", size, overlap) == []
  {
    var paras := Split("", ParagraphBreak);
    assert Find("", ParagraphBreak) == -1;
    assert paras == [""];
    var ps := StripAll(paras);
    assert ps[0] == Strip("") == [];
    assert Scan(ps, size, overlap, 1) == Scan(ps, size, overlap, 0);
  }
  // ---------------------------------------------------------------------
  // The force split: where the windows start, and that they cover the text

  /** `j * stride`, counted out one stride at a time as the windows advance. */
  function Offset(stride: nat, j: nat): (r: nat)
    ensures r == j * stride
  {
    if j == 0 then 0 else stride + Offset(stride, j - 1)
  }

  /** Slice `j` is the window of `size` characters (or fewer, at the end)
      starting `j * stride` characters after `start`. */
  lemma {:induction false} SliceAt(text: string, size: nat, stride: nat, start: nat, j: nat)
    requires 0 < stride <= size && j < |SlicesFrom(text, size, stride, start)|
    ensures start + Offset(stride, j) < |text|
    ensures SlicesFrom(text, size, stride, start)[j]
         == text[start + Offset(stride, j)..Min(start + Offset(stride, j) + size, |text|)]
    decreases j
  {
    var r := SlicesFrom(text, size, stride, start);
    assert start < |text|;
    if j > 0 {
      assert r[1..] == SlicesFrom(text, size, stride, start + stride);
      SliceAt(text, size, stride, start + stride, j - 1);
    }
  }

  /** Every slice of the force split is a piece of the sliced text. */
  lemma SlicesContained(text: string, size: nat, stride: nat)
    requires 0 < stride <= size
    ensures forall j :: 0 <= j < |ForceSlices(text, size, stride)| ==> Contains(text, ForceSlices(text, size, stride)[j])
  {
    var r := ForceSlices(text, size, stride);
    forall j | 0 <= j < |r|
      ensures Contains(text, r[j])
    {
      SliceAt(text, size, stride, 0, j);
      var a := Offset(stride, j);
      assert OccursAt(text, r[j], a);
    }
  }

  /** The windows start at every multiple of `stride` before the end. */
  lemma {:induction false} SlicesReachEnd(text: string, size: nat, stride: nat, start: nat)
    requires 0 < stride <= size
    ensures start + |SlicesFrom(text, size, stride, start)| * stride >= |text|
    decreases |text| - start
  {
    if start < |text| {
      var r := SlicesFrom(text, size, stride, start);
      var rest := SlicesFrom(text, size, stride, start + stride);
      SlicesReachEnd(text, size, stride, start + stride);
      assert |r| == |rest| + 1;
      assert |r| * stride == |rest| * stride + stride;
    }
  }

  /** Consecutive windows overlap: what follows the first `stride`
      characters of a window begins the next window. */
  lemma SlicesOverlap(text: string, size: nat, stride: nat, j: nat)
    requires 0 < stride <= size && j + 1 < |ForceSlices(text, size, stride)|
    ensures var r := ForceSlices(text, size, stride);
      stride <= |r[j]| && r[j][stride..] <= r[j + 1]
  {
    SliceAt(text, size, stride, 0, j);
    SliceAt(text, size, stride, 0, j + 1);
    WindowOverlap(text, Offset(stride, j), size, stride);
  }

  /** Two windows `stride` apart share everything after the first `stride`
      characters of the earlier one. */
  lemma WindowOverlap(text: string, a: nat, size: nat, stride: nat)
    requires stride <= size && a + stride < |text|
    ensures var w := text[a..Min(a + size, |text|)];
      stride <= |w| && w[stride..] <= text[a + stride..Min(a + stride + size, |text|)]
  {
    var w := text[a..Min(a + size, |text|)];
    assert w[stride..] == text[a + stride..Min(a + size, |text|)];
  }

  /** The text again from its slices: the first `stride` characters of each. */
  function Rejoin(slices: seq<string>, stride: nat): string {
    if slices == [] then []
    else SliceTo(slices[0], stride) + Rejoin(slices[1..], stride)
  }

  /** Nothing is lost or repeated by the force split: each window contributes
      its first `stride` characters and together they are the text. */
  lemma {:induction false} SlicesRejoin(text: string, size: nat, stride: nat, start: nat)
    requires 0 < stride <= size && start <= |text|
    ensures Rejoin(SlicesFrom(text, size, stride, start), stride) == text[start..]
    decreases |text| - start
  {
    if start < |text| {
      FirstSlice(text, size, stride, start);
      if start + stride < |text| {
        SlicesRejoin(text, size, stride, start + stride);
        assert text[start..] == text[start..start + stride] + text[start + stride..];
      }
    }
  }

  /** The first window, cut to `stride`, and the windows after it. */
  lemma FirstSlice(text: string, size: nat, stride: nat, start: nat)
    requires 0 < stride <= size && start < |text|
    ensures var r := SlicesFrom(text, size, stride, start);
      && SliceTo(r[0], stride) == text[start..Min(start + stride, |text|)]
      && r[1..] == SlicesFrom(text, size, stride, start + stride)
  {
  }

  // ---------------------------------------------------------------------
  // How long a chunk can be

  /** The buffer and every chunk so far are within the bounds below. */
  ghost predicate Bounded(st: ChunkState, size: nat, overlap: nat) {
    && |st.current| <= size + overlap + 3
    && forall j :: 0 <= j < |st.pieces| ==> |st.pieces[j].text| <= size + overlap + 1
  }

  /** With a positive overlap no chunk is longer than `size + overlap + 1`
      (the carried-over tail, a space, and a paragraph that fits): the
      promise of at most `size` characters holds only for sliced chunks. */
  lemma ChunkBound(content: string, size: nat, overlap: nat)
    requires 0 < overlap < size
    ensures forall j :: 0 <= j < |Chunks(content, size, overlap)| ==>
      |Chunks(content, size, overlap)[j]| <= size + overlap + 1
  {
    var ps := StripAll(Split(content, ParagraphBreak));
    assert AllStripped(ps);
    var st := Scan(ps, size, overlap, |ps|);
    if FinalFlush(st) == [] && content != [] {
      assert ChunkPieces(content, size, overlap) == SlicePieces(content, 0, size, size - overlap, Whole);
    } else {
      assert ChunkPieces(content, size, overlap) == FinalFlush(st);
      ScanInvariant(ps, size, overlap, |ps|);
      ScanBounded(ps, size, overlap, |ps|);
      if st.current != [] {
        FlushedShort(ps, size, st, |ps|);
      } else {
        assert Blank(st.current);
      }
    }
  }

  lemma {:induction false} ScanBounded(ps: seq<string>, size: nat, overlap: nat, n: nat)
    requires 0 < overlap < size && n <= |ps| && AllStripped(ps)
    ensures Bounded(Scan(ps, size, overlap, n), size, overlap)
  {
    if n > 0 {
      var m := n - 1;
      assert m + 1 == n;
      ScanBounded(ps, size, overlap, m);
      ScanInvariant(ps, size, overlap, m);
      AbsorbBounded(ps, size, overlap, Scan(ps, size, overlap, m), m);
    }
  }

  /** A flushed buffer loses at least its trailing paragraph break. */
  lemma FlushedShort(ps: seq<string>, size: nat, st: ChunkState, n: nat)
    requires BufferOk(ps, size, st, n) && st.current != []
    ensures |Flushed(st).text| + 2 <= |st.current|
  {
    assert Blank(ParagraphBreak);
    StripEndsWithPiece(st.current, ps[st.last], ParagraphBreak);
  }

  /** The carried-over tail is at most `overlap` characters and a space. */
  lemma SeedShort(current: string, overlap: nat)
    requires overlap > 0
    ensures |Seed(current, overlap)| <= overlap + 1
  {
  }

  lemma AbsorbBounded(ps: seq<string>, size: nat, overlap: nat, st: ChunkState, m: nat)
    requires 0 < overlap < size && m < |ps| && IsStripped(ps[m])
    requires ScanOk(ps, size, st, m) && Bounded(st, size, overlap)
    ensures Bounded(Absorb(st, ps[m], m, size, overlap), size, overlap)
  {
    if ps[m] == [] {
      assert Absorb(st, ps[m], m, size, overlap) == st;
    } else if |ps[m]| > size {
      assert Absorb(st, ps[m], m, size, overlap) == AbsorbLong(st, ps[m], m, size, overlap);
      AbsorbLongBounded(ps, size, overlap, st, m);
    } else {
      assert Absorb(st, ps[m], m, size, overlap) == AbsorbShort(st, ps[m], m, size, overlap);
      AbsorbShortBounded(ps, size, overlap, st, m);
    }
  }

  lemma AbsorbLongBounded(ps: seq<string>, size: nat, overlap: nat, st: ChunkState, m: nat)
    requires 0 < overlap < size && m < |ps|
    requires ScanOk(ps, size, st, m) && Bounded(st, size, overlap)
    ensures Bounded(AbsorbLong(st, ps[m], m, size, overlap), size, overlap)
  {
    var sliced := SlicePieces(ps[m], m, size, size - overlap, Sliced);
    if st.current != [] {
      FlushedShort(ps, size, st, m);
      FlushedEndsWithLast(ps, size, st, m);
      assert AbsorbLong(st, ps[m], m, size, overlap) == ChunkState(st.pieces + [Flushed(st)] + sliced, "", st.last);
    } else {
      assert Blank(st.current);
    }
  }

  lemma AbsorbShortBounded(ps: seq<string>, size: nat, overlap: nat, st: ChunkState, m: nat)
    requires 0 < overlap < size && m < |ps| && 0 < |ps[m]| <= size
    requires ScanOk(ps, size, st, m) && Bounded(st, size, overlap)
    ensures Bounded(AbsorbShort(st, ps[m], m, size, overlap), size, overlap)
  {
    if st.current != [] {
      FlushedShort(ps, size, st, m);
      FlushedEndsWithLast(ps, size, st, m);
      SeedShort(st.current, overlap);
    } else {
      assert Blank(st.current);
    }
  }

  // ---------------------------------------------------------------------
  // Two short paragraphs that do not fit in one chunk

  /** Two paragraphs without a paragraph break inside them split apart. */
  lemma SplitTwo(p: string, q: string)
    requires Find(p, ParagraphBreak) == -1 && Find(q, ParagraphBreak) == -1
    requires p != [] && p[|p| - 1] != '\n'
    ensures Split(p + ParagraphBreak + q, ParagraphBreak) == [p, q]
  {
    var s := p + ParagraphBreak + q;
    FirstBreak(p, q);
    assert s[..|p|] == p && s[|p| + 2..] == q;
  }

  /** The first paragraph break is the one between the two paragraphs. */
  lemma FirstBreak(p: string, q: string)
    requires Find(p, ParagraphBreak) == -1
    requires p != [] && p[|p| - 1] != '\n'
    ensures Find(p + ParagraphBreak + q, ParagraphBreak) == |p|
  {
    var s := p + ParagraphBreak + q;
    assert s[|p|..|p| + 2] == ParagraphBreak;
    assert OccursAt(s, ParagraphBreak, |p|);
    forall k | 0 <= k < |p| ensures !OccursAt(s, ParagraphBreak, k) {
      if k + 2 <= |p| {
        assert s[k..k + 2] == p[k..k + 2];
        assert !OccursAt(p, ParagraphBreak, k);
      } else {
        assert s[k..k + 2][0] == p[|p| - 1];
      }
    }
  }

  /** Text without a newline holds no paragraph break. */
  lemma NoBreak(p: string)
    requires '\n' !in p
    ensures Find(p, ParagraphBreak) == -1
  {
    forall k | 0 <= k ensures !OccursAt(p, ParagraphBreak, k) {
      if k + 2 <= |p| {
        assert p[k..k + 2][0] == p[k];
      }
    }
  }

  /** The first of two short paragraphs that overflow a chunk together is a
      chunk of its own; the second chunk starts with the carried-over tail
      of the first. */
  lemma TwoParagraphs(p: string, q: string, size: nat, overlap: nat)
    requires overlap < size
    requires p != [] && IsStripped(p) && Find(p, ParagraphBreak) == -1 && |p| <= size
    requires q != [] && IsStripped(q) && Find(q, ParagraphBreak) == -1 && |q| <= size
    requires |p| + |q| + 2 > size
    ensures Chunks(p + ParagraphBreak + q, size, overlap)
         == [p, Strip(Seed(p + ParagraphBreak, overlap) + q + ParagraphBreak)]
  {
    var content := p + ParagraphBreak + q;
    TwoStripped(p, q);
    var st := TwoScan(p, q, size, overlap);
    TwoFinal(p, q, st, Seed(p + ParagraphBreak, overlap));
    FinalStep(content, size, overlap, st, [p, Strip(st.current)]);
  }

  /** The final flush after those two paragraphs. */
  lemma TwoFinal(p: string, q: string, st: ChunkState, seed: string)
    requires q != [] && IsStripped(q)
    requires st == ChunkState([Piece(p, 0, Buffered)], seed + q + ParagraphBreak, 1)
    ensures Texts(FinalFlush(st)) == [p, Strip(st.current)]
  {
    assert st.current[|seed|] == q[0];
    FinalFlushTexts(st);
    assert Texts(st.pieces) == [p];
  }

  /** The stripped paragraphs of two paragraphs joined by a break. */
  lemma TwoStripped(p: string, q: string)
    requires p != [] && IsStripped(p) && Find(p, ParagraphBreak) == -1
    requires IsStripped(q) && Find(q, ParagraphBreak) == -1
    ensures Split(p + ParagraphBreak + q, ParagraphBreak) == [p, q]
    ensures StripAll([p, q]) == [p, q]
  {
    SplitTwo(p, q);
    StripStripped(p);
    StripStripped(q);
  }

  /** The paragraph loop over those two paragraphs. */
  lemma TwoScan(p: string, q: string, size: nat, overlap: nat) returns (st: ChunkState)
    requires overlap < size
    requires p != [] && IsStripped(p) && |p| <= size
    requires q != [] && |q| <= size && |p| + |q| + 2 > size
    ensures st == Scan([p, q], size, overlap, 2)
    ensures st == ChunkState([Piece(p, 0, Buffered)], Seed(p + ParagraphBreak, overlap) + q + ParagraphBreak, 1)
  {
    var ps := [p, q];
    var s0 := Scan(ps, size, overlap, 0);
    assert "" + p + ParagraphBreak == p + ParagraphBreak;
    assert Absorb(s0, p, 0, size, overlap) == AbsorbShort(s0, p, 0, size, overlap);
    var s1 := Scan(ps, size, overlap, 1);
    assert s1 == ChunkState([], p + ParagraphBreak, 0);
    assert (p + ParagraphBreak)[0] == p[0];
    assert Blank(ParagraphBreak);
    StripTrailing(p, ParagraphBreak);
    assert Absorb(s1, q, 1, size, overlap) == AbsorbShort(s1, q, 1, size, overlap);
    st := Scan(ps, size, overlap, 2);
  }

  /** A chunk longer than `size`: "ab" is carried over into the next chunk. */
  lemma OversizeChunk(p: string, q: string)
    requires p == "ab" && q == "cd"
    ensures Chunks(p + ParagraphBreak + q, 4, 3) == ["ab", "b\n\n cd"]
  {
    NoBreak(p);
    NoBreak(q);
    TwoParagraphs(p, q, 4, 3);
    OversizeTail(p, q);
  }

  lemma OversizeTail(p: string, q: string)
    requires p == "ab" && q == "cd"
    ensures Strip(Seed(p + ParagraphBreak, 3) + q + ParagraphBreak) == "b\n\n cd"
  {
    SeedTail(p + ParagraphBreak, 3);
    assert (p + ParagraphBreak)[1..] + " " + q == "b\n\n cd";
    SecondChunk(p, q, 3, "b\n\n cd");
  }

  /** With no overlap, `current[-0:]` is the whole buffer: the first
      paragraph is flushed and also carried into the next chunk. */
  lemma NoOverlapRepeats(p: string, q: string)
    requires p == "aaa" && q == "bbb"
    ensures Chunks(p + ParagraphBreak + q, 4, 0) == ["aaa", "aaa\n\n bbb"]
  {
    NoBreak(p);
    NoBreak(q);
    TwoParagraphs(p, q, 4, 0);
    RepeatedTail(p, q);
  }

  lemma RepeatedTail(p: string, q: string)
    requires p == "aaa" && q == "bbb"
    ensures Strip(Seed(p + ParagraphBreak, 0) + q + ParagraphBreak) == "aaa\n\n bbb"
  {
    SeedWhole(p + ParagraphBreak);
    assert p + ParagraphBreak + " " + q == "aaa\n\n bbb";
    SecondChunk(p, q, 0, "aaa\n\n bbb");
  }

  /** The carried-over tail is the last `overlap` characters of the buffer. */
  lemma SeedTail(current: string, overlap: nat)
    requires 0 < overlap < |current|
    ensures Seed(current, overlap) == current[|current| - overlap..] + " "
  {
  }

  /** With no overlap the whole buffer is carried over. */
  lemma SeedWhole(current: string)
    requires current != []
    ensures Seed(current, 0) == current + " "
  {
  }

  /** The second chunk of `TwoParagraphs`, when it is known. */
  lemma SecondChunk(p: string, q: string, overlap: nat, chunk: string)
    requires chunk != [] && IsStripped(chunk)
    requires Seed(p + ParagraphBreak, overlap) + q == chunk
    ensures Strip(Seed(p + ParagraphBreak, overlap) + q + ParagraphBreak) == chunk
  {
    assert Blank(ParagraphBreak);
    StripTrailing(chunk, ParagraphBreak);
  }

  // ---------------------------------------------------------------------
  // Nothing is lost: every paragraph ends up in the chunks

  /** Some chunk is exactly `t`. */
  ghost predicate HasChunk(pieces: seq<Piece>, t: string) {
    exists j :: 0 <= j < |pieces| && pieces[j].text == t
  }

  /** Some chunk contains `p`. */
  ghost predicate HasWithin(pieces: seq<Piece>, p: string) {
    exists j :: 0 <= j < |pieces| && Contains(pieces[j].text, p)
  }

  /** The stripped paragraph `p` is in the chunks: contained in one when it
      fits, and every slice of it a chunk when it does not. */
  ghost predicate InChunks(pieces: seq<Piece>, p: string, size: nat, overlap: nat)
    requires overlap < size
  {
    if |p| > size then forall t :: t in ForceSlices(p, size, size - overlap) ==> HasChunk(pieces, t)
    else HasWithin(pieces, p)
  }

  /** Paragraph `k` is in the chunks so far, or waiting in the buffer. */
  ghost predicate Kept(ps: seq<string>, size: nat, overlap: nat, st: ChunkState, k: nat)
    requires overlap < size && k < |ps|
  {
    InChunks(st.pieces, ps[k], size, overlap) || (|ps[k]| <= size && Contains(st.current, ps[k]))
  }

  /** Every non-empty paragraph before `n` is kept. */
  ghost predicate Covered(ps: seq<string>, size: nat, overlap: nat, st: ChunkState, n: nat)
    requires overlap < size && n <= |ps|
  {
    forall k :: 0 <= k < n && ps[k] != [] ==> Kept(ps, size, overlap, st, k)
  }

  /** The stripped paragraph `p` is among the chunk texts: contained in one
      when it fits, and every slice of it a chunk when it does not. */
  ghost predicate Present(chunks: seq<string>, p: string, size: nat, overlap: nat)
    requires overlap < size
  {
    if |p| > size then forall t :: t in ForceSlices(p, size, size - overlap) ==> t in chunks
    else exists j :: 0 <= j < |chunks| && Contains(chunks[j], p)
  }

  /** Every non-empty paragraph of the document is in its chunks: one that
      fits in a chunk is contained in some chunk (alone or with its
      neighbours), and each slice of a longer one is a chunk. */
  lemma NothingLost(content: string, size: nat, overlap: nat, k: nat)
    requires overlap < size
    requires k < |Split(content, ParagraphBreak)| && Strip(Split(content, ParagraphBreak)[k]) != []
    ensures Present(Chunks(content, size, overlap), Strip(Split(content, ParagraphBreak)[k]), size, overlap)
  {
    var ps := StripAll(Split(content, ParagraphBreak));
    assert ps[k] == Strip(Split(content, ParagraphBreak)[k]);
    var pieces := LoopPieces(content, ps, size, overlap, k);
    assert Chunks(content, size, overlap) == Texts(pieces);
    InChunksTexts(pieces, ps[k], size, overlap);
  }

  /** `InChunks` read on the chunk texts. */
  lemma InChunksTexts(pieces: seq<Piece>, p: string, size: nat, overlap: nat)
    requires overlap < size && InChunks(pieces, p, size, overlap)
    ensures Present(Texts(pieces), p, size, overlap)
  {
    var chunks := Texts(pieces);
    if |p| > size {
      forall t | t in ForceSlices(p, size, size - overlap) ensures t in chunks {
        assert HasChunk(pieces, t);
        var j :| 0 <= j < |pieces| && pieces[j].text == t;
        assert chunks[j] == t;
      }
    } else {
      var j :| 0 <= j < |pieces| && Contains(pieces[j].text, p);
      assert chunks[j] == pieces[j].text;
    }
  }

  /** With a non-empty paragraph `k`, the chunks are those of the paragraph
      loop and the final flush, and paragraph `k` is in them. */
  lemma LoopPieces(content: string, ps: seq<string>, size: nat, overlap: nat, k: nat)
      returns (pieces: seq<Piece>)
    requires overlap < size && ps == StripAll(Split(content, ParagraphBreak))
    requires k < |ps| && ps[k] != []
    ensures pieces == ChunkPieces(content, size, overlap)
    ensures pieces == FinalFlush(Scan(ps, size, overlap, |ps|)) && pieces != []
    ensures InChunks(pieces, ps[k], size, overlap)
  {
    assert AllStripped(ps);
    var st := Scan(ps, size, overlap, |ps|);
    ScanInvariant(ps, size, overlap, |ps|);
    ScanCovered(ps, size, overlap, |ps|);
    FinalKept(ps, size, overlap, st, k);
    pieces := FinalFlush(st);
    if |ps[k]| > size {
      var t := ForceSlices(ps[k], size, size - overlap)[0];
      assert HasChunk(pieces, t);
    }
    assert Assemble(content, ps, size, overlap) == pieces;
  }

  /** A non-blank document never takes the fallback: its chunks are those of
      the paragraph loop and the final flush, and there is at least one. */
  lemma NonBlankDocument(content: string, size: nat, overlap: nat)
    requires overlap < size && !Blank(content)
    ensures var ps := StripAll(Split(content, ParagraphBreak));
      && Chunks(content, size, overlap) == Texts(FinalFlush(Scan(ps, size, overlap, |ps|)))
      && Chunks(content, size, overlap) != []
  {
    var parts := Split(content, ParagraphBreak);
    SplitJoin(content, ParagraphBreak);
    assert Blank(ParagraphBreak);
    JoinBlank(parts, ParagraphBreak);
    var k :| 0 <= k < |parts| && !Blank(parts[k]);
    var ps := StripAll(parts);
    var pieces := LoopPieces(content, ps, size, overlap, k);
  }

  /** A blank document (white space only) falls back to the force split of
      the whole text, or has no chunks when it is empty. */
  lemma BlankDocument(content: string, size: nat, overlap: nat)
    requires overlap < size && Blank(content)
    ensures Chunks(content, size, overlap) == ForceSlices(content, size, size - overlap)
  {
    var parts := Split(content, ParagraphBreak);
    SplitJoin(content, ParagraphBreak);
    assert Blank(ParagraphBreak);
    JoinBlank(parts, ParagraphBreak);
    var ps := StripAll(parts);
    ScanEmpty(ps, size, overlap, |ps|);
    assert Blank(Scan(ps, size, overlap, |ps|).current);
    TextsSlices(content, 0, size, size - overlap, Whole);
  }

  /** Empty paragraphs leave the loop state as it started. */
  lemma {:induction false} ScanEmpty(ps: seq<string>, size: nat, overlap: nat, n: nat)
    requires overlap < size && n <= |ps|
    requires forall k :: 0 <= k < n ==> ps[k] == []
    ensures Scan(ps, size, overlap, n) == ChunkState([], "", 0)
  {
    if n > 0 {
      ScanEmpty(ps, size, overlap, n - 1);
    }
  }

  lemma {:induction false} ScanCovered(ps: seq<string>, size: nat, overlap: nat, n: nat)
    requires overlap < size && n <= |ps| && AllStripped(ps)
    ensures Covered(ps, size, overlap, Scan(ps, size, overlap, n), n)
  {
    if n > 0 {
      var m := n - 1;
      assert m + 1 == n;
      ScanCovered(ps, size, overlap, m);
      ScanInvariant(ps, size, overlap, m);
      AbsorbCovered(ps, size, overlap, Scan(ps, size, overlap, m), m);
    }
  }

  /** One paragraph keeps every earlier paragraph and itself. */
  lemma AbsorbCovered(ps: seq<string>, size: nat, overlap: nat, st: ChunkState, m: nat)
    requires overlap < size && m < |ps| && AllStripped(ps)
    requires ScanOk(ps, size, st, m) && Covered(ps, size, overlap, st, m)
    ensures Covered(ps, size, overlap, Absorb(st, ps[m], m, size, overlap), m + 1)
  {
    forall k | 0 <= k < m + 1 && ps[k] != []
      ensures Kept(ps, size, overlap, Absorb(st, ps[m], m, size, overlap), k)
    {
      if k < m {
        KeptLater(ps, size, overlap, st, m, k);
      } else {
        KeptNew(ps, size, overlap, st, m);
      }
    }
  }

  /** The loop only ever appends chunks. */
  lemma AbsorbExtends(st: ChunkState, para: string, i: nat, size: nat, overlap: nat)
    requires overlap < size
    ensures st.pieces <= Absorb(st, para, i, size, overlap).pieces
  {
  }

  /** Chunks already there stay there. */
  lemma InChunksLater(pieces: seq<Piece>, more: seq<Piece>, p: string, size: nat, overlap: nat)
    requires overlap < size && pieces <= more && InChunks(pieces, p, size, overlap)
    ensures InChunks(more, p, size, overlap)
  {
    if |p| > size {
      forall t | t in ForceSlices(p, size, size - overlap) ensures HasChunk(more, t) {
        assert HasChunk(pieces, t);
        var j :| 0 <= j < |pieces| && pieces[j].text == t;
        assert more[j] == pieces[j];
      }
    } else {
      var j :| 0 <= j < |pieces| && Contains(pieces[j].text, p);
      assert more[j] == pieces[j];
    }
  }

  lemma KeptLater(ps: seq<string>, size: nat, overlap: nat, st: ChunkState, m: nat, k: nat)
    requires overlap < size && k < m < |ps| && AllStripped(ps) && ps[k] != []
    requires ScanOk(ps, size, st, m) && Kept(ps, size, overlap, st, k)
    ensures Kept(ps, size, overlap, Absorb(st, ps[m], m, size, overlap), k)
  {
    var next := Absorb(st, ps[m], m, size, overlap);
    AbsorbExtends(st, ps[m], m, size, overlap);
    if InChunks(st.pieces, ps[k], size, overlap) {
      InChunksLater(st.pieces, next.pieces, ps[k], size, overlap);
    } else {
      BufferKept(ps, size, overlap, st, m, k);
    }
  }

  /** A paragraph waiting in the buffer is flushed into a chunk or stays
      in the buffer. */
  lemma BufferKept(ps: seq<string>, size: nat, overlap: nat, st: ChunkState, m: nat, k: nat)
    requires overlap < size && m < |ps| && k < |ps|
    requires ps[k] != [] && IsStripped(ps[k]) && |ps[k]| <= size && Contains(st.current, ps[k])
    ensures Kept(ps, size, overlap, Absorb(st, ps[m], m, size, overlap), k)
  {
    var para := ps[m];
    var next := Absorb(st, para, m, size, overlap);
    if para == [] {
      assert next == st;
    } else if |para| > size {
      assert next == AbsorbLong(st, para, m, size, overlap);
      if !Blank(st.current) {
        FlushedKept(st, next.pieces, ps[k]);
      } else {
        assert next.current == st.current;
      }
    } else if |st.current| + |para| > size && !Blank(st.current) {
      assert next == AbsorbShort(st, para, m, size, overlap);
      FlushedKept(st, next.pieces, ps[k]);
    } else {
      assert next == AbsorbShort(st, para, m, size, overlap);
      ContainsWithin("", st.current, para + ParagraphBreak, ps[k]);
      assert "" + st.current + (para + ParagraphBreak) == next.current;
    }
  }

  /** A flushed buffer keeps every paragraph it contained. */
  lemma FlushedKept(st: ChunkState, pieces: seq<Piece>, p: string)
    requires p != [] && IsStripped(p) && Contains(st.current, p)
    requires |st.pieces| < |pieces| && pieces[|st.pieces|] == Flushed(st)
    ensures HasWithin(pieces, p)
  {
    StripKeepsContained(st.current, p);
  }

  /** The paragraph just taken in is kept. */
  lemma KeptNew(ps: seq<string>, size: nat, overlap: nat, st: ChunkState, m: nat)
    requires overlap < size && m < |ps| && ps[m] != []
    ensures Kept(ps, size, overlap, Absorb(st, ps[m], m, size, overlap), m)
  {
    if |ps[m]| > size {
      assert Absorb(st, ps[m], m, size, overlap) == AbsorbLong(st, ps[m], m, size, overlap);
      KeptLong(st, ps[m], m, size, overlap);
    } else {
      assert Absorb(st, ps[m], m, size, overlap) == AbsorbShort(st, ps[m], m, size, overlap);
      KeptShort(st, ps[m], m, size, overlap);
    }
  }

  /** Every slice of a long paragraph becomes a chunk. */
  lemma KeptLong(st: ChunkState, para: string, m: nat, size: nat, overlap: nat)
    requires overlap < size && |para| > size
    ensures InChunks(AbsorbLong(st, para, m, size, overlap).pieces, para, size, overlap)
  {
    var pieces := AbsorbLong(st, para, m, size, overlap).pieces;
    var sliced := SlicePieces(para, m, size, size - overlap, Sliced);
    var before := |pieces| - |sliced|;
    assert pieces[before..] == sliced;
    forall t | t in ForceSlices(para, size, size - overlap) ensures HasChunk(pieces, t) {
      var j :| 0 <= j < |sliced| && ForceSlices(para, size, size - overlap)[j] == t;
      assert pieces[before + j] == sliced[j];
    }
  }

  /** A paragraph that fits goes into the buffer. */
  lemma KeptShort(st: ChunkState, para: string, m: nat, size: nat, overlap: nat)
    requires para != []
    ensures Contains(AbsorbShort(st, para, m, size, overlap).current, para)
  {
    var current := AbsorbShort(st, para, m, size, overlap).current;
    var front := current[..|current| - |para| - 2];
    assert current == front + para + ParagraphBreak;
    assert OccursAt(para, para, 0);
    ContainsWithin(front, para, ParagraphBreak, para);
  }

  /** After the final flush every non-empty paragraph is in the chunks. */
  lemma FinalKept(ps: seq<string>, size: nat, overlap: nat, st: ChunkState, k: nat)
    requires overlap < size && k < |ps| && AllStripped(ps) && ps[k] != []
    requires Covered(ps, size, overlap, st, |ps|)
    ensures InChunks(FinalFlush(st), ps[k], size, overlap)
  {
    var pieces := FinalFlush(st);
    assert st.pieces <= pieces;
    if !Blank(st.current) {
      if InChunks(st.pieces, ps[k], size, overlap) {
        InChunksLater(st.pieces, pieces, ps[k], size, overlap);
      } else {
        FlushedKept(st, pieces, ps[k]);
      }
    } else {
      BlankHoldsNothing(st.current, ps[k]);
      InChunksLater(st.pieces, pieces, ps[k], size, overlap);
    }
  }

  /** White space contains no stripped, non-empty text. */
  lemma BlankHoldsNothing(s: string, p: string)
    requires Blank(s) && p != [] && IsStripped(p)
    ensures !Contains(s, p)
  {
    forall k | 0 <= k <= |s| && k + |p| <= |s| ensures !OccursAt(s, p, k) {
      assert s[k..k + |p|][0] == s[k];
    }
  }
}
