/** What `chunk_text` promises: nothing is lost, cuts fall where they should, work is bounded. */
module ChunkProperties {
  import opened Wrappers
  import opened Text
  import opened Chunking

  // ---------- Nothing is lost ----------

  /** The raw pieces concatenate to exactly the input. */
  lemma {:induction false} PiecesPartition(text: string, size: nat)
    requires size >= 1
    ensures Flatten(Pieces(text, size)) == text
    decreases |text|
  {
    if text != "" {
      var n := CutLength(Window(text, size));
      var piece, later := text[..n], text[Max(n, 1)..];
      PiecesPartition(later, size);
      assert Pieces(text, size) == [piece] + Pieces(later, size);
      assert text == piece + later;
    }
  }

  lemma {:induction false} SegmentsKeepInk(pieces: seq<string>)
    ensures Ink(Flatten(Segments(pieces))) == Ink(Flatten(pieces))
  {
    if pieces != [] {
      var segment, rest := Strip(pieces[0]), pieces[1..];
      SegmentsKeepInk(rest);
      InkConcat(pieces[0], Flatten(rest));
      InkStrip(pieces[0]);
      if segment == "" {
        assert Segments(pieces) == Segments(rest);
      } else {
        assert Segments(pieces) == [segment] + Segments(rest);
        assert Segments(pieces)[1..] == Segments(rest);
        InkConcat(segment, Flatten(Segments(rest)));
      }
    }
  }

  lemma {:induction false} SegmentsTrimmed(pieces: seq<string>)
    ensures forall i :: 0 <= i < |Segments(pieces)| ==> Segments(pieces)[i] != "" && Trimmed(Segments(pieces)[i])
  {
    if pieces != [] {
      SegmentsTrimmed(pieces[1..]);
      ghost var _, _ := StripSplits(pieces[0]);
    }
  }

  lemma {:induction false} AssembledChunk(segments: seq<string>, overlap: int, i: nat)
    requires i < |segments|
    ensures Assemble(segments, overlap)[i] == Chunk(segments, i, overlap)
  {
    var n := |segments| - 1;
    if i < n {
      AssembledChunk(segments[..n], overlap, i);
      assert Chunk(segments[..n], i, overlap) == Chunk(segments, i, overlap);
    }
  }

  /** The chunk of a segment: after the stripped last `overlap` characters of the segment before it
      and a space, if there are any such characters. */
  predicate Carries(before: string, segment: string, overlap: int, chunk: string) {
    var k := Min(overlap, |before|);
    chunk == if k > 0 then Strip(before[|before| - k..]) + " " + segment else segment
  }

  lemma {:induction false} ChunkCarries(segments: seq<string>, overlap: int, i: nat, chunk: string)
    requires i < |segments| && chunk == Assemble(segments, overlap)[i]
    ensures Carries(if i == 0 then "" else segments[i - 1], segments[i], overlap, chunk)
  {
    AssembledChunk(segments, overlap, i);
    assert "" + segments[i] == segments[i];
  }

  /** The chunks are the segments, none of them empty, each after the end of the one before it; and
      every non-whitespace character of the text is in the segments, once and in order. */
  lemma {:induction false} NothingIsLost(text: string, size: nat, overlap: int) returns (segments: seq<string>)
    requires |text| > size >= 1
    ensures segments == Segments(Pieces(text, size)) && Ink(Flatten(segments)) == Ink(text)
    ensures var chunks := Chunks(text, size, overlap);
            && |chunks| == |segments|
            && forall i :: 0 <= i < |chunks| ==>
                 segments[i] != "" && Carries(if i == 0 then "" else segments[i - 1], segments[i], overlap, chunks[i])
  {
    var pieces := Pieces(text, size);
    segments := Segments(pieces);
    PiecesPartition(text, size);
    SegmentsKeepInk(pieces);
    SegmentsTrimmed(pieces);
    var chunks := Chunks(text, size, overlap);
    forall i | 0 <= i < |chunks|
      ensures segments[i] != "" && Carries(if i == 0 then "" else segments[i - 1], segments[i], overlap, chunks[i])
    {
      ChunkCarries(segments, overlap, i, chunks[i]);
    }
  }

  /** `core` is what is left of `piece` without its blank ends. */
  ghost predicate IsCore(core: string, piece: string) {
    && core != "" && Trimmed(core)
    && exists before, after :: piece == before + core + after && Blank(before) && Blank(after)
  }

  lemma {:induction false} CoreOfPiece(piece: string)
    ensures if Strip(piece) == "" then Blank(piece) else IsCore(Strip(piece), piece)
  {
    ghost var before, after := StripSplits(piece);
    InkStrip(piece);
    if Strip(piece) == "" { InklessIsBlank(piece); }
  }

  /** The segments are the trimmed pieces in their order, `at` being their places; all other
      pieces are blank. */
  lemma {:induction false} SegmentsArePieces(pieces: seq<string>) returns (at: seq<nat>)
    ensures |at| == |Segments(pieces)| && forall i, j :: 0 <= i < j < |at| ==> at[i] < at[j]
    ensures forall j :: 0 <= j < |at| ==> at[j] < |pieces| && IsCore(Segments(pieces)[j], pieces[at[j]])
    ensures forall i :: 0 <= i < |pieces| && i !in at ==> Blank(pieces[i])
  {
    at := SegmentsFrom(pieces, 0, pieces);
  }

  lemma {:induction false} SegmentsFrom(pieces: seq<string>, k: nat, rest: seq<string>) returns (at: seq<nat>)
    requires k <= |pieces| && rest == pieces[k..]
    ensures |at| == |Segments(rest)| && forall i, j :: 0 <= i < j < |at| ==> at[i] < at[j]
    ensures forall j :: 0 <= j < |at| ==> k <= at[j] < |pieces| && IsCore(Segments(rest)[j], pieces[at[j]])
    ensures forall i :: k <= i < |pieces| && i !in at ==> Blank(pieces[i])
    decreases |rest|
  {
    if rest == [] {
      at := [];
    } else {
      assert rest[1..] == pieces[k + 1..] && rest[0] == pieces[k];
      at := SegmentsFrom(pieces, k + 1, rest[1..]);
      CoreOfPiece(pieces[k]);
      at := (if Strip(pieces[k]) == "" then [] else [k]) + at;
    }
  }

  /** A text of at most one window is one chunk, without its blank ends, or none if it is blank. */
  lemma {:induction false} ShortTextIsOneChunk(text: string, size: nat, overlap: int)
    requires |text| <= size
    ensures Blank(text) ==> Chunks(text, size, overlap) == []
    ensures !Blank(text) ==> |Chunks(text, size, overlap)| == 1 && IsCore(Chunks(text, size, overlap)[0], text)
  {
    ghost var before, after := StripSplits(text);
    if Blank(text) { StripBlank(text); }
  }

  /** With windows of no characters everything is dropped; with any other window a text
      that has ink gives chunks. */
  lemma {:induction false} DroppedIff(text: string, size: nat, overlap: int)
    requires Ink(text) != ""
    ensures Chunks(text, size, overlap) == [] <==> size == 0
  {
    if |text| <= size {
      InkStrip(text);
    } else if size == 0 {
      EmptyWindows(text);
    } else {
      var segments := NothingIsLost(text, size, overlap);
    }
  }

  lemma {:induction false} EmptyWindows(text: string)
    ensures Segments(Pieces(text, 0)) == []
    decreases |text|
  {
    if text != "" {
      EmptyWindows(text[1..]);
      assert Window(text, 0) == "" && CutLength("") == 0;
      NextSegment(text, 0, "", text[1..]);
    }
  }

  // ---------- Sizes ----------

  lemma {:induction false} PiecesFit(text: string, size: nat)
    ensures forall i :: 0 <= i < |Pieces(text, size)| ==> |Pieces(text, size)[i]| <= size
    decreases |text|
  {
    if text != "" {
      PiecesFit(text[Max(CutLength(Window(text, size)), 1)..], size);
    }
  }

  lemma {:induction false} SegmentsFit(pieces: seq<string>, size: nat)
    requires forall i :: 0 <= i < |pieces| ==> |pieces[i]| <= size
    ensures forall i :: 0 <= i < |Segments(pieces)| ==> |Segments(pieces)[i]| <= size
  {
    if pieces != [] {
      SegmentsFit(pieces[1..], size);
      ghost var _, _ := StripSplits(pieces[0]);
      assert |pieces[0]| <= size;
    }
  }

  /** A chunk is never longer than one window, one space and the overlap. */
  lemma {:induction false} ChunksFit(text: string, size: nat, overlap: int, i: nat)
    requires i < |Chunks(text, size, overlap)|
    ensures |Chunks(text, size, overlap)[i]| <= size + 1 + Max(overlap, 0)
  {
    if |text| <= size {
      ghost var _, _ := StripSplits(text);
    } else {
      var pieces := Pieces(text, size);
      var segments := Segments(pieces);
      PiecesFit(text, size);
      SegmentsFit(pieces, size);
      AssembledChunk(segments, overlap, i);
      assert |segments[i]| <= size;
      if i > 0 {
        ghost var _, _ := StripSplits(Tail(segments[i - 1], overlap));
      }
    }
  }

  // ---------- Where cuts fall ----------

  /** `piece` is the window at the front of `rest`, cut after the last full stop in its latter two
      thirds, if there is one, and otherwise at its end, whatever stands there. */
  predicate CutAt(rest: string, piece: string, size: nat) {
    var w := rest[..Min(size, |rest|)];
    && 0 < |piece| && piece <= w
    && (piece != w ==> |w| / 3 < |piece| && piece[|piece| - 1] == '.' && w[|piece|] == ' ')
    && forall j :: (if piece != w then |piece| else |w| / 3) <= j < |w| - 1 ==> w[j] != '.' || w[j + 1] != ' '
  }

  lemma {:induction false} CutFallsAtLastStop(rest: string, size: nat)
    requires rest != "" && size >= 1
    ensures CutAt(rest, rest[..CutLength(Window(rest, size))], size)
  {
    var w := Window(rest, size);
    var n := CutLength(w);
    assert rest[..n] == w[..n];
    forall j | (if n < |w| then n else |w| / 3) <= j < |w| - 1 ensures w[j] != '.' || w[j + 1] != ' ' {
      if StopAt(w, j) { LastStopIsLast(w, |w| / 3, |w|, j); }
    }
  }

  /** Every piece is the front of what is left of the text, cut where a window is cut. */
  lemma {:induction false} PiecesAreCut(text: string, size: nat, i: nat)
    requires size >= 1 && i < |Pieces(text, size)|
    ensures CutAt(Flatten(Pieces(text, size)[i..]), Pieces(text, size)[i], size)
    decreases i
  {
    var pieces := Pieces(text, size);
    if i == 0 {
      PiecesPartition(text, size);
      assert pieces[0..] == pieces;
      CutFallsAtLastStop(text, size);
    } else {
      var n := CutLength(Window(text, size));
      var later := Pieces(text[Max(n, 1)..], size);
      assert pieces == [text[..n]] + later;
      assert pieces[i..] == later[i - 1..];
      PiecesAreCut(text[Max(n, 1)..], size, i - 1);
    }
  }

  predicate SplitsWord(text: string, at: nat) {
    0 < at < |text| && !IsSpace(text[at - 1]) && !IsSpace(text[at])
  }

  /** The documentation promises a word boundary where no sentence ends. The code cuts at the
      full window instead: it splits a word exactly when the latter two thirds hold no full stop
      and the window happens to end inside a word. */
  lemma {:induction false} CutSplitsWordIff(rest: string, size: nat)
    requires |rest| > size >= 1
    ensures SplitsWord(rest, CutLength(Window(rest, size))) <==>
            LastStop(Window(rest, size), size / 3) == -1 && SplitsWord(rest, size)
  {
    var w := Window(rest, size);
    var stop := LastStop(w, size / 3);
    if stop != -1 {
      assert StopAt(w, stop) && rest[stop + 1] == w[stop + 1] == ' ';
    }
  }

  lemma {:induction false} WordIsSplit()
    ensures var rest := "antidisestablishment";
            SplitsWord(rest, CutLength(Window(rest, 8)))
  {
    var rest := "antidisestablishment";
    var w := Window(rest, 8);
    assert forall j :: 0 <= j < 8 ==> w[j] == rest[j] && w[j] != '.';
    assert LastStop(w, 2) == -1;
    CutSplitsWordIff(rest, 8);
  }

  // ---------- How much work ----------

  /** m * 2^n */
  function Doubled(m: nat, n: nat): nat {
    if n == 0 then m else 2 * Doubled(m, n - 1)
  }

  /** 3^n */
  function PowerOf3(n: nat): nat {
    if n == 0 then 1 else 3 * PowerOf3(n - 1)
  }

  lemma {:induction false} TwoThirds(less: nat, more: nat, n: nat)
    requires 3 * less <= 2 * more
    ensures 3 * Doubled(less, n) <= Doubled(more, n + 1)
  {
    if n > 0 { TwoThirds(less, more, n - 1); }
  }

  lemma {:induction false} DoubledMonotone(less: nat, more: nat, n: nat)
    requires less <= more
    ensures Doubled(less, n) <= Doubled(more, n)
  {
    if n > 0 { DoubledMonotone(less, more, n - 1); }
  }

  lemma {:induction false} OneMore(f: nat, full: nat, third: nat, n: nat, later: nat, whole: nat)
    requires f * third <= later && third <= n && whole == n + later && full == f + 1
    ensures full * third <= whole
  {
    assert full * third == f * third + third;
  }

  lemma {:induction false} PiecesStep(rest: string, size: nat) returns (n: nat, later: string)
    requires rest != "" && size >= 1
    ensures n <= |rest| && |later| == |rest| - n
    ensures 3 * n > Min(size, |rest|)
    ensures |Pieces(rest, size)| == 1 + |Pieces(later, size)|
  {
    n := CutLength(Window(rest, size));
    later := rest[Max(n, 1)..];
    assert Pieces(rest, size) == [rest[..n]] + Pieces(later, size);
  }

  /** Once less than a window is left, every step leaves at most two thirds of it. */
  lemma {:induction false} TailSteps(rest: string, size: nat)
    requires 0 < |rest| <= size
    ensures var steps := |Pieces(rest, size)|;
            steps >= 1 && PowerOf3(steps - 1) <= Doubled(|rest|, steps - 1)
    decreases |rest|
  {
    var n, later := PiecesStep(rest, size);
    if later != "" {
      TailSteps(later, size);
      TwoThirds(|later|, |rest|, |Pieces(later, size)| - 1);
    }
  }

  lemma {:induction false} CountSteps(text: string, size: nat, third: nat) returns (full: nat, tail: nat)
    requires size >= 1 && third == size / 3 + 1
    ensures |Pieces(text, size)| == full + tail
    ensures full * third <= |text|
    ensures tail > 0 ==> PowerOf3(tail - 1) <= Doubled(size, tail - 1)
    decreases |text|
  {
    if text == "" {
      full, tail := 0, 0;
    } else if |text| <= size {
      full, tail := 0, |Pieces(text, size)|;
      TailSteps(text, size);
      DoubledMonotone(|text|, size, tail - 1);
    } else {
      var n, later := PiecesStep(text, size);
      var f;
      f, tail := CountSteps(later, size, third);
      full := f + 1;
      OneMore(f, full, third, n, |later|, |text|);
    }
  }

  /** The number of windows: at most one for each third of a window the text holds, plus a
      tail logarithmic (to base 3/2) in the window. */
  lemma {:induction false} StepsBounded(text: string, size: nat) returns (full: nat, tail: nat)
    requires size >= 1
    ensures |Pieces(text, size)| == full + tail
    ensures full * (size / 3 + 1) <= |text|
    ensures tail > 0 ==> PowerOf3(tail - 1) <= Doubled(size, tail - 1)
  {
    full, tail := CountSteps(text, size, size / 3 + 1);
  }
}
