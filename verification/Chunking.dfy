/** `chunk_text`: splitting a text into overlapping chunks at sentence ends. */
module Chunking {
  import opened Wrappers
  import opened Text

  // ---------- Where a window is cut ----------

  predicate StopAt(w: string, i: int) {
    0 <= i && i + 1 < |w| && w[i] == '.' && w[i + 1] == ' '
  }

  /** `w.rfind(". ", from)` */
  function LastStop(w: string, from: nat): (r: int)
    ensures r == -1 || (from <= r && StopAt(w, r))
  {
    LastStopBelow(w, from, |w|)
  }

  function LastStopBelow(w: string, from: nat, end: nat): (r: int)
    requires end <= |w|
    ensures r == -1 || (from <= r < end && StopAt(w, r))
  {
    if end <= from then -1
    else if StopAt(w, end - 1) then end - 1
    else LastStopBelow(w, from, end - 1)
  }

  /** No stop at or after `from` lies behind the one `LastStop` finds. */
  lemma {:induction false} LastStopIsLast(w: string, from: nat, end: nat, j: int)
    requires end <= |w| && from <= j < end && StopAt(w, j)
    ensures j <= LastStopBelow(w, from, end)
  {
    if !StopAt(w, end - 1) {
      LastStopIsLast(w, from, end - 1, j);
    }
  }

  /** How much of a window is consumed: through its last full stop, if one lies in the
      latter two thirds, else all of it. */
  function CutLength(w: string): (n: nat)
    ensures n <= |w| && (w != "" ==> n > |w| / 3)
  {
    var stop := LastStop(w, |w| / 3);
    if stop != -1 then stop + 1 else |w|
  }

  function Window(rest: string, size: nat): string {
    rest[..Min(size, |rest|)]
  }

  /** The raw pieces of the text, in order. With a window of size 0 every piece is empty
      and the cursor still moves on by one character. */
  function Pieces(text: string, size: nat): seq<string>
    decreases |text|
  {
    if text == "" then []
    else
      var n := CutLength(Window(text, size));
      [text[..n]] + Pieces(text[Max(n, 1)..], size)
  }

  // ---------- What becomes of the pieces ----------

  /** The stripped pieces, blank ones dropped. */
  function Segments(pieces: seq<string>): seq<string> {
    if pieces == [] then []
    else (if Strip(pieces[0]) == "" then [] else [Strip(pieces[0])]) + Segments(pieces[1..])
  }

  /** The last `overlap` characters of a segment, or all of it. */
  function Tail(segment: string, overlap: int): string {
    if Min(overlap, |segment|) > 0 then segment[|segment| - Min(overlap, |segment|)..] else ""
  }

  /** What is put in front of a segment that follows `tail`. */
  function Lead(tail: string): string {
    if tail == "" then "" else Strip(tail) + " "
  }

  /** Chunk `i` is segment `i` after the lead from segment `i - 1`. */
  function Chunk(segments: seq<string>, i: nat, overlap: int): string
    requires i < |segments|
  {
    (if i == 0 then "" else Lead(Tail(segments[i - 1], overlap))) + segments[i]
  }

  function Assemble(segments: seq<string>, overlap: int): (chunks: seq<string>)
    ensures |chunks| == |segments|
  {
    if segments == [] then []
    else Assemble(segments[..|segments| - 1], overlap) + [Chunk(segments, |segments| - 1, overlap)]
  }

  /** The chunks of a text for a window of `size` and an overlap of `overlap` characters. */
  function Chunks(text: string, size: nat, overlap: int): seq<string> {
    if |text| <= size then (if Strip(text) == "" then [] else [Strip(text)])
    else Assemble(Segments(Pieces(text, size)), overlap)
  }

  function NonEmpty(chunks: seq<string>): seq<string> {
    if chunks == [] then []
    else NonEmpty(chunks[..|chunks| - 1]) + if chunks[|chunks| - 1] == "" then [] else [chunks[|chunks| - 1]]
  }

  // ---------- The loop ----------

  method ChunkText(text: string, chunkSizeTokens: nat, overlapTokens: int) returns (result: seq<string>)
    ensures result == Chunks(text, chunkSizeTokens * 4, overlapTokens * 4)
  {
    var size, overlap := chunkSizeTokens * 4, overlapTokens * 4;
    if |text| <= size {
      return if Strip(text) != "" then [Strip(text)] else [];
    }
    ghost var goal := Assemble(Segments(Pieces(text, size)), overlap);
    LoopReaches(text, size, overlap, goal);
    result := ChunkLongText(text, size, overlap, goal);
  }

  /** The loop, for a text longer than one window. */
  method ChunkLongText(text: string, size: nat, overlap: int, ghost goal: seq<string>) returns (result: seq<string>)
    requires Emits(text, size, overlap, "", [], goal)
    ensures result == goal
  {
    var chunks: seq<string>, start, prevTail := [], 0, "";
    ghost var rest := text;
    assert text == text[0..];
    while start < |text|
      invariant 0 <= start <= |text| && rest == text[start..]
      invariant Emits(rest, size, overlap, prevTail, chunks, goal)
      decreases |text| - start
    {
      var piece, advance;
      ghost var next;
      piece, advance, next, rest := CutPiece(text, start, size, rest, overlap, prevTail, chunks, goal);
      var segment := Strip(piece);
      if segment == "" {
        start := start + if advance != 0 then advance else 1;
        assert start == next;
        continue;
      }
      chunks := chunks + [Strip(Joined(prevTail, segment))];
      prevTail := Tail(segment, overlap);
      start := start + advance;
      assert start == next;
    }
    result := NonEmpty(chunks);
  }

  /** Cut the window that starts at `start`. */
  method CutPiece(text: string, start: nat, size: nat, ghost rest: string,
                  ghost overlap: int, ghost prevTail: string, ghost chunks: seq<string>, ghost goal: seq<string>)
    returns (piece: string, advance: nat, ghost next: nat, ghost later: string)
    requires start < |text| && rest == text[start..]
    requires Emits(rest, size, overlap, prevTail, chunks, goal)
    ensures next == start + Max(advance, 1) <= |text| && later == text[next..]
    ensures Strip(piece) == "" ==> Emits(later, size, overlap, prevTail, chunks, goal)
    ensures Strip(piece) != "" ==> advance >= 1
    ensures Strip(piece) != "" ==>
              Emits(later, size, overlap, Tail(Strip(piece), overlap),
                    chunks + [Strip(Joined(prevTail, Strip(piece)))], goal)
  {
    var window := text[start..Min(start + size, |text|)];
    piece, advance := CutWindow(window);
    WindowOfRest(text, start, size, advance);
    next, later := start + Max(advance, 1), rest[Max(advance, 1)..];
  }

  method CutWindow(window: string) returns (piece: string, advance: nat)
    ensures advance == CutLength(window) && piece == window[..advance]
  {
    var lastPeriod := LastStop(window, |window| / 3);
    if lastPeriod != -1 {
      piece, advance := window[..lastPeriod + 1], lastPeriod + 1;
    } else {
      piece, advance := window, |window|;
    }
  }

  lemma {:induction false} WindowOfRest(text: string, start: nat, size: nat, n: nat)
    requires start < |text|
    requires n <= Min(size, |text| - start)
    ensures Window(text[start..], size) == text[start..Min(start + size, |text|)]
    ensures text[start..][..n] == text[start..Min(start + size, |text|)][..n]
    ensures text[start..][Max(n, 1)..] == text[start + Max(n, 1)..]
  {
    var k := Min(size, |text| - start);
    assert Min(start + size, |text|) == start + k;
    assert text[start..][..k] == text[start..start + k];
  }

  function Joined(prevTail: string, segment: string): string {
    if prevTail != "" then Strip(prevTail) + " " + segment else segment
  }

  /** Run on `rest` with these variables, the loop ends with `goal`. */
  ghost predicate Emits(rest: string, size: nat, overlap: int, prevTail: string, chunks: seq<string>, goal: seq<string>)
    decreases |rest|
  {
    if rest == "" then NonEmpty(chunks) == goal
    else
      var n := CutLength(Window(rest, size));
      var segment := Strip(rest[..n]);
      if segment == "" then Emits(rest[Max(n, 1)..], size, overlap, prevTail, chunks, goal)
      else Emits(rest[Max(n, 1)..], size, overlap, Tail(segment, overlap),
                 chunks + [Strip(Joined(prevTail, segment))], goal)
  }

  /** The chunks so far are those of the segments `done`, and the carried tail is the last one's. */
  ghost predicate Carried(overlap: int, chunks: seq<string>, prevTail: string, done: seq<string>) {
    && chunks == Assemble(done, overlap)
    && prevTail == (if done == [] then "" else Tail(done[|done| - 1], overlap))
    && (forall i :: 0 <= i < |done| ==> done[i] != "" && Trimmed(done[i]))
  }

  lemma {:induction false} EmitsBlank(rest: string, size: nat, overlap: int, prevTail: string, chunks: seq<string>,
                                      goal: seq<string>, n: nat)
    requires rest != "" && n == CutLength(Window(rest, size)) && Strip(rest[..n]) == ""
    requires Emits(rest[Max(n, 1)..], size, overlap, prevTail, chunks, goal)
    ensures Emits(rest, size, overlap, prevTail, chunks, goal)
  {
  }

  lemma {:induction false} EmitsSegment(rest: string, size: nat, overlap: int, prevTail: string, chunks: seq<string>,
                                        goal: seq<string>, n: nat, segment: string)
    requires rest != "" && n == CutLength(Window(rest, size)) && segment == Strip(rest[..n]) && segment != ""
    requires Emits(rest[Max(n, 1)..], size, overlap, Tail(segment, overlap),
                   chunks + [Strip(Joined(prevTail, segment))], goal)
    ensures Emits(rest, size, overlap, prevTail, chunks, goal)
  {
  }

  /** Started after the segments `done`, with `more` still to come, the loop ends with the chunks of both. */
  lemma {:induction false} LoopEmits(rest: string, size: nat, overlap: int, prevTail: string, chunks: seq<string>,
                                     done: seq<string>, more: seq<string>, goal: seq<string>)
    requires Carried(overlap, chunks, prevTail, done) && more == Segments(Pieces(rest, size))
    requires goal == Assemble(done + more, overlap)
    ensures Emits(rest, size, overlap, prevTail, chunks, goal)
    decreases |rest|
  {
    if rest == "" {
      assert done + more == done;
      ChunksNonEmpty(done, overlap);
      NonEmptyKeeps(chunks);
    } else {
      var n := CutLength(Window(rest, size));
      var segment, later := Strip(rest[..n]), rest[Max(n, 1)..];
      var more' := Segments(Pieces(later, size));
      NextSegment(rest, size, rest[..n], later);
      if segment == "" {
        assert more == more';
        LoopEmits(later, size, overlap, prevTail, chunks, done, more', goal);
        EmitsBlank(rest, size, overlap, prevTail, chunks, goal, n);
      } else {
        var full := Strip(Joined(prevTail, segment));
        var chunks', done' := chunks + [full], done + [segment];
        ghost var _, _ := StripSplits(rest[..n]);
        Take(overlap, chunks, prevTail, done, segment, full, chunks', done');
        Regroup(done, segment, more', done', more);
        LoopEmits(later, size, overlap, Tail(segment, overlap), chunks', done', more', goal);
        EmitsSegment(rest, size, overlap, prevTail, chunks, goal, n, segment);
      }
    }
  }

  lemma {:induction false} Regroup<T>(done: seq<T>, next: T, more': seq<T>, done': seq<T>, more: seq<T>)
    requires done' == done + [next] && more == [next] + more'
    ensures done + more == done' + more'
  {
  }

  lemma {:induction false} LoopReaches(text: string, size: nat, overlap: int, goal: seq<string>)
    requires goal == Assemble(Segments(Pieces(text, size)), overlap)
    ensures Emits(text, size, overlap, "", [], goal)
  {
    var more := Segments(Pieces(text, size));
    assert [] + more == more;
    LoopEmits(text, size, overlap, "", [], [], more, goal);
  }

  /** The first piece contributes its stripped text, unless it is blank. */
  lemma {:induction false} NextSegment(rest: string, size: nat, piece: string, later: string)
    requires rest != "" && piece == rest[..CutLength(Window(rest, size))]
    requires later == rest[Max(CutLength(Window(rest, size)), 1)..]
    ensures Segments(Pieces(rest, size))
            == (if Strip(piece) == "" then [] else [Strip(piece)]) + Segments(Pieces(later, size))
  {
    assert Pieces(rest, size) == [piece] + Pieces(later, size);
    assert Pieces(rest, size)[1..] == Pieces(later, size);
  }

  lemma {:induction false} Take(overlap: int, chunks: seq<string>, prevTail: string, done: seq<string>, segment: string,
                                full: string, chunks': seq<string>, done': seq<string>)
    requires Carried(overlap, chunks, prevTail, done) && segment != "" && Trimmed(segment)
    requires full == Strip(Joined(prevTail, segment)) && chunks' == chunks + [full] && done' == done + [segment]
    ensures Carried(overlap, chunks', Tail(segment, overlap), done')
  {
    FullIsChunk(overlap, prevTail, done, segment, full, done');
    AssembleAppend(done, segment, overlap, done');
  }

  lemma {:induction false} FullIsChunk(overlap: int, prevTail: string, done: seq<string>, segment: string, full: string,
                                       done': seq<string>)
    requires segment != "" && Trimmed(segment) && done' == done + [segment]
    requires prevTail == if done == [] then "" else Tail(done[|done| - 1], overlap)
    requires done != [] ==> done[|done| - 1] != "" && Trimmed(done[|done| - 1])
    requires full == Strip(Joined(prevTail, segment))
    ensures full == Chunk(done', |done|, overlap)
  {
    if prevTail != "" {
      var last := done[|done| - 1];
      TailTrims(last, overlap);
      JoinIsTrimmed(Strip(prevTail), segment);
    } else {
      StripTrimmed(segment);
    }
  }

  lemma {:induction false} JoinIsTrimmed(lead: string, segment: string)
    requires lead != "" && segment != "" && Trimmed(lead) && Trimmed(segment)
    ensures Strip(lead + " " + segment) == lead + " " + segment
  {
    var full := lead + " " + segment;
    assert full[0] == lead[0] && full[|full| - 1] == segment[|segment| - 1];
    StripTrimmed(full);
  }

  lemma {:induction false} AssembleAppend(done: seq<string>, segment: string, overlap: int, done': seq<string>)
    requires done' == done + [segment]
    ensures Assemble(done', overlap) == Assemble(done, overlap) + [Chunk(done', |done|, overlap)]
  {
    assert done'[..|done|] == done;
  }

  lemma {:induction false} TailTrims(segment: string, overlap: int)
    requires segment != "" && Trimmed(segment) && Tail(segment, overlap) != ""
    ensures Strip(Tail(segment, overlap)) != "" && Trimmed(Strip(Tail(segment, overlap)))
  {
    var tail := Tail(segment, overlap);
    ghost var _, _ := StripSplits(tail);
    StripKeepsInk(tail, |tail| - 1);
  }

  lemma {:induction false} ChunksNonEmpty(segments: seq<string>, overlap: int)
    requires forall i :: 0 <= i < |segments| ==> segments[i] != ""
    ensures forall i :: 0 <= i < |segments| ==> Assemble(segments, overlap)[i] != ""
  {
    if segments != [] {
      var n := |segments| - 1;
      ChunksNonEmpty(segments[..n], overlap);
      assert |Chunk(segments, n, overlap)| >= |segments[n]| > 0;
    }
  }

  lemma {:induction false} NonEmptyKeeps(chunks: seq<string>)
    requires forall i :: 0 <= i < |chunks| ==> chunks[i] != ""
    ensures NonEmpty(chunks) == chunks
  {
    if chunks != [] { NonEmptyKeeps(chunks[..|chunks| - 1]); }
  }
}
