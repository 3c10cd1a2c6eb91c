/** Splitting a text into overlapping chunks, and the edges that file each chunk under each subject. */
module Chunking {
  import opened Results
  import opened Text

  // ---------------------------------------------------------------------------
  // One chunk
  // ---------------------------------------------------------------------------

  predicate At(s: string, sep: string, i: nat) {
    i + |sep| <= |s| && s[i..i + |sep|] == sep
  }

  /** `s.rfind(sep)`: the last occurrence starting before `n`. */
  function RFindBefore(s: string, sep: string, n: nat): (r: Option<nat>)
    ensures r.Some? ==> r.value < n && At(s, sep, r.value) && forall j :: r.value < j < n ==> !At(s, sep, j)
    ensures r.None? ==> forall j :: 0 <= j < n ==> !At(s, sep, j)
  {
    if n == 0 then None else if At(s, sep, n - 1) then Some(n - 1) else RFindBefore(s, sep, n - 1)
  }

  function RFind(s: string, sep: string): Option<nat> {
    RFindBefore(s, sep, |s| + 1)
  }

  const SEPARATORS: seq<string> := ["\n\n", ". ", " "]

  /** The last place past the middle where the first separator that has one occurs. */
  function CutAmong(slice: string, max: nat, seps: seq<string>): Option<nat> {
    if seps == [] then None
    else
      var i := RFind(slice, seps[0]);
      if i.Some? && 2 * i.value > max then i else CutAmong(slice, max, seps[1..])
  }

  /** Where the slice that starts at `pos` ends: at a boundary past its middle when there is one. */
  function EndAt(text: string, pos: nat, max: nat): (e: nat)
    requires pos < |text| && max >= 1
    ensures pos < e <= |text| && e - pos <= max
  {
    if pos + max < |text| then
      var slice := text[pos..pos + max];
      var cut := CutAmong(slice, max, SEPARATORS);
      CutWithin(slice, max, SEPARATORS);
      if cut.Some? then pos + cut.value + 1 else pos + max
    else |text|
  }

  lemma CutWithin(slice: string, max: nat, seps: seq<string>)
    requires forall sep :: sep in seps ==> sep != ""
    ensures CutAmong(slice, max, seps).Some? ==> CutAmong(slice, max, seps).value < |slice|
  {
    if seps != [] {
      assert seps[0] in seps && forall sep :: sep in seps[1..] ==> sep in seps;
      CutWithin(slice, max, seps[1..]);
    }
  }

  function Advance(length: nat, overlap: nat): nat {
    if length > overlap + 1 then length - overlap else 1
  }

  function PieceAt(text: string, pos: nat, max: nat): string
    requires pos < |text| && max >= 1
  {
    Strip(text[pos..EndAt(text, pos, max)])
  }

  function ChunksFrom(text: string, pos: nat, max: nat, overlap: nat): seq<string>
    requires max >= 1
    decreases |text| - pos
  {
    if pos >= |text| then []
    else
      var piece := PieceAt(text, pos, max);
      (if piece != "" then [piece] else []) + ChunksFrom(text, pos + Advance(|piece|, overlap), max, overlap)
  }

  function Chunks(raw: string, max: nat, overlap: nat): seq<string>
    requires max >= 1
  {
    var text := Strip(raw);
    if text == "" then [] else if |text| <= max then [text] else ChunksFrom(text, 0, max, overlap)
  }

  method MemChunk(raw: string, max: nat, overlap: nat) returns (chunks: seq<string>)
    requires max >= 1
    ensures chunks == Chunks(raw, max, overlap)
  {
    hide Strip, EndAt;
    var text := Strip(raw);
    if text == "" {
      return [];
    }
    if |text| <= max {
      return [text];
    }
    chunks := [];
    var total := |text|;
    var pos := 0;
    while pos < total
      invariant ChunksFrom(text, 0, max, overlap) == chunks + ChunksFrom(text, pos, max, overlap)
    {
      var slice := SliceAt(text, pos, max);
      slice := Strip(slice);
      if slice != "" {
        chunks := chunks + [slice];
      }
      var advance := if |slice| - overlap > 1 then |slice| - overlap else 1;
      pos := pos + advance;
    }
  }

  /** The slice at `pos`, cut at a boundary unless it reaches the end of the text. */
  method SliceAt(text: string, pos: nat, max: nat) returns (slice: string)
    requires pos < |text| && max >= 1
    ensures slice == text[pos..EndAt(text, pos, max)]
  {
    hide CutAmong;
    var end := pos + max;
    slice := text[pos..if end < |text| then end else |text|];
    if end < |text| {
      var cut := FindCut(slice, max);
      CutWithin(slice, max, SEPARATORS);
      if cut.Some? {
        assert slice[..cut.value + 1] == text[pos..pos + cut.value + 1];
        slice := slice[..cut.value + 1];
      }
    }
  }

  /** The loop over the separators. */
  method FindCut(slice: string, max: nat) returns (cut: Option<nat>)
    ensures cut == CutAmong(slice, max, SEPARATORS)
  {
    hide RFind;
    cut := None;
    for i := 0 to |SEPARATORS|
      invariant cut == None && CutAmong(slice, max, SEPARATORS) == CutAmong(slice, max, SEPARATORS[i..])
    {
      var idx := RFind(slice, SEPARATORS[i]);
      assert SEPARATORS[i..][1..] == SEPARATORS[i + 1..];
      if idx.Some? && 2 * idx.value > max {
        cut := idx;
        break;
      }
    }
  }

  // ---------------------------------------------------------------------------
  // Where the chunks lie
  // ---------------------------------------------------------------------------

  datatype Span = Span(start: nat, end: nat)

  function Lead(s: string): nat {
    if |LStrip(s)| <= |s| then |s| - |LStrip(s)| else 0
  }

  /** The places of the chunks, alongside `ChunksFrom`. */
  function SpansFrom(text: string, pos: nat, max: nat, overlap: nat): seq<Span>
    requires max >= 1
    decreases |text| - pos
  {
    if pos >= |text| then []
    else
      var piece := PieceAt(text, pos, max);
      var start := pos + Lead(text[pos..EndAt(text, pos, max)]);
      (if piece != "" then [Span(start, start + |piece|)] else [])
      + SpansFrom(text, pos + Advance(|piece|, overlap), max, overlap)
  }

  /** What a chunk placed at a span of `text` must be. */
  ghost predicate Fits(text: string, max: nat, chunk: string, s: Span) {
    s.start < s.end <= |text| && s.end - s.start <= max && chunk == text[s.start..s.end] && Trimmed(chunk)
  }

  /** The piece at `pos`: where it starts, and that only blanks precede it. */
  lemma PieceForm(text: string, pos: nat, max: nat)
    requires pos < |text| && max >= 1
    ensures var e := EndAt(text, pos, max); var piece := PieceAt(text, pos, max); var start := pos + Lead(text[pos..e]);
            && start + |piece| <= e && piece == text[start..start + |piece|] && Trimmed(piece)
            && (forall k :: pos <= k < start ==> IsSpace(text[k]))
            && (piece == "" ==> forall k :: pos <= k < e ==> IsSpace(text[k]))
  {
    hide IsSpace, EndAt, Strip, Lead;
    var e := EndAt(text, pos, max);
    var slice := text[pos..e];
    LeadForm(slice);
    var lead, piece := Lead(slice), Strip(slice);
    assert forall k :: pos <= k < e ==> text[k] == slice[k - pos];
    assert piece == text[pos + lead..pos + lead + |piece|];
  }

  /** Where the stripped text starts, and that only blanks lie around it. */
  lemma LeadForm(s: string)
    ensures var lead, r := Lead(s), Strip(s);
            && lead + |r| <= |s| && r == s[lead..lead + |r|] && Trimmed(r)
            && (forall k :: 0 <= k < lead ==> IsSpace(s[k]))
            && (r == "" ==> forall k :: 0 <= k < |s| ==> IsSpace(s[k]))
  {
    hide IsSpace, LStrip, RStrip;
    LStripForm(s);
    var lead, t := Lead(s), LStrip(s);
    RStripForm(t);
    assert forall k :: 0 <= k < |t| ==> t[k] == s[lead + k];
    assert t != "" ==> !IsSpace(t[0]) && RStrip(t) != "";
  }

  ghost predicate Placed(text: string, pos: nat, max: nat, chunk: string, s: Span) {
    Fits(text, max, chunk, s) && s.start >= pos && !IsSpace(text[s.start])
  }

  /** The spans are where the chunks lie, and each starts at a non-blank at or after `pos`. */
  lemma {:induction false} SpansFit(text: string, pos: nat, max: nat, overlap: nat)
    requires max >= 1
    ensures var cs, ss := ChunksFrom(text, pos, max, overlap), SpansFrom(text, pos, max, overlap);
            |cs| == |ss| && forall i :: 0 <= i < |ss| ==> Placed(text, pos, max, cs[i], ss[i])
    decreases |text| - pos
  {
    hide Placed, PieceAt, EndAt;
    if pos < |text| {
      var piece := PieceAt(text, pos, max);
      var next := pos + Advance(|piece|, overlap);
      SpansFit(text, next, max, overlap);
      var cs, ss := ChunksFrom(text, pos, max, overlap), SpansFrom(text, pos, max, overlap);
      var cs', ss' := ChunksFrom(text, next, max, overlap), SpansFrom(text, next, max, overlap);
      var k := if piece != "" then 1 else 0;
      forall i | 0 <= i < |ss| ensures Placed(text, pos, max, cs[i], ss[i]) {
        if i < k {
          PiecePlaced(text, pos, max);
        } else {
          assert cs[i] == cs'[i - k] && ss[i] == ss'[i - k];
          PlacedEarlier(text, pos, next, max, cs[i], ss[i]);
        }
      }
    }
  }

  lemma PlacedEarlier(text: string, pos: nat, next: nat, max: nat, chunk: string, s: Span)
    requires pos <= next && Placed(text, next, max, chunk, s)
    ensures Placed(text, pos, max, chunk, s)
  {}

  lemma PiecePlaced(text: string, pos: nat, max: nat)
    requires pos < |text| && max >= 1 && PieceAt(text, pos, max) != ""
    ensures var piece := PieceAt(text, pos, max); var start := pos + Lead(text[pos..EndAt(text, pos, max)]);
            Placed(text, pos, max, piece, Span(start, start + |piece|))
  {
    hide IsSpace, PieceAt, Lead;
    PieceForm(text, pos, max);
  }

  /** Chunk starts never go back. */
  lemma {:induction false} StartsAdvance(text: string, pos: nat, max: nat, overlap: nat)
    requires max >= 1
    ensures var ss := SpansFrom(text, pos, max, overlap);
            forall i, j :: 0 <= i < j < |ss| ==> ss[i].start <= ss[j].start
    decreases |text| - pos
  {
    hide IsSpace, PieceAt, EndAt, ChunksFrom, Trimmed, Fits, Lead;
    if pos < |text| {
      var piece := PieceAt(text, pos, max);
      var next := pos + Advance(|piece|, overlap);
      PieceForm(text, pos, max);
      StartsAdvance(text, next, max, overlap);
      SpansFit(text, next, max, overlap);
      var rest, cs := SpansFrom(text, next, max, overlap), ChunksFrom(text, next, max, overlap);
      var start := pos + Lead(text[pos..EndAt(text, pos, max)]);
      forall j | 0 <= j < |rest| ensures start <= rest[j].start {
        assert Placed(text, next, max, cs[j], rest[j]);
        assert pos <= rest[j].start < |text| by { PlacedInside(text, next, max, cs[j], rest[j]); }
      }
    }
  }

  lemma PlacedInside(text: string, pos: nat, max: nat, chunk: string, s: Span)
    requires Placed(text, pos, max, chunk, s)
    ensures pos <= s.start < |text|
  {}

  ghost predicate Covered(spans: seq<Span>, k: nat) {
    exists i :: 0 <= i < |spans| && spans[i].start <= k < spans[i].end
  }

  /** Every non-blank character from `pos` on lies in some chunk. */
  lemma {:induction false} AllCovered(text: string, pos: nat, max: nat, overlap: nat, k: nat)
    requires max >= 1 && pos <= k < |text| && !IsSpace(text[k])
    ensures Covered(SpansFrom(text, pos, max, overlap), k)
    decreases |text| - pos
  {
    hide IsSpace, PieceAt, EndAt;
    var piece := PieceAt(text, pos, max);
    var e := EndAt(text, pos, max);
    var next := pos + Advance(|piece|, overlap);
    var ss, rest := SpansFrom(text, pos, max, overlap), SpansFrom(text, next, max, overlap);
    PieceForm(text, pos, max);
    assert e > pos by { EndAfter(text, pos, max); }
    if k >= next {
      AllCovered(text, next, max, overlap, k);
      var i :| 0 <= i < |rest| && rest[i].start <= k < rest[i].end;
      assert ss[|ss| - |rest| + i] == rest[i];
    } else {
      assert piece != "";
      assert ss[0].start <= k < ss[0].end;
    }
  }

  lemma EndAfter(text: string, pos: nat, max: nat)
    requires pos < |text| && max >= 1
    ensures EndAt(text, pos, max) > pos
  {}

  /** Chunks placed in the text: trimmed, non-empty, within the limit, starts in order, nothing non-blank left out. */
  ghost predicate Chunked(text: string, max: nat, chunks: seq<string>, spans: seq<Span>) {
    && |chunks| == |spans|
    && (forall i :: 0 <= i < |spans| ==> Fits(text, max, chunks[i], spans[i]))
    && (forall i, j :: 0 <= i < j < |spans| ==> spans[i].start <= spans[j].start)
    && forall k :: 0 <= k < |text| && !IsSpace(text[k]) ==> Covered(spans, k)
  }

  lemma OneChunk(text: string, max: nat)
    requires text != "" && Trimmed(text) && |text| <= max
    ensures Chunked(text, max, [text], [Span(0, |text|)])
  {
    hide IsSpace;
    var spans := [Span(0, |text|)];
    assert text[0..|text|] == text;
    forall k | 0 <= k < |text| ensures Covered(spans, k) {
      assert spans[0].start <= k < spans[0].end;
    }
  }

  lemma FromIsChunked(text: string, max: nat, overlap: nat)
    requires max >= 1
    ensures Chunked(text, max, ChunksFrom(text, 0, max, overlap), SpansFrom(text, 0, max, overlap))
  {
    hide IsSpace, PieceAt, ChunksFrom, SpansFrom, Covered, Fits;
    var chunks, spans := ChunksFrom(text, 0, max, overlap), SpansFrom(text, 0, max, overlap);
    SpansFit(text, 0, max, overlap);
    StartsAdvance(text, 0, max, overlap);
    forall i | 0 <= i < |spans| ensures Fits(text, max, chunks[i], spans[i]) {
      assert Placed(text, 0, max, chunks[i], spans[i]);
    }
    forall k | 0 <= k < |text| && !IsSpace(text[k]) ensures Covered(spans, k) {
      AllCovered(text, 0, max, overlap, k);
    }
  }

  /** Chunking any text, for any limit and overlap, ends and places its chunks so. */
  lemma ChunksAreChunked(raw: string, max: nat, overlap: nat) returns (spans: seq<Span>)
    requires max >= 1
    ensures Chunked(Strip(raw), max, Chunks(raw, max, overlap), spans)
  {
    var text := Strip(raw);
    var lead := StripForm(raw);
    if text == "" {
      spans := [];
    } else if |text| <= max {
      spans := [Span(0, |text|)];
      OneChunk(text, max);
    } else {
      spans := SpansFrom(text, 0, max, overlap);
      FromIsChunked(text, max, overlap);
    }
    hide IsSpace, Strip, Trimmed, ChunksFrom, SpansFrom;
  }

  lemma {:induction false} ChunksFromBound(text: string, pos: nat, max: nat, overlap: nat)
    requires max >= 1
    ensures |ChunksFrom(text, pos, max, overlap)| <= if pos < |text| then |text| - pos else 0
    decreases |text| - pos
  {
    hide PieceAt;
    if pos < |text| {
      ChunksFromBound(text, pos + Advance(|PieceAt(text, pos, max)|, overlap), max, overlap);
    }
  }

  /** There are never more chunks than characters to cut, and none exactly when the text is blank. */
  lemma AtMostOneChunkPerCharacter(raw: string, max: nat, overlap: nat)
    requires max >= 1
    ensures |Chunks(raw, max, overlap)| <= |Strip(raw)|
    ensures Chunks(raw, max, overlap) == [] <==> Strip(raw) == ""
  {
    hide ChunksFrom, Strip, IsSpace, Covered;
    var text := Strip(raw);
    if |text| > max {
      ChunksFromBound(text, 0, max, overlap);
      var lead := StripForm(raw);
      var spans := ChunksAreChunked(raw, max, overlap);
      assert !IsSpace(text[0]);
      assert Covered(spans, 0);
      assert spans != [] by { CoveredSome(spans, 0); }
    }
  }

  lemma CoveredSome(spans: seq<Span>, k: nat)
    requires Covered(spans, k)
    ensures spans != []
  {}

  /** The separator stands at this place. */
  ghost predicate Stands(s: string, sep: string, i: nat) {
    exists before: string, after: string :: |before| == i && s == before + sep + after
  }

  lemma AtIsStands(s: string, sep: string, i: nat)
    ensures At(s, sep, i) <==> Stands(s, sep, i)
  {
    if At(s, sep, i) {
      assert s == s[..i] + sep + s[i + |sep|..];
    }
    if Stands(s, sep, i) {
      var before: string, after: string :| |before| == i && s == before + sep + after;
      assert s[i..i + |sep|] == sep;
    }
  }

  /** No separator before the p-th has a place past the middle. */
  ghost predicate NoneBefore(slice: string, max: nat, seps: seq<string>, p: nat)
    requires p <= |seps|
  {
    forall o, j: nat :: 0 <= o < p && 2 * j > max && j <= |slice| ==> !Stands(slice, seps[o], j)
  }

  /** `i` is the last place of the p-th separator. */
  ghost predicate LastOf(slice: string, sep: string, i: nat) {
    Stands(slice, sep, i) && forall j: nat :: i < j <= |slice| ==> !Stands(slice, sep, j)
  }

  /** A cut keeps to the source's preference: paragraph, then sentence, then word. A separator is used only where no
      earlier one has a place past the middle, and then at its last place; with no such place there is no cut. */
  lemma {:induction false} CutIsPreferred(slice: string, max: nat, seps: seq<string>)
    ensures var cut := CutAmong(slice, max, seps);
            if cut.None? then NoneBefore(slice, max, seps, |seps|)
            else 2 * cut.value > max
                 && exists p :: 0 <= p < |seps| && LastOf(slice, seps[p], cut.value) && NoneBefore(slice, max, seps, p)
  {
    hide At, Stands;
    if seps != [] {
      var idx := RFind(slice, seps[0]);
      forall j: nat ensures At(slice, seps[0], j) <==> Stands(slice, seps[0], j) {
        AtIsStands(slice, seps[0], j);
      }
      if idx.Some? && 2 * idx.value > max {
        assert LastOf(slice, seps[0], idx.value) && NoneBefore(slice, max, seps, 0);
      } else {
        var rest := seps[1..];
        CutIsPreferred(slice, max, rest);
        var cut := CutAmong(slice, max, rest);
        assert forall j: nat :: 2 * j > max && j <= |slice| ==> !Stands(slice, seps[0], j);
        if cut.None? {
          NoneBeforeCons(slice, max, seps, |rest|);
        } else {
          var p :| 0 <= p < |rest| && LastOf(slice, rest[p], cut.value) && NoneBefore(slice, max, rest, p);
          NoneBeforeCons(slice, max, seps, p);
          assert LastOf(slice, seps[p + 1], cut.value);
        }
      }
    }
  }

  lemma NoneBeforeCons(slice: string, max: nat, seps: seq<string>, p: nat)
    requires seps != [] && p < |seps| && NoneBefore(slice, max, seps[1..], p)
    requires forall j: nat :: 2 * j > max && j <= |slice| ==> !Stands(slice, seps[0], j)
    ensures NoneBefore(slice, max, seps, p + 1)
  {
    hide Stands;
    forall o, j: nat | 0 <= o < p + 1 && 2 * j > max && j <= |slice| ensures !Stands(slice, seps[o], j) {
      if o > 0 {
        assert seps[o] == seps[1..][o - 1];
      }
    }
  }

  // ---------------------------------------------------------------------------
  // The whole cutting
  // ---------------------------------------------------------------------------

  /** Where the slice that starts at `pos` ends: with the text, or else after the last place of the first of paragraph,
      sentence and word break that has one past the middle, or else at the limit. */
  ghost predicate EndsAt(text: string, pos: nat, max: nat, end: nat)
    requires pos < |text|
  {
    var breaks := ["\n\n", ". ", " "];
    if pos + max >= |text| then end == |text|
    else
      var slice := text[pos..pos + max];
      if NoneBefore(slice, max, breaks, 3) then end == pos + max
      else
        exists p, i: nat ::
          && 0 <= p < 3 && LastOf(slice, breaks[p], i) && 2 * i > max && NoneBefore(slice, max, breaks, p)
          && end == pos + i + 1
  }

  /** The piece of the text between these places, stripped. */
  function Piece(text: string, s: Span): string {
    if s.start <= s.end <= |text| then Strip(text[s.start..s.end]) else ""
  }

  /** The next slice starts as far on as the stripped piece is long, less the overlap, and at least one further on. */
  function NextStart(text: string, s: Span, overlap: nat): nat {
    s.start + if |Piece(text, s)| - overlap > 1 then |Piece(text, s)| - overlap else 1
  }

  /** The i-th slice ends and is followed as it should; the last leaves nothing to start with. */
  ghost predicate SliceFits(text: string, max: nat, overlap: nat, slices: seq<Span>, i: nat)
    requires i < |slices|
  {
    && slices[i].start < |text| && EndsAt(text, slices[i].start, max, slices[i].end)
    && var next := NextStart(text, slices[i], overlap);
       if i + 1 < |slices| then slices[i + 1].start == next else next >= |text|
  }

  /** Slices of the text from `pos` on. */
  ghost predicate Sliced(text: string, pos: nat, max: nat, overlap: nat, slices: seq<Span>) {
    && (slices == [] <==> pos >= |text|)
    && (slices != [] ==> slices[0].start == pos)
    && forall i :: 0 <= i < |slices| ==> SliceFits(text, max, overlap, slices, i)
  }

  /** The pieces that are not blank, in order. */
  function Pieces(text: string, slices: seq<Span>): seq<string> {
    if slices == [] then []
    else (if Piece(text, slices[0]) == "" then [] else [Piece(text, slices[0])]) + Pieces(text, slices[1..])
  }

  lemma EndAtEnds(text: string, pos: nat, max: nat)
    requires pos < |text| && max >= 1
    ensures EndsAt(text, pos, max, EndAt(text, pos, max))
  {
    if pos + max < |text| {
      var slice := text[pos..pos + max];
      CutIsPreferred(slice, max, SEPARATORS);
      hide CutAmong, LastOf;
      var cut := CutAmong(slice, max, SEPARATORS);
      if cut.Some? {
        var p :| 0 <= p < 3 && LastOf(slice, SEPARATORS[p], cut.value) && NoneBefore(slice, max, SEPARATORS, p);
        LastIsThere(slice, max, SEPARATORS, p, cut.value);
      }
    }
  }

  lemma LastIsThere(slice: string, max: nat, seps: seq<string>, p: nat, i: nat)
    requires p < |seps| && LastOf(slice, seps[p], i) && 2 * i > max
    ensures !NoneBefore(slice, max, seps, |seps|)
  {}

  lemma SliceBefore(text: string, s: Span, max: nat, overlap: nat, more: seq<Span>)
    requires s.start < |text| && EndsAt(text, s.start, max, s.end)
    requires Sliced(text, NextStart(text, s, overlap), max, overlap, more)
    ensures Sliced(text, s.start, max, overlap, [s] + more)
  {
    hide EndsAt, NextStart;
    var slices := [s] + more;
    assert forall i :: 0 < i < |slices| ==> slices[i] == more[i - 1];
    forall i | 0 <= i < |slices| ensures SliceFits(text, max, overlap, slices, i) {
      assert i > 0 ==> SliceFits(text, max, overlap, more, i - 1);
    }
  }

  lemma {:induction false} FromIsSliced(text: string, pos: nat, max: nat, overlap: nat) returns (slices: seq<Span>)
    requires max >= 1
    ensures Sliced(text, pos, max, overlap, slices) && ChunksFrom(text, pos, max, overlap) == Pieces(text, slices)
    decreases |text| - pos
  {
    hide EndAt, EndsAt, Strip;
    if pos >= |text| {
      slices := [];
    } else {
      var s := Span(pos, EndAt(text, pos, max));
      EndAtEnds(text, pos, max);
      assert Piece(text, s) == PieceAt(text, pos, max);
      var more := FromIsSliced(text, pos + Advance(|PieceAt(text, pos, max)|, overlap), max, overlap);
      assert NextStart(text, s, overlap) == pos + Advance(|PieceAt(text, pos, max)|, overlap);
      hide Sliced, NextStart, PieceAt, Piece;
      SliceBefore(text, s, max, overlap, more);
      slices := [s] + more;
      assert slices[1..] == more;
    }
  }

  /** A text is one chunk when it fits the limit, and is otherwise cut into slices, whose pieces that are not blank are
      its chunks. */
  lemma ChunksAreSliced(raw: string, max: nat, overlap: nat)
    requires max >= 1
    ensures var text := Strip(raw);
            if text == "" then Chunks(raw, max, overlap) == []
            else if |text| <= max then Chunks(raw, max, overlap) == [text]
            else exists slices ::
                   Sliced(text, 0, max, overlap, slices) && Chunks(raw, max, overlap) == Pieces(text, slices)
  {
    hide ChunksFrom, Strip, Sliced, Pieces;
    var text := Strip(raw);
    if |text| > max {
      var slices := FromIsSliced(text, 0, max, overlap);
    }
  }

  // ---------------------------------------------------------------------------
  // build_remember_edges
  // ---------------------------------------------------------------------------

  datatype Edge = Edge(subject: string, verb: string, span: string, subjectType: Option<string>)

  method BuildRememberEdges(text: string, subjects: seq<string>, verb: string, subjectType: Option<string>, max: nat,
                            overlap: nat) returns (edges: seq<Edge>)
    requires max >= 1
    ensures edges == RememberEdges(text, subjects, verb, subjectType, max, overlap)
  {
    hide Chunks, SubjectEdges;
    var chunks := MemChunk(text, max, overlap);
    if chunks == [] {
      chunks := [text];
    }
    edges := [];
    for i := 0 to |subjects|
      invariant edges == EdgesOf(subjects[..i], chunks, verb, subjectType)
    {
      assert subjects[..i + 1][..i] == subjects[..i];
      edges := AppendSubjectEdges(edges, subjects[i], chunks, verb, subjectType);
    }
    assert subjects[..|subjects|] == subjects;
  }

  /** The inner loop over the chunks. */
  method AppendSubjectEdges(before: seq<Edge>, subject: string, chunks: seq<string>, verb: string,
                            subjectType: Option<string>) returns (edges: seq<Edge>)
    ensures edges == before + SubjectEdges(subject, chunks, verb, subjectType)
  {
    edges := before;
    for j := 0 to |chunks|
      invariant edges == before + SubjectEdges(subject, chunks[..j], verb, subjectType)
    {
      assert chunks[..j + 1][..j] == chunks[..j];
      edges := edges + [Edge(subject, verb, chunks[j], subjectType)];
    }
    assert chunks[..|chunks|] == chunks;
  }

  function SubjectEdges(subject: string, chunks: seq<string>, verb: string, subjectType: Option<string>): seq<Edge> {
    if chunks == [] then []
    else
      SubjectEdges(subject, chunks[..|chunks| - 1], verb, subjectType)
      + [Edge(subject, verb, chunks[|chunks| - 1], subjectType)]
  }

  function EdgesOf(subjects: seq<string>, chunks: seq<string>, verb: string, subjectType: Option<string>): seq<Edge> {
    if subjects == [] then []
    else
      EdgesOf(subjects[..|subjects| - 1], chunks, verb, subjectType)
      + SubjectEdges(subjects[|subjects| - 1], chunks, verb, subjectType)
  }

  /** One edge per subject and chunk; a text that chunks to nothing is filed whole. */
  function RememberEdges(text: string, subjects: seq<string>, verb: string, subjectType: Option<string>, max: nat,
                         overlap: nat): seq<Edge>
    requires max >= 1
  {
    var chunks := Chunks(text, max, overlap);
    EdgesOf(subjects, if chunks == [] then [text] else chunks, verb, subjectType)
  }

  lemma {:induction false} SubjectEdgesHave(subject: string, chunks: seq<string>, verb: string,
                                            subjectType: Option<string>)
    ensures forall e :: e in SubjectEdges(subject, chunks, verb, subjectType) <==>
      e.subject == subject && e.verb == verb && e.subjectType == subjectType && e.span in chunks
  {
    if chunks != [] {
      var init, x := chunks[..|chunks| - 1], chunks[|chunks| - 1];
      SubjectEdgesHave(subject, init, verb, subjectType);
      assert chunks == init + [x];
    }
  }

  lemma {:induction false} EdgesHave(subjects: seq<string>, chunks: seq<string>, verb: string,
                                     subjectType: Option<string>)
    ensures forall e :: e in EdgesOf(subjects, chunks, verb, subjectType) <==>
      e.subject in subjects && e.verb == verb && e.subjectType == subjectType && e.span in chunks
  {
    if subjects != [] {
      var init, x := subjects[..|subjects| - 1], subjects[|subjects| - 1];
      EdgesHave(init, chunks, verb, subjectType);
      SubjectEdgesHave(x, chunks, verb, subjectType);
      assert subjects == init + [x];
    }
  }

  /** A piece of the stripped text is a piece of the text it was stripped from. */
  lemma FitsShifted(raw: string, lead: nat, text: string, max: nat, chunk: string, s: Span)
    requires lead + |text| <= |raw| && raw[lead..lead + |text|] == text && Fits(text, max, chunk, s)
    ensures Fits(raw, max, chunk, Span(lead + s.start, lead + s.end))
  {
    hide IsSpace;
    assert forall k :: 0 <= k < |text| ==> text[k] == raw[lead + k];
    assert text[s.start..s.end] == raw[lead + s.start..lead + s.end];
  }

  /** Every subject can recall every non-blank character of the remembered text: some edge of that subject carries a
      trimmed piece of the text that contains it. */
  lemma EverySubjectCoversTheText(text: string, subjects: seq<string>, verb: string, subjectType: Option<string>,
                                  max: nat, overlap: nat, subject: string, k: nat)
    requires max >= 1 && subject in subjects && k < |text| && !IsSpace(text[k])
    ensures exists e, s: Span :: e in RememberEdges(text, subjects, verb, subjectType, max, overlap)
              && e.subject == subject && Fits(text, max, e.span, s) && s.start <= k < s.end
  {
    hide IsSpace, Chunks, Strip, Fits, EdgesOf;
    var chunks := Chunks(text, max, overlap);
    var spans := ChunksAreChunked(text, max, overlap);
    var lead := StripForm(text);
    var inner := Strip(text);
    assert lead <= k < lead + |inner| && inner[k - lead] == text[k];
    assert Covered(spans, k - lead);
    var i :| 0 <= i < |spans| && spans[i].start <= k - lead < spans[i].end;
    EdgesHave(subjects, chunks, verb, subjectType);
    var e := Edge(subject, verb, chunks[i], subjectType);
    FitsShifted(text, lead, inner, max, e.span, spans[i]);
    assert Fits(text, max, e.span, Span(lead + spans[i].start, lead + spans[i].end));
    assert e in EdgesOf(subjects, chunks, verb, subjectType);
  }
}
