/** The PDF ingestion script: extracted text is cut into overlapping fixed-size
    windows, each window is trimmed and kept when long enough, and every kept
    chunk becomes an index record whose id is derived from the file name and
    the chunk's position. Text extraction is not modelled: the text is an input. */
module PdfIngest {
  import opened Text
  import opened Upsert
  import opened Arith

  const ChunkSize: nat := 800
  const ChunkOverlap: nat := 150
  /** A kept chunk is longer than this; a file whose trimmed text is shorter is skipped. */
  const MinTextLength: nat := 50

  function Min(a: int, b: int): int {
    if a < b then a else b
  }

  /** The number of windows the chunking loop examines: ceil(len / step). */
  function WindowCount(len: nat, step: nat): nat
    requires step > 0
  {
    (len + step - 1) / step
  }

  /** Window `k` starts inside the text exactly when `k` is below the count. */
  lemma WindowCountBounds(len: nat, step: nat, k: nat)
    requires step > 0
    ensures k * step < len ==> k < WindowCount(len, step)
    ensures len <= k * step ==> WindowCount(len, step) <= k
  {
    var q := WindowCount(len, step);
    assert len + step - 1 == q * step + (len + step - 1) % step;
    MulSucc(q, step);
    MulSucc(k, step);
    if k * step < len && q <= k {
      MulLe(q + 1, k + 1, step);
    }
    if len <= k * step && k < q {
      MulLe(k + 1, q, step);
    }
  }

  /** The windows the loop examines from offset `start` on:
      `text.slice(start, min(start + size, len))`, then the next window `step`
      characters further, until the start passes the end of the text. */
  function WindowsFrom(text: string, start: nat, size: nat, step: nat): seq<string>
    requires step > 0
    decreases |text| - start
  {
    if start >= |text| then []
    else [text[start..Min(start + size, |text|)]] + WindowsFrom(text, start + step, size, step)
  }

  function Windows(text: string, size: nat, step: nat): seq<string>
    requires step > 0
  {
    WindowsFrom(text, 0, size, step)
  }

  lemma {:induction false} WindowsFromLength(text: string, start: nat, size: nat, step: nat)
    requires 0 < step && start < |text|
    ensures |WindowsFrom(text, start, size, step)| == WindowCount(|text| - start, step)
    decreases |text| - start
  {
    var rest := |text| - start;
    if start + step < |text| {
      WindowsFromLength(text, start + step, size, step);
      DivStep(rest - 1, step);
    } else {
      DivUnique(rest + step - 1, step, 1, rest - 1);
    }
  }

  lemma {:induction false} WindowsFromAt(text: string, start: nat, size: nat, step: nat, k: nat)
    requires 0 < step && k < |WindowsFrom(text, start, size, step)|
    ensures start + k * step < |text|
    ensures WindowsFrom(text, start, size, step)[k]
         == text[start + k * step .. Min(start + k * step + size, |text|)]
    decreases k
  {
    if k > 0 {
      WindowsFromAt(text, start + step, size, step, k - 1);
      MulSucc(k - 1, step);
      var a := start + step + (k - 1) * step;
      assert a == start + k * step;
    }
  }

  /** There are ceil(len / step) windows, and window `k` is the slice starting
      at `k * step` of length `size`, cut off at the end of the text. */
  lemma WindowsSpec(text: string, size: nat, step: nat)
    requires step > 0
    ensures |Windows(text, size, step)| == WindowCount(|text|, step)
    ensures forall k :: 0 <= k < |Windows(text, size, step)| ==>
      && k * step < |text|
      && Windows(text, size, step)[k] == text[k * step .. Min(k * step + size, |text|)]
  {
    if |text| > 0 {
      WindowsFromLength(text, 0, size, step);
    } else {
      DivUnique(step - 1, step, 0, step - 1);
    }
    forall k | 0 <= k < |Windows(text, size, step)|
      ensures k * step < |text|
      ensures Windows(text, size, step)[k] == text[k * step .. Min(k * step + size, |text|)]
    {
      WindowsFromAt(text, 0, size, step, k);
    }
  }

  /** The windows from offset `start` on, each trimmed as the loop does
      before its length test. */
  function TrimmedWindowsFrom(text: string, start: nat, size: nat, step: nat): seq<string>
    requires step > 0
    decreases |text| - start
  {
    if start >= |text| then []
    else [Trim(text[start..Min(start + size, |text|)])] + TrimmedWindowsFrom(text, start + step, size, step)
  }

  function TrimmedWindows(text: string, size: nat, step: nat): seq<string>
    requires step > 0
  {
    TrimmedWindowsFrom(text, 0, size, step)
  }

  lemma {:induction false} TrimmedWindowsFromTrim(text: string, start: nat, size: nat, step: nat)
    requires step > 0
    ensures |TrimmedWindowsFrom(text, start, size, step)| == |WindowsFrom(text, start, size, step)|
    ensures forall k :: 0 <= k < |WindowsFrom(text, start, size, step)| ==>
      TrimmedWindowsFrom(text, start, size, step)[k] == Trim(WindowsFrom(text, start, size, step)[k])
    decreases |text| - start
  {
    if start < |text| {
      TrimmedWindowsFromTrim(text, start + step, size, step);
    }
  }

  /** The trimmed windows are the windows, each trimmed. */
  lemma TrimmedWindowsSpec(text: string, size: nat, step: nat)
    requires step > 0
    ensures |TrimmedWindows(text, size, step)| == |Windows(text, size, step)|
    ensures forall k :: 0 <= k < |Windows(text, size, step)| ==>
      TrimmedWindows(text, size, step)[k] == Trim(Windows(text, size, step)[k])
  {
    TrimmedWindowsFromTrim(text, 0, size, step);
  }

  /** When windows advance by no more than their size, every character of the
      text lies in a window: index `i` lies in window `i / step`. */
  lemma WindowsCoverText(text: string, size: nat, step: nat, i: nat)
    requires 0 < step <= size && i < |text|
    ensures i / step < WindowCount(|text|, step)
    ensures (i / step) * step <= i < Min((i / step) * step + size, |text|)
  {
    var k := i / step;
    assert i == k * step + i % step;
    WindowCountBounds(|text|, step, k);
  }

  /** The chunk filter: keeps the trimmed windows longer than the minimum, in order. */
  function LongChunks(ts: seq<string>): seq<string> {
    if ts == [] then []
    else
      var n := |ts| - 1;
      LongChunks(ts[..n]) + (if |ts[n]| > MinTextLength then [ts[n]] else [])
  }

  /** The positions of the windows the filter keeps. */
  function KeptIndices(ts: seq<string>): seq<nat> {
    if ts == [] then []
    else
      var n := |ts| - 1;
      KeptIndices(ts[..n]) + (if |ts[n]| > MinTextLength then [n] else [])
  }

  lemma KeptIndicesUnfold(ts: seq<string>)
    requires ts != []
    ensures var n := |ts| - 1;
      KeptIndices(ts) == KeptIndices(ts[..n]) + (if |ts[n]| > MinTextLength then [n] else [])
  {
  }

  /** Every kept position is a long window of the input. */
  lemma {:induction false} KeptIndicesLong(ts: seq<string>)
    ensures forall j :: 0 <= j < |KeptIndices(ts)| ==>
      KeptIndices(ts)[j] < |ts| && |ts[KeptIndices(ts)[j]]| > MinTextLength
  {
    if ts != [] {
      var n := |ts| - 1;
      var prefix := ts[..n];
      KeptIndicesLong(prefix);
      KeptIndicesUnfold(ts);
      var ix := KeptIndices(prefix);
      assert forall j :: 0 <= j < |ix| ==> ts[ix[j]] == prefix[ix[j]];
    }
  }

  /** The kept positions are in increasing order. */
  lemma {:induction false} KeptIndicesIncreasing(ts: seq<string>)
    ensures forall j, j' :: 0 <= j < j' < |KeptIndices(ts)| ==> KeptIndices(ts)[j] < KeptIndices(ts)[j']
  {
    if ts != [] {
      var n := |ts| - 1;
      var prefix := ts[..n];
      KeptIndicesIncreasing(prefix);
      KeptIndicesLong(prefix);
      KeptIndicesUnfold(ts);
    }
  }

  /** Every long window is kept. */
  lemma {:induction false} KeptIndicesComplete(ts: seq<string>)
    ensures forall k :: 0 <= k < |ts| && |ts[k]| > MinTextLength ==> k in KeptIndices(ts)
  {
    if ts != [] {
      var n := |ts| - 1;
      var prefix := ts[..n];
      KeptIndicesComplete(prefix);
      KeptIndicesUnfold(ts);
      forall k | 0 <= k < |ts| && |ts[k]| > MinTextLength
        ensures k in KeptIndices(ts)
      {
        if k < n {
          assert prefix[k] == ts[k];
        }
      }
    }
  }

  /** The filter's output is the kept windows, position by position. */
  lemma {:induction false} LongChunksSpec(ts: seq<string>)
    ensures |LongChunks(ts)| == |KeptIndices(ts)|
    ensures forall j :: 0 <= j < |KeptIndices(ts)| ==>
      KeptIndices(ts)[j] < |ts| && LongChunks(ts)[j] == ts[KeptIndices(ts)[j]]
  {
    KeptIndicesLong(ts);
    if ts != [] {
      var n := |ts| - 1;
      var prefix := ts[..n];
      LongChunksSpec(prefix);
      KeptIndicesUnfold(ts);
      var ix := KeptIndices(prefix);
      assert forall j :: 0 <= j < |ix| ==> ts[ix[j]] == prefix[ix[j]];
    }
  }

  /** The filter distributes over concatenation. */
  lemma {:induction false} LongChunksAppend(a: seq<string>, b: seq<string>)
    ensures LongChunks(a + b) == LongChunks(a) + LongChunks(b)
    decreases |b|
  {
    if b == [] {
      assert a + b == a;
    } else {
      var n := |b| - 1;
      assert (a + b)[..|a + b| - 1] == a + b[..n];
      assert (a + b)[|a + b| - 1] == b[n];
      LongChunksAppend(a, b[..n]);
    }
  }

  /** One turn of the chunking loop: the window at `start` contributes its trim
      when long enough, and the loop continues `step` characters further. */
  lemma ChunkStep(text: string, start: nat, size: nat, step: nat)
    requires 0 < step && start < |text|
    ensures var chunk := Trim(text[start..Min(start + size, |text|)]);
      LongChunks(TrimmedWindowsFrom(text, start, size, step))
      == (if |chunk| > MinTextLength then [chunk] else [])
         + LongChunks(TrimmedWindowsFrom(text, start + step, size, step))
  {
    var t := Trim(text[start..Min(start + size, |text|)]);
    var rest := TrimmedWindowsFrom(text, start + step, size, step);
    assert TrimmedWindowsFrom(text, start, size, step) == [t] + rest;
    LongChunksAppend([t], rest);
    assert [t][..0] == [];
  }

  lemma AppendAssoc<T>(a: seq<T>, b: seq<T>, c: seq<T>)
    ensures a + (b + c) == (a + b) + c
  {
  }

  lemma {:induction false} TrimmedWindowsFromBounded(text: string, start: nat, size: nat, step: nat)
    requires step > 0
    ensures forall k :: 0 <= k < |TrimmedWindowsFrom(text, start, size, step)| ==>
      |TrimmedWindowsFrom(text, start, size, step)[k]| <= size
    decreases |text| - start
  {
    if start < |text| {
      TrimmedWindowsFromBounded(text, start + step, size, step);
      var t := Trim(text[start..Min(start + size, |text|)]);
      assert |t| <= size;
      assert TrimmedWindowsFrom(text, start, size, step) == [t] + TrimmedWindowsFrom(text, start + step, size, step);
    }
  }

  /** Every chunk kept is longer than the minimum and no longer than a window. */
  lemma ChunksBounded(text: string, size: nat, step: nat)
    requires step > 0
    ensures forall j :: 0 <= j < |LongChunks(TrimmedWindows(text, size, step))| ==>
      MinTextLength < |LongChunks(TrimmedWindows(text, size, step))[j]| <= size
  {
    var ts := TrimmedWindows(text, size, step);
    TrimmedWindowsFromBounded(text, 0, size, step);
    LongChunksSpec(ts);
    KeptIndicesLong(ts);
  }

  /** One turn of the chunking loop: the window at `start` is sliced, trimmed
      and kept when longer than the minimum; the chunks still to come shrink
      by that window. */
  method ChunkTurn(text: string, start: nat, chunkSize: nat, step: nat, chunks: seq<string>,
                   ghost all: seq<string>)
    returns (chunks': seq<string>)
    requires 0 < step && start < |text|
    requires all == chunks + LongChunks(TrimmedWindowsFrom(text, start, chunkSize, step))
    ensures all == chunks' + LongChunks(TrimmedWindowsFrom(text, start + step, chunkSize, step))
  {
    var end := Min(start + chunkSize, |text|);
    var chunk := Trim(text[start..end]);
    ChunkStep(text, start, chunkSize, step);
    ghost var rest := LongChunks(TrimmedWindowsFrom(text, start + step, chunkSize, step));
    if |chunk| > MinTextLength {
      chunks' := chunks + [chunk];
      AppendAssoc(chunks, [chunk], rest);
    } else {
      chunks' := chunks;
      assert [] + rest == rest;
    }
  }

  /** `chunkText(text, chunkSize, overlap)`. The loop only terminates when the
      windows advance, so the overlap must be smaller than the chunk size. */
  method ChunkText(text: string, chunkSize: nat, overlap: nat) returns (chunks: seq<string>)
    requires overlap < chunkSize
    ensures chunks == LongChunks(TrimmedWindows(text, chunkSize, chunkSize - overlap))
    ensures forall j :: 0 <= j < |chunks| ==> MinTextLength < |chunks[j]| <= chunkSize
    ensures text == [] ==> chunks == []
  {
    var step := chunkSize - overlap;
    ghost var all := LongChunks(TrimmedWindowsFrom(text, 0, chunkSize, step));
    chunks := [];
    var start: nat := 0;
    while start < |text|
      invariant all == chunks + LongChunks(TrimmedWindowsFrom(text, start, chunkSize, step))
      decreases |text| - start
    {
      chunks := ChunkTurn(text, start, chunkSize, step, chunks, all);
      start := start + step;
    }
    assert TrimmedWindowsFrom(text, start, chunkSize, step) == [];
    assert chunks + LongChunks([]) == chunks;
    ChunksBounded(text, chunkSize, step);
  }

  predicate IsAsciiAlnum(c: char) {
    ('a' <= c <= 'z') || ('A' <= c <= 'Z') || ('0' <= c <= '9')
  }

  /** `file.replace(/[^a-zA-Z0-9]/g, "-").toLowerCase()`: same length, letters
      lowered, digits kept, every other character a dash. */
  function SanitizeFileName(file: string): (r: string)
    ensures |r| == |file|
    ensures forall i :: 0 <= i < |r| ==> ('a' <= r[i] <= 'z') || ('0' <= r[i] <= '9') || r[i] == '-'
    ensures forall i :: 0 <= i < |r| ==> (IsAsciiAlnum(file[i]) <==> r[i] != '-')
    ensures forall i :: 0 <= i < |r| && IsAsciiAlnum(file[i]) ==> r[i] == LowerChar(file[i])
  {
    Lower(seq(|file|, i requires 0 <= i < |file| => if IsAsciiAlnum(file[i]) then file[i] else '-'))
  }

  function ChunkId(file: string, i: nat): string {
    "pdf-" + SanitizeFileName(file) + "-chunk-" + Dec(i)
  }

  /** Within one file, chunk ids are pairwise distinct. */
  lemma ChunkIdsDistinct(file: string, i: nat, j: nat)
    ensures ChunkId(file, i) == ChunkId(file, j) <==> i == j
  {
    var p := "pdf-" + SanitizeFileName(file) + "-chunk-";
    if ChunkId(file, i) == ChunkId(file, j) {
      assert ChunkId(file, i)[|p|..] == Dec(i);
      assert ChunkId(file, j)[|p|..] == Dec(j);
      DecInjective(i, j);
    }
  }

  /** Two different file names can share an id prefix, so chunks of different
      files may receive the same id. */
  lemma ChunkIdsCanCollideAcrossFiles()
    ensures "a b.pdf" != "a_b.pdf" && ChunkId("a b.pdf", 0) == ChunkId("a_b.pdf", 0)
  {
    assert SanitizeFileName("a b.pdf") == "a-b-pdf";
    assert SanitizeFileName("a_b.pdf") == "a-b-pdf";
  }

  /** The record built for chunk `i` of `file`. */
  function ChunkRecord(file: string, chunk: string, i: nat): Record {
    Record(
      id := ChunkId(file, i),
      chunkText := chunk,
      condition := "General Medicinal Plants",
      plantName := "Various",
      scientificName := "Various",
      preparation := chunk,
      source := "PDF: " + file)
  }

  /** The chunks the script keeps for a text, with its default sizes. */
  function TextChunks(text: string): seq<string> {
    LongChunks(TrimmedWindows(text, ChunkSize, ChunkSize - ChunkOverlap))
  }

  /** One file of the ingestion loop: skip files with too little text, chunk the
      rest, build one record per chunk, and upsert the records in batches. */
  method IngestPdfText(file: string, text: string) returns (records: seq<Record>, batches: seq<seq<Record>>)
    ensures |Trim(text)| < MinTextLength ==> records == [] && batches == []
    ensures |Trim(text)| >= MinTextLength ==>
      && |records| == |TextChunks(text)|
      && forall i :: 0 <= i < |records| ==> records[i] == ChunkRecord(file, TextChunks(text)[i], i)
    ensures forall i, j :: 0 <= i < j < |records| ==> records[i].id != records[j].id
    ensures forall i :: 0 <= i < |records| ==> MinTextLength < |records[i].chunkText| <= ChunkSize
    ensures Flatten(batches) == records
    ensures forall k :: 0 <= k < |batches| ==> 0 < |batches[k]| <= BatchSize
  {
    if |Trim(text)| < MinTextLength {
      records, batches := [], [];
      return;
    }
    var chunks := ChunkText(text, ChunkSize, ChunkOverlap);
    records := [];
    var i := 0;
    while i < |chunks|
      invariant i <= |chunks|
      invariant |records| == i
      invariant forall j :: 0 <= j < i ==> records[j] == ChunkRecord(file, chunks[j], j)
    {
      records := records + [ChunkRecord(file, chunks[i], i)];
      i := i + 1;
    }
    forall i, j | 0 <= i < j < |records| ensures records[i].id != records[j].id {
      ChunkIdsDistinct(file, i, j);
    }
    batches := UpsertInBatches(records);
  }
}
