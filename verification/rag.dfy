/** Building a case's retrieval memory: the text is cut into overlapping
    chunks, each chunk is stored with its embedding, and the case moves to
    "Drafting Ready". */
module Rag {
  import opened Common
  import opened Tables

  const DefaultChunkSize := 1000
  const DefaultOverlap := 200

  /** How many chunks a text of `len` characters gives with window advance
      `step`: the number of offsets 0, step, 2*step, ... below `len`, that is
      ceil(len / step). */
  function ChunkCount(len: nat, step: nat): nat
    requires step > 0
  {
    (len + step - 1) / step
  }

  /** Chunk `k`: `text.substring(k * step, k * step + size)`, which stops at
      the end of the text. */
  function ChunkAt(text: string, size: nat, step: nat, k: nat): string
    requires k * step <= |text|
  {
    text[k * step .. Min(k * step + size, |text|)]
  }

  /** Multiplying by a natural number keeps the order. */
  lemma MulMonotone(a: nat, b: nat, c: nat)
    ensures a <= b ==> a * c <= b * c
  {
    if a <= b {
      assert b * c == a * c + (b - a) * c;
    }
  }

  /** A quotient is fixed by the interval its dividend lies in. */
  lemma DivisionByInterval(x: nat, step: nat, q: nat)
    requires step > 0 && q * step <= x < q * step + step
    ensures x / step == q
  {
    var d := x / step;
    assert x == d * step + x % step;
    assert (d + 1) * step == d * step + step;
    assert (q + 1) * step == q * step + step;
    MulMonotone(d + 1, q, step);
    MulMonotone(q + 1, d, step);
  }

  /** `n` windows advancing by `step` cover `len` characters exactly when `n`
      is ceil(len / step). */
  lemma CountIsCeiling(n: nat, len: nat, step: nat)
    requires step > 0
    requires n * step >= len && (n == 0 || (n - 1) * step < len)
    ensures n == ChunkCount(len, step)
  {
    if n > 0 {
      assert n * step == (n - 1) * step + step;
      DivisionByInterval(len + step - 1, step, n);
    }
  }

  /** The chunk count times the step reaches the end of the text. */
  lemma CountCoversLength(len: nat, step: nat)
    requires step > 0
    ensures ChunkCount(len, step) * step >= len
  {
    var x := len + step - 1;
    var n := ChunkCount(len, step);
    assert x == n * step + x % step;
  }

  /** `chunkText`: the `for` loop that pushes `text.substring(i, i + chunkSize)`
      for i = 0, s, 2s, ... while i is below the length, with s = chunkSize -
      overlap. The loop only ends when s is positive. */
  method ChunkText(text: string, chunkSize: nat, overlap: nat) returns (chunks: seq<string>)
    requires chunkSize > overlap
    ensures |chunks| == ChunkCount(|text|, chunkSize - overlap)
    ensures forall k :: 0 <= k < |chunks| ==>
              k * (chunkSize - overlap) < |text| && chunks[k] == ChunkAt(text, chunkSize, chunkSize - overlap, k)
  {
    var step := chunkSize - overlap;
    chunks := [];
    var i := 0;
    while i < |text|
      invariant i == |chunks| * step
      invariant |chunks| == 0 || (|chunks| - 1) * step < |text|
      invariant forall k :: 0 <= k < |chunks| ==> k * step < |text| && chunks[k] == ChunkAt(text, chunkSize, step, k)
      decreases |text| - i
    {
      chunks := chunks + [text[i .. Min(i + chunkSize, |text|)]];
      i := i + step;
      assert i == |chunks| * step by {
        assert |chunks| * step == (|chunks| - 1) * step + step;
      }
    }
    CountIsCeiling(|chunks|, |text|, step);
  }

  /** Every chunk is non-empty and at most `size` characters long. */
  lemma ChunkLengthBounds(text: string, size: nat, step: nat, k: nat)
    requires 0 < step <= size && k * step < |text|
    ensures 0 < |ChunkAt(text, size, step, k)| <= size
  {
  }

  /** Empty text gives no chunks. */
  lemma EmptyTextNoChunks(step: nat)
    requires step > 0
    ensures ChunkCount(0, step) == 0
  {
  }

  /** Every character of the text lies in some chunk: the one whose window
      starts at the largest multiple of the step not after it. */
  lemma ChunksCoverText(text: string, size: nat, overlap: nat, p: nat) returns (k: nat)
    requires size > overlap && p < |text|
    ensures k < ChunkCount(|text|, size - overlap)
    ensures k * (size - overlap) <= p < k * (size - overlap) + |ChunkAt(text, size, size - overlap, k)|
    ensures ChunkAt(text, size, size - overlap, k)[p - k * (size - overlap)] == text[p]
  {
    var step := size - overlap;
    k := p / step;
    assert k * step <= p < k * step + step by {
      assert p == k * step + p % step;
    }
    var n := ChunkCount(|text|, step);
    CountCoversLength(|text|, step);
    MulMonotone(n, k, step);
  }

  /** Two neighbouring chunks share exactly `overlap` characters when the
      earlier one is full length: its last `overlap` characters begin the next. */
  lemma NeighbouringChunksOverlap(text: string, size: nat, overlap: nat, k: nat)
    requires size > overlap
    requires (k + 1) * (size - overlap) < |text|
    requires k * (size - overlap) + size <= |text|
    ensures |ChunkAt(text, size, size - overlap, k + 1)| >= overlap
    ensures ChunkAt(text, size, size - overlap, k)[size - overlap..] ==
            ChunkAt(text, size, size - overlap, k + 1)[..overlap]
  {
    var step := size - overlap;
    var i := k * step;
    assert (k + 1) * step == i + step;
    var a := ChunkAt(text, size, step, k);
    var b := ChunkAt(text, size, step, k + 1);
    assert a == text[i .. i + size];
    assert b == text[i + step .. Min(i + step + size, |text|)];
    assert a[step..] == text[i + step .. i + size];
  }

  /** The defaults 1000 and 200 advance the window by 800, so the loop ends. */
  lemma DefaultsTerminate()
    ensures DefaultChunkSize > DefaultOverlap && DefaultChunkSize - DefaultOverlap == 800
  {
  }

  /** The rows inserted into `document_chunks`: row i holds chunk i and the
      embedding the service returned for it. */
  function ChunkRows(caseId: Id, chunks: seq<string>, embed: string -> Embedding): (rows: seq<ChunkRow>)
    ensures |rows| == |chunks|
    ensures forall i :: 0 <= i < |rows| ==> rows[i].caseId == caseId && rows[i].content == chunks[i]
  {
    seq(|chunks|, i requires 0 <= i < |chunks| => ChunkRow(caseId, chunks[i], embed(chunks[i])))
  }

  /** `buildMemoryForCase`. The case must be the requester's and have a
      disclosure, else 500 and nothing changes. `fullText` is the text
      assembled from the decrypted disclosure and the relevant analyses; it
      is none when `decryptData` returned null, whose fields the handler then
      reads and throws on. The text is chunked with the defaults and sent to
      the embedding service, whose failure (`embedFails`) also throws. On
      success one row per chunk is appended and the case status becomes
      "Drafting Ready"; a failure of that last update (`statusUpdateFails`)
      is only logged. */
  method BuildMemoryForCase(db: Db, caseId: Id, requester: UserId, fullText: Option<string>,
                            embed: string -> Embedding, embedFails: bool, statusUpdateFails: bool)
    returns (reply: Reply<string>)
    requires db.Valid()
    modifies db
    ensures db.Valid()
    ensures !(Owns(old(db.cases), caseId, requester) && caseId in old(db.disclosures)) || fullText.None? || embedFails ==>
              reply == Fail(HttpServerError, "Failed to build AI memory.") && unchanged(db)
    ensures Owns(old(db.cases), caseId, requester) && caseId in old(db.disclosures) && fullText.Some? && !embedFails ==>
              var text := fullText.value;
              && reply == Ok(HttpOk, "AI memory built successfully.")
              && |db.chunks| == |old(db.chunks)| + ChunkCount(|text|, DefaultChunkSize - DefaultOverlap)
              && db.chunks[..|old(db.chunks)|] == old(db.chunks)
              && (forall k :: |old(db.chunks)| <= k < |db.chunks| ==>
                    db.chunks[k].caseId == caseId &&
                    (k - |old(db.chunks)|) * (DefaultChunkSize - DefaultOverlap) < |text| &&
                    db.chunks[k].content == ChunkAt(text, DefaultChunkSize, DefaultChunkSize - DefaultOverlap, k - |old(db.chunks)|))
              && db.cases == (if statusUpdateFails then old(db.cases)
                              else old(db.cases)[caseId := old(db.cases)[caseId].(status := DraftingReady)])
              && db.disclosures == old(db.disclosures) && db.documents == old(db.documents)
              && db.analyses == old(db.analyses) && db.versions == old(db.versions)
  {
    if !(Owns(db.cases, caseId, requester) && caseId in db.disclosures) || fullText.None? {
      return Fail(HttpServerError, "Failed to build AI memory.");
    }
    var textChunks := ChunkText(fullText.value, DefaultChunkSize, DefaultOverlap);
    if embedFails {
      return Fail(HttpServerError, "Failed to build AI memory.");
    }
    var rows := ChunkRows(caseId, textChunks, embed);
    db.chunks := db.chunks + rows;
    if !statusUpdateFails {
      db.cases := db.cases[caseId := db.cases[caseId].(status := DraftingReady)];
    }
    reply := Ok(HttpOk, "AI memory built successfully.");
  }
}
