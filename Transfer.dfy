/** Streaming a response body into the staged file (clamavmirror.py `chunk_read`). A response's
    body is the list of strings its successive `read(chunk_size)` calls return. */
module Transfer {
  import opened Text

  /** The strings concatenated in order. */
  function Concat(chunks: seq<string>): string
    decreases |chunks|
  {
    if chunks == [] then "" else Concat(chunks[..|chunks| - 1]) + chunks[|chunks| - 1]
  }

  /** What the staged file holds once the body is read: every chunk before the first empty read. */
  function Body(chunks: seq<string>): string {
    Concat(chunks[..Eof(chunks)])
  }

  /** `chunk_read`: write each chunk to the file until a read returns nothing, counting the bytes. */
  method ChunkRead(chunks: seq<string>) returns (total: nat, written: string)
    ensures written == Body(chunks)
    ensures total == |written|
  {
    total, written := 0, "";
    var i := 0;
    while true
      invariant 0 <= i <= Eof(chunks)
      invariant written == Concat(chunks[..i])
      invariant total == |written|
      decreases |chunks| - i
    {
      var chunk := if i < |chunks| then chunks[i] else "";
      written := written + chunk;
      total := total + |chunk|;
      if chunk == "" {
        break;
      }
      assert chunks[..i + 1][..i] == chunks[..i];
      i := i + 1;
    }
  }
}
