/**
 * The URL parser's chunk accumulator: a growable byte buffer filled by
 * successive chunks, with a cursor marking how far it has been parsed, and a
 * completion callback that receives the buffer.
 */
module UrlParser {
  import opened Wrappers

  /** A function pointer; the model knows callbacks only by identity. */
  datatype CallbackRef = CallbackRef(address: nat)

  /** struct url_parser_settings: the completion callback, None when NULL. */
  datatype Settings = Settings(onComplete: Option<CallbackRef>)

  /** One more than the largest `unsigned int`: the bound of buffer_size and last_parsed_pos. */
  const UINT_LIMIT: nat := 0x1_0000_0000

  /** The chunks of `chunks`, concatenated in order. */
  function Flatten(chunks: seq<seq<char>>): seq<char> {
    if chunks == [] then []
    else Flatten(chunks[..|chunks| - 1]) + chunks[|chunks| - 1]
  }

  /** Where chunk `k` starts in the concatenation. */
  function Offset(chunks: seq<seq<char>>, k: nat): nat
    requires k <= |chunks|
  {
    |Flatten(chunks[..k])|
  }

  /** Flattening distributes over splitting the chunk list. */
  lemma {:induction false} FlattenAppend(a: seq<seq<char>>, b: seq<seq<char>>)
    ensures Flatten(a + b) == Flatten(a) + Flatten(b)
    decreases |b|
  {
    if b == [] {
      assert a + b == a;
    } else {
      var b' := b[..|b| - 1];
      assert (a + b)[..|a + b| - 1] == a + b';
      FlattenAppend(a, b');
    }
  }

  /**
   * The buffer is the exact concatenation of the chunks: chunk `k` sits
   * unaltered at its offset, right after all the chunks before it.
   */
  lemma ChunkPlacement(chunks: seq<seq<char>>, k: nat)
    requires k < |chunks|
    ensures Offset(chunks, k) + |chunks[k]| <= |Flatten(chunks)|
    ensures Flatten(chunks)[Offset(chunks, k)..Offset(chunks, k) + |chunks[k]|] == chunks[k]
  {
    assert chunks == chunks[..k] + ([chunks[k]] + chunks[k + 1..]);
    FlattenAppend(chunks[..k], [chunks[k]] + chunks[k + 1..]);
    FlattenAppend([chunks[k]], chunks[k + 1..]);
    assert [chunks[k]][..0] == [];
    assert Flatten([chunks[k]]) == chunks[k];
  }

  /** struct url_parser_instance. */
  class Instance {
    var settings: Settings
    var state: int
    var lastParsedPos: nat
    var bufferSize: nat
    /** The heap buffer; None until the first chunk is added. */
    var buffer: Option<seq<char>>
    /** Every chunk added so far, in order. */
    ghost var chunks: seq<seq<char>>

    ghost predicate Valid()
      reads this
    {
      lastParsedPos <= bufferSize < UINT_LIMIT &&
      (buffer.None? ==> chunks == [] && bufferSize == 0) &&
      (buffer.Some? ==> buffer.value == Flatten(chunks) && |buffer.value| == bufferSize)
    }

    /** The buffer's contents, empty while there is no buffer. */
    ghost function Contents(): seq<char>
      reads this
    {
      buffer.GetOr([])
    }

    /**
     * up_create: a copy of `settings`, state 0, nothing buffered or parsed.
     * The C code leaves `buffer` uninitialised; the model starts it as NULL.
     */
    constructor (settings: Settings)
      ensures Valid()
      ensures this.settings == settings && state == 0
      ensures bufferSize == 0 && lastParsedPos == 0 && buffer == None && chunks == []
    {
      this.settings := settings;
      state := 0;
      bufferSize := 0;
      lastParsedPos := 0;
      buffer := None;
      chunks := [];
    }

    /**
     * up_add_chunk: append `chunk[0..chunkSize)` to the buffer, then walk the
     * cursor over the new bytes up to the end of the buffer.
     */
    method AddChunk(chunk: seq<char>, chunkSize: nat)
      requires Valid()
      requires chunkSize <= |chunk| && bufferSize + chunkSize < UINT_LIMIT
      modifies this
      ensures Valid()
      ensures buffer == Some(old(Contents()) + chunk[..chunkSize])
      ensures bufferSize == old(bufferSize) + chunkSize
      ensures lastParsedPos == bufferSize
      ensures chunks == old(chunks) + [chunk[..chunkSize]]
      ensures state == old(state) && settings == old(settings)
    {
      var previous := if buffer.Some? then buffer.value else [];
      bufferSize := bufferSize + chunkSize;
      buffer := Some(previous + chunk[..chunkSize]);
      chunks := chunks + [chunk[..chunkSize]];
      assert chunks[..|chunks| - 1] == old(chunks);

      var i := lastParsedPos;
      while i < bufferSize
        invariant lastParsedPos == i <= bufferSize
        invariant buffer.Some? && |buffer.value| == bufferSize
        invariant buffer == Some(previous + chunk[..chunkSize]) && bufferSize == old(bufferSize) + chunkSize
        invariant chunks == old(chunks) + [chunk[..chunkSize]]
        invariant state == old(state) && settings == old(settings)
        decreases bufferSize - i
      {
        var c := buffer.value[i];
        lastParsedPos := lastParsedPos + 1;
        i := i + 1;
      }
    }

    /**
     * up_complete: the argument on_complete is called with, or None when it
     * is not called (no callback set, or no buffer yet). Nothing changes.
     */
    method Complete() returns (delivered: Option<seq<char>>)
      requires Valid()
      ensures delivered.Some? <==> settings.onComplete.Some? && buffer.Some?
      ensures delivered.Some? ==> delivered.value == buffer.value == Flatten(chunks)
    {
      if settings.onComplete.Some? && buffer.Some? {
        delivered := buffer;
      } else {
        delivered := None;
      }
    }
  }
}
