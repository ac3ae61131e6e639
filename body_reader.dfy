/**
  The chunked response-body reader of the HTTP retriever: it reads the body
  through a 2048-character buffer and appends every chunk to a string builder
  until the stream ends, a read fails, or a read returns exactly four
  characters of which the first is the control code 4 ("end of transmission").
 */
module BodyReader {

  /** Size of the character buffer each read fills. */
  const BufferSize: nat := 2048

  /** Control code 4, the in-band end marker. */
  const EndOfTransmission: char := 4 as char

  /**
    A response body as a reader delivers it: the chunks that successive reads
    return, in order, followed either by end of stream (a read returning -1)
    or, when failsAtEnd holds, by a read that throws an I/O error.
   */
  datatype ChunkStream = ChunkStream(chunks: seq<string>, failsAtEnd: bool)

  /**
    A read into a buffer of BufferSize characters blocks until it has at least
    one character, and never delivers more than the buffer holds.
   */
  predicate WellFormed(s: ChunkStream) {
    forall k :: 0 <= k < |s.chunks| ==> 1 <= |s.chunks[k]| <= BufferSize
  }

  /** The stop rule: a chunk of exactly four characters starting with code 4. */
  predicate IsEndMarker(chunk: string) {
    |chunk| == 4 && chunk[0] == EndOfTransmission
  }

  /** All chunks joined in order. */
  function Concat(chunks: seq<string>): string {
    if chunks == [] then [] else chunks[0] + Concat(chunks[1..])
  }

  /** What the reader accumulates: the chunks before the first end marker. */
  function Collected(chunks: seq<string>): string {
    if chunks == [] || IsEndMarker(chunks[0]) then [] else chunks[0] + Collected(chunks[1..])
  }

  /** Index of the first end marker, or the number of chunks when there is none. */
  function StopIndex(chunks: seq<string>): (n: nat)
    ensures n <= |chunks|
    ensures n < |chunks| ==> IsEndMarker(chunks[n])
    ensures forall k :: 0 <= k < n ==> !IsEndMarker(chunks[k])
  {
    if chunks == [] || IsEndMarker(chunks[0]) then 0 else 1 + StopIndex(chunks[1..])
  }

  /** The accumulated text is exactly the chunks before the first end marker, joined. */
  lemma {:induction false} CollectedUpToStop(chunks: seq<string>)
    ensures Collected(chunks) == Concat(chunks[..StopIndex(chunks)])
  {
    if chunks == [] || IsEndMarker(chunks[0]) {
    } else {
      CollectedUpToStop(chunks[1..]);
      assert chunks[..StopIndex(chunks)][1..] == chunks[1..][..StopIndex(chunks[1..])];
    }
  }

  /** The accumulated text is always a prefix of the whole body. */
  lemma {:induction false} CollectedIsPrefix(chunks: seq<string>)
    ensures Collected(chunks) <= Concat(chunks)
  {
    if chunks == [] || IsEndMarker(chunks[0]) {
    } else {
      CollectedIsPrefix(chunks[1..]);
    }
  }

  /** Without an end marker the whole body is returned. */
  lemma {:induction false} CollectedWithoutMarker(chunks: seq<string>)
    requires forall k :: 0 <= k < |chunks| ==> !IsEndMarker(chunks[k])
    ensures Collected(chunks) == Concat(chunks)
  {
    if chunks != [] {
      assert !IsEndMarker(chunks[0]);
      CollectedWithoutMarker(chunks[1..]);
    }
  }

  /** Text read before a chunk is kept whatever follows it. */
  lemma {:induction false} CollectedPrefixChunks(before: seq<string>, after: seq<string>)
    requires forall k :: 0 <= k < |before| ==> !IsEndMarker(before[k])
    ensures Collected(before + after) == Concat(before) + Collected(after)
  {
    if before != [] {
      assert !IsEndMarker(before[0]);
      assert (before + after)[0] == before[0];
      assert (before + after)[1..] == before[1..] + after;
      CollectedPrefixChunks(before[1..], after);
      assert Collected(before + after) == before[0] + Collected(before[1..] + after);
    } else {
      assert before + after == after;
    }
  }

  /**
    A chunk that starts with code 4 but has any length other than four is
    ordinary text: it is appended in full and reading continues.
   */
  lemma {:induction false} SentinelAloneDoesNotStop(chunk: string, rest: seq<string>)
    requires |chunk| >= 1 && chunk[0] == EndOfTransmission && |chunk| != 4
    ensures Collected([chunk] + rest) == chunk + Collected(rest)
  {
  }

  /**
    The reader over one response body. Each Read copies the next chunk into
    the caller's buffer; after the last chunk it reports end of stream (-1)
    or throws.
   */
  class ChunkReader {
    const source: ChunkStream
    var position: nat

    ghost predicate Valid()
      reads this
    {
      WellFormed(source) && position <= |source.chunks|
    }

    constructor (s: ChunkStream)
      requires WellFormed(s)
      ensures Valid() && source == s && position == 0
    {
      source := s;
      position := 0;
    }

    /** One call of read(cbuf): the number of characters read, -1 at end of stream, or a thrown error. */
    method Read(cbuf: array<char>) returns (read: int, thrown: bool)
      requires Valid() && cbuf.Length == BufferSize
      modifies this, cbuf
      ensures Valid()
      ensures old(position) < |source.chunks| ==>
        && !thrown && position == old(position) + 1
        && read == |source.chunks[old(position)]| && cbuf[..read] == source.chunks[old(position)]
      ensures old(position) == |source.chunks| ==>
        position == old(position) && thrown == source.failsAtEnd && (!thrown ==> read == -1)
    {
      if position < |source.chunks| {
        var chunk := source.chunks[position];
        forall k | 0 <= k < |chunk| {
          cbuf[k] := chunk[k];
        }
        read, thrown := |chunk|, false;
        position := position + 1;
      } else {
        read, thrown := -1, source.failsAtEnd;
      }
    }
  }

  /**
    readResponseBody: reads chunks until end of stream or an end-marker chunk,
    appending each to the result; a failing read ends the loop without an
    error, and what was accumulated so far is returned.
   */
  method ReadResponseBody(body: ChunkStream) returns (text: string)
    requires WellFormed(body)
    ensures text == Collected(body.chunks)
  {
    var sb: string := [];
    var cbuf := new char[BufferSize];
    var reader := new ChunkReader(body);
    var read, thrown := reader.Read(cbuf);
    while !thrown && read != -1 && !(read == 4 && cbuf[0] == EndOfTransmission)
      invariant reader.Valid() && reader.source == body
      invariant !thrown && read != -1 ==>
        1 <= reader.position && read == |body.chunks[reader.position - 1]|
        && cbuf[..read] == body.chunks[reader.position - 1]
        && Collected(body.chunks) == sb + Collected(body.chunks[reader.position - 1..])
      invariant (thrown || read == -1) ==>
        reader.position == |body.chunks| && Collected(body.chunks) == sb
      decreases |body.chunks| - reader.position + (if !thrown && read != -1 then 1 else 0)
    {
      ghost var p := reader.position - 1;
      assert body.chunks[p..][1..] == body.chunks[p + 1..];
      assert !IsEndMarker(body.chunks[p]);
      sb := sb + cbuf[..read];
      read, thrown := reader.Read(cbuf);
    }
    if !thrown && read != -1 {
      assert IsEndMarker(body.chunks[reader.position - 1]);
    }
    text := sb;
  }
}
