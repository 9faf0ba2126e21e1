/**
  The byte stream stack: a buffering reader over the chunks of a body, a size limit on
  top of it, and the download loop on top of both. Each refines a flat byte string.
*/
module ByteStream {
  import opened Wrappers

  type Bytes = seq<bv8>

  datatype StreamError = SizeLimitExceeded

  function Concat(chunks: seq<Bytes>): Bytes {
    if chunks == [] then [] else chunks[0] + Concat(chunks[1..])
  }

  function Min(a: int, b: int): int {
    if a < b then a else b
  }

  /** What a read of `size` takes from a flat byte string: all of it for a negative size. */
  function Take(rest: Bytes, size: int): Bytes {
    if size < 0 then rest else rest[..Min(size, |rest|)]
  }

  /** The first `size` bytes, or all of them if that is negative or more than there are. */
  ghost predicate FirstOf(data: Bytes, rest: Bytes, size: int) {
    data <= rest && |data| == if size < 0 || |rest| < size then |rest| else size
  }

  /** Reads the chunks of a body through a buffer. */
  class AsyncReadableAdapter {
    var chunks: seq<Bytes>      // what the iterator has not given yet
    var buffer: Bytes
    var eof: bool

    constructor (chunks: seq<Bytes>)
      ensures Valid() && Rest() == Concat(chunks)
    {
      this.chunks, buffer, eof := chunks, [], false;
    }

    ghost predicate Valid()
      reads this
    {
      eof ==> chunks == []
    }

    /** The flat byte string that is still to be read. */
    ghost function Rest(): Bytes
      reads this
    {
      buffer + Concat(chunks)
    }

    /**
      Whatever the chunking, a read returns what a read of the flat byte string would. The
      end is noticed when more is asked for than there is; what the buffer has is not
      waited for.
    */
    method Read(size: int) returns (data: Bytes)
      requires Valid()
      modifies this
      ensures Valid()
      ensures FirstOf(data, old(Rest()), size) && data == Take(old(Rest()), size)
      ensures data + Rest() == old(Rest())
      ensures eof == (old(eof) || size < 0 || |old(Rest())| < size)
      ensures 0 <= size <= |old(buffer)| ==> chunks == old(chunks)
    {
      if size < 0 {
        data := buffer;
        buffer := [];
        while chunks != []
          invariant buffer == [] && data + Concat(chunks) == old(Rest())
          decreases |chunks|
        {
          data := data + chunks[0];
          chunks := chunks[1..];
        }
        eof := true;
        assert data + [] == data;
        return;
      }
      Fill(size);
      var n := Min(size, |buffer|);
      data := buffer[..n];
      buffer := buffer[n..];
      assert old(Rest()) == data + buffer + Concat(chunks);
    }

    /** Takes chunks into the buffer until it has `size` bytes or there are no more. */
    method Fill(size: int)
      requires Valid() && 0 <= size
      modifies this
      ensures Valid() && Rest() == old(Rest())
      ensures size <= |buffer| || Rest() == buffer
      ensures eof == (old(eof) || |old(Rest())| < size)
      ensures size <= |old(buffer)| ==> chunks == old(chunks) && buffer == old(buffer)
    {
      while |buffer| < size && !eof
        invariant Valid() && Rest() == old(Rest()) && eof == old(eof)
        invariant size <= |old(buffer)| ==> chunks == old(chunks) && buffer == old(buffer)
        decreases |chunks|, !eof
      {
        if chunks == [] {
          eof := true;
          break;
        }
        assert buffer + Concat(chunks) == (buffer + chunks[0]) + Concat(chunks[1..]);
        buffer := buffer + chunks[0];
        chunks := chunks[1..];
      }
    }
  }

  /** Refuses to deliver more than `maxBytes`. */
  class LimitReadCloser {
    const body: AsyncReadableAdapter
    const maxBytes: nat
    var readBytes: nat
    var over: bool

    constructor (body: AsyncReadableAdapter, maxBytes: nat)
      ensures this.body == body && this.maxBytes == maxBytes && readBytes == 0 && !over
    {
      this.body, this.maxBytes := body, maxBytes;
      readBytes, over := 0, false;
    }

    /**
      A read fails exactly when the limit was hit before, nothing of it is left, or the
      body has more than is left and the caller asks for more than that. Otherwise it is
      the read of the body. A failure is final. No read takes more than one byte beyond
      the limit from the body.
    */
    method Read(size: int) returns (r: Result<Bytes, StreamError>)
      requires body.Valid()
      modifies this, body
      ensures body.Valid()
      ensures var remaining := maxBytes - old(readBytes);
              && (r.Err? <==> || old(over) || remaining <= 0
                              || (|old(body.Rest())| > remaining && (size < 0 || size > remaining)))
              && (r.Ok? ==> FirstOf(r.value, old(body.Rest()), size))
              && r == LimitedRead(old(body.Rest()), old(over), remaining, size)
      ensures over == (old(over) || r.Err?)
      ensures r.Ok? ==> readBytes == old(readBytes) + |r.value| && r.value + body.Rest() == old(body.Rest())
      ensures var taken := |old(body.Rest())| - |body.Rest()|;
              if old(over) || maxBytes <= old(readBytes) then taken == 0 else taken <= maxBytes - old(readBytes) + 1
      ensures r.Err? ==>
                readBytes == if old(over) || maxBytes <= old(readBytes) then old(readBytes)
                             else if size < 0 then maxBytes + 1 else maxBytes
    {
      if over {
        return Err(SizeLimitExceeded);
      }
      var remaining := maxBytes - readBytes;
      if remaining <= 0 {
        over := true;
        return Err(SizeLimitExceeded);
      }
      if size < 0 {
        var data := body.Read(remaining + 1);
        readBytes := readBytes + |data|;
        if readBytes > maxBytes {
          over := true;
          return Err(SizeLimitExceeded);
        }
        return Ok(data);
      }
      var readLimit := remaining + 1;
      if size < readLimit {
        readLimit := size;
      }
      var data := body.Read(readLimit);
      readBytes := readBytes + |data|;
      if readBytes > maxBytes {
        over := true;
        readBytes := maxBytes;
        return Err(SizeLimitExceeded);
      }
      return Ok(data);
    }
  }

  /** A limited read of a flat byte string, with `remaining` bytes still allowed. */
  function LimitedRead(rest: Bytes, over: bool, remaining: int, size: int): Result<Bytes, StreamError> {
    if over || remaining <= 0 then Err(SizeLimitExceeded)
    else
      var data := Take(rest, if size < 0 || remaining + 1 < size then remaining + 1 else size);
      if |data| > remaining then Err(SizeLimitExceeded) else Ok(data)
  }

  // ---------- Sequences of reads ----------

  /** The answers to a sequence of reads of a flat byte string without a limit. */
  ghost function PlainReads(rest: Bytes, sizes: seq<int>): seq<Bytes>
    decreases |sizes|
  {
    if sizes == [] then []
    else
      var data := Take(rest, sizes[0]);
      [data] + PlainReads(rest[|data|..], sizes[1..])
  }

  /** The answers to the same reads through the limit. */
  ghost function LimitedReads(rest: Bytes, over: bool, remaining: int, sizes: seq<int>): seq<Result<Bytes, StreamError>>
    decreases |sizes|
  {
    if sizes == [] then []
    else
      var r := LimitedRead(rest, over, remaining, sizes[0]);
      if r.Err? then [r] + LimitedReads(rest, true, remaining, sizes[1..])
      else [r] + LimitedReads(rest[|r.value|..], over, remaining - |r.value|, sizes[1..])
  }

  /** All that a sequence of limited reads delivers. */
  ghost function Delivered(rs: seq<Result<Bytes, StreamError>>): Bytes {
    if rs == [] then [] else (if rs[0].Ok? then rs[0].value else []) + Delivered(rs[1..])
  }

  lemma {:induction false} NothingAfterFailure(rest: Bytes, remaining: int, sizes: seq<int>)
    ensures Delivered(LimitedReads(rest, true, remaining, sizes)) == []
    decreases |sizes|
  {
    if sizes != [] {
      NothingAfterFailure(rest, remaining, sizes[1..]);
    }
  }

  lemma PrefixOfRest(data: Bytes, more: Bytes, rest: Bytes)
    requires data <= rest && more <= rest[|data|..]
    ensures data + more <= rest
  {
    assert rest == data + rest[|data|..];
  }

  /** A successful read in front of a bounded prefix of what is left. */
  lemma {:induction false} DeliveredStep(rest: Bytes, remaining: int, sizes: seq<int>, data: Bytes)
    requires sizes != [] && LimitedRead(rest, false, remaining, sizes[0]) == Ok(data)
    requires var more := Delivered(LimitedReads(rest[|data|..], false, remaining - |data|, sizes[1..]));
             more <= rest[|data|..] && |more| <= remaining - |data|
    ensures var d := Delivered(LimitedReads(rest, false, remaining, sizes)); d <= rest && |d| <= remaining
  {
    var more := LimitedReads(rest[|data|..], false, remaining - |data|, sizes[1..]);
    var all := LimitedReads(rest, false, remaining, sizes);
    assert all == [Ok(data)] + more;
    assert all[1..] == more;
    PrefixOfRest(data, Delivered(more), rest);
  }

  lemma ReadFits(rest: Bytes, over: bool, remaining: int, size: int)
    ensures var r := LimitedRead(rest, over, remaining, size); r.Ok? ==> r.value <= rest && |r.value| <= remaining
  {
  }

  /** Whatever is read, the delivery is a prefix of the body of at most `remaining` bytes. */
  lemma {:induction false} DeliveryIsBoundedPrefix(rest: Bytes, remaining: nat, sizes: seq<int>)
    ensures var d := Delivered(LimitedReads(rest, false, remaining, sizes)); d <= rest && |d| <= remaining
    decreases |sizes|
  {
    hide LimitedRead;
    if sizes != [] {
      var r := LimitedRead(rest, false, remaining, sizes[0]);
      ReadFits(rest, false, remaining, sizes[0]);
      if r.Err? {
        NothingAfterFailure(rest, remaining, sizes[1..]);
      } else {
        DeliveryIsBoundedPrefix(rest[|r.value|..], remaining - |r.value|, sizes[1..]);
        DeliveredStep(rest, remaining, sizes, r.value);
      }
    }
  }

  lemma UnlimitedRead(rest: Bytes, remaining: int, size: int)
    requires |rest| < remaining
    ensures LimitedRead(rest, false, remaining, size) == Ok(Take(rest, size))
  {
    assert rest[..|rest|] == rest;
  }

  /** On a body strictly shorter than the limit nobody can tell that there is one. */
  lemma {:induction false} LimitIsUnobservable(rest: Bytes, remaining: int, sizes: seq<int>)
    requires |rest| < remaining
    ensures |LimitedReads(rest, false, remaining, sizes)| == |PlainReads(rest, sizes)| == |sizes|
    ensures forall i :: 0 <= i < |sizes| ==>
              LimitedReads(rest, false, remaining, sizes)[i] == Ok(PlainReads(rest, sizes)[i])
    decreases |sizes|
  {
    hide LimitedRead;
    if sizes != [] {
      var data := Take(rest, sizes[0]);
      UnlimitedRead(rest, remaining, sizes[0]);
      LimitIsUnobservable(rest[|data|..], remaining - |data|, sizes[1..]);
    }
  }

  /** A body as long as the limit or longer never reports its end to a reader that asks for bytes. */
  lemma {:induction false} LongBodyNeverEnds(rest: Bytes, remaining: nat, sizes: seq<int>, i: nat)
    requires |rest| >= remaining
    requires forall k :: 0 <= k < |sizes| ==> sizes[k] != 0
    requires i < |LimitedReads(rest, false, remaining, sizes)|
    ensures LimitedReads(rest, false, remaining, sizes)[i] != Ok([])
    decreases |sizes|
  {
    var r := LimitedRead(rest, false, remaining, sizes[0]);
    if i > 0 {
      if r.Err? {
        OverNeverEnds(rest, remaining, sizes[1..], i - 1);
      } else {
        LongBodyNeverEnds(rest[|r.value|..], remaining - |r.value|, sizes[1..], i - 1);
      }
    }
  }

  lemma {:induction false} OverNeverEnds(rest: Bytes, remaining: int, sizes: seq<int>, i: nat)
    requires i < |LimitedReads(rest, true, remaining, sizes)|
    ensures LimitedReads(rest, true, remaining, sizes)[i].Err?
    decreases |sizes|
  {
    if i > 0 {
      OverNeverEnds(rest, remaining, sizes[1..], i - 1);
    }
  }

  // ---------- Download ----------

  const CHUNK := 65536

  /** The file system as the download sees it: the destination, and whether the temporary file is left behind. */
  class Files {
    var dst: Option<Bytes>
    var tmp: Option<Bytes>
  }

  /**
    One read of the download loop: a failure means that the limit is reached, an empty
    answer that the body ended before.
  */
  method NextChunk(stream: LimitReadCloser) returns (r: Result<Bytes, StreamError>)
    requires stream.body.Valid() && !stream.over && stream.readBytes <= stream.maxBytes
    modifies stream, stream.body
    ensures stream.body.Valid() && stream.over == r.Err?
    ensures r.Err? ==> stream.maxBytes - old(stream.readBytes) <= |old(stream.body.Rest())|
    ensures r.Ok? ==>
              && r.value + stream.body.Rest() == old(stream.body.Rest())
              && stream.readBytes == old(stream.readBytes) + |r.value| <= stream.maxBytes
    ensures r == Ok([]) ==> old(stream.body.Rest()) == [] && old(stream.readBytes) < stream.maxBytes
  {
    r := stream.Read(CHUNK);
  }

  /**
    Downloads a body through the limit into the destination. `size` is the announced
    length, negative if there was none. The destination is replaced by the whole body
    exactly when the body is strictly shorter than the limit and the announced length is
    not over it; otherwise it is left as it was. No temporary file stays behind.
  */
  method Download(stream: LimitReadCloser, size: int, files: Files) returns (done: bool)
    requires stream.body.Valid() && !stream.over && stream.readBytes == 0 && stream.maxBytes > 0
    modifies stream, stream.body, files
    ensures done <==> |old(stream.body.Rest())| < stream.maxBytes && size <= stream.maxBytes
    ensures files.dst == if done then Some(old(stream.body.Rest())) else old(files.dst)
    ensures files.tmp == None
  {
    hide Concat;
    ghost var body := stream.body.Rest();
    files.tmp := Some([]);
    var written: Bytes := [];
    while true
      invariant stream.body.Valid() && !stream.over
      invariant written + stream.body.Rest() == body
      invariant |written| == stream.readBytes <= stream.maxBytes
      invariant files.tmp == Some(written) && files.dst == old(files.dst)
      decreases |stream.body.Rest()|
    {
      ghost var rest := stream.body.Rest();
      var r := NextChunk(stream);
      if r.Err? {
        assert |body| == |written| + |rest|;
        files.tmp := None;
        return false;
      }
      var chunk := r.value;
      if chunk == [] {
        break;
      }
      assert written + chunk + stream.body.Rest() == written + rest;
      written := written + chunk;
      files.tmp := Some(written);
    }
    assert stream.body.Rest() == [];
    assert written == body;
    if size >= 0 && stream.maxBytes > 0 && size > stream.maxBytes {
      files.tmp := None;
      return false;
    }
    files.dst := files.tmp;
    files.tmp := None;
    return true;
  }
}
