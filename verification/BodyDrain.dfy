/** Reading a response body chunk by chunk into one buffer, up to a cap. */
module BodyDrain {
  import opened Prelude

  type byte = bv8

  const MAX_BODY_BYTES: nat := 10 * 1024 * 1024

  /** One read: a chunk, or an error or abort that ends the drain. */
  datatype Read = Chunk(data: seq<byte>) | Broken

  datatype Outcome = Drained(bytes: seq<byte>, truncated: bool) | Failed

  function Flat(chunks: seq<seq<byte>>): seq<byte> {
    if chunks == [] then [] else Flat(chunks[..|chunks| - 1]) + chunks[|chunks| - 1]
  }

  /** The chunks before the first broken read. */
  function Intact(stream: seq<Read>): seq<seq<byte>> {
    if stream == [] || stream[0].Broken? then [] else [stream[0].data] + Intact(stream[1..])
  }

  predicate Breaks(stream: seq<Read>) { exists r <- stream :: r.Broken? }

  lemma {:induction false} FlatOfConcat(a: seq<seq<byte>>, b: seq<seq<byte>>)
    ensures Flat(a + b) == Flat(a) + Flat(b)
    decreases |b|
  {
    if b == [] {
      assert a + b == a;
    } else {
      var init := b[..|b| - 1];
      assert (a + b)[..|a + b| - 1] == a + init;
      FlatOfConcat(a, init);
    }
  }

  lemma FlatOfOne(chunk: seq<byte>)
    ensures Flat([chunk]) == chunk
  {
    assert [chunk][..0] == [];
  }

  class DrainState {
    var chunks: seq<seq<byte>>
    var total: nat

    ghost predicate Valid()
      reads this
    {
      total == |Flat(chunks)| <= 10_485_760
    }

    constructor ()
      ensures Valid() && chunks == []
    {
      chunks, total := [], 0;
    }

    /** Whether the chunk had to be cut to fit; then the state is full. */
    method AppendChunkOrTruncate(chunk: seq<byte>) returns (truncated: bool)
      requires Valid()
      modifies this
      ensures Valid()
      ensures truncated == (|old(Flat(chunks)) + chunk| > 10_485_760)
      ensures Flat(chunks) == if truncated then (old(Flat(chunks)) + chunk)[..10_485_760]
                              else old(Flat(chunks)) + chunk
    {
      var remaining := MAX_BODY_BYTES - total;
      if |chunk| <= remaining {
        FlatOfConcat(chunks, [chunk]);
        FlatOfOne(chunk);
        chunks := chunks + [chunk];
        total := total + |chunk|;
        return false;
      }
      var keep := Max(remaining, 0);
      FlatOfConcat(chunks, [chunk[..keep]]);
      FlatOfOne(chunk[..keep]);
      chunks := chunks + [chunk[..keep]];
      total := total + keep;
      return true;
    }
  }

  /** Fills the buffer chunk after chunk, from the first place to the last. */
  method ConcatChunks(chunks: seq<seq<byte>>, total: nat) returns (out: array<byte>)
    requires total == |Flat(chunks)|
    ensures fresh(out) && out[..] == Flat(chunks)
  {
    out := new byte[total];
    var offset := 0;
    for i := 0 to |chunks|
      invariant offset == |Flat(chunks[..i])| <= total
      invariant out[..offset] == Flat(chunks[..i])
    {
      var chunk := chunks[i];
      assert chunks[..i + 1][..i] == chunks[..i];
      assert chunks[..i + 1] + chunks[i + 1..] == chunks;
      FlatOfConcat(chunks[..i + 1], chunks[i + 1..]);
      ghost var before := out[..offset];
      forall k | 0 <= k < |chunk| { out[offset + k] := chunk[k]; }
      assert out[..offset] == before && out[offset..offset + |chunk|] == chunk;
      assert out[..offset + |chunk|] == before + chunk;
      offset := offset + |chunk|;
    }
    assert chunks[..|chunks|] == chunks;
  }

  lemma {:induction false} IntactSoFar(stream: seq<Read>, i: nat)
    requires i <= |stream| && !Breaks(stream[..i])
    ensures Intact(stream) == Intact(stream[..i]) + Intact(stream[i..])
    decreases i
  {
    if i == 0 {
      assert stream[0..] == stream;
    } else {
      assert stream[..i][0] == stream[0] && stream[..i][1..] == stream[1..][..i - 1];
      assert stream[i..] == stream[1..][i - 1..];
      assert stream[0] in stream[..i];
      assert forall r <- stream[1..][..i - 1] :: r in stream[..i];
      IntactSoFar(stream[1..], i - 1);
    }
  }

  lemma IntactOfNext(stream: seq<Read>, i: nat)
    requires i < |stream| && !Breaks(stream[..i])
    ensures Intact(stream[..i + 1]) == Intact(stream[..i]) + if stream[i].Chunk? then [stream[i].data] else []
  {
    var now := stream[..i + 1];
    assert now[..i] == stream[..i] && now[i..] == [stream[i]] && [stream[i]][1..] == [];
    IntactSoFar(now, i);
  }

  lemma NextRead(stream: seq<Read>, i: nat)
    requires i < |stream| && !Breaks(stream[..i])
    ensures stream[i].Chunk? ==> !Breaks(stream[..i + 1])
    ensures stream[i].Chunk? ==> Flat(Intact(stream[..i + 1])) == Flat(Intact(stream[..i])) + stream[i].data
    ensures stream[i].Broken? ==> Intact(stream) == Intact(stream[..i]) && Breaks(stream)
  {
    if stream[i].Chunk? {
      IntactOfNext(stream, i);
      FlatOfConcat(Intact(stream[..i]), [stream[i].data]);
      FlatOfOne(stream[i].data);
      assert stream[..i + 1] == stream[..i] + [stream[i]];
    } else {
      IntactSoFar(stream, i);
      assert stream[i..][0] == stream[i] && stream[i] in stream;
    }
  }

  lemma FlatIntactPrefix(stream: seq<Read>, i: nat)
    requires i <= |stream| && !Breaks(stream[..i])
    ensures Flat(Intact(stream[..i])) <= Flat(Intact(stream))
  {
    IntactSoFar(stream, i);
    FlatOfConcat(Intact(stream[..i]), Intact(stream[i..]));
  }

  /**
   The bytes are exactly the first of the body, up to the cap, and `truncated` says that there were more.
   A read that fails counts only if it comes before the cap is passed; past the cap the reader is
   cancelled, and if that fails so does the drain. On the way out of a failure a second one is swallowed.
   */
  method DrainReader(stream: seq<Read>, cancelFails: bool) returns (result: Outcome)
    ensures var body := Flat(Intact(stream));
            result == if |body| > 10_485_760 then
                        if cancelFails then Failed else Drained(body[..10_485_760], true)
                      else if Breaks(stream) then Failed
                      else Drained(body, false)
  {
    var state := new DrainState();
    for i := 0 to |stream|
      invariant fresh(state) && state.Valid()
      invariant !Breaks(stream[..i]) && Flat(state.chunks) == Flat(Intact(stream[..i]))
    {
      NextRead(stream, i);
      if stream[i].Broken? { return Failed; }
      var truncated := state.AppendChunkOrTruncate(stream[i].data);
      if truncated {
        FlatIntactPrefix(stream, i + 1);
        if cancelFails { return Failed; }
        var cut := ConcatChunks(state.chunks, state.total);
        return Drained(cut[..], true);
      }
    }
    assert stream[..|stream|] == stream;
    var out := ConcatChunks(state.chunks, state.total);
    return Drained(out[..], false);
  }
}
