/** The recorder of a relayed stream: a bounded prefix of the bytes, whatever the chunks were. */
module StreamArchive {
  function Flatten(chunks: seq<seq<bv8>>): seq<bv8> {
    if chunks == [] then [] else Flatten(chunks[..|chunks| - 1]) + chunks[|chunks| - 1]
  }

  /** The first `n` bytes, all of them when there are fewer. */
  function Prefix(s: seq<bv8>, n: nat): seq<bv8> {
    if n < |s| then s[..n] else s
  }

  datatype Payload = Payload(content: seq<bv8>, truncated: bool, archivedBytes: nat, originalBytes: nat)

  class Collector {
    const maxBytes: nat
    var chunks: seq<seq<bv8>>
    var archivedBytes: nat
    var originalBytes: nat
    ghost var stream: seq<bv8>

    ghost predicate Valid()
      reads this
    {
      && maxBytes >= 1
      && Flatten(chunks) == Prefix(stream, maxBytes)
      && archivedBytes == |Prefix(stream, maxBytes)|
      && originalBytes == |stream|
    }

    constructor (maxBytes: int)
      ensures Valid() && stream == [] && this.maxBytes == if maxBytes < 1 then 1 else maxBytes
    {
      this.maxBytes := if maxBytes < 1 then 1 else maxBytes;
      chunks, archivedBytes, originalBytes, stream := [], 0, 0, [];
    }

    method Add(chunk: seq<bv8>)
      requires Valid()
      modifies this
      ensures Valid() && stream == old(stream) + chunk
    {
      stream := stream + chunk;
      originalBytes := originalBytes + |chunk|;
      var remaining := maxBytes - archivedBytes;
      if remaining <= 0 {
        assert Prefix(stream, maxBytes) == Prefix(old(stream), maxBytes);
        return;
      }
      var archived := if remaining < |chunk| then chunk[..remaining] else chunk;
      assert (chunks + [archived])[..|chunks|] == chunks;
      chunks := chunks + [archived];
      archivedBytes := archivedBytes + |archived|;
      assert Prefix(old(stream), maxBytes) == old(stream);
      assert Prefix(stream, maxBytes) == old(stream) + archived;
    }

    /** The counters are exact and `truncated` tells precisely whether bytes were left out. */
    method Finish() returns (p: Payload)
      requires Valid()
      ensures p == Archived(stream, maxBytes)
      ensures p.truncated <==> p.content != stream
      ensures p.content <= stream && |p.content| == p.archivedBytes == if |stream| < maxBytes then |stream| else maxBytes
      ensures p.originalBytes == |stream|
    {
      p := Payload(Flatten(chunks), originalBytes > maxBytes, archivedBytes, originalBytes);
    }
  }

  lemma {:induction false} FlattenAppend(a: seq<seq<bv8>>, b: seq<seq<bv8>>)
    ensures Flatten(a + b) == Flatten(a) + Flatten(b)
  {
    if b == [] {
      assert a + b == a;
    } else {
      var n := |b| - 1;
      assert (a + b)[..|a + b| - 1] == a + b[..n];
      FlattenAppend(a, b[..n]);
    }
  }

  /** What is archived of a stream. */
  function Archived(stream: seq<bv8>, maxBytes: nat): Payload {
    Payload(Prefix(stream, maxBytes), |stream| > maxBytes, |Prefix(stream, maxBytes)|, |stream|)
  }

  /** Cutting a chunk in two anywhere changes nothing in the archive. */
  lemma RecutKeepsArchive(a: seq<seq<bv8>>, x: seq<bv8>, y: seq<bv8>, b: seq<seq<bv8>>, maxBytes: nat)
    ensures Archived(Flatten(a + [x, y] + b), maxBytes) == Archived(Flatten(a + [x + y] + b), maxBytes)
  {
    FlattenAppend(a + [x, y], b);
    FlattenAppend(a, [x, y]);
    FlattenAppend(a + [x + y], b);
    FlattenAppend(a, [x + y]);
    assert [x, y][..1] == [x] && [x][..0] == [] && [x + y][..0] == [];
    assert Flatten([x, y]) == Flatten([x]) + y == x + y == Flatten([x + y]);
  }

  /** `_stream_archive_body`: what is archived depends on the bytes of the stream only, not on its chunks. */
  method ArchiveBody(chunks: seq<seq<bv8>>, maxBytes: int) returns (p: Payload)
    ensures p == Archived(Flatten(chunks), if maxBytes < 1 then 1 else maxBytes)
    ensures p.content <= Flatten(chunks) && (p.truncated <==> p.content != Flatten(chunks))
  {
    var collector := new Collector(maxBytes);
    for k := 0 to |chunks|
      invariant collector.Valid() && fresh(collector) && collector.stream == Flatten(chunks[..k])
    {
      assert chunks[..k + 1][..k] == chunks[..k];
      collector.Add(chunks[k]);
    }
    assert chunks[..|chunks|] == chunks;
    p := collector.Finish();
  }
}
