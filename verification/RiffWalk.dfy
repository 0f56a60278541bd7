/**
 Animation detection in WebP files: a walk over RIFF chunks (section 2.3 of
 RFC 9649) that looks for an ANIM chunk.
 */
module RiffWalk {
  import opened Seqs

  const USIZE_MAX: nat := 0xFFFF_FFFF_FFFF_FFFF
  /** No Rust slice is longer than this. */
  const SLICE_MAX: nat := 0x7FFF_FFFF_FFFF_FFFF

  const ANIM: seq<Byte> := [65, 78, 73, 77]

  function Le32(a: nat, b: nat, c: nat, d: nat): (n: nat)
  {
    a + 0x100 * b + 0x1_0000 * c + 0x100_0000 * d
  }

  function SatAdd(a: nat, b: nat): (n: nat)
  {
    if a + b <= USIZE_MAX then a + b else USIZE_MAX
  }

  function SizeAt(data: seq<Byte>, pos: nat): (n: nat)
    requires pos + 8 <= |data|
    ensures n < 0x1_0000_0000
  {
    Le32(data[pos + 4], data[pos + 5], data[pos + 6], data[pos + 7])
  }

  /** An ANIM chunk starts at `pos` or at some later chunk boundary. */
  predicate AnimFrom(data: seq<Byte>, pos: nat)
    decreases |data| - pos
  {
    pos + 8 <= |data| &&
    (data[pos..pos + 4] == ANIM || AnimFrom(data, pos + 8 + SizeAt(data, pos) + SizeAt(data, pos) % 2))
  }

  /**
   `detect_animated`.  On arbitrary bytes the WebP walk ends, reads in bounds,
   never overflows a 64-bit position, and finds exactly what `AnimFrom` defines.
   */
  method DetectAnimated(data: seq<Byte>, ext: string) returns (animated: bool)
    requires |data| <= SLICE_MAX
    ensures animated <==> ext == "gif" || (ext == "webp" && 30 <= |data| && AnimFrom(data, 12))
  {
    if ext == "gif" {
      return true;
    }
    if ext != "webp" || |data| < 30 {
      return false;
    }
    var pos := 12;
    while pos + 8 <= |data|
      invariant pos + 8 <= USIZE_MAX
      invariant AnimFrom(data, 12) <==> AnimFrom(data, pos)
      decreases |data| - pos
    {
      if data[pos..pos + 4] == ANIM {
        return true;
      }
      var size := Le32(data[pos + 4], data[pos + 5], data[pos + 6], data[pos + 7]);
      pos := SatAdd(SatAdd(SatAdd(pos, 8), size), size % 2);
    }
    return false;
  }

  // ---------------------------------------------------------------------
  // Well-formed files
  // ---------------------------------------------------------------------

  datatype Chunk = Chunk(tag: seq<Byte>, payload: seq<Byte>)

  ghost predicate Wellformed(c: Chunk)
  {
    |c.tag| == 4 && |c.payload| < 0x1_0000_0000
  }

  function LeBytes(n: nat): (bs: seq<Byte>)
    requires n < 0x1_0000_0000
    ensures |bs| == 4
  {
    [n % 256, n / 256 % 256, n / 256 / 256 % 256, n / 256 / 256 / 256]
  }

  lemma LeRoundTrip(n: nat)
    requires n < 0x1_0000_0000
    ensures var bs := LeBytes(n); Le32(bs[0], bs[1], bs[2], bs[3]) == n
  {
    var m1 := n / 256;
    var m2 := m1 / 256;
    assert n == n % 256 + 256 * m1;
    assert m1 == m1 % 256 + 256 * m2;
    assert m2 == m2 % 256 + 256 * (m2 / 256);
  }

  /** Tag, size, payload, and a padding byte after an odd payload. */
  function Serialize(c: Chunk): (bs: seq<Byte>)
    requires Wellformed(c)
    ensures |bs| == 8 + |c.payload| + |c.payload| % 2
  {
    c.tag + LeBytes(|c.payload|) + c.payload + if |c.payload| % 2 == 1 then [0] else []
  }

  function SerializeAll(cs: seq<Chunk>): (bs: seq<Byte>)
    requires forall i :: 0 <= i < |cs| ==> Wellformed(cs[i])
  {
    if cs == [] then [] else Serialize(cs[0]) + SerializeAll(cs[1..])
  }

  lemma SerializedHead(c: Chunk)
    requires Wellformed(c)
    ensures Serialize(c)[..4] == c.tag && SizeAt(Serialize(c), 0) == |c.payload|
  {
    LeRoundTrip(|c.payload|);
    var bs, le := Serialize(c), LeBytes(|c.payload|);
    assert bs[4] == le[0] && bs[5] == le[1] && bs[6] == le[2] && bs[7] == le[3];
  }

  lemma ReadsHead(before: seq<Byte>, c: Chunk, after: seq<Byte>)
    requires Wellformed(c)
    ensures var data, pos := before + Serialize(c) + after, |before|;
            && pos + 8 <= |data|
            && data[pos..pos + 4] == c.tag && SizeAt(data, pos) == |c.payload|
  {
    SerializedHead(c);
    ReadInside(before, Serialize(c), after);
  }

  lemma ReadInside(before: seq<Byte>, bs: seq<Byte>, after: seq<Byte>)
    requires 8 <= |bs|
    ensures var data, pos := before + bs + after, |before|;
            && pos + 8 <= |data| && data[pos..pos + 4] == bs[..4] && SizeAt(data, pos) == SizeAt(bs, 0)
  {
    var data, pos := before + bs + after, |before|;
    assert forall i :: 0 <= i < 8 ==> data[pos + i] == bs[i];
    assert data[pos..pos + 4] == bs[..4];
  }

  ghost predicate HasAnim(cs: seq<Chunk>)
  {
    exists i :: 0 <= i < |cs| && cs[i].tag == ANIM
  }

  lemma HasAnimCons(cs: seq<Chunk>)
    requires cs != []
    ensures HasAnim(cs) <==> cs[0].tag == ANIM || HasAnim(cs[1..])
  {
    if HasAnim(cs[1..]) {
      var i :| 0 <= i < |cs[1..]| && cs[1..][i].tag == ANIM;
      assert cs[i + 1].tag == ANIM;
    }
    if HasAnim(cs) && cs[0].tag != ANIM {
      var i :| 0 <= i < |cs| && cs[i].tag == ANIM;
      assert cs[1..][i - 1].tag == ANIM;
    }
  }

  lemma AnimUnfold(data: seq<Byte>, pos: nat, next: nat)
    requires pos + 8 <= |data| && next == pos + 8 + SizeAt(data, pos) + SizeAt(data, pos) % 2
    ensures AnimFrom(data, pos) <==> data[pos..pos + 4] == ANIM || AnimFrom(data, next)
  {
  }

  lemma WalkStep(before: seq<Byte>, c: Chunk, after: seq<Byte>, data: seq<Byte>, next: seq<Byte>)
    requires Wellformed(c) && next == before + Serialize(c) && data == next + after
    ensures AnimFrom(data, |before|) <==> c.tag == ANIM || AnimFrom(data, |next|)
  {
    ReadsHead(before, c, after);
    AnimUnfold(data, |before|, |next|);
  }

  lemma Assoc(a: seq<Byte>, b: seq<Byte>, c: seq<Byte>)
    ensures a + (b + c) == a + b + c
  {
  }

  /** The walk visits exactly the chunks that were serialized. */
  lemma {:induction false} WalkFindsAnim(before: seq<Byte>, cs: seq<Chunk>, data: seq<Byte>)
    requires forall i :: 0 <= i < |cs| ==> Wellformed(cs[i])
    requires data == before + SerializeAll(cs)
    ensures AnimFrom(data, |before|) <==> HasAnim(cs)
    decreases |cs|
  {
    if cs == [] {
      WalkEnds(data);
    } else {
      var c, rest := cs[0], SerializeAll(cs[1..]);
      SerializeCons(cs);
      Assoc(before, Serialize(c), rest);
      var next := before + Serialize(c);
      WalkFindsAnim(next, cs[1..], data);
      WalkStep(before, c, rest, data, next);
      HasAnimCons(cs);
    }
  }

  lemma SerializeCons(cs: seq<Chunk>)
    requires cs != [] && forall i :: 0 <= i < |cs| ==> Wellformed(cs[i])
    ensures SerializeAll(cs) == Serialize(cs[0]) + SerializeAll(cs[1..])
  {
  }

  lemma WalkEnds(data: seq<Byte>)
    ensures !AnimFrom(data, |data|)
  {
  }

  /** A serialized file is reported animated exactly when its chunk list has an ANIM chunk. */
  method DetectInFile(header: seq<Byte>, cs: seq<Chunk>) returns (animated: bool)
    requires |header| == 12 && forall i :: 0 <= i < |cs| ==> Wellformed(cs[i])
    requires 30 <= |header + SerializeAll(cs)| <= SLICE_MAX
    ensures animated <==> HasAnim(cs)
  {
    WalkFindsAnim(header, cs, header + SerializeAll(cs));
    animated := DetectAnimated(header + SerializeAll(cs), "webp");
  }
}
