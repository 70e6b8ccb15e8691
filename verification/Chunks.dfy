/** Byte strings written by position, and the chunks a transfer cuts a file into
    (node-functions/src/fs_local.rs, p2p-handlers/src/fs_local.rs, web-davserver/src/fs.rs). */
module Chunks {
  newtype byte = b: int | 0 <= b < 0x100

  datatype Chunk = Chunk(offset: nat, data: seq<byte>)

  function Max(a: nat, b: nat): nat {
    if a < b then b else a
  }

  function Zeros(n: nat): (z: seq<byte>)
    ensures |z| == n && forall i :: 0 <= i < n ==> z[i] == 0
  {
    seq(n, _ => 0)
  }

  function PadTo(f: seq<byte>, n: nat): seq<byte> {
    if |f| < n then f + Zeros(n - |f|) else f
  }

  /** A seek followed by write_all: a gap past the end reads as zeros, and writing nothing changes
      nothing. */
  function WriteAt(f: seq<byte>, off: nat, data: seq<byte>): (g: seq<byte>)
    ensures data == [] ==> g == f
    ensures data != [] ==> |g| == Max(|f|, off + |data|)
    ensures data != [] ==> forall i :: 0 <= i < |g| ==>
              g[i] == if off <= i < off + |data| then data[i - off] else if i < |f| then f[i] else 0
  {
    if data == [] then f
    else
      var p := PadTo(f, off);
      p[..off] + data + (if off + |data| < |p| then p[off + |data|..] else [])
  }

  // ----- tilings -----------------------------------------------------------------------------------

  predicate SliceOf(c: Chunk, src: seq<byte>) {
    c.offset + |c.data| <= |src| && c.data == src[c.offset..c.offset + |c.data|]
  }

  /** cs cuts src[from..to] into consecutive non-empty pieces of at most max bytes. */
  predicate Tiles(src: seq<byte>, from: nat, to: nat, cs: seq<Chunk>, max: nat)
    decreases |cs|
  {
    if cs == [] then from == to
    else
      && cs[0].offset == from && 0 < |cs[0].data| <= max && SliceOf(cs[0], src)
      && Tiles(src, from + |cs[0].data|, to, cs[1..], max)
  }

  function Flatten(cs: seq<Chunk>): seq<byte> {
    if cs == [] then [] else cs[0].data + Flatten(cs[1..])
  }

  lemma {:induction false} TilesFlatten(src: seq<byte>, from: nat, to: nat, cs: seq<Chunk>, max: nat)
    requires Tiles(src, from, to, cs, max)
    ensures from <= to && (from <= |src| ==> to <= |src| && Flatten(cs) == src[from..to])
    decreases |cs|
  {
    if cs != [] {
      TilesFlatten(src, from + |cs[0].data|, to, cs[1..], max);
    }
  }

  predicate At(c: Chunk, i: nat) {
    c.offset <= i < c.offset + |c.data|
  }

  /** Some chunk of cs writes byte i. */
  predicate Covers(cs: seq<Chunk>, i: nat) {
    exists k :: 0 <= k < |cs| && At(cs[k], i)
  }

  /** Every byte of the tiled range is covered, and each chunk is a slice of the source. */
  lemma {:induction false} TilesCover(src: seq<byte>, from: nat, to: nat, cs: seq<Chunk>, max: nat, i: nat)
    requires Tiles(src, from, to, cs, max)
    ensures from <= i < to ==> Covers(cs, i)
    ensures forall c :: c in cs ==> SliceOf(c, src) && 0 < |c.data|
    decreases |cs|
  {
    if cs != [] {
      TilesCover(src, from + |cs[0].data|, to, cs[1..], max, i);
      if At(cs[0], i) {
        assert Covers(cs, i);
      } else if from <= i < to {
        var k :| 0 <= k < |cs[1..]| && At(cs[1..][k], i);
        assert At(cs[k + 1], i);
      }
    }
  }

  // ----- delivery in any order ------------------------------------------------------------------------

  /** The chunks written one after the other. */
  function Deliver(f: seq<byte>, cs: seq<Chunk>): seq<byte> {
    if cs == [] then f
    else
      var last := cs[|cs| - 1];
      WriteAt(Deliver(f, cs[..|cs| - 1]), last.offset, last.data)
  }

  /** f is what chunks of src leave behind: covered bytes equal the source, gaps are zero, and the
      last byte is the last covered one. */
  ghost predicate Image(src: seq<byte>, cs: seq<Chunk>, f: seq<byte>) {
    && |f| <= |src|
    && (forall i :: 0 <= i < |f| ==> f[i] == if Covers(cs, i) then src[i] else 0)
    && (forall i: nat :: Covers(cs, i) ==> i < |f|)
    && (f != [] ==> Covers(cs, |f| - 1))
  }

  lemma {:induction false} CoversExtend(cs: seq<Chunk>, c: Chunk, i: nat)
    ensures Covers(cs + [c], i) <==> Covers(cs, i) || At(c, i)
  {
    var all := cs + [c];
    assert forall k :: 0 <= k < |cs| ==> all[k] == cs[k];
    assert all[|cs|] == c;
    if Covers(cs, i) {
      var k :| 0 <= k < |cs| && At(cs[k], i);
      assert At(all[k], i);
    }
  }

  lemma {:induction false} ImageStep(src: seq<byte>, cs: seq<Chunk>, f: seq<byte>, c: Chunk)
    requires Image(src, cs, f) && SliceOf(c, src)
    ensures Image(src, cs + [c], WriteAt(f, c.offset, c.data))
  {
    hide Covers, WriteAt;
    var g := WriteAt(f, c.offset, c.data);
    forall i: nat ensures Covers(cs + [c], i) <==> Covers(cs, i) || At(c, i) {
      CoversExtend(cs, c, i);
    }
  }

  /** Whatever the order and the repetitions of the chunks of one source. */
  lemma {:induction false} DeliveredBytes(src: seq<byte>, cs: seq<Chunk>)
    requires forall c :: c in cs ==> SliceOf(c, src)
    ensures Image(src, cs, Deliver([], cs))
  {
    if cs != [] {
      var init, last := cs[..|cs| - 1], cs[|cs| - 1];
      assert cs == init + [last];
      DeliveredBytes(src, init);
      ImageStep(src, init, Deliver([], init), last);
    }
  }

  lemma {:induction false} CoversSubset(cs: seq<Chunk>, ds: seq<Chunk>, i: nat)
    requires Covers(cs, i) && forall c :: c in cs ==> c in ds
    ensures Covers(ds, i)
  {
    var k :| 0 <= k < |cs| && At(cs[k], i);
    assert cs[k] in ds;
    var j :| 0 <= j < |ds| && ds[j] == cs[k];
    assert At(ds[j], i);
  }

  /** Once every chunk of a tiling of the source has been delivered, in any order and with any
      repetition, the file equals the source. */
  lemma {:induction false} AnyOrder(src: seq<byte>, tiling: seq<Chunk>, max: nat, cs: seq<Chunk>)
    requires Tiles(src, 0, |src|, tiling, max)
    requires forall c :: c in cs <==> c in tiling
    ensures Deliver([], cs) == src
  {
    hide Tiles, Covers;
    TilesCover(src, 0, |src|, tiling, max, 0);
    DeliveredBytes(src, cs);
    forall i: nat | i < |src| ensures Covers(cs, i) {
      TilesCover(src, 0, |src|, tiling, max, i);
      CoversSubset(tiling, cs, i);
    }
    assert src != [] ==> Covers(cs, |src| - 1);
  }

  /** A prefix of a tiling, delivered in order, is a prefix of the source. */
  lemma {:induction false} InOrder(src: seq<byte>, to: nat, cs: seq<Chunk>, max: nat)
    requires Tiles(src, 0, to, cs, max)
    ensures to <= |src| && Deliver([], cs) == src[..to]
  {
    TilesFlatten(src, 0, to, cs, max);
    TilesPrefix(src, 0, to, cs, max);
    AnyOrder(src[..to], cs, max, cs);
  }

  /** The same slice of a prefix. */
  lemma {:induction false} SliceOfPrefix(c: Chunk, src: seq<byte>, to: nat)
    requires SliceOf(c, src) && c.offset + |c.data| <= to <= |src|
    ensures SliceOf(c, src[..to])
  {
    assert src[..to][c.offset..c.offset + |c.data|] == src[c.offset..c.offset + |c.data|];
  }

  lemma {:induction false} TilesPrefix(src: seq<byte>, from: nat, to: nat, cs: seq<Chunk>, max: nat)
    requires Tiles(src, from, to, cs, max) && to <= |src|
    ensures Tiles(src[..to], from, to, cs, max)
    decreases |cs|
  {
    hide SliceOf;
    if cs != [] {
      var next := from + |cs[0].data|;
      TilesFlatten(src, next, to, cs[1..], max);
      SliceOfPrefix(cs[0], src, to);
      TilesPrefix(src, next, to, cs[1..], max);
    }
  }
}
