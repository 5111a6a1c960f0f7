/** SpectrumAssembler of tools/spectrum_monitor.py: four chunks of one result and channel make a
    frame; at most sixteen results are held incomplete. */
module Assembler {
  import opened Bytes
  import opened Format

  const MAX_PENDING := 16

  datatype Key = Key(timestampUs: nat, channel: nat)

  datatype Metadata = Metadata(status: nat, sampleRateHz: nat, rmsQ15: nat, peakQ15: nat,
                               dominantMillihz: nat, processingUs: nat, droppedBlocks: nat)

  datatype SpectrumFrame = SpectrumFrame(key: Key, metadata: Metadata,
                                         magnitudes: seq<byte>, preview: seq<i16>)

  function KeyOf(c: HostChunk): Key {
    Key(c.timestampUs, c.channel)
  }

  function MetadataOf(c: HostChunk): Metadata {
    Metadata(c.status, c.sampleRateHz, c.rmsQ15, c.peakQ15, c.dominantMillihz, c.processingUs, c.droppedBlocks)
  }

  /** An inner dict: its chunks by index, and the index that was inserted first. */
  datatype Parts = Parts(chunks: map<nat, HostChunk>, first: nat)

  /** The outer dict, with its insertion order, and the three counters. */
  datatype Assembly = Assembly(order: seq<Key>, pending: map<Key, Parts>,
                               evictions: nat, duplicates: nat, inconsistent: nat)

  const EMPTY := Assembly([], map[], 0, 0, 0)

  ghost predicate PartsOk(k: Key, p: Parts) {
    && 1 <= |p.chunks| <= 3 && p.first in p.chunks
    && forall i :: i in p.chunks ==>
                     && i < CHUNKS && p.chunks[i].chunkIndex == i && KeyOf(p.chunks[i]) == k
                     && MetadataOf(p.chunks[i]) == MetadataOf(p.chunks[p.first])
  }

  ghost predicate Distinct(order: seq<Key>) {
    forall i, j :: 0 <= i < j < |order| ==> order[i] != order[j]
  }

  /** At most sixteen keys pending, each with one to three chunks that agree on their metadata. */
  ghost predicate Valid(a: Assembly) {
    && Distinct(a.order) && |a.order| <= 16
    && (forall k :: k in a.order <==> k in a.pending)
    && forall k :: k in a.pending ==> PartsOk(k, a.pending[k])
  }

  function Without(order: seq<Key>, k: Key): seq<Key> {
    if order == [] then []
    else if order[0] == k then order[1..]
    else [order[0]] + Without(order[1..], k)
  }

  function Drop(a: Assembly, k: Key): Assembly {
    a.(order := Without(a.order, k), pending := a.pending - {k})
  }

  /** Room for a new key: the oldest entry goes when sixteen are pending. */
  function MakeRoom(a: Assembly, k: Key): Assembly {
    if k !in a.pending && |a.order| >= MAX_PENDING
    then Drop(a, a.order[0]).(evictions := a.evictions + 1)
    else a
  }

  function FrameOf(k: Key, p: map<nat, HostChunk>): SpectrumFrame
    requires 0 in p && 1 in p && 2 in p && 3 in p
  {
    SpectrumFrame(k, MetadataOf(p[0]),
                  p[0].magnitudeU8 + p[1].magnitudeU8 + p[2].magnitudeU8 + p[3].magnitudeU8,
                  p[0].previewQ15 + p[1].previewQ15 + p[2].previewQ15 + p[3].previewQ15)
  }

  datatype Pushed = Pushed(state: Assembly, frame: Option<SpectrumFrame>)

  /** Parts of one key that agree with each other. */
  ghost predicate Agreeing(k: Key, p: map<nat, HostChunk>, m: Metadata) {
    forall i :: i in p ==>
                  i < CHUNKS && p[i].chunkIndex == i && KeyOf(p[i]) == k && MetadataOf(p[i]) == m
  }

  lemma AllIndices(k: Key, p: map<nat, HostChunk>, m: Metadata)
    requires Agreeing(k, p, m)
    ensures |p| <= CHUNKS
    ensures |p| == CHUNKS <==> 0 in p && 1 in p && 2 in p && 3 in p
  {
    var all := {0, 1, 2, 3};
    assert p.Keys <= all;
    SubsetSize(p.Keys, all);
    if 0 in p && 1 in p && 2 in p && 3 in p {
      assert p.Keys == all;
    }
  }

  lemma SubsetSize<T>(x: set<T>, y: set<T>)
    requires x <= y
    ensures |x| <= |y| && (|x| == |y| ==> x == y)
  {
    assert y == x + (y - x);
    assert |y| == |x| + |y - x|;
  }

  /** What becomes of the entry of key k when chunk c joins the agreeing parts p it already has. */
  function Join(a: Assembly, k: Key, p: map<nat, HostChunk>, first: nat, c: HostChunk): Pushed
    requires Agreeing(k, p, MetadataOf(c)) && c.chunkIndex < CHUNKS && KeyOf(c) == k
  {
    var joined := p[c.chunkIndex := c];
    var b := if c.chunkIndex in p then a.(duplicates := a.duplicates + 1) else a;
    AllIndices(k, joined, MetadataOf(c));
    if |joined| == CHUNKS then
      Pushed(Drop(b, k), Some(FrameOf(k, joined)))
    else
      Pushed(b.(order := if k in b.pending then b.order else b.order + [k],
             pending := b.pending[k := Parts(joined, first)]), None)
  }

  function Push(a: Assembly, c: HostChunk): Pushed
    requires Valid(a) && c.chunkIndex < CHUNKS
  {
    var k := KeyOf(c);
    var room := MakeRoom(a, k);
    if k !in a.pending then Join(room, k, map[], c.chunkIndex, c)
    else
      var p := a.pending[k];
      if MetadataOf(c) != MetadataOf(p.chunks[p.first]) then
        Pushed(Drop(a, k).(inconsistent := a.inconsistent + 1), None)
      else Join(a, k, p.chunks, p.first, c)
  }

  lemma {:induction false} WithoutFacts(order: seq<Key>, k: Key)
    requires Distinct(order)
    ensures var w := Without(order, k);
            && Distinct(w) && (forall x :: x in w <==> x in order && x != k)
            && |w| == if k in order then |order| - 1 else |order|
  {
    if order != [] && order[0] != k {
      WithoutFacts(order[1..], k);
      var w := Without(order[1..], k);
      assert order == [order[0]] + order[1..];
      assert order[0] !in w;
      assert forall x :: x in order <==> x == order[0] || x in order[1..];
    } else if order != [] {
      assert order == [order[0]] + order[1..];
      assert forall x :: x in order <==> x == order[0] || x in order[1..];
    }
  }

  lemma DropKeepsValid(a: Assembly, k: Key)
    requires Valid(a) && k in a.pending
    ensures Valid(Drop(a, k)) && |Drop(a, k).order| == |a.order| - 1
  {
    WithoutFacts(a.order, k);
  }

  /** Every push keeps the assembler's bound and the agreement of its parts. */
  lemma PushKeepsValid(a: Assembly, c: HostChunk)
    requires Valid(a) && c.chunkIndex < CHUNKS
    ensures Valid(Push(a, c).state)
  {
    var k := KeyOf(c);
    var room := MakeRoom(a, k);
    if k !in a.pending {
      if |a.order| >= MAX_PENDING {
        DropKeepsValid(a, a.order[0]);
      }
      assert Valid(room) && k !in room.pending && |room.order| < MAX_PENDING;
      JoinKeepsValid(room, k, map[], c.chunkIndex, c);
    } else {
      var p := a.pending[k];
      if MetadataOf(c) != MetadataOf(p.chunks[p.first]) {
        DropKeepsValid(a, k);
      } else {
        JoinKeepsValid(a, k, p.chunks, p.first, c);
      }
    }
  }

  lemma JoinKeepsValid(a: Assembly, k: Key, p: map<nat, HostChunk>, first: nat, c: HostChunk)
    requires Valid(a) && Agreeing(k, p, MetadataOf(c)) && c.chunkIndex < CHUNKS && KeyOf(c) == k
    requires if k in a.pending then p == a.pending[k].chunks && first == a.pending[k].first
             else p == map[] && first == c.chunkIndex && |a.order| < MAX_PENDING
    ensures Valid(Join(a, k, p, first, c).state)
  {
    var joined := p[c.chunkIndex := c];
    JoinedAgrees(k, p, c);
    AllIndices(k, joined, MetadataOf(c));
    AddedPart(p, c.chunkIndex, c);
    hide Without;
    var b := if c.chunkIndex in p then a.(duplicates := a.duplicates + 1) else a;
    if |joined| == CHUNKS {
      hide Distinct, PartsOk;
      DropKeepsValid(b, k);
    } else {
      assert c.chunkIndex in joined;
      assert PartsOk(k, Parts(joined, first));
      hide PartsOk;
    }
  }

  function Sizes(order: seq<Key>, pending: map<Key, Parts>): nat {
    if order == [] then 0
    else (if order[0] in pending then |pending[order[0]].chunks| else 0) + Sizes(order[1..], pending)
  }

  /** Chunks held incomplete. */
  function Held(a: Assembly): nat {
    Sizes(a.order, a.pending)
  }

  /** Chunks a push throws away by evicting the oldest entry, and by finding an entry inconsistent. */
  function EvictedChunks(a: Assembly, c: HostChunk): nat {
    if KeyOf(c) !in a.pending && |a.order| >= MAX_PENDING && a.order[0] in a.pending
    then |a.pending[a.order[0]].chunks| else 0
  }

  function DiscardedChunks(a: Assembly, c: HostChunk): nat
    requires Valid(a) && c.chunkIndex < CHUNKS
  {
    if Push(a, c).state.inconsistent > a.inconsistent then |a.pending[KeyOf(c)].chunks| + 1 else 0
  }

  lemma {:induction false} SizesOfOthers(order: seq<Key>, p: map<Key, Parts>, q: map<Key, Parts>, k: Key)
    requires k !in order && forall x :: x in order ==> (x in p <==> x in q) && (x in p ==> p[x] == q[x])
    ensures Sizes(order, p) == Sizes(order, q)
  {
    if order != [] {
      SizesOfOthers(order[1..], p, q, k);
    }
  }

  lemma {:induction false} SizesWithout(order: seq<Key>, p: map<Key, Parts>, k: Key)
    requires Distinct(order) && k in order && k in p
    ensures Sizes(order, p) == Sizes(Without(order, k), p - {k}) + |p[k].chunks|
  {
    assert order == [order[0]] + order[1..];
    if order[0] == k {
      SizesOfOthers(order[1..], p, p - {k}, k);
    } else {
      SizesWithout(order[1..], p, k);
      assert ([order[0]] + Without(order[1..], k))[1..] == Without(order[1..], k);
    }
  }

  lemma {:induction false} SizesUpdated(order: seq<Key>, p: map<Key, Parts>, k: Key, v: Parts)
    requires Distinct(order) && k in order && k in p
    ensures Sizes(order, p[k := v]) + |p[k].chunks| == Sizes(order, p) + |v.chunks|
  {
    assert order == [order[0]] + order[1..];
    if order[0] == k {
      SizesOfOthers(order[1..], p, p[k := v], k);
    } else {
      SizesUpdated(order[1..], p, k, v);
    }
  }

  lemma {:induction false} SizesAppended(order: seq<Key>, p: map<Key, Parts>, k: Key, v: Parts)
    requires k !in order
    ensures Sizes(order + [k], p[k := v]) == Sizes(order, p) + |v.chunks|
  {
    if order == [] {
      assert ([] + [k])[1..] == [];
    } else {
      SizesAppended(order[1..], p, k, v);
      assert (order + [k])[1..] == order[1..] + [k];
    }
  }

  lemma DropReleases(a: Assembly, k: Key)
    requires Valid(a) && k in a.pending
    ensures Held(Drop(a, k)) + |a.pending[k].chunks| == Held(a)
  {
    SizesWithout(a.order, a.pending, k);
  }

  /** Making room evicts at most the oldest entry. */
  lemma RoomReleases(a: Assembly, c: HostChunk)
    requires Valid(a) && KeyOf(c) !in a.pending
    ensures var room := MakeRoom(a, KeyOf(c));
            && Valid(room) && KeyOf(c) !in room.pending && |room.order| < MAX_PENDING
            && Held(room) + EvictedChunks(a, c) == Held(a)
            && room.inconsistent == a.inconsistent && room.duplicates == a.duplicates
  {
    hide PartsOk, Without, Sizes, Distinct;
    if |a.order| >= MAX_PENDING {
      DropReleases(a, a.order[0]);
      DropKeepsValid(a, a.order[0]);
    }
  }

  lemma NewKeyConserves(a: Assembly, c: HostChunk)
    requires Valid(a) && c.chunkIndex < CHUNKS && KeyOf(c) !in a.pending
    ensures var r := Push(a, c);
            && r.state.inconsistent == a.inconsistent
            && Held(a) + 1 == Held(r.state) + (if r.frame.Some? then CHUNKS else 0)
                              + (r.state.duplicates - a.duplicates) + EvictedChunks(a, c)
  {
    PushByCases(a, c);
    hide Valid, Push, Join, Held, EvictedChunks, MakeRoom, Agreeing;
    RoomReleases(a, c);
    JoinConserves(MakeRoom(a, KeyOf(c)), KeyOf(c), map[], c.chunkIndex, c);
  }

  lemma HeldKeyConserves(a: Assembly, c: HostChunk)
    requires Valid(a) && c.chunkIndex < CHUNKS && KeyOf(c) in a.pending
    ensures var r := Push(a, c);
            Held(a) + 1 == Held(r.state) + (if r.frame.Some? then CHUNKS else 0)
            + (r.state.duplicates - a.duplicates)
            + if r.state.inconsistent > a.inconsistent then |a.pending[KeyOf(c)].chunks| + 1 else 0
  {
    PushByCases(a, c);
    hide Valid, Push, Join, MakeRoom, Agreeing, Sizes, MetadataOf;
    var k := KeyOf(c);
    var p := a.pending[k];
    if MetadataOf(c) != MetadataOf(p.chunks[p.first]) {
      DropReleases(a, k);
    } else {
      JoinConserves(a, k, p.chunks, p.first, c);
    }
  }

  /** Where every pushed chunk goes: it is held, or completes a frame of four, or replaces a duplicate,
      or is thrown away by an eviction or an inconsistency. */
  lemma PushConserves(a: Assembly, c: HostChunk)
    requires Valid(a) && c.chunkIndex < CHUNKS
    ensures var r := Push(a, c);
            Held(a) + 1
            == Held(r.state) + (if r.frame.Some? then CHUNKS else 0)
            + (r.state.duplicates - a.duplicates) + EvictedChunks(a, c) + DiscardedChunks(a, c)
  {
    hide Valid, Push, Held;
    if KeyOf(c) !in a.pending {
      NewKeyConserves(a, c);
    } else {
      HeldKeyConserves(a, c);
    }
  }

  lemma AddedPart(p: map<nat, HostChunk>, i: nat, c: HostChunk)
    ensures |p[i := c]| == |p| + if i in p then 0 else 1
  {
    assert p[i := c].Keys == p.Keys + {i};
  }

  lemma JoinConserves(a: Assembly, k: Key, p: map<nat, HostChunk>, first: nat, c: HostChunk)
    requires Valid(a) && Agreeing(k, p, MetadataOf(c)) && c.chunkIndex < CHUNKS && KeyOf(c) == k
    requires if k in a.pending then p == a.pending[k].chunks && first == a.pending[k].first
             else p == map[] && first == c.chunkIndex && |a.order| < MAX_PENDING
    ensures var r := Join(a, k, p, first, c);
            && r.state.inconsistent == a.inconsistent
            && Held(a) + 1 == Held(r.state) + (if r.frame.Some? then CHUNKS else 0)
                              + (r.state.duplicates - a.duplicates)
  {
    hide Sizes, Without, Agreeing, PartsOk;
    var joined := p[c.chunkIndex := c];
    AddedPart(p, c.chunkIndex, c);
    var b := if c.chunkIndex in p then a.(duplicates := a.duplicates + 1) else a;
    if |joined| == CHUNKS {
      DropReleases(b, k);
    } else if k in a.pending {
      SizesUpdated(a.order, a.pending, k, Parts(joined, first));
    } else {
      SizesAppended(a.order, a.pending, k, Parts(joined, first));
    }
  }

  /** A whole run: the final state and the frames emitted. */
  datatype Outcome = Outcome(state: Assembly, frames: seq<SpectrumFrame>, evicted: nat, discarded: nat)

  ghost predicate Indexed(cs: seq<HostChunk>) {
    forall i :: 0 <= i < |cs| ==> cs[i].chunkIndex < CHUNKS
  }

  function Run(cs: seq<HostChunk>): (r: Outcome)
    requires Indexed(cs)
    ensures Valid(r.state)
  {
    if cs == [] then Outcome(EMPTY, [], 0, 0)
    else
      var before, c := Run(cs[..|cs| - 1]), cs[|cs| - 1];
      var r := Push(before.state, c);
      PushKeepsValid(before.state, c);
      Outcome(r.state, before.frames + if r.frame.Some? then [r.frame.value] else [],
              before.evicted + EvictedChunks(before.state, c),
              before.discarded + DiscardedChunks(before.state, c))
  }

  /** Conservation over every run of pushes from an empty assembler. */
  lemma {:induction false} ChunksConserved(cs: seq<HostChunk>)
    requires Indexed(cs)
    ensures var r := Run(cs);
            |cs| == CHUNKS * |r.frames| + r.state.duplicates + r.evicted + r.discarded + Held(r.state)
  {
    if cs != [] {
      ChunksConserved(cs[..|cs| - 1]);
      hide Push, Held, EvictedChunks, DiscardedChunks;
      PushConserves(Run(cs[..|cs| - 1]).state, cs[|cs| - 1]);
    } else {
      assert Held(EMPTY) == 0;
    }
  }

  /** The object itself: two nested dicts, here one map with its insertion order. */
  class SpectrumAssembler {
    var order: seq<Key>
    var pending: map<Key, Parts>
    var incompleteEvictions: nat
    var duplicateChunks: nat
    var inconsistentChunks: nat

    ghost function State(): Assembly
      reads this
    {
      Assembly(order, pending, incompleteEvictions, duplicateChunks, inconsistentChunks)
    }

    constructor ()
      ensures State() == EMPTY
    {
      order, pending := [], map[];
      incompleteEvictions, duplicateChunks, inconsistentChunks := 0, 0, 0;
    }

    method Delete(k: Key)
      modifies this`order, this`pending
      ensures State() == Drop(old(State()), k)
    {
      order, pending := Without(order, k), pending - {k};
    }

    /** setdefault, after the eviction it may need. */
    method MakeRoomFor(key: Key)
      requires Valid(State())
      modifies this
      ensures State() == MakeRoom(old(State()), key)
    {
      if key !in pending && |order| >= MAX_PENDING {
        var oldest := order[0];
        Delete(oldest);
        incompleteEvictions := incompleteEvictions + 1;
      }
    }

    /** `parts[c.chunk_index] = c`, and the frame if that completes the entry. */
    method Store(key: Key, parts: Parts, c: HostChunk) returns (frame: Option<SpectrumFrame>)
      requires Agreeing(key, parts.chunks, MetadataOf(c)) && c.chunkIndex < CHUNKS && key == KeyOf(c)
      modifies this
      ensures Pushed(State(), frame) == Join(old(State()), key, parts.chunks, parts.first, c)
    {
      hide Without, Agreeing;
      var joined := parts.chunks[c.chunkIndex := c];
      JoinedAgrees(key, parts.chunks, c);
      AllIndices(key, joined, MetadataOf(c));
      if c.chunkIndex in parts.chunks {
        duplicateChunks := duplicateChunks + 1;
      }
      if |joined| != CHUNKS {
        if key !in pending {
          order := order + [key];
        }
        pending := pending[key := parts.(chunks := joined)];
        return None;
      }
      Delete(key);
      return Some(FrameOf(key, joined));
    }

    method PushChunk(c: HostChunk) returns (frame: Option<SpectrumFrame>)
      requires Valid(State()) && c.chunkIndex < CHUNKS
      modifies this
      ensures Valid(State()) && Pushed(State(), frame) == Push(old(State()), c)
    {
      hide Without, Join, Push, Valid, PartsOk, Agreeing, MakeRoom, MetadataOf;
      PushKeepsValid(State(), c);
      PushByCases(State(), c);
      var key := KeyOf(c);
      MakeRoomFor(key);
      var parts := Parts(map[], c.chunkIndex);
      if key in pending {
        parts := pending[key];
        if MetadataOf(c) != MetadataOf(parts.chunks[parts.first]) {
          Delete(key);
          inconsistentChunks := inconsistentChunks + 1;
          return None;
        }
      }
      frame := Store(key, parts, c);
    }
  }

  /** A push by the three cases of its key: new, held with other metadata, held and agreeing. */
  lemma PushByCases(a: Assembly, c: HostChunk)
    requires Valid(a) && c.chunkIndex < CHUNKS
    ensures var k, r := KeyOf(c), Push(a, c);
            if k !in a.pending then
              var p: map<nat, HostChunk> := map[];
              && k !in MakeRoom(a, k).pending && Agreeing(k, p, MetadataOf(c))
              && r == Join(MakeRoom(a, k), k, p, c.chunkIndex, c)
            else
              var p := a.pending[k];
              && MakeRoom(a, k) == a && p.first in p.chunks
              && if MetadataOf(c) != MetadataOf(p.chunks[p.first])
                 then r == Pushed(Drop(a, k).(inconsistent := a.inconsistent + 1), None)
                 else Agreeing(k, p.chunks, MetadataOf(c)) && r == Join(a, k, p.chunks, p.first, c)
  {
    hide Without, Join;
  }

  lemma JoinedAgrees(k: Key, p: map<nat, HostChunk>, c: HostChunk)
    requires Agreeing(k, p, MetadataOf(c)) && c.chunkIndex < CHUNKS && k == KeyOf(c)
    ensures Agreeing(k, p[c.chunkIndex := c], MetadataOf(c))
  {
  }
}
