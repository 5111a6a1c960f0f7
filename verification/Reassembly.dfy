/** What whole runs of the assembler emit. */
module Reassembly {
  import opened Format
  import opened Assembler

  /** The chunks of one key, in order of arrival. */
  function OfKey(cs: seq<HostChunk>, k: Key): seq<HostChunk> {
    if cs == [] then []
    else OfKey(cs[..|cs| - 1], k) + if KeyOf(cs[|cs| - 1]) == k then [cs[|cs| - 1]] else []
  }

  /** The other keys that arrive among them. */
  function OtherKeys(cs: seq<HostChunk>, k: Key): set<Key> {
    if cs == [] then {}
    else OtherKeys(cs[..|cs| - 1], k) + if KeyOf(cs[|cs| - 1]) == k then {} else {KeyOf(cs[|cs| - 1])}
  }

  function FramesOf(frames: seq<SpectrumFrame>, k: Key): seq<SpectrumFrame> {
    if frames == [] then []
    else FramesOf(frames[..|frames| - 1], k)
         + if frames[|frames| - 1].key == k then [frames[|frames| - 1]] else []
  }

  function ByIndex(ks: seq<HostChunk>): map<nat, HostChunk> {
    if ks == [] then map[] else ByIndex(ks[..|ks| - 1])[ks[|ks| - 1].chunkIndex := ks[|ks| - 1]]
  }

  /** Chunks of one key with different indices and the same metadata. */
  ghost predicate Matching(ks: seq<HostChunk>, k: Key) {
    && (forall i :: 0 <= i < |ks| ==>
                      ks[i].chunkIndex < CHUNKS && KeyOf(ks[i]) == k && MetadataOf(ks[i]) == MetadataOf(ks[0]))
    && (forall i, j :: 0 <= i < j < |ks| ==> ks[i].chunkIndex != ks[j].chunkIndex)
  }

  /** The keys inserted after k. */
  function Newer(order: seq<Key>, k: Key): set<Key> {
    if order == [] then {}
    else if order[0] == k then set x | x in order[1..]
    else Newer(order[1..], k)
  }

  lemma {:induction false} NewerWithout(order: seq<Key>, x: Key, k: Key)
    requires x != k
    ensures Newer(Without(order, x), k) <= Newer(order, k)
  {
    if order != [] {
      var w := Without(order[1..], x);
      if order[0] == k {
        assert ([k] + w)[1..] == w;
        WithoutMembers(order[1..], x);
      } else if order[0] == x {
      } else {
        NewerWithout(order[1..], x, k);
        assert ([order[0]] + w)[1..] == w;
      }
    }
  }

  lemma {:induction false} WithoutMembers(order: seq<Key>, x: Key)
    ensures forall y :: y in Without(order, x) ==> y in order
  {
    if order != [] && order[0] != x {
      WithoutMembers(order[1..], x);
    }
  }

  lemma {:induction false} NewerAppended(order: seq<Key>, c: Key, k: Key)
    ensures c != k ==> Newer(order + [c], k) <= Newer(order, k) + {c}
    ensures c == k && k !in order ==> Newer(order + [c], k) == {}
  {
    if order == [] {
      assert ([] + [c])[1..] == [];
    } else {
      NewerAppended(order[1..], c, k);
      assert (order + [c])[1..] == order[1..] + [c];
    }
  }

  lemma {:induction false} DistinctSize(order: seq<Key>)
    requires Distinct(order)
    ensures |set x | x in order| == |order|
  {
    if order != [] {
      DistinctSize(order[1..]);
      assert order == [order[0]] + order[1..];
      assert (set x | x in order) == (set x | x in order[1..]) + {order[0]};
    }
  }

  /** An entry is only evicted when sixteen keys newer than it want to be held. */
  lemma OldestHasFifteenNewer(a: Assembly, k: Key)
    requires Assembler.Valid(a) && |a.order| == MAX_PENDING && a.order[0] == k
    ensures |Newer(a.order, k)| == MAX_PENDING - 1
    ensures forall x :: x in Newer(a.order, k) ==> x in a.pending
  {
    DistinctSize(a.order[1..]);
  }

  /** How the entry of k stands after some chunks ks of it have arrived since it was last absent. */
  ghost predicate Stands(a: Assembly, k: Key, ks: seq<HostChunk>, others: set<Key>) {
    if 1 <= |ks| <= 3 then
      && k in a.pending && a.pending[k].chunks == ByIndex(ks) && a.pending[k].first == ks[0].chunkIndex
      && Newer(a.order, k) <= others
    else k !in a.pending
  }

  lemma {:induction false} ByIndexKeys(ks: seq<HostChunk>)
    ensures forall i :: 0 <= i < |ks| ==> ks[i].chunkIndex in ByIndex(ks)
    ensures forall x :: x in ByIndex(ks) ==> ByIndex(ks)[x] in ks && ByIndex(ks)[x].chunkIndex == x
  {
    if ks != [] {
      var rest := ks[..|ks| - 1];
      ByIndexKeys(rest);
      assert forall i :: 0 <= i < |rest| ==> rest[i] == ks[i];
      assert forall c :: c in rest ==> c in ks;
    }
  }

  lemma ByIndexAgrees(ks: seq<HostChunk>, k: Key)
    requires Matching(ks, k) && ks != []
    ensures Agreeing(k, ByIndex(ks), MetadataOf(ks[0]))
  {
    ByIndexKeys(ks);
    forall x | x in ByIndex(ks)
      ensures x < CHUNKS && KeyOf(ByIndex(ks)[x]) == k && MetadataOf(ByIndex(ks)[x]) == MetadataOf(ks[0])
    {
      var i :| 0 <= i < |ks| && ks[i] == ByIndex(ks)[x];
    }
  }

  lemma {:induction false} ByIndexSize(ks: seq<HostChunk>, k: Key)
    requires Matching(ks, k)
    ensures |ByIndex(ks)| == |ks|
  {
    if ks != [] {
      var rest, last := ks[..|ks| - 1], ks[|ks| - 1];
      ByIndexSize(rest, k);
      ByIndexKeys(rest);
      AddedPart(ByIndex(rest), last.chunkIndex, last);
      assert forall c :: c in rest ==> c.chunkIndex != last.chunkIndex;
      assert last.chunkIndex !in ByIndex(rest);
    }
  }

  lemma ByIndexAppend(ks: seq<HostChunk>, c: HostChunk)
    ensures ByIndex(ks + [c]) == ByIndex(ks)[c.chunkIndex := c]
  {
    assert (ks + [c])[..|ks + [c]| - 1] == ks;
  }

  /** A push for key x leaves every other entry as it was and puts at most x behind it, unless it evicts
      the oldest. */
  ghost predicate Untouched(a: Assembly, b: Assembly, x: Key, k: Key) {
    && (k in b.pending <==> k in a.pending)
    && (k in a.pending ==> b.pending[k] == a.pending[k])
    && Newer(b.order, k) <= Newer(a.order, k) + {x}
  }

  lemma DropUntouched(a: Assembly, x: Key, k: Key)
    requires x != k
    ensures Untouched(a, Drop(a, x), x, k) && Newer(Drop(a, x).order, k) <= Newer(a.order, k)
  {
    NewerWithout(a.order, x, k);
  }

  lemma JoinUntouched(a: Assembly, x: Key, p: map<nat, HostChunk>, first: nat, c: HostChunk, k: Key)
    requires Agreeing(x, p, MetadataOf(c)) && c.chunkIndex < CHUNKS && KeyOf(c) == x && x != k
    ensures Untouched(a, Join(a, x, p, first, c).state, x, k)
    ensures Join(a, x, p, first, c).frame.Some? ==> Join(a, x, p, first, c).frame.value.key == x
  {
    hide Newer, Without, Agreeing;
    DropUntouched(a, x, k);
    NewerAppended(a.order, x, k);
  }

  lemma PushUntouched(a: Assembly, c: HostChunk, k: Key)
    requires Assembler.Valid(a) && c.chunkIndex < CHUNKS && KeyOf(c) != k
    requires !(KeyOf(c) !in a.pending && |a.order| >= MAX_PENDING && a.order[0] == k)
    ensures Untouched(a, Push(a, c).state, KeyOf(c), k)
    ensures Push(a, c).frame.Some? ==> Push(a, c).frame.value.key == KeyOf(c)
  {
    var x := KeyOf(c);
    if x !in a.pending {
      if |a.order| >= MAX_PENDING {
        DropUntouched(a, a.order[0], k);
      }
      hide Join, Newer;
      JoinUntouched(MakeRoom(a, x), x, map[], c.chunkIndex, c, k);
    } else {
      var p := a.pending[x];
      hide Join, Newer;
      if MetadataOf(c) != MetadataOf(p.chunks[p.first]) {
        DropUntouched(a, x, k);
      } else {
        JoinUntouched(a, x, p.chunks, p.first, c, k);
      }
    }
  }

  lemma FrameHasPushedKey(a: Assembly, c: HostChunk)
    requires Assembler.Valid(a) && c.chunkIndex < CHUNKS
    ensures Push(a, c).frame.Some? ==> Push(a, c).frame.value.key == KeyOf(c)
  {
  }

  lemma OtherKeyPushed(a: Assembly, c: HostChunk, k: Key, ks: seq<HostChunk>, others: set<Key>)
    requires Assembler.Valid(a) && c.chunkIndex < CHUNKS && KeyOf(c) != k
    requires Stands(a, k, ks, others) && |others + {KeyOf(c)}| < MAX_PENDING
    ensures Stands(Push(a, c).state, k, ks, others + {KeyOf(c)})
  {
    var x := KeyOf(c);
    if x !in a.pending && |a.order| >= MAX_PENDING && a.order[0] == k {
      assert k in a.pending;
      OldestHasFifteenNewer(a, k);
      SubsetSize(Newer(a.order, k) + {x}, others + {x});
    } else {
      hide Push, Newer;
      PushUntouched(a, c, k);
    }
  }

  /** What is known of the parts of k once c has joined ks. */
  lemma JoinedParts(c: HostChunk, ks: seq<HostChunk>)
    requires |ks| <= 3 && Matching(ks + [c], KeyOf(c))
    ensures var joined := ByIndex(ks)[c.chunkIndex := c];
            && ByIndex(ks + [c]) == joined && |joined| == |ks| + 1
            && (|ks| == 3 ==> 0 in joined && 1 in joined && 2 in joined && 3 in joined)
    ensures Agreeing(KeyOf(c), ByIndex(ks), MetadataOf(c))
    ensures ks != [] ==>
              ks[0].chunkIndex in ByIndex(ks) && MetadataOf(ByIndex(ks)[ks[0].chunkIndex]) == MetadataOf(c)
  {
    var k, all := KeyOf(c), ks + [c];
    assert forall i :: 0 <= i < |ks| ==> all[i] == ks[i];
    assert MetadataOf(all[|ks|]) == MetadataOf(all[0]);
    ByIndexAppend(ks, c);
    ByIndexSize(all, k);
    ByIndexAgrees(all, k);
    AllIndices(k, ByIndex(all), MetadataOf(c));
    ByIndexKeys(ks);
    if ks != [] {
      ByIndexAgrees(ks, k);
    } else {
      NoChunks(ks);
    }
  }

  lemma FirstChunkJoins(a: Assembly, k: Key, c: HostChunk)
    requires c.chunkIndex < CHUNKS && k == KeyOf(c) && k !in a.pending
    ensures var p: map<nat, HostChunk> := map[];
            && Agreeing(k, p, MetadataOf(c))
            && Join(a, k, p, c.chunkIndex, c)
               == Pushed(a.(order := a.order + [k],
                         pending := a.pending[k := Parts(map[c.chunkIndex := c], c.chunkIndex)]), None)
  {
    AddedPart(map[], c.chunkIndex, c);
  }

  lemma FirstChunkPushed(a: Assembly, c: HostChunk, others: set<Key>)
    requires Assembler.Valid(a) && c.chunkIndex < CHUNKS && KeyOf(c) !in a.pending
    ensures Stands(Push(a, c).state, KeyOf(c), [c], others) && Push(a, c).frame == None
  {
    var k := KeyOf(c);
    var room := MakeRoom(a, k);
    var none: seq<HostChunk> := [];
    assert none + [c] == [c];
    ByIndexAppend(none, c);
    NoChunks(none);
    if |a.order| >= MAX_PENDING {
      DropKeepsValid(a, a.order[0]);
    }
    hide ByIndex, Newer, Without, PartsOk, Join, MakeRoom;
    FirstChunkJoins(room, k, c);
    NewerAppended(room.order, k, k);
  }

  lemma LaterChunkPushed(a: Assembly, c: HostChunk, ks: seq<HostChunk>, others: set<Key>)
    requires Assembler.Valid(a) && c.chunkIndex < CHUNKS && Stands(a, KeyOf(c), ks, others)
    requires 1 <= |ks| <= 3 && Matching(ks + [c], KeyOf(c))
    ensures Stands(Push(a, c).state, KeyOf(c), ks + [c], others)
    ensures |ks| < 3 ==> Push(a, c).frame == None
    ensures |ks| == 3 ==>
              var joined := ByIndex(ks + [c]);
              && 0 in joined && 1 in joined && 2 in joined && 3 in joined
              && Push(a, c).frame == Some(FrameOf(KeyOf(c), joined))
  {
    JoinedParts(c, ks);
    hide ByIndex, Newer, Without, Matching, Agreeing, PartsOk, FrameOf;
    var k, p := KeyOf(c), ByIndex(ks);
    assert (ks + [c])[0] == ks[0];
    assert Push(a, c) == Join(a, k, p, ks[0].chunkIndex, c);
  }

  lemma NoChunks(ks: seq<HostChunk>)
    requires ks == []
    ensures ByIndex(ks) == map[]
  {
  }

  lemma RunAppend(cs: seq<HostChunk>, c: HostChunk)
    requires Indexed(cs) && c.chunkIndex < CHUNKS
    ensures var before, r := Run(cs), Push(Run(cs).state, c);
            && Run(cs + [c]).state == r.state
            && Run(cs + [c]).frames == Extended(before.frames, r.frame)
  {
    assert (cs + [c])[..|cs + [c]| - 1] == cs;
  }

  lemma KeyAppend(cs: seq<HostChunk>, c: HostChunk, k: Key)
    ensures OfKey(cs + [c], k) == OfKey(cs, k) + if KeyOf(c) == k then [c] else []
    ensures OtherKeys(cs + [c], k) == OtherKeys(cs, k) + if KeyOf(c) == k then {} else {KeyOf(c)}
  {
    assert (cs + [c])[..|cs + [c]| - 1] == cs;
  }

  lemma FramesAppend(frames: seq<SpectrumFrame>, f: SpectrumFrame, k: Key)
    ensures FramesOf(frames + [f], k) == FramesOf(frames, k) + if f.key == k then [f] else []
  {
    assert (frames + [f])[..|frames + [f]| - 1] == frames;
  }

  lemma MatchingPrefix(ks: seq<HostChunk>, c: HostChunk, k: Key)
    requires Matching(ks + [c], k)
    ensures Matching(ks, k)
  {
    var all := ks + [c];
    forall i | 0 <= i < |ks|
      ensures ks[i] == all[i]
    {
    }
  }

  /** The frame of key k that a run has emitted since its entry was last absent. */
  ghost predicate Emitted(frames: seq<SpectrumFrame>, before: seq<SpectrumFrame>, k: Key, ks: seq<HostChunk>) {
    if |ks| == CHUNKS then
      && 0 in ByIndex(ks) && 1 in ByIndex(ks) && 2 in ByIndex(ks) && 3 in ByIndex(ks)
      && FramesOf(frames, k) == FramesOf(before, k) + [FrameOf(k, ByIndex(ks))]
    else FramesOf(frames, k) == FramesOf(before, k)
  }

  function Extended(frames: seq<SpectrumFrame>, frame: Option<SpectrumFrame>): seq<SpectrumFrame> {
    frames + if frame.Some? then [frame.value] else []
  }

  lemma StepOther(r: Outcome, before: seq<SpectrumFrame>, c: HostChunk, k: Key, ks: seq<HostChunk>, others: set<Key>)
    requires Assembler.Valid(r.state) && c.chunkIndex < CHUNKS && KeyOf(c) != k
    requires Stands(r.state, k, ks, others) && Emitted(r.frames, before, k, ks)
    requires |others + {KeyOf(c)}| < MAX_PENDING
    ensures Stands(Push(r.state, c).state, k, ks, others + {KeyOf(c)})
    ensures Emitted(Extended(r.frames, Push(r.state, c).frame), before, k, ks)
  {
    hide Push, Newer, ByIndex, Stands;
    OtherKeyPushed(r.state, c, k, ks, others);
    FrameHasPushedKey(r.state, c);
    if Push(r.state, c).frame.Some? {
      FramesAppend(r.frames, Push(r.state, c).frame.value, k);
    } else {
      assert r.frames + [] == r.frames;
    }
  }

  lemma StepSame(r: Outcome, before: seq<SpectrumFrame>, c: HostChunk, ks: seq<HostChunk>, others: set<Key>)
    requires Assembler.Valid(r.state) && c.chunkIndex < CHUNKS
    requires Stands(r.state, KeyOf(c), ks, others) && Emitted(r.frames, before, KeyOf(c), ks)
    requires Matching(ks + [c], KeyOf(c)) && |ks + [c]| <= CHUNKS
    ensures Stands(Push(r.state, c).state, KeyOf(c), ks + [c], others)
    ensures Emitted(Extended(r.frames, Push(r.state, c).frame), before, KeyOf(c), ks + [c])
  {
    hide Push, Newer, ByIndex, Matching;
    if ks == [] {
      assert ks + [c] == [c];
      FirstChunkPushed(r.state, c, others);
    } else {
      LaterChunkPushed(r.state, c, ks, others);
    }
    if Push(r.state, c).frame.Some? {
      FramesAppend(r.frames, Push(r.state, c).frame.value, KeyOf(c));
    } else {
      assert r.frames + [] == r.frames;
    }
  }

  /** The conditions under which the entry of k can be followed through a run. */
  ghost predicate Followable(mid: seq<HostChunk>, k: Key) {
    && Indexed(mid) && Matching(OfKey(mid, k), k) && |OfKey(mid, k)| <= CHUNKS
    && |OtherKeys(mid, k)| < MAX_PENDING
  }

  lemma FollowableBefore(rest: seq<HostChunk>, c: HostChunk, k: Key)
    requires Followable(rest + [c], k)
    ensures Indexed(rest) && Followable(rest, k) && c.chunkIndex < CHUNKS
  {
    KeyAppend(rest, c, k);
    var all := rest + [c];
    assert all[|rest|] == c;
    assert forall i :: 0 <= i < |rest| ==> all[i] == rest[i];
    SubsetSize(OtherKeys(rest, k), OtherKeys(all, k));
    if KeyOf(c) == k {
      MatchingPrefix(OfKey(rest, k), c, k);
    } else {
      assert OfKey(all, k) == OfKey(rest, k);
    }
  }

  lemma StepCompletes(r: Outcome, before: seq<SpectrumFrame>, rest: seq<HostChunk>, c: HostChunk, k: Key)
    requires Assembler.Valid(r.state) && Followable(rest + [c], k) && c.chunkIndex < CHUNKS
    requires Stands(r.state, k, OfKey(rest, k), OtherKeys(rest, k))
    requires Emitted(r.frames, before, k, OfKey(rest, k))
    ensures Stands(Push(r.state, c).state, k, OfKey(rest + [c], k), OtherKeys(rest + [c], k))
    ensures Emitted(Extended(r.frames, Push(r.state, c).frame), before, k, OfKey(rest + [c], k))
  {
    hide Push, Newer, ByIndex, Matching, OfKey, OtherKeys, Stands, Emitted;
    var ks, others := OfKey(rest, k), OtherKeys(rest, k);
    KeyAppend(rest, c, k);
    if KeyOf(c) == k {
      assert others + {} == others;
      StepSame(r, before, c, ks, others);
    } else {
      assert ks + [] == ks;
      StepOther(r, before, c, k, ks, others);
    }
  }

  /** After `pre` the entry of k was absent; this is how it stands after `mid` too. */
  ghost predicate Followed(pre: seq<HostChunk>, mid: seq<HostChunk>, k: Key)
    requires Indexed(pre) && Indexed(mid)
  {
    var r := Run(pre + mid);
    && Stands(r.state, k, OfKey(mid, k), OtherKeys(mid, k))
    && Emitted(r.frames, Run(pre).frames, k, OfKey(mid, k))
  }

  lemma NothingFollowed(pre: seq<HostChunk>, mid: seq<HostChunk>, k: Key)
    requires mid == [] && Indexed(pre) && k !in Run(pre).state.pending
    ensures Indexed(mid) && Followed(pre, mid, k)
  {
    hide Run;
    assert pre + mid == pre;
  }

  lemma FollowedStep(pre: seq<HostChunk>, rest: seq<HostChunk>, c: HostChunk, k: Key)
    requires Indexed(pre) && Indexed(rest) && c.chunkIndex < CHUNKS
    requires Followable(rest + [c], k) && Followed(pre, rest, k)
    ensures Followed(pre, rest + [c], k)
  {
    hide Push, Run, Followable, OfKey, OtherKeys, Stands, Emitted;
    assert pre + rest + [c] == pre + (rest + [c]);
    RunAppend(pre + rest, c);
    StepCompletes(Run(pre + rest), Run(pre).frames, rest, c, k);
  }

  /** Whatever the order in which a key's chunks arrive, and whatever arrives between them, the key's
      frame comes out once, with the chunks in index order, as soon as the fourth has arrived; fewer
      than sixteen other keys must arrive meanwhile. */
  lemma {:induction false} CompletesOnce(pre: seq<HostChunk>, mid: seq<HostChunk>, k: Key)
    requires Indexed(pre) && Indexed(mid) && Followable(mid, k)
    requires k !in Run(pre).state.pending
    ensures Followed(pre, mid, k)
    decreases |mid|
  {
    hide Run, OfKey, OtherKeys, Followed, Followable;
    if mid == [] {
      NothingFollowed(pre, mid, k);
    } else {
      var rest, c := mid[..|mid| - 1], mid[|mid| - 1];
      assert mid == rest + [c];
      FollowableBefore(rest, c, k);
      CompletesOnce(pre, rest, k);
      FollowedStep(pre, rest, c, k);
    }
  }

  /** Four agreeing chunks that were pushed, joined in index order. */
  ghost predicate Whole(f: SpectrumFrame, cs: seq<HostChunk>) {
    exists p: map<nat, HostChunk> ::
      && Agreeing(f.key, p, f.metadata) && |p| == CHUNKS
      && (forall i :: i in p ==> p[i] in cs)
      && 0 in p && 1 in p && 2 in p && 3 in p && f == FrameOf(f.key, p)
  }

  /** Every chunk held was pushed. */
  ghost predicate HoldsOnly(pending: map<Key, Parts>, cs: seq<HostChunk>) {
    forall k, i :: k in pending && i in pending[k].chunks ==> pending[k].chunks[i] in cs
  }

  lemma JoinedFrameIsWhole(a: Assembly, k: Key, p: map<nat, HostChunk>, first: nat, c: HostChunk, cs: seq<HostChunk>)
    requires Agreeing(k, p, MetadataOf(c)) && c.chunkIndex < CHUNKS && KeyOf(c) == k && c in cs
    requires HoldsOnly(a.pending, cs) && forall i :: i in p ==> p[i] in cs
    ensures var r := Join(a, k, p, first, c);
            (r.frame.Some? ==> Whole(r.frame.value, cs)) && HoldsOnly(r.state.pending, cs)
  {
    hide Without, MetadataOf;
    var joined := p[c.chunkIndex := c];
    JoinedAgrees(k, p, c);
    hide Agreeing;
    AllIndices(k, joined, MetadataOf(c));
    if |joined| == CHUNKS {
      FrameMetadata(k, joined, c);
    }
  }

  lemma FrameMetadata(k: Key, p: map<nat, HostChunk>, c: HostChunk)
    requires Agreeing(k, p, MetadataOf(c)) && 0 in p && 1 in p && 2 in p && 3 in p
    ensures FrameOf(k, p).key == k && FrameOf(k, p).metadata == MetadataOf(c)
  {
  }

  lemma PushBuildsFrames(a: Assembly, c: HostChunk, cs: seq<HostChunk>)
    requires Assembler.Valid(a) && c.chunkIndex < CHUNKS && c in cs && HoldsOnly(a.pending, cs)
    ensures var r := Push(a, c);
            (r.frame.Some? ==> Whole(r.frame.value, cs)) && HoldsOnly(r.state.pending, cs)
  {
    PushByCases(a, c);
    var k := KeyOf(c);
    hide Push, Assembler.Valid, Without, Agreeing, Whole, Join, MetadataOf;
    if k !in a.pending {
      JoinedFrameIsWhole(MakeRoom(a, k), k, map[], c.chunkIndex, c, cs);
    } else if MetadataOf(c) == MetadataOf(a.pending[k].chunks[a.pending[k].first]) {
      JoinedFrameIsWhole(a, k, a.pending[k].chunks, a.pending[k].first, c, cs);
    }
  }

  /** In every run, each emitted frame is four pushed chunks of one result and channel. */
  lemma {:induction false} FramesAreWhole(cs: seq<HostChunk>)
    requires Indexed(cs)
    ensures forall f :: f in Run(cs).frames ==> Whole(f, cs)
    ensures forall k, i :: k in Run(cs).state.pending && i in Run(cs).state.pending[k].chunks ==>
                             Run(cs).state.pending[k].chunks[i] in cs
  {
    if cs != [] {
      var rest, c := cs[..|cs| - 1], cs[|cs| - 1];
      FramesAreWhole(rest);
      assert cs == rest + [c];
      assert forall x :: x in rest ==> x in cs;
      hide Push;
      forall f | f in Run(rest).frames
        ensures Whole(f, cs)
      {
        assert Whole(f, rest);
      }
      PushBuildsFrames(Run(rest).state, c, cs);
    }
  }

  /** A push that evicts: a new key finds sixteen pending. One that discards: its key is held, with other
      metadata. One that replaces: its key and index are held, with the same metadata. */
  predicate Evicts(a: Assembly, c: HostChunk) {
    KeyOf(c) !in a.pending && |a.order| >= 16
  }

  predicate Discards(a: Assembly, c: HostChunk) {
    && KeyOf(c) in a.pending && a.pending[KeyOf(c)].first in a.pending[KeyOf(c)].chunks
    && MetadataOf(c) != MetadataOf(a.pending[KeyOf(c)].chunks[a.pending[KeyOf(c)].first])
  }

  predicate Replaces(a: Assembly, c: HostChunk) {
    KeyOf(c) in a.pending && c.chunkIndex in a.pending[KeyOf(c)].chunks && !Discards(a, c)
  }

  /** How many pushes of a run did each. */
  datatype Deeds = Deeds(evicting: nat, discarding: nat, replacing: nat)

  function DeedsOf(cs: seq<HostChunk>): Deeds
    requires Indexed(cs)
  {
    if cs == [] then Deeds(0, 0, 0)
    else
      var a, c := Run(cs[..|cs| - 1]).state, cs[|cs| - 1];
      var d := DeedsOf(cs[..|cs| - 1]);
      Deeds(d.evicting + if Evicts(a, c) then 1 else 0,
            d.discarding + if Discards(a, c) then 1 else 0,
            d.replacing + if Replaces(a, c) then 1 else 0)
  }

  /** One push adds to each counter exactly if it does that, and then throws away one to three chunks, or
      two to four with its own. */
  lemma PushCounts(a: Assembly, c: HostChunk)
    requires Assembler.Valid(a) && c.chunkIndex < CHUNKS
    ensures var s := Push(a, c).state;
            && s.evictions == a.evictions + (if Evicts(a, c) then 1 else 0)
            && s.inconsistent == a.inconsistent + (if Discards(a, c) then 1 else 0)
            && s.duplicates == a.duplicates + (if Replaces(a, c) then 1 else 0)
            && (if Evicts(a, c) then 1 <= EvictedChunks(a, c) <= 3 else EvictedChunks(a, c) == 0)
            && (if Discards(a, c) then 2 <= DiscardedChunks(a, c) <= 4 else DiscardedChunks(a, c) == 0)
  {
    PushByCases(a, c);
    PendingSizes(a, KeyOf(c));
    if |a.order| >= 16 {
      PendingSizes(a, a.order[0]);
    }
    hide Push, Without, Agreeing, FrameOf, MetadataOf, PartsOk, Distinct;
  }

  lemma PendingSizes(a: Assembly, k: Key)
    requires Assembler.Valid(a)
    ensures k in a.pending ==> 1 <= |a.pending[k].chunks| <= 3 && a.pending[k].first in a.pending[k].chunks
    ensures k in a.order ==> k in a.pending
  {
  }

  ghost predicate CountersAgree(r: Outcome, d: Deeds) {
    && r.state.evictions == d.evicting && r.state.inconsistent == d.discarding
    && r.state.duplicates == d.replacing
    && d.evicting <= r.evicted <= 3 * d.evicting && 2 * d.discarding <= r.discarded <= 4 * d.discarding
  }

  /** Over every run the three counters are the pushes that evicted, that discarded and that replaced; each
      eviction lost one to three chunks, each inconsistency two to four. */
  lemma {:induction false} CountersCount(cs: seq<HostChunk>)
    requires Indexed(cs)
    ensures CountersAgree(Run(cs), DeedsOf(cs))
  {
    if cs != [] {
      CountersCount(cs[..|cs| - 1]);
      hide Push, Evicts, Discards, Replaces, EvictedChunks, DiscardedChunks, Assembler.Valid;
      PushCounts(Run(cs[..|cs| - 1]).state, cs[|cs| - 1]);
    }
  }

  /** The last pushed chunk of a key and index. */
  function Latest(cs: seq<HostChunk>, k: Key, i: nat): Option<HostChunk> {
    if cs == [] then None
    else
      var c := cs[|cs| - 1];
      if KeyOf(c) == k && c.chunkIndex == i then Some(c) else Latest(cs[..|cs| - 1], k, i)
  }

  lemma LatestAppend(cs: seq<HostChunk>, c: HostChunk)
    ensures forall k, i :: Latest(cs + [c], k, i)
                           == if KeyOf(c) == k && c.chunkIndex == i then Some(c) else Latest(cs, k, i)
  {
    assert (cs + [c])[..|cs + [c]| - 1] == cs;
  }

  /** Every chunk held is the latest of its key and index. */
  ghost predicate HoldsLatest(pending: map<Key, Parts>, cs: seq<HostChunk>) {
    forall k, i :: k in pending && i in pending[k].chunks ==> Latest(cs, k, i) == Some(pending[k].chunks[i])
  }

  /** A frame made of the latest chunks of its key. */
  ghost predicate OfLatest(f: SpectrumFrame, cs: seq<HostChunk>) {
    exists p: map<nat, HostChunk> ::
      && 0 in p && 1 in p && 2 in p && 3 in p && f == FrameOf(f.key, p)
      && forall i: nat :: i < CHUNKS ==> Latest(cs, f.key, i) == Some(p[i])
  }

  ghost predicate AreLatest(p: map<nat, HostChunk>, k: Key, cs: seq<HostChunk>) {
    forall i :: i in p ==> Latest(cs, k, i) == Some(p[i])
  }

  lemma JoinedAreLatest(p: map<nat, HostChunk>, k: Key, c: HostChunk, cs: seq<HostChunk>)
    requires AreLatest(p, k, cs) && KeyOf(c) == k
    ensures AreLatest(p[c.chunkIndex := c], k, cs + [c])
  {
    LatestAppend(cs, c);
    hide Latest;
  }

  lemma OthersStayLatest(pending: map<Key, Parts>, k: Key, c: HostChunk, cs: seq<HostChunk>)
    requires HoldsLatest(pending, cs) && KeyOf(c) == k
    ensures HoldsLatest(pending - {k}, cs + [c])
  {
    LatestAppend(cs, c);
    hide Latest;
  }

  lemma UpdatedAreLatest(pending: map<Key, Parts>, k: Key, parts: Parts, cs: seq<HostChunk>)
    requires HoldsLatest(pending - {k}, cs) && AreLatest(parts.chunks, k, cs)
    ensures HoldsLatest(pending[k := parts], cs)
  {
    hide Latest;
    forall j, i | j in pending[k := parts] && i in pending[k := parts][j].chunks
      ensures Latest(cs, j, i) == Some(pending[k := parts][j].chunks[i])
    {
      if j != k {
        assert j in pending - {k} && (pending - {k})[j] == pending[j];
      }
    }
  }

  lemma WholeOfLatest(k: Key, p: map<nat, HostChunk>, cs: seq<HostChunk>)
    requires AreLatest(p, k, cs) && 0 in p && 1 in p && 2 in p && 3 in p
    ensures OfLatest(FrameOf(k, p), cs)
  {
    hide Latest;
    assert FrameOf(k, p).key == k;
  }

  lemma JoinTakesLatest(a: Assembly, k: Key, p: map<nat, HostChunk>, first: nat, c: HostChunk, cs: seq<HostChunk>)
    requires Agreeing(k, p, MetadataOf(c)) && c.chunkIndex < CHUNKS && KeyOf(c) == k
    requires HoldsLatest(a.pending, cs) && AreLatest(p, k, cs)
    ensures var r := Join(a, k, p, first, c);
            (r.frame.Some? ==> OfLatest(r.frame.value, cs + [c])) && HoldsLatest(r.state.pending, cs + [c])
  {
    var joined := p[c.chunkIndex := c];
    JoinedAgrees(k, p, c);
    AllIndices(k, joined, MetadataOf(c));
    hide Without, MetadataOf, Agreeing, Latest, HoldsLatest, AreLatest, OfLatest, FrameOf;
    JoinedAreLatest(p, k, c, cs);
    OthersStayLatest(a.pending, k, c, cs);
    if |joined| == CHUNKS {
      WholeOfLatest(k, joined, cs + [c]);
    } else {
      UpdatedAreLatest(a.pending, k, Parts(joined, first), cs + [c]);
    }
  }

  lemma NothingIsLatest(k: Key, cs: seq<HostChunk>)
    ensures AreLatest(map[], k, cs)
  {
  }

  lemma RoomHoldsLatest(a: Assembly, k: Key, cs: seq<HostChunk>)
    requires HoldsLatest(a.pending, cs)
    ensures HoldsLatest(MakeRoom(a, k).pending, cs)
    ensures k in a.pending ==> AreLatest(a.pending[k].chunks, k, cs)
  {
    hide Latest, Without;
  }

  /** When c is pushed after cs. */
  lemma PushTakesLatest(a: Assembly, c: HostChunk, cs: seq<HostChunk>)
    requires Assembler.Valid(a) && c.chunkIndex < CHUNKS && HoldsLatest(a.pending, cs)
    ensures var r := Push(a, c);
            && (r.frame.Some? ==> OfLatest(r.frame.value, cs + [c]))
            && HoldsLatest(r.state.pending, cs + [c])
  {
    PushByCases(a, c);
    var k := KeyOf(c);
    hide Push, Assembler.Valid, Without, Agreeing, OfLatest, Join, MetadataOf, MakeRoom, HoldsLatest, AreLatest;
    OthersStayLatest(a.pending, k, c, cs);
    RoomHoldsLatest(a, k, cs);
    NothingIsLatest(k, cs);
    if k !in a.pending {
      JoinTakesLatest(MakeRoom(a, k), k, map[], c.chunkIndex, c, cs);
    } else if MetadataOf(c) == MetadataOf(a.pending[k].chunks[a.pending[k].first]) {
      JoinTakesLatest(a, k, a.pending[k].chunks, a.pending[k].first, c, cs);
    }
  }

  /** In every run a later chunk replaces an earlier one of its key and index: what is held is the latest of
      each, and a frame is made of the four latest at its push. */
  lemma {:induction false} LatestWins(cs: seq<HostChunk>)
    requires Indexed(cs)
    ensures HoldsLatest(Run(cs).state.pending, cs)
    ensures cs != [] ==>
              var frame := Push(Run(cs[..|cs| - 1]).state, cs[|cs| - 1]).frame;
              frame.Some? ==> OfLatest(frame.value, cs)
  {
    if cs != [] {
      var rest, c := cs[..|cs| - 1], cs[|cs| - 1];
      assert cs == rest + [c];
      hide Push, HoldsLatest, OfLatest;
      LatestWins(rest);
      PushTakesLatest(Run(rest).state, c, rest);
    }
  }
}
