/** Sequence-number accounting, which both decoders do in the same way. */
module Sequencing {
  import opened Bytes
  import opened Format

  datatype Track = Track(last: Option<u16>, lost: nat, duplicates: nat, outOfOrder: nat)

  const UNSEEN := Track(None, 0, 0, 0)

  /** (uint16_t)(sequence - last) */
  function Delta(sequence: u16, last: u16): u16 {
    (sequence - last) % TWO_16
  }

  function Note(t: Track, sequence: u16): Track {
    if t.last.None? then t.(last := Some(sequence))
    else
      var delta := Delta(sequence, t.last.value);
      if delta == 0 then t.(duplicates := t.duplicates + 1)
      else if delta < 0x8000 then t.(lost := t.lost + (delta - 1), last := Some(sequence))
      else t.(outOfOrder := t.outOfOrder + 1)
  }

  function NoteAll(sequences: seq<u16>): Track {
    if sequences == [] then UNSEEN
    else Note(NoteAll(sequences[..|sequences| - 1]), sequences[|sequences| - 1])
  }

  /** The sixteen bits a packet with unbounded index n carries. */
  function OnWire(n: nat): u16 {
    n % TWO_16
  }

  function AllOnWire(indices: seq<nat>): (w: seq<u16>)
    ensures |w| == |indices| && forall i :: 0 <= i < |w| ==> w[i] == OnWire(indices[i])
  {
    seq(|indices|, (i: nat) requires i < |indices| => OnWire(indices[i]))
  }

  /** The highest index seen. */
  function Highest(indices: seq<nat>): nat
    requires indices != []
  {
    if |indices| == 1 then indices[0]
    else
      var before, n := Highest(indices[..|indices| - 1]), indices[|indices| - 1];
      if n > before then n else before
  }

  /** Each index is within half the sequence space of the highest one before it. */
  predicate InWindow(indices: seq<nat>) {
    |indices| <= 1
    || (InWindow(indices[..|indices| - 1])
        && -0x8000 <= indices[|indices| - 1] - Highest(indices[..|indices| - 1]) < 0x8000)
  }

  /** How many indices raise the highest, repeat it, or fall below it; the first one does neither. */
  function Advances(indices: seq<nat>): nat {
    if |indices| <= 1 then 0
    else Advances(indices[..|indices| - 1])
         + if indices[|indices| - 1] > Highest(indices[..|indices| - 1]) then 1 else 0
  }

  function Repeats(indices: seq<nat>): nat {
    if |indices| <= 1 then 0
    else Repeats(indices[..|indices| - 1])
         + if indices[|indices| - 1] == Highest(indices[..|indices| - 1]) then 1 else 0
  }

  function Stragglers(indices: seq<nat>): nat {
    if |indices| <= 1 then 0
    else Stragglers(indices[..|indices| - 1])
         + if indices[|indices| - 1] < Highest(indices[..|indices| - 1]) then 1 else 0
  }

  lemma ModularDelta(n: nat, high: nat)
    requires -0x8000 <= n - high < 0x8000
    ensures Delta(OnWire(n), OnWire(high)) == if n >= high then n - high else n - high + TWO_16
  {
  }

  /** What the sixteen-bit bookkeeping should say of the true indices. */
  ghost predicate Exact(t: Track, indices: seq<nat>)
    requires indices != []
  {
    && t.last == Some(OnWire(Highest(indices)))
    && t.lost + Advances(indices) == Highest(indices) - indices[0]
    && t.duplicates == Repeats(indices)
    && t.outOfOrder == Stragglers(indices)
    && |indices| == 1 + Advances(indices) + t.duplicates + t.outOfOrder
  }

  lemma ExactStep(t: Track, indices: seq<nat>)
    requires |indices| > 1 && InWindow(indices) && Exact(t, indices[..|indices| - 1])
    ensures Exact(Note(t, OnWire(indices[|indices| - 1])), indices)
  {
    var rest, n := indices[..|indices| - 1], indices[|indices| - 1];
    hide OnWire, Delta;
    ModularDelta(n, Highest(rest));
  }

  lemma NoteLast(indices: seq<nat>)
    requires indices != []
    ensures NoteAll(AllOnWire(indices))
         == Note(NoteAll(AllOnWire(indices[..|indices| - 1])), OnWire(indices[|indices| - 1]))
  {
    var w := AllOnWire(indices);
    assert w[..|w| - 1] == AllOnWire(indices[..|indices| - 1]);
  }

  lemma NothingNotedYet(w: seq<u16>)
    requires w == []
    ensures NoteAll(w) == UNSEEN
  {
  }

  /** Whatever wraps, the sixteen-bit bookkeeping counts true indices: the last sequence is the highest
      index, losses plus advances span the indices passed over, and every packet is counted once. */
  lemma {:induction false} AccountingIsExact(indices: seq<nat>)
    requires indices != [] && InWindow(indices)
    ensures Exact(NoteAll(AllOnWire(indices)), indices)
  {
    NoteLast(indices);
    if |indices| == 1 {
      NothingNotedYet(AllOnWire(indices[..0]));
    } else {
      var rest := indices[..|indices| - 1];
      hide NoteAll, Exact, Note, AllOnWire;
      AccountingIsExact(rest);
      ExactStep(NoteAll(AllOnWire(rest)), indices);
    }
  }

  /** On a link that only loses packets, and never half the sequence space at once, `lost` is exactly
      the number of packets missing between the first and the last received. */
  lemma {:induction false} InOrderLoss(indices: seq<nat>)
    requires indices != []
    requires forall i :: 0 < i < |indices| ==> 0 < indices[i] - indices[i - 1] < 0x8000
    ensures var t := NoteAll(AllOnWire(indices));
            && t.lost == indices[|indices| - 1] - indices[0] + 1 - |indices|
            && t.duplicates == 0 && t.outOfOrder == 0
    ensures InWindow(indices) && Highest(indices) == indices[|indices| - 1]
    ensures Advances(indices) == |indices| - 1
  {
    var rest := indices[..|indices| - 1];
    if |indices| > 1 {
      InOrderLoss(rest);
      assert indices[|indices| - 1] - indices[|indices| - 2] > 0;
    }
    AccountingIsExact(indices);
  }
}
