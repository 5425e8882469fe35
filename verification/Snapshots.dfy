/** The circular doubly-linked list of live snapshots, and the sequence number a compaction may forget below (snapshot.h). */
module Snapshots {

  class Snapshot {
    var sequence: nat
    var prev: Snapshot
    var next: Snapshot

    constructor (sequence: nat)
      ensures this.sequence == sequence && prev == this && next == this
    {
      this.sequence := sequence;
      this.prev := this;
      this.next := this;
    }
  }

  /** Distinct nodes, each pointing at its neighbours, the last and the first at each other. */
  ghost predicate Linked(ring: seq<Snapshot>)
    reads ring
  {
    && ring != []
    && (forall i, j :: 0 <= i < j < |ring| ==> ring[i] != ring[j])
    && (forall i {:trigger ring[i].next} :: 0 <= i < |ring| - 1 ==> ring[i].next == ring[i + 1])
    && ring[|ring| - 1].next == ring[0]
    && (forall i {:trigger ring[i].prev} :: 1 <= i < |ring| ==> ring[i].prev == ring[i - 1])
    && ring[0].prev == ring[|ring| - 1]
  }

  /** Leaving out node k, whose neighbours now point at each other, leaves a linked ring. */
  lemma Rejoined(was: seq<Snapshot>, ring: seq<Snapshot>, k: nat)
    requires 1 <= k < |was| && ring == was[..k] + was[k + 1..]
    requires forall i, j :: 0 <= i < j < |was| ==> was[i] != was[j]
    requires forall i {:trigger was[i].next} :: 0 <= i < |was| - 1 && i != k - 1 ==> was[i].next == was[i + 1]
    requires k < |was| - 1 ==> was[|was| - 1].next == was[0]
    requires forall i {:trigger was[i].prev} :: 1 <= i < |was| && i != k + 1 ==> was[i].prev == was[i - 1]
    requires k < |was| - 1 ==> was[0].prev == was[|was| - 1]
    requires was[k - 1].next == if k + 1 < |was| then was[k + 1] else was[0]
    requires (if k + 1 < |was| then was[k + 1] else was[0]).prev == was[k - 1]
    ensures Linked(ring)
  {
    forall i | 0 <= i < |ring| - 1 ensures ring[i].next == ring[i + 1] {
      assert ring[i] == was[if i < k then i else i + 1];
    }
    forall i | 1 <= i < |ring| ensures ring[i].prev == ring[i - 1] {
      assert ring[i] == was[if i < k then i else i + 1];
    }
    assert ring[|ring| - 1] == was[if k == |was| - 1 then k - 1 else |was| - 1];
  }

  class SnapList {
    const head: Snapshot
    ghost var ring: seq<Snapshot>  // the head, then the live snapshots, oldest first

    ghost predicate Valid()
      reads this, ring
    {
      ring != [] && ring[0] == head && Linked(ring) && Ascending(Live())
    }

    ghost function Live(): (s: seq<nat>)
      requires ring != []
      reads this, ring
      ensures |s| == |ring| - 1
      ensures forall i :: 0 <= i < |s| ==> s[i] == ring[i + 1].sequence
    {
      seq(|ring| - 1, i requires 0 <= i < |ring| - 1 reads this, ring => ring[i + 1].sequence)
    }

    constructor ()
      ensures Valid() && fresh(head) && ring == [head] && Live() == []
    {
      var h := new Snapshot(0);
      head := h;
      ring := [h];
    }

    method Empty() returns (empty: bool)
      requires Valid()
      ensures empty <==> Live() == []
    {
      empty := head.next == head;
      assert ring[0].next == head <==> |ring| == 1;
    }

    /** The first snapshot holds the smallest live sequence number. */
    method Oldest() returns (snap: Snapshot)
      requires Valid() && Live() != []
      ensures snap == ring[1] && snap.sequence == Live()[0]
      ensures forall n :: n in Live() ==> snap.sequence <= n
    {
      snap := head.next;
      assert ring[0].next == ring[1];
    }

    method Newest() returns (snap: Snapshot)
      requires Valid() && Live() != []
      ensures snap == ring[|ring| - 1] && snap.sequence == Live()[|Live()| - 1]
      ensures forall n :: n in Live() ==> n <= snap.sequence
    {
      snap := head.prev;
    }

    /** Links a new snapshot in at the tail. */
    method New(sequence: nat) returns (snap: Snapshot)
      requires Valid()
      requires Live() != [] ==> Live()[|Live()| - 1] <= sequence
      modifies this, ring
      ensures Valid() && fresh(snap) && snap.sequence == sequence
      ensures ring == old(ring) + [snap]
      ensures Live() == old(Live()) + [sequence]
    {
      ghost var live := Live();
      assert Ascending(live + [sequence]);
      snap := new Snapshot(sequence);
      snap.next := head;
      snap.prev := head.prev;
      snap.prev.next := snap;
      snap.next.prev := snap;
      ring := ring + [snap];
      assert Live() == live + [sequence];
    }

    /** The sequence numbers left when node k of the ring `was` is gone. */
    lemma LiveWithout(live: seq<nat>, k: nat, was: seq<Snapshot>)
      requires 1 <= k < |was| && ring == was[..k] + was[k + 1..]
      requires |live| == |was| - 1 && forall i :: 0 <= i < |live| ==> live[i] == was[i + 1].sequence
      requires Ascending(live)
      ensures Live() == live[..k - 1] + live[k..] && Ascending(Live())
    {
      var now := live[..k - 1] + live[k..];
      forall i | 0 <= i < |now| ensures Live()[i] == now[i] {
        assert ring[i + 1] == was[if i < k - 1 then i + 1 else i + 2];
      }
    }

    method Unlink(snap: Snapshot, ghost k: nat)
      requires Valid() && 1 <= k < |ring| && ring[k] == snap
      modifies ring
      ensures forall i {:trigger ring[i].next} :: 0 <= i < |ring| && i != k - 1 ==> ring[i].next == old(ring[i].next)
      ensures forall i {:trigger ring[i].prev} :: 0 <= i < |ring| && i != (if k + 1 < |ring| then k + 1 else 0)
                ==> ring[i].prev == old(ring[i].prev)
      ensures ring[k - 1].next == if k + 1 < |ring| then ring[k + 1] else ring[0]
      ensures (if k + 1 < |ring| then ring[k + 1] else ring[0]).prev == ring[k - 1]
      ensures forall i :: 0 <= i < |ring| ==> ring[i].sequence == old(ring[i].sequence)
    {
      assert ring[k].prev == ring[k - 1];
      assert k + 1 < |ring| ==> ring[k].next == ring[k + 1];
      snap.prev.next := snap.next;
      snap.next.prev := snap.prev;
    }

    /** Unlinks the k-th live snapshot; the others keep their order. */
    method Delete(snap: Snapshot, ghost k: nat)
      requires Valid() && 1 <= k < |ring| && ring[k] == snap
      modifies this, ring
      ensures Valid()
      ensures ring == old(ring)[..k] + old(ring)[k + 1..]
      ensures Live() == old(Live())[..k - 1] + old(Live())[k..]
    {
      ghost var live, was := Live(), ring;
      Unlink(snap, k);
      ring := ring[..k] + ring[k + 1..];
      assert Linked(ring) by {
        Rejoined(was, ring, k);
      }
      LiveWithout(live, k, was);
    }

    /** The rule a compaction starts with: the oldest live snapshot, or the last sequence when there is none. */
    method SmallestSnapshot(lastSequence: nat) returns (smallest: nat)
      requires Valid()
      ensures smallest == Floor(Live(), lastSequence)
      ensures if Live() == [] then smallest == lastSequence
              else smallest in Live() && forall i :: 0 <= i < |Live()| ==> smallest <= Live()[i]
    {
      var empty := Empty();
      if empty {
        smallest := lastSequence;
      } else {
        var snap := Oldest();
        smallest := snap.sequence;
      }
    }
  }

  ghost predicate Ascending(live: seq<nat>) {
    forall i, j :: 0 <= i < j < |live| ==> live[i] <= live[j]
  }

  function Floor(live: seq<nat>, lastSequence: nat): nat {
    if live == [] then lastSequence else live[0]
  }

  ghost predicate Ordered(live: seq<nat>, lastSequence: nat) {
    Ascending(live) && forall i :: 0 <= i < |live| ==> live[i] <= lastSequence
  }

  datatype SnapOp = Take | Release(index: nat) | Write(count: nat)

  datatype SnapState = SnapState(live: seq<nat>, lastSequence: nat)

  function Apply(s: SnapState, op: SnapOp): SnapState {
    match op
    case Take => s.(live := s.live + [s.lastSequence])
    case Release(i) => if i < |s.live| then s.(live := s.live[..i] + s.live[i + 1..]) else s
    case Write(n) => s.(lastSequence := s.lastSequence + n)
  }

  function Run(s: SnapState, ops: seq<SnapOp>): SnapState
    decreases |ops|
  {
    if ops == [] then s else Run(Apply(s, ops[0]), ops[1..])
  }

  /** The floor taken now is at or below every snapshot that is live after any further run. */
  lemma {:induction false} FloorBelowEverySnapshot(s: SnapState, ops: seq<SnapOp>, floor: nat)
    requires Ordered(s.live, s.lastSequence) && floor <= Floor(s.live, s.lastSequence)
    ensures var t := Run(s, ops);
            && Ordered(t.live, t.lastSequence) && floor <= t.lastSequence
            && forall i :: 0 <= i < |t.live| ==> floor <= t.live[i]
    decreases |ops|
  {
    if ops != [] {
      FloorBelowEverySnapshot(Apply(s, ops[0]), ops[1..], floor);
    }
  }
}
