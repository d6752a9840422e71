/** The bounded set of nearby objects a bot may target (internal/client/client.go:947-985). */
module TargetRing {
  import opened Bytes

  const CAPACITY: nat := 256

  datatype Ring = Ring(npcs: seq<u32>, next: nat)

  const EMPTY: Ring := Ring([], 0)

  /** An id is new when it is neither nothing, nor ourselves, nor known. */
  predicate IsNew(known: seq<u32>, self: u32, id: u32) {
    id != 0 && id != self && id !in known
  }

  function Add(r: Ring, self: u32, id: u32): Ring
    requires r.next < CAPACITY
  {
    if !IsNew(r.npcs, self, id) then r
    else if |r.npcs| < CAPACITY then r.(npcs := r.npcs + [id])
    else if r.next < |r.npcs| then Ring(r.npcs[r.next := id], if r.next + 1 >= CAPACITY then 0 else r.next + 1)
    else r
  }

  class Targets {
    var npcs: seq<u32>
    var npcsNext: nat

    ghost function State(): Ring
      reads this
    {
      Ring(npcs, npcsNext)
    }

    constructor ()
      ensures State() == EMPTY
    {
      npcs, npcsNext := [], 0;
    }

    method AddTarget(self: u32, id: u32)
      requires WellFormed(self, State())
      modifies this
      ensures State() == Add(old(State()), self, id) && WellFormed(self, State())
      ensures id == 0 || id == self || id in old(npcs) ==> State() == old(State())
      ensures id != 0 && id != self && id !in old(npcs) ==> Gained(id, old(State()), State())
    {
      AddKeepsForm(State(), self, id);
      AddGains(State(), self, id);
      if id == 0 || id == self { return; }
      if id in npcs { return; }
      if |npcs| < CAPACITY {
        npcs := npcs + [id];
        return;
      }
      npcs := npcs[npcsNext := id];
      npcsNext := npcsNext + 1;
      if npcsNext >= CAPACITY {
        npcsNext := 0;
      }
    }

    /** A tracked target, or none when none is known; the draw is anything below the length. */
    method RandomTarget(draw: nat) returns (found: bool, id: u32)
      requires npcs != [] ==> draw < |npcs|
      ensures found <==> npcs != []
      ensures found ==> id == npcs[draw] && id in npcs
    {
      if |npcs| == 0 { return false, 0; }
      return true, npcs[draw];
    }
  }

  // ---- The ring is a queue that drops its oldest entry ----

  /** The entries from the oldest to the newest. */
  function Rotated(r: Ring): seq<u32>
    requires r.next <= |r.npcs|
  {
    r.npcs[r.next..] + r.npcs[..r.next]
  }

  function Push(queue: seq<u32>, self: u32, id: u32): seq<u32> {
    if !IsNew(queue, self, id) then queue
    else if |queue| < CAPACITY then queue + [id]
    else queue[1..] + [id]
  }

  predicate Distinct(s: seq<u32>) {
    forall i, j :: 0 <= i < j < |s| ==> s[i] != s[j]
  }

  /** What holds between any two calls. */
  predicate WellFormed(self: u32, r: Ring) {
    && |r.npcs| <= CAPACITY && r.next < CAPACITY && (r.next > 0 ==> |r.npcs| == CAPACITY)
    && Distinct(r.npcs) && 0 !in r.npcs && self !in r.npcs
  }

  lemma AddKeepsForm(r: Ring, self: u32, id: u32)
    requires WellFormed(self, r)
    ensures WellFormed(self, Add(r, self, id))
    ensures |Add(r, self, id).npcs| >= |r.npcs|
  {
  }

  /** One more target, and, once there are 256, the oldest one less. */
  predicate Gained(id: u32, before: Ring, after: Ring) {
    && id in after.npcs
    && (|before.npcs| < 256 ==> after.npcs == before.npcs + [id] && after.next == before.next)
    && (|before.npcs| == 256 && before.next < 256 ==>
      && |after.npcs| == 256 && after.next == (before.next + 1) % 256
      && after.npcs[before.next] == id
      && forall i: nat :: i < 256 && i != before.next ==> after.npcs[i] == before.npcs[i])
  }

  /** Nothing, ourselves and what is known already are not taken; everything else is. */
  lemma AddGains(r: Ring, self: u32, id: u32)
    requires WellFormed(self, r)
    ensures id == 0 || id == self || id in r.npcs ==> Add(r, self, id) == r
    ensures id != 0 && id != self && id !in r.npcs ==> Gained(id, r, Add(r, self, id))
  {
    var after := Add(r, self, id);
    if id != 0 && id != self && id !in r.npcs {
      assert after.npcs[if |r.npcs| < 256 then |r.npcs| else r.next] == id;
    }
  }

  lemma AddIsPush(r: Ring, self: u32, id: u32)
    requires WellFormed(self, r)
    ensures WellFormed(self, Add(r, self, id))
    ensures Rotated(Add(r, self, id)) == Push(Rotated(r), self, id)
  {
    AddKeepsForm(r, self, id);
    SameMembers(r, id);
    if IsNew(r.npcs, self, id) {
      if |r.npcs| < CAPACITY {
        assert Rotated(Add(r, self, id)) == Rotated(r) + [id];
      } else {
        ReplaceOldest(r, self, id);
      }
    }
  }

  lemma ReplaceOldest(r: Ring, self: u32, id: u32)
    requires |r.npcs| == CAPACITY && r.next < CAPACITY && IsNew(r.npcs, self, id)
    ensures Rotated(Add(r, self, id)) == Rotated(r)[1..] + [id]
  {
    hide IsNew;
    var after := Add(r, self, id);
    if r.next + 1 < CAPACITY {
      assert after.npcs[r.next + 1..] == r.npcs[r.next + 1..] && after.npcs[..r.next + 1] == r.npcs[..r.next] + [id];
    } else {
      assert Rotated(after) == after.npcs == r.npcs[..r.next] + [id];
    }
  }

  lemma SameMembers(r: Ring, id: u32)
    requires r.next <= |r.npcs|
    ensures id in r.npcs <==> id in Rotated(r)
  {
    assert r.npcs == r.npcs[..r.next] + r.npcs[r.next..];
  }

  // ---- Whole runs ----

  function AddAll(self: u32, ids: seq<u32>): (r: Ring)
    ensures WellFormed(self, r)
  {
    if ids == [] then EMPTY
    else
      var before := AddAll(self, ids[..|ids| - 1]);
      AddKeepsForm(before, self, ids[|ids| - 1]);
      Add(before, self, ids[|ids| - 1])
  }

  function Window(s: seq<u32>): seq<u32> {
    if |s| <= 256 then s else s[|s| - 256..]
  }

  /** The ids that were new to the last 256 accepted ones when they came. */
  function Accepted(self: u32, ids: seq<u32>): seq<u32> {
    if ids == [] then []
    else
      var before := Accepted(self, ids[..|ids| - 1]);
      var id := ids[|ids| - 1];
      if IsNew(Window(before), self, id) then before + [id] else before
  }

  /**
   * After any sequence of calls the ring holds, oldest first, the last 256 of the ids it accepted, which are
   * distinct and neither zero nor our own; its cursor moves only once it is full.
   */
  lemma {:induction false} RingHoldsLastAccepted(self: u32, ids: seq<u32>)
    ensures var r := AddAll(self, ids);
      WellFormed(self, r) && Rotated(r) == Window(Accepted(self, ids))
    decreases |ids|
  {
    if ids != [] {
      var rest, id := ids[..|ids| - 1], ids[|ids| - 1];
      RingHoldsLastAccepted(self, rest);
      AddIsPush(AddAll(self, rest), self, id);
      WindowPush(Accepted(self, rest), self, id);
    }
  }

  lemma WindowPush(s: seq<u32>, self: u32, id: u32)
    ensures Push(Window(s), self, id) == if IsNew(Window(s), self, id) then Window(s + [id]) else Window(s)
  {
    if |s| >= CAPACITY {
      assert Window(s)[1..] == s[|s| - CAPACITY + 1..];
      assert (s + [id])[|s| + 1 - CAPACITY..] == s[|s| + 1 - CAPACITY..] + [id];
    }
  }
}
