/**
 * Assets/Scripts/ParticipantActionController.cs: placing bombs and keeping the list of
 * one's own live bombs. A bomb that has gone off is destroyed, and a destroyed bomb is
 * what Unity reports as a null entry of the list; here that is the bomb's `exploded` flag.
 */
module ParticipantAction {
  import opened Common
  import opened Grid
  import opened Units
  import opened BombController
  import opened Movement

  // ---------------------------------------------------------------------------
  // Pruning the bomb list
  // ---------------------------------------------------------------------------

  /** The entries of s not in gone, in their order. */
  function Keep(s: seq<BombController>, gone: set<BombController>): seq<BombController> {
    if s == [] then [] else Keep(s[..|s| - 1], gone) + (if s[|s| - 1] in gone then [] else [s[|s| - 1]])
  }

  /** The bombs of s that have gone off. */
  function Exploded(s: seq<BombController>): set<BombController>
    reads set b | b in s
  {
    set b | b in s && b.exploded
  }

  /** The bombs of s that are still there, in their order. */
  function Live(s: seq<BombController>): seq<BombController>
    reads set b | b in s
  {
    Keep(s, Exploded(s))
  }

  /** Keep drops exactly the entries in gone, and never lengthens the list. */
  lemma {:induction false} KeepExactly(s: seq<BombController>, gone: set<BombController>)
    ensures |Keep(s, gone)| <= |s|
    ensures forall b :: b in Keep(s, gone) <==> b in s && b !in gone
  {
    if s != [] {
      var init := s[..|s| - 1];
      KeepExactly(init, gone);
      assert s == init + [s[|s| - 1]];
    }
  }

  /** Live keeps exactly the bombs that have not gone off. */
  lemma LiveExactly(s: seq<BombController>)
    ensures |Live(s)| <= |s|
    ensures forall b :: b in Live(s) <==> b in s && !b.exploded
  {
    KeepExactly(s, Exploded(s));
  }

  lemma KeepSnoc(s: seq<BombController>, gone: set<BombController>, k: nat)
    requires k < |s|
    ensures Keep(s[..k + 1], gone) == Keep(s[..k], gone) + (if s[k] in gone then [] else [s[k]])
  {
    assert s[..k + 1][..k] == s[..k];
  }

  /** One step of the corrected pruning pass, which handles orig[k] at index i. */
  lemma PruneStep(orig: seq<BombController>, gone: set<BombController>, k: nat, i: nat,
                  before: seq<BombController>, after: seq<BombController>, next: nat)
    requires k < |orig| && before == Keep(orig[..k], gone) + orig[k..] && i == |Keep(orig[..k], gone)|
    requires orig[k] in gone ==> after == before[..i] + before[i + 1..] && next == i
    requires orig[k] !in gone ==> after == before && next == i + 1
    ensures after == Keep(orig[..k + 1], gone) + orig[k + 1..] && next == |Keep(orig[..k + 1], gone)|
  {
    KeepSnoc(orig, gone, k);
    assert orig[k..] == [orig[k]] + orig[k + 1..];
    if orig[k] in gone {
      assert before[..i] == Keep(orig[..k], gone);
      assert before[i + 1..] == orig[k + 1..];
    }
  }

  /**
   * The pruning loop as written: after RemoveAt(i) the loop still increments i, so the
   * entry that slid into position i is never looked at.
   */
  function SkipPrune(s: seq<BombController>, i: nat): seq<BombController>
    reads set b | b in s
    decreases |s| - i
  {
    if i >= |s| then s
    else if s[i].exploded then SkipPrune(s[..i] + s[i + 1..], i + 1)
    else SkipPrune(s, i + 1)
  }

  /** Two destroyed bombs side by side: the pass as written removes the first and keeps the second. */
  lemma SkipPruneKeepsSecondNull(a: BombController, b: BombController)
    requires a.exploded && b.exploded
    ensures SkipPrune([a, b], 0) == [b] && b in SkipPrune([a, b], 0)
  {
    assert [a, b][..0] + [a, b][1..] == [b];
  }

  /**
   * What the pass as written keeps, read along the original list: the entry right after
   * a removed one slides into the slot just checked and is kept unchecked; every other
   * entry is kept exactly when it has not exploded.
   */
  function SkipFilter(s: seq<BombController>, afterRemoval: bool): seq<BombController>
    reads set b | b in s
    decreases |s|
  {
    if s == [] then []
    else if afterRemoval || !s[0].exploded then [s[0]] + SkipFilter(s[1..], false)
    else SkipFilter(s[1..], true)
  }

  /** From index |p| on, the pass as written is SkipFilter of the rest, and p stays in front. */
  lemma {:induction false} SkipPruneFilter(p: seq<BombController>, t: seq<BombController>)
    ensures SkipPrune(p + t, |p|) == p + SkipFilter(t, false)
    decreases |t|
  {
    if t == [] {
      assert p + t == p;
    } else if !t[0].exploded {
      assert (p + t)[|p|] == t[0];
      SkipPruneFilter(p + [t[0]], t[1..]);
      assert p + [t[0]] + t[1..] == p + t;
    } else {
      assert (p + t)[|p|] == t[0];
      assert (p + t)[..|p|] + (p + t)[|p| + 1..] == p + t[1..];
      if |t| == 1 {
        assert p + t[1..] == p;
      } else {
        SkipPruneFilter(p + [t[1]], t[2..]);
        assert p + [t[1]] + t[2..] == p + t[1..];
        assert (p + t[1..])[|p|] == t[1];
        assert t[1..][1..] == t[2..];
      }
    }
  }

  /** No two bombs side by side in s have both exploded. */
  predicate NoExplodedPair(s: seq<BombController>)
    reads set b | b in s
  {
    forall k :: 0 <= k < |s| - 1 ==> !(s[k].exploded && s[k + 1].exploded)
  }

  /** None of the bombs of s has exploded. */
  predicate AllLive(s: seq<BombController>)
    reads set b | b in s
  {
    forall b :: b in s ==> !b.exploded
  }

  /** SkipFilter leaves no exploded bomb exactly when no two exploded bombs are adjacent (and the first is live after a removal). */
  lemma {:induction false} SkipFilterAllLive(s: seq<BombController>, afterRemoval: bool)
    ensures AllLive(SkipFilter(s, afterRemoval)) <==>
      (afterRemoval && s != [] ==> !s[0].exploded) && NoExplodedPair(s)
    decreases |s|
  {
    if s != [] {
      var t := s[1..];
      SkipFilterAllLive(t, !(afterRemoval || !s[0].exploded));
      if NoExplodedPair(t) && (s[0].exploded ==> t == [] || !t[0].exploded) {
        forall k | 0 <= k < |s| - 1
          ensures !(s[k].exploded && s[k + 1].exploded)
        {
          if k > 0 {
            assert s[k] == t[k - 1] && s[k + 1] == t[k];
          }
        }
      }
    }
  }

  lemma {:induction false} KeepAppend(a: seq<BombController>, b: seq<BombController>, gone: set<BombController>)
    ensures Keep(a + b, gone) == Keep(a, gone) + Keep(b, gone)
    decreases |b|
  {
    if b != [] {
      var init := b[..|b| - 1];
      KeepAppend(a, init, gone);
      assert (a + b)[..|a + b| - 1] == a + init;
    } else {
      assert a + b == a;
    }
  }

  /** Keep looks only at whether the entries of s are in the set. */
  lemma {:induction false} KeepAgree(s: seq<BombController>, g1: set<BombController>, g2: set<BombController>)
    requires forall b :: b in s ==> (b in g1 <==> b in g2)
    ensures Keep(s, g1) == Keep(s, g2)
    decreases |s|
  {
    if s != [] {
      KeepAgree(s[..|s| - 1], g1, g2);
    }
  }

  lemma {:induction false} KeepNone(s: seq<BombController>, gone: set<BombController>)
    requires forall b :: b in s ==> b !in gone
    ensures Keep(s, gone) == s
    decreases |s|
  {
    if s != [] {
      KeepNone(s[..|s| - 1], gone);
    }
  }

  /** SkipFilter removes only exploded bombs, so keeping the live ones gives the same list. */
  lemma {:induction false} SkipFilterKeep(s: seq<BombController>, afterRemoval: bool, gone: set<BombController>)
    requires forall b :: b in s ==> (b in gone <==> b.exploded)
    ensures Keep(SkipFilter(s, afterRemoval), gone) == Keep(s, gone)
    ensures |SkipFilter(s, afterRemoval)| <= |s| && forall b :: b in SkipFilter(s, afterRemoval) ==> b in s
    decreases |s|
  {
    if s != [] {
      var t := s[1..];
      var kept := afterRemoval || !s[0].exploded;
      SkipFilterKeep(t, !kept, gone);
      assert s == [s[0]] + t;
      KeepAppend([s[0]], t, gone);
      assert Keep([s[0]], gone) == Keep([], gone) + (if s[0] in gone then [] else [s[0]]);
      if kept {
        KeepAppend([s[0]], SkipFilter(t, false), gone);
      }
    }
  }

  /**
   * The pass as written drops only exploded bombs and keeps every live bomb in order; it
   * leaves exactly the live bombs when, and only when, no two exploded bombs sit side by side.
   */
  lemma SkipPruneLive(s: seq<BombController>)
    ensures var r := SkipPrune(s, 0);
      Live(r) == Live(s) && |r| <= |s| && (forall b :: b in r ==> b in s) &&
      (r == Live(s) <==> NoExplodedPair(s))
  {
    SkipPruneFilter([], s);
    assert [] + s == s;
    var r := SkipFilter(s, false);
    assert SkipPrune(s, 0) == r by {
      assert [] + r == r;
    }
    var gone := Exploded(s);
    SkipFilterKeep(s, false, gone);
    KeepAgree(r, Exploded(r), gone);
    assert Live(r) == Live(s);
    SkipFilterAllLive(s, false);
    LiveExactly(s);
    if NoExplodedPair(s) {
      KeepNone(r, Exploded(r));
    }
  }

  class ParticipantActionController {
    const stats: UnitStats
    /** The participant's ParticipantMovementController, whose whitelist gets each new bomb. */
    const mover: MovementController
    /** gameObject.name, given to each bomb as its owner. */
    const name: string
    var bombs: seq<BombController>
    var canPlaceBombs: bool
    var uncontrollableBombPlacing: bool
    var explosionRadius: int
    var maximumBombCount: int

    /** The list never holds more bombs than allowed, and the caps of the inspector ranges hold. */
    predicate Valid()
      reads this
    {
      |bombs| <= maximumBombCount && 1 <= maximumBombCount <= 8 && 1 <= explosionRadius <= 5
    }

    /** The field defaults, and the empty list Start creates. */
    constructor Start(stats: UnitStats, mover: MovementController, name: string)
      ensures this.stats == stats && this.mover == mover && this.name == name
      ensures bombs == [] && canPlaceBombs && !uncontrollableBombPlacing
      ensures explosionRadius == 1 && maximumBombCount == 1
      ensures Valid()
    {
      this.stats := stats;
      this.mover := mover;
      this.name := name;
      bombs := [];
      canPlaceBombs := true;
      uncontrollableBombPlacing := false;
      explosionRadius := 1;
      maximumBombCount := 1;
    }

    /** The placement guard: alive; forced to place, or allowed to and pressing the button; and under the cap. */
    predicate MayPlace(buttonDown: bool)
      reads this, stats
    {
      stats.isAlive && (uncontrollableBombPlacing || (canPlaceBombs && buttonDown)) && |bombs| < maximumBombCount
    }

    /** The pruning loop as the source writes it. */
    method PruneAsWritten()
      modifies this
      ensures bombs == SkipPrune(old(bombs), 0)
      ensures canPlaceBombs == old(canPlaceBombs) && uncontrollableBombPlacing == old(uncontrollableBombPlacing)
      ensures explosionRadius == old(explosionRadius) && maximumBombCount == old(maximumBombCount)
    {
      var i := 0;
      while i < |bombs|
        invariant SkipPrune(bombs, i) == SkipPrune(old(bombs), 0)
        invariant canPlaceBombs == old(canPlaceBombs) && uncontrollableBombPlacing == old(uncontrollableBombPlacing)
        invariant explosionRadius == old(explosionRadius) && maximumBombCount == old(maximumBombCount)
        decreases |bombs| - i
      {
        if bombs[i].exploded {
          bombs := bombs[..i] + bombs[i + 1..];
        }
        i := i + 1;
      }
    }

    /** The pruning loop corrected: after a removal the index stays where it is. */
    method Prune()
      modifies this
      ensures bombs == old(Live(bombs))
      ensures canPlaceBombs == old(canPlaceBombs) && uncontrollableBombPlacing == old(uncontrollableBombPlacing)
      ensures explosionRadius == old(explosionRadius) && maximumBombCount == old(maximumBombCount)
    {
      ghost var orig := bombs;
      ghost var gone := Exploded(bombs);
      ghost var k := 0;
      var i := 0;
      while i < |bombs|
        invariant k <= |orig| && i == |Keep(orig[..k], gone)|
        invariant bombs == Keep(orig[..k], gone) + orig[k..]
        invariant forall b :: b in orig ==> b.exploded == (b in gone)
        invariant canPlaceBombs == old(canPlaceBombs) && uncontrollableBombPlacing == old(uncontrollableBombPlacing)
        invariant explosionRadius == old(explosionRadius) && maximumBombCount == old(maximumBombCount)
        decreases |bombs| - i
      {
        ghost var before, at := bombs, i;
        assert bombs[i] == orig[k];
        if bombs[i].exploded {
          bombs := bombs[..i] + bombs[i + 1..];
        } else {
          i := i + 1;
        }
        PruneStep(orig, gone, k, at, before, bombs, i);
        k := k + 1;
      }
      assert orig[..k] == orig;
    }

    /**
     * Update. A bomb is placed only when the guard holds and the raycast from the body to
     * its cell's centre met nothing: it sits in the body's cell, takes the participant's
     * radius at that moment and the participant's name, and joins both the movement
     * whitelist and the bomb list. Then the pruning loop as written runs over the list:
     * every live bomb stays, in order, but an exploded bomb right after a removed one stays too.
     */
    method Update(buttonDown: bool, pathBlocked: bool) returns (placed: Option<BombController>)
      requires Valid()
      modifies this, mover
      ensures Valid()
      ensures placed.Some? <==> old(MayPlace(buttonDown)) && !pathBlocked
      ensures placed.Some? ==>
        var b := placed.value;
        fresh(b) && b.originCell == CellOf(mover.position) && b.explosionRadius == explosionRadius &&
        b.owner == name && !b.exploded && b.timer == 2.0 &&
        mover.whitelist == old(mover.whitelist) + [b]
      ensures placed.None? ==> mover.whitelist == old(mover.whitelist)
      ensures bombs == SkipPrune(old(bombs) + if placed.Some? then [placed.value] else [], 0)
      ensures Live(bombs) == Live(old(bombs) + if placed.Some? then [placed.value] else [])
      ensures |bombs| <= |old(bombs)| + 1
      ensures mover.position == old(mover.position) && mover.destination == old(mover.destination)
      ensures mover.direction == old(mover.direction) && mover.isMoving == old(mover.isMoving)
      ensures mover.currentSpeed == old(mover.currentSpeed)
      ensures canPlaceBombs == old(canPlaceBombs) && uncontrollableBombPlacing == old(uncontrollableBombPlacing)
      ensures explosionRadius == old(explosionRadius) && maximumBombCount == old(maximumBombCount)
    {
      placed := None;
      if MayPlace(buttonDown) && !pathBlocked {
        var b := new BombController.Start(CellOf(mover.position));
        b.explosionRadius := explosionRadius;
        b.owner := name;
        mover.whitelist := mover.whitelist + [b];
        bombs := bombs + [b];
        placed := Some(b);
      }
      ghost var before := bombs;
      assert before == old(bombs) + if placed.Some? then [placed.value] else [];
      PruneAsWritten();
      SkipPruneLive(before);
    }
  }
}
