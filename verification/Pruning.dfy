/** The two ways of pruning agree. */
module Pruning {
  import opened Ints
  import opened Types
  import opened ClientModel
  import opened ClientRuns

  ghost function PruneOldestTimes(cons: Entries, period: u64, now: u64, n: nat): Entries {
    if n == 0 then cons else PruneOldestTimes(PruneOldest(cons, period, now), period, now, n - 1)
  }

  /** When anything is expired in a store that does not straddle, the oldest state is. */
  lemma OldestExpiresFirst(cons: Entries, period: u64, now: u64)
    requires Monotone(cons) && !Straddles(cons, period, now) && ExpiredHeights(cons, period, now) != {}
    ensures cons != map[] && MinOf(cons.Keys) in ExpiredHeights(cons, period, now)
  {
    var h :| h in ExpiredHeights(cons, period, now);
    var oldest := MinOf(cons.Keys);
    if oldest != h {
      ExpiredAboveLive(cons, period, now, oldest, h);
    }
  }

  /** Removing an expired state leaves one expired state less and the same unexpired ones. */
  lemma OneLess(cons: Entries, period: u64, now: u64, h: Height)
    requires h in ExpiredHeights(cons, period, now)
    ensures var rest := cons - {h};
            |ExpiredHeights(rest, period, now)| == |ExpiredHeights(cons, period, now)| - 1
            && PruneAllExpired(rest, period, now) == PruneAllExpired(cons, period, now)
            && |rest| == |cons| - 1
  {
    var rest := cons - {h};
    assert ExpiredHeights(rest, period, now) == ExpiredHeights(cons, period, now) - {h};
    assert rest.Keys == cons.Keys - {h};
  }

  ghost predicate InOrder(cons: Entries, period: u64, now: u64) {
    Monotone(cons) && !Straddles(cons, period, now)
  }

  lemma PartInOrder(cons: Entries, period: u64, now: u64, h: Height)
    requires InOrder(cons, period, now)
    ensures InOrder(cons - {h}, period, now)
  {
  }

  /** One pruning of the oldest removes one expired state, as long as there is one. */
  lemma OnePruning(cons: Entries, period: u64, now: u64)
    requires InOrder(cons, period, now)
    ensures var pruned := PruneOldest(cons, period, now);
            var count := |ExpiredHeights(cons, period, now)|;
            if count == 0 then pruned == cons
            else InOrder(pruned, period, now)
                 && |ExpiredHeights(pruned, period, now)| == count - 1
                 && PruneAllExpired(pruned, period, now) == PruneAllExpired(cons, period, now)
                 && |pruned| == |cons| - 1
  {
    if ExpiredHeights(cons, period, now) != {} {
      assert |ExpiredHeights(cons, period, now)| > 0;
      OldestExpiresFirst(cons, period, now);
      var oldest := MinOf(cons.Keys);
      assert PruneOldest(cons, period, now) == cons - {oldest};
      OneLess(cons, period, now, oldest);
      PartInOrder(cons, period, now, oldest);
    } else {
      assert cons != map[] ==> MinOf(cons.Keys) !in ExpiredHeights(cons, period, now);
    }
  }

  /**
   In a store that does not straddle, each of the first prunings of the oldest removes one state, until
   as many are gone as there are expired states; then exactly those are gone and nothing more goes.
   */
  lemma {:induction false} RepeatedPruneOldest(cons: Entries, period: u64, now: u64, n: nat)
    requires InOrder(cons, period, now)
    ensures n >= |ExpiredHeights(cons, period, now)|
            ==> PruneOldestTimes(cons, period, now, n) == PruneAllExpired(cons, period, now)
    ensures n < |ExpiredHeights(cons, period, now)|
            ==> |PruneOldestTimes(cons, period, now, n)| == |cons| - n
    decreases n
  {
    if n > 0 {
      OnePruning(cons, period, now);
      RepeatedPruneOldest(PruneOldest(cons, period, now), period, now, n - 1);
    }
  }

  /** Pruning the oldest, however often, never gets past a live state. */
  lemma {:induction false} LiveStateStops(cons: Entries, period: u64, now: u64, n: nat, live: Height, above: Height)
    requires live in cons && !IsExpired(period, cons[live].state.timestamp, now)
    requires above in cons && live.LT(above)
    ensures above in PruneOldestTimes(cons, period, now, n)
    decreases n
  {
    if n > 0 {
      var pruned := PruneOldest(cons, period, now);
      assert MinOf(cons.Keys).LTE(live);
      assert live in pruned && above in pruned && pruned[live] == cons[live];
      LiveStateStops(pruned, period, now, n - 1, live, above);
    }
  }

  /**
   Main result: pruning all expired states is pruning the oldest, some number of times, exactly when
   the store does not straddle; the number is then the count that prune-all returns.
   */
  lemma PruneAllIsRepeatedPruneOldestIff(cons: Entries, period: u64, now: u64)
    requires Monotone(cons)
    ensures (exists n :: PruneOldestTimes(cons, period, now, n) == PruneAllExpired(cons, period, now))
       <==> !Straddles(cons, period, now)
    ensures !Straddles(cons, period, now)
            ==> PruneOldestTimes(cons, period, now, |ExpiredHeights(cons, period, now)|)
                == PruneAllExpired(cons, period, now)
  {
    if Straddles(cons, period, now) {
      var x, y :| x in cons && y in cons && x.LT(y)
        && now < cons[x].state.timestamp + period < TWO_64 <= cons[y].state.timestamp + period <= TWO_64 + now;
      ExpiredAboveLive(cons, period, now, x, y);
      forall n: nat
        ensures PruneOldestTimes(cons, period, now, n) != PruneAllExpired(cons, period, now)
      {
        LiveStateStops(cons, period, now, n, x, y);
      }
    } else {
      RepeatedPruneOldest(cons, period, now, |ExpiredHeights(cons, period, now)|);
    }
  }

  /** The count returned by prune-all is the number of states that left; the unexpired ones stay. */
  lemma PruneAllCounts(cons: Entries, period: u64, now: u64)
    ensures var kept := PruneAllExpired(cons, period, now);
            |kept| == |cons| - |ExpiredHeights(cons, period, now)|
            && (forall h :: h in kept <==> h in cons && !IsExpired(period, cons[h].state.timestamp, now))
            && (forall h <- kept :: kept[h] == cons[h])
  {
    var expired := ExpiredHeights(cons, period, now);
    assert PruneAllExpired(cons, period, now).Keys == cons.Keys - expired;
    assert cons.Keys == (cons.Keys - expired) + expired;
  }
}
