/** The reach of the signal engine on logs, that is, with the best prices of the book that the log
    itself builds. */
module ReplayReach {
  import opened Types
  import opened Statistics
  import B = OrderBook
  import S = SignalEngine
  import opened SignalReach
  import R = Replay

  /** The events of the witness alone. */
  function WitnessLog(n: nat, q: nat): (evs: seq<LOBEvent>)
    ensures |evs| == n
  {
    seq(n, i requires 0 <= i < n => WitnessEvent(i, q))
  }

  lemma LogPrefix(n: nat, q: nat)
    ensures WitnessLog(n + 1, q)[..n] == WitnessLog(n, q) && WitnessLog(n + 1, q)[n] == WitnessEvent(n, q)
  {
  }

  /** One bid at 2; offers at 3, two of them from the third event on. */
  ghost predicate WitnessBook(b: B.Book, n: nat) {
    && (n == 0 ==> b == B.EMPTY_BOOK)
    && (n > 0 ==> b.bids == map[2 := 1])
    && (n == 1 ==> b.asks == map[])
    && (n == 2 ==> b.asks == map[3 := 1])
    && (3 <= n ==> b.asks == map[3 := 2] && 3 in b.entries && b.entries[3] == B.EntryInfo(Offer, 3, 1))
  }

  lemma BookGoesOn(b: B.Book, n: nat, q: nat)
    requires n < 100 && q > 0 && WitnessBook(b, n)
    ensures WitnessBook(B.Apply(b, WitnessEvent(n, q)), n + 1)
  {
    if n == 0 {
      assert B.LevelAdd(map[], 2, 1) == map[2 := 1];
    } else if n == 1 {
      assert B.LevelAdd(map[], 3, 1) == map[3 := 1];
    } else if n == 2 {
      assert B.LevelAdd(map[3 := 1], 3, 1) == map[3 := 2];
    }
  }

  lemma {:induction false} BookOfWitness(n: nat, q: nat)
    requires n <= 100 && q > 0
    ensures WitnessBook(B.ApplyAll(B.EMPTY_BOOK, WitnessLog(n, q)), n)
  {
    if n > 0 {
      BookOfWitness(n - 1, q);
      LogPrefix(n - 1, q);
      BookGoesOn(B.ApplyAll(B.EMPTY_BOOK, WitnessLog(n - 1, q)), n - 1, q);
    }
  }

  lemma OnlyPrice(levels: B.Levels, px: int)
    requires px in levels && levels.Keys == {px}
    ensures levels != map[] && B.MaxKey(levels.Keys) == px && B.MinKey(levels.Keys) == px
  {
  }

  /** The last event takes one of the two offers away. */
  lemma LastEvent(b: B.Book, q: nat)
    requires WitnessBook(b, 100)
    ensures var after := B.Apply(b, WitnessEvent(100, q)); after.bids == map[2 := 1] && after.asks == map[3 := 1]
  {
    assert B.LevelAdd(map[3 := 2], 3, -1) == map[3 := 1];
  }

  /** The best prices are those of the witness. */
  lemma {:induction false} PricesOfWitness(n: nat, q: nat)
    requires 0 < n <= 101 && q > 0
    ensures R.EngineTick(B.ApplyAll(B.EMPTY_BOOK, WitnessLog(n, q)), WitnessEvent(n - 1, q)) == WitnessTick(n - 1, q)
  {
    var b := B.ApplyAll(B.EMPTY_BOOK, WitnessLog(n, q));
    if n <= 100 {
      BookOfWitness(n, q);
    } else {
      BookOfWitness(100, q);
      LogPrefix(100, q);
      LastEvent(B.ApplyAll(B.EMPTY_BOOK, WitnessLog(100, q)), q);
    }
    assert b.bids.Keys == {2};
    OnlyPrice(b.bids, 2);
    if n >= 2 {
      assert b.asks.Keys == {3};
      OnlyPrice(b.asks, 3);
    }
  }

  lemma {:induction false} SeenIsWitness(n: nat, q: nat)
    requires n <= 101 && q > 0
    ensures R.Seen(WitnessLog(n, q)) == Witness(n, q)
  {
    if n > 0 {
      SeenIsWitness(n - 1, q);
      LogPrefix(n - 1, q);
      PricesOfWitness(n, q);
      assert Witness(n, q) == Witness(n - 1, q) + [WitnessTick(n - 1, q)];
    }
  }

  /** An engine that replays a log, with the book the log builds, is silent on every log if and only
      if its cancel floor is at least 10, whatever its delta threshold. */
  lemma {:induction false} SilentOnLogsIff(sqrt: real -> real, p: S.Params, n: nat)
    requires IsSqrt(sqrt) && ExactAt(sqrt, SPIKE_VARIANCE) && n == 101
    ensures (forall evs: seq<LOBEvent> :: !S.Fires(sqrt, p, R.Seen(evs))) <==> p.floor >= 10.0
  {
    if p.floor >= 10.0 {
      forall evs: seq<LOBEvent>
        ensures !S.Fires(sqrt, p, R.Seen(evs))
      {
        S.HighFloorNeverFires(sqrt, p, R.Seen(evs));
      }
    } else {
      var q := if p.thresholdDelta < 0.0 then 1 else p.thresholdDelta.Floor + 1;
      LowFloorFires(sqrt, p, q, n);
      SeenIsWitness(n, q);
      assert S.Fires(sqrt, p, R.Seen(WitnessLog(n, q)));
    }
  }
}
