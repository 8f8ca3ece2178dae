/** The order book: per-order entries (L3) and the aggregated price levels (L2) kept beside
    them. The levels are only worth something if they are the sums of the entries. */
module OrderBook {
  import opened Types

  datatype EntryInfo = EntryInfo(side: MDEntryType, price: int, qty: int)

  type Levels = map<int, int>

  type Entries = map<nat, EntryInfo>

  datatype Book = Book(bids: Levels, asks: Levels, entries: Entries)

  const EMPTY_BOOK := Book(map[], map[], map[])

  // ---- What one event does ----

  /** Adds `delta` to the level at `px`, removing the level when nothing is left. */
  function LevelAdd(levels: Levels, px: int, delta: int): Levels {
    var qty := (if px in levels then levels[px] else 0) + delta;
    if qty <= 0 then levels - {px} else levels[px := qty]
  }

  /** Adds one entry's quantity, or with sign -1 takes it back, on its own side. */
  function Contribute(b: Book, e: EntryInfo, sign: int): Book {
    match e.side
    case Bid => b.(bids := LevelAdd(b.bids, e.price, sign * e.qty))
    case Offer => b.(asks := LevelAdd(b.asks, e.price, sign * e.qty))
    case Trade => b
  }

  function Withdraw(b: Book, id: nat): Book {
    if id in b.entries then Contribute(b, b.entries[id], -1) else b
  }

  function Apply(b: Book, ev: LOBEvent): Book {
    var info := EntryInfo(ev.side, ev.price, ev.qty);
    match ev.action
    case New =>
      if ev.qty <= 0 then b else Contribute(b.(entries := b.entries[ev.entryId := info]), info, 1)
    case Change =>
      var rest := Withdraw(b, ev.entryId);
      if ev.qty > 0 then Contribute(rest.(entries := b.entries[ev.entryId := info]), info, 1)
      else rest.(entries := b.entries - {ev.entryId})
    case Delete =>
      Withdraw(b, ev.entryId).(entries := b.entries - {ev.entryId})
  }

  function ApplyAll(b: Book, evs: seq<LOBEvent>): Book {
    if evs == [] then b else Apply(ApplyAll(b, evs[..|evs| - 1]), evs[|evs| - 1])
  }

  // ---- What the levels should be ----

  function Share(e: EntryInfo, side: MDEntryType, px: int): int {
    if e.side == side && e.price == px then e.qty else 0
  }

  /** The total quantity of the live entries of one side at one price. */
  ghost function LiveQty(es: Entries, side: MDEntryType, px: int): int
    decreases |es|
  {
    if es == map[] then 0
    else
      var id :| id in es;
      Share(es[id], side, px) + LiveQty(es - {id}, side, px)
  }

  /** The sum does not depend on the order in which entries are taken. */
  lemma {:induction false} LiveQtyTake(es: Entries, id: nat, side: MDEntryType, px: int)
    requires id in es
    ensures LiveQty(es, side, px) == Share(es[id], side, px) + LiveQty(es - {id}, side, px)
    decreases |es|
  {
    var first :| first in es && LiveQty(es, side, px) == Share(es[first], side, px) + LiveQty(es - {first}, side, px);
    if first != id {
      LiveQtyTake(es - {first}, id, side, px);
      LiveQtyTake(es - {id}, first, side, px);
      assert es - {first} - {id} == es - {id} - {first};
    }
  }

  lemma LiveQtyPut(es: Entries, id: nat, e: EntryInfo, side: MDEntryType, px: int)
    ensures LiveQty(es[id := e], side, px)
         == LiveQty(es, side, px) - (if id in es then Share(es[id], side, px) else 0) + Share(e, side, px)
  {
    LiveQtyTake(es[id := e], id, side, px);
    if id in es {
      LiveQtyTake(es, id, side, px);
      assert es[id := e] - {id} == es - {id};
    } else {
      assert es[id := e] - {id} == es;
    }
  }

  lemma {:induction false} LiveQtyDrop(es: Entries, id: nat, side: MDEntryType, px: int)
    ensures LiveQty(es - {id}, side, px)
         == LiveQty(es, side, px) - (if id in es then Share(es[id], side, px) else 0)
  {
    if id in es {
      LiveQtyTake(es, id, side, px);
    } else {
      assert es - {id} == es;
    }
  }

  /** All stored quantities are positive. */
  ghost predicate Positive(es: Entries) {
    forall id :: id in es ==> es[id].qty > 0
  }

  ghost predicate Quoted(es: Entries, side: MDEntryType, px: int) {
    exists id :: id in es && es[id].side == side && es[id].price == px
  }

  lemma {:induction false} LiveQtyPositive(es: Entries, side: MDEntryType, px: int)
    requires Positive(es)
    ensures LiveQty(es, side, px) >= 0
    ensures LiveQty(es, side, px) > 0 <==> Quoted(es, side, px)
    decreases |es|
  {
    if es != map[] {
      var first :| first in es && LiveQty(es, side, px) == Share(es[first], side, px) + LiveQty(es - {first}, side, px);
      var rest := es - {first};
      assert Share(es[first], side, px) >= 0;
      assert Share(es[first], side, px) > 0 ==> Quoted(es, side, px);
      assert Positive(rest);
      LiveQtyPositive(rest, side, px);
      if Quoted(rest, side, px) {
        var id :| id in rest && rest[id].side == side && rest[id].price == px;
        assert id in es && es[id].side == side && es[id].price == px;
      } else if Quoted(es, side, px) {
        var id :| id in es && es[id].side == side && es[id].price == px;
        assert id == first || (id in rest && rest[id].side == side && rest[id].price == px);
      }
    }
  }

  function At(levels: Levels, px: int): int {
    if px in levels then levels[px] else 0
  }

  /** The levels of a side are the sums of its live entries, with no empty level. */
  ghost predicate SumsOf(levels: Levels, es: Entries, side: MDEntryType) {
    && (forall px :: At(levels, px) == LiveQty(es, side, px))
    && (forall px :: px in levels ==> levels[px] > 0)
  }

  ghost predicate Consistent(b: Book) {
    Positive(b.entries) && SumsOf(b.bids, b.entries, Bid) && SumsOf(b.asks, b.entries, Offer)
  }

  // ---- One event ----

  /** The one event the book cannot take: a New for an id that already rests on a side. The old
      quantity stays in its level for good. */
  predicate NewOverLive(b: Book, ev: LOBEvent) {
    ev.action.New? && ev.qty > 0 && ev.entryId in b.entries && !b.entries[ev.entryId].side.Trade?
  }

  function LevelsOf(b: Book, side: MDEntryType): Levels {
    match side
    case Bid => b.bids
    case Offer => b.asks
    case Trade => map[]
  }

  lemma LevelAddAt(levels: Levels, px: int, delta: int, at: int)
    requires At(levels, px) + delta >= 0
    ensures At(LevelAdd(levels, px, delta), at) == At(levels, at) + if at == px then delta else 0
  {
  }

  lemma LevelAddPositive(levels: Levels, px: int, delta: int)
    requires forall p :: p in levels ==> levels[p] > 0
    ensures forall p :: p in LevelAdd(levels, px, delta) ==> LevelAdd(levels, px, delta)[p] > 0
  {
  }

  /** Taking an entry back leaves the sums of the others. */
  lemma WithdrawKeepsSums(b: Book, id: nat, side: MDEntryType)
    requires Consistent(b) && !side.Trade?
    ensures SumsOf(LevelsOf(Withdraw(b, id), side), b.entries - {id}, side)
  {
    var levels, after := LevelsOf(b, side), LevelsOf(Withdraw(b, id), side);
    forall px
      ensures At(after, px) == LiveQty(b.entries - {id}, side, px)
    {
      LiveQtyDrop(b.entries, id, side, px);
      if id in b.entries && b.entries[id].side == side {
        var e := b.entries[id];
        LiveQtyDrop(b.entries, id, side, e.price);
        assert Positive(b.entries - {id});
        LiveQtyPositive(b.entries - {id}, side, e.price);
        assert At(levels, e.price) == LiveQty(b.entries, side, e.price);
        LevelAddAt(levels, e.price, -e.qty, px);
      }
    }
    if id in b.entries {
      LevelAddPositive(levels, b.entries[id].price, -b.entries[id].qty);
    }
  }

  /** Adding an entry under a new id adds its share. */
  lemma InsertKeepsSums(b: Book, id: nat, e: EntryInfo, side: MDEntryType)
    requires Consistent(b) && e.qty > 0 && id !in b.entries && !side.Trade?
    ensures SumsOf(LevelsOf(Contribute(b, e, 1), side), b.entries[id := e], side)
  {
    var levels := LevelsOf(b, side);
    forall px
      ensures At(LevelsOf(Contribute(b, e, 1), side), px) == LiveQty(b.entries[id := e], side, px)
    {
      LiveQtyPut(b.entries, id, e, side, px);
      if e.side == side {
        assert At(levels, e.price) == LiveQty(b.entries, side, e.price);
        LiveQtyPositive(b.entries, side, e.price);
        LevelAddAt(levels, e.price, e.qty, px);
      }
    }
    LevelAddPositive(levels, e.price, e.qty);
  }

  lemma DropKeeps(b: Book, id: nat)
    requires Consistent(b)
    ensures Consistent(Withdraw(b, id).(entries := b.entries - {id}))
  {
    WithdrawKeepsSums(b, id, Bid);
    WithdrawKeepsSums(b, id, Offer);
  }

  lemma InsertKeeps(b: Book, id: nat, e: EntryInfo)
    requires Consistent(b) && e.qty > 0 && id !in b.entries
    ensures Consistent(Contribute(b.(entries := b.entries[id := e]), e, 1))
  {
    InsertKeepsSums(b, id, e, Bid);
    InsertKeepsSums(b, id, e, Offer);
  }

  /** A New over an id that was only a trade: the old entry never counted. */
  lemma TradeDoesNotCount(b: Book, id: nat)
    requires Consistent(b) && id in b.entries && b.entries[id].side.Trade?
    ensures Consistent(b.(entries := b.entries - {id}))
  {
    DropKeeps(b, id);
  }

  /** The old quantity of an overwritten entry is left behind in its level. */
  lemma NewOverLiveBreaks(b: Book, ev: LOBEvent)
    requires Consistent(b) && NewOverLive(b, ev)
    ensures !Consistent(Apply(b, ev))
  {
    var earlier, info := b.entries[ev.entryId], EntryInfo(ev.side, ev.price, ev.qty);
    var px, side := earlier.price, earlier.side;
    LiveQtyPut(b.entries, ev.entryId, info, side, px);
    assert At(LevelsOf(b, side), px) == LiveQty(b.entries, side, px);
    LiveQtyPositive(b.entries, side, px);
    assert At(LevelsOf(Apply(b, ev), side), px) != LiveQty(Apply(b, ev).entries, side, px);
  }

  /** An event keeps the levels equal to the sums exactly when it is not a New over a live
      quote: Change and Delete always do, whatever they carry. */
  lemma {:induction false} KeepsSumsIff(b: Book, ev: LOBEvent)
    requires Consistent(b)
    ensures Consistent(Apply(b, ev)) <==> !NewOverLive(b, ev)
  {
    var info := EntryInfo(ev.side, ev.price, ev.qty);
    var id := ev.entryId;
    var rest := Withdraw(b, id).(entries := b.entries - {id});
    assert (b.entries - {id})[id := info] == b.entries[id := info];
    DropKeeps(b, id);
    match ev.action
    case New =>
      if NewOverLive(b, ev) {
        NewOverLiveBreaks(b, ev);
      } else if ev.qty > 0 {
        if id in b.entries {
          TradeDoesNotCount(b, id);
          InsertKeeps(b.(entries := b.entries - {id}), id, info);
        } else {
          InsertKeeps(b, id, info);
        }
      }
    case Change =>
      if ev.qty > 0 {
        InsertKeeps(rest, id, info);
        assert Apply(b, ev) == Contribute(rest.(entries := rest.entries[id := info]), info, 1);
      }
    case Delete =>
  }

  // ---- Whole runs ----

  /** No event of the run is a New over a live quote, each judged in the book it meets. */
  ghost predicate CleanRun(evs: seq<LOBEvent>) {
    forall i :: 0 <= i < |evs| ==> !NewOverLive(ApplyAll(EMPTY_BOOK, evs[..i]), evs[i])
  }

  lemma {:induction false} CleanRunConsistent(evs: seq<LOBEvent>, n: nat)
    requires CleanRun(evs) && n <= |evs|
    ensures Consistent(ApplyAll(EMPTY_BOOK, evs[..n]))
  {
    if n == 0 {
      forall px
        ensures LiveQty(map[], Bid, px) == 0 && LiveQty(map[], Offer, px) == 0
      {
      }
    } else {
      CleanRunConsistent(evs, n - 1);
      assert evs[..n][..n - 1] == evs[..n - 1];
      KeepsSumsIff(ApplyAll(EMPTY_BOOK, evs[..n - 1]), evs[n - 1]);
    }
  }

  /** The levels equal the sums of the live entries at every point of a run if and only if the
      run never re-uses a live id for a New. */
  lemma {:induction false} ConsistentThroughoutIff(evs: seq<LOBEvent>)
    ensures CleanRun(evs) <==> forall n :: 0 <= n <= |evs| ==> Consistent(ApplyAll(EMPTY_BOOK, evs[..n]))
  {
    if CleanRun(evs) {
      forall n | 0 <= n <= |evs|
        ensures Consistent(ApplyAll(EMPTY_BOOK, evs[..n]))
      {
        CleanRunConsistent(evs, n);
      }
    } else {
      var i :| 0 <= i < |evs| && NewOverLive(ApplyAll(EMPTY_BOOK, evs[..i]), evs[i]);
      assert evs[..i + 1][..i] == evs[..i];
      if Consistent(ApplyAll(EMPTY_BOOK, evs[..i])) {
        KeepsSumsIff(ApplyAll(EMPTY_BOOK, evs[..i]), evs[i]);
        assert !Consistent(ApplyAll(EMPTY_BOOK, evs[..i + 1]));
      }
    }
  }

  /** Consistent books have no memory: the same live entries mean the same book. */
  lemma {:induction false} SameEntriesSameBook(a: Book, b: Book)
    requires Consistent(a) && Consistent(b) && a.entries == b.entries
    ensures a == b
  {
    forall px
      ensures (px in a.bids <==> px in b.bids) && (px in a.asks <==> px in b.asks)
      ensures px in a.bids ==> a.bids[px] == b.bids[px]
      ensures px in a.asks ==> a.asks[px] == b.asks[px]
    {
      assert At(a.bids, px) == LiveQty(a.entries, Bid, px) == At(b.bids, px);
      assert At(a.asks, px) == LiveQty(a.entries, Offer, px) == At(b.asks, px);
    }
    assert a.bids == b.bids && a.asks == b.asks;
  }

  /** Two runs that leave the same orders leave the same book, however they got there. */
  lemma {:induction false} RunsAgree(evs: seq<LOBEvent>, evs': seq<LOBEvent>)
    requires CleanRun(evs) && CleanRun(evs')
    requires ApplyAll(EMPTY_BOOK, evs).entries == ApplyAll(EMPTY_BOOK, evs').entries
    ensures ApplyAll(EMPTY_BOOK, evs) == ApplyAll(EMPTY_BOOK, evs')
  {
    CleanRunConsistent(evs, |evs|);
    CleanRunConsistent(evs', |evs'|);
    assert evs[..|evs|] == evs && evs'[..|evs'|] == evs';
    SameEntriesSameBook(ApplyAll(EMPTY_BOOK, evs), ApplyAll(EMPTY_BOOK, evs'));
  }

  /** What one event does to the entries alone. */
  function EntriesAfter(es: Entries, ev: LOBEvent): Entries {
    if ev.qty > 0 && !ev.action.Delete? then es[ev.entryId := EntryInfo(ev.side, ev.price, ev.qty)]
    else if ev.action.New? then es
    else es - {ev.entryId}
  }

  lemma EntriesOfApply(b: Book, ev: LOBEvent)
    ensures Apply(b, ev).entries == EntriesAfter(b.entries, ev)
  {
  }

  lemma EntriesCommute(es: Entries, ev: LOBEvent, ev': LOBEvent)
    requires ev.entryId != ev'.entryId
    ensures EntriesAfter(EntriesAfter(es, ev), ev') == EntriesAfter(EntriesAfter(es, ev'), ev)
  {
  }

  lemma StaysClean(b: Book, ev: LOBEvent, ev': LOBEvent)
    requires Consistent(b) && ev.entryId != ev'.entryId
    requires !NewOverLive(b, ev) && !NewOverLive(b, ev')
    ensures Consistent(Apply(Apply(b, ev), ev'))
  {
    KeepsSumsIff(b, ev);
    EntriesOfApply(b, ev);
    KeepsSumsIff(Apply(b, ev), ev');
  }

  /** Events on different orders commute. */
  lemma {:induction false} DistinctIdsCommute(b: Book, ev: LOBEvent, ev': LOBEvent)
    requires Consistent(b) && ev.entryId != ev'.entryId
    requires !NewOverLive(b, ev) && !NewOverLive(b, ev')
    ensures Apply(Apply(b, ev), ev') == Apply(Apply(b, ev'), ev)
  {
    var one, two := Apply(Apply(b, ev), ev'), Apply(Apply(b, ev'), ev);
    StaysClean(b, ev, ev');
    StaysClean(b, ev', ev);
    assert one.entries == two.entries by {
      EntriesOfApply(b, ev);
      EntriesOfApply(b, ev');
      EntriesOfApply(Apply(b, ev), ev');
      EntriesOfApply(Apply(b, ev'), ev);
      EntriesCommute(b.entries, ev, ev');
    }
    SameEntriesSameBook(one, two);
  }

  /** A Change is the Delete of the id followed by a New under it, in any book. */
  lemma ChangeIsDeleteThenNew(b: Book, ev: LOBEvent)
    requires ev.action.Change?
    ensures Apply(b, ev) == Apply(Apply(b, ev.(action := Delete)), ev.(action := New))
  {
    var info := EntryInfo(ev.side, ev.price, ev.qty);
    assert (b.entries - {ev.entryId})[ev.entryId := info] == b.entries[ev.entryId := info];
  }

  // ---- Best prices ----

  lemma SomeMember<T>(s: set<T>) returns (x: T)
    requires s != {}
    ensures x in s
  {
    x :| x in s;
  }

  lemma {:induction false} MaxExists(s: set<int>)
    requires s != {}
    ensures exists m :: m in s && forall x :: x in s ==> x <= m
    decreases |s|
  {
    var x := SomeMember(s);
    if s == {x} {
      assert x in s;
    } else {
      MaxExists(s - {x});
      var m :| m in s - {x} && forall y :: y in s - {x} ==> y <= m;
      var top := if m < x then x else m;
      assert top in s && forall y :: y in s ==> y <= top by {
        forall y | y in s
          ensures y <= top
        {
          if y != x { assert y in s - {x}; }
        }
      }
    }
  }

  lemma {:induction false} MinExists(s: set<int>)
    requires s != {}
    ensures exists m :: m in s && forall x :: x in s ==> m <= x
    decreases |s|
  {
    var x := SomeMember(s);
    if s == {x} {
      assert x in s;
    } else {
      MinExists(s - {x});
      var m :| m in s - {x} && forall y :: y in s - {x} ==> m <= y;
      var low := if x < m then x else m;
      assert low in s && forall y :: y in s ==> low <= y by {
        forall y | y in s
          ensures low <= y
        {
          if y != x { assert y in s - {x}; }
        }
      }
    }
  }

  /** The last key of an ordered map. */
  function MaxKey(s: set<int>): (m: int)
    requires s != {}
    ensures m in s && forall x :: x in s ==> x <= m
  {
    MaxExists(s);
    var m :| m in s && forall x :: x in s ==> x <= m;
    m
  }

  /** The first key of an ordered map. */
  function MinKey(s: set<int>): (m: int)
    requires s != {}
    ensures m in s && forall x :: x in s ==> m <= x
  {
    MinExists(s);
    var m :| m in s && forall x :: x in s ==> m <= x;
    m
  }

  function BestBid(b: Book): int {
    if b.bids == map[] then 0 else MaxKey(b.bids.Keys)
  }

  function BestAsk(b: Book): int {
    if b.asks == map[] then 0 else MinKey(b.asks.Keys)
  }

  lemma LevelIffQuoted(b: Book, side: MDEntryType, px: int)
    requires Consistent(b) && !side.Trade?
    ensures px in LevelsOf(b, side) <==> Quoted(b.entries, side, px)
  {
    LiveQtyPositive(b.entries, side, px);
    assert At(LevelsOf(b, side), px) == LiveQty(b.entries, side, px);
  }

  /** The best prices read off the levels are the highest live bid and the lowest live offer,
      and 0 stands for a side without orders. */
  lemma {:induction false} BestPricesAreExtreme(b: Book)
    requires Consistent(b)
    ensures if exists px :: Quoted(b.entries, Bid, px)
            then Quoted(b.entries, Bid, BestBid(b)) && forall px :: Quoted(b.entries, Bid, px) ==> px <= BestBid(b)
            else BestBid(b) == 0
    ensures if exists px :: Quoted(b.entries, Offer, px)
            then Quoted(b.entries, Offer, BestAsk(b)) && forall px :: Quoted(b.entries, Offer, px) ==> BestAsk(b) <= px
            else BestAsk(b) == 0
  {
    forall px
      ensures (px in b.bids <==> Quoted(b.entries, Bid, px)) && (px in b.asks <==> Quoted(b.entries, Offer, px))
    {
      LevelIffQuoted(b, Bid, px);
      LevelIffQuoted(b, Offer, px);
    }
    if b.bids != map[] {
      assert BestBid(b) in b.bids;
    }
    if b.asks != map[] {
      assert BestAsk(b) in b.asks;
    }
  }

  // ---- The book object ----

  class OrderBook {
    var bids: Levels
    var asks: Levels
    var entries: Entries
    var trades: seq<LOBEvent>     // what the trade callback was given
    var cancels: seq<LOBEvent>    // what the cancel callback was given

    function State(): Book
      reads this
    {
      Book(bids, asks, entries)
    }

    constructor ()
      ensures State() == EMPTY_BOOK && trades == [] && cancels == []
    {
      bids, asks, entries := map[], map[], map[];
      trades, cancels := [], [];
    }

    method AddToSide(side: MDEntryType, px: int, delta: int)
      modifies this`bids, this`asks
      ensures bids == if side.Bid? then LevelAdd(old(bids), px, delta) else old(bids)
      ensures asks == if side.Offer? then LevelAdd(old(asks), px, delta) else old(asks)
    {
      if side.Bid? {
        bids := LevelAdd(bids, px, delta);
      } else if side.Offer? {
        asks := LevelAdd(asks, px, delta);
      }
    }

    /** Applies one event; says whether the best bid or ask moved. */
    method Update(ev: LOBEvent) returns (moved: bool)
      modifies this
      ensures State() == Apply(old(State()), ev)
      ensures moved <==> BestBid(State()) != BestBid(old(State())) || BestAsk(State()) != BestAsk(old(State()))
      ensures trades == old(trades) + if ev.action.New? && ev.qty > 0 && ev.side.Trade? then [ev] else []
      ensures cancels == old(cancels) + if ev.action.Delete? && ev.entryId in old(entries)
                                        then [Resolve(old(State()), ev)] else []
    {
      var prevBid, prevAsk := BestBid(State()), BestAsk(State());
      match ev.action {
        case New =>
          if ev.qty > 0 {
            entries := entries[ev.entryId := EntryInfo(ev.side, ev.price, ev.qty)];
            AddToSide(ev.side, ev.price, ev.qty);
            if ev.side.Trade? {
              trades := trades + [ev];
            }
          }
        case Change =>
          if ev.entryId in entries {
            var was := entries[ev.entryId];
            AddToSide(was.side, was.price, -was.qty);
          }
          if ev.qty > 0 {
            entries := entries[ev.entryId := EntryInfo(ev.side, ev.price, ev.qty)];
            AddToSide(ev.side, ev.price, ev.qty);
          } else {
            entries := entries - {ev.entryId};
          }
        case Delete =>
          if ev.entryId in entries {
            var was := entries[ev.entryId];
            AddToSide(was.side, was.price, -was.qty);
            entries := entries - {ev.entryId};
            cancels := cancels + [ev.(side := was.side, price := was.price, qty := was.qty)];
          } else {
            assert entries - {ev.entryId} == entries;
          }
      }
      moved := BestBid(State()) != prevBid || BestAsk(State()) != prevAsk;
    }

    method Clear()
      modifies this
      ensures State() == EMPTY_BOOK && trades == old(trades) && cancels == old(cancels)
    {
      bids, asks, entries := map[], map[], map[];
    }

    /** The live entry of an id, if there is one. */
    method LookupEntry(id: nat) returns (e: Option<EntryInfo>)
      ensures e == if id in entries then Some(entries[id]) else None
    {
      e := if id in entries then Some(entries[id]) else None;
    }
  }

  /** A Delete carries only the id; the rest comes from the live entry, if there is one. */
  function Resolve(b: Book, ev: LOBEvent): LOBEvent {
    if ev.entryId in b.entries then
      var e := b.entries[ev.entryId];
      ev.(side := e.side, price := e.price, qty := e.qty)
    else ev
  }
}
