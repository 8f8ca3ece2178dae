/** The market data gateway: decoded FIX messages become events, which go to the log, the book and
    the queue of the signal thread, in that order. */
module FixMdGateway {
  import opened Types
  import B = OrderBook
  import opened EventFeed

  /** One repeating group of a message; None is a field that is not set. */
  datatype MDEntry = MDEntry(
    action: Option<char>,      // MDUpdateAction
    id: Option<nat>,           // MDEntryID, None also when it is not a number
    kind: Option<char>,        // MDEntryType
    px: Option<int>,
    size: Option<int>)

  /** A message with the groups it announces; None when it does not announce them. */
  datatype Message =
    | IncrementalRefresh(ts: nat, entries: Option<seq<MDEntry>>)
    | SnapshotFullRefresh(ts: nat, entries: Option<seq<MDEntry>>)

  /** What becomes of one entry. Abort is the missing-field exception: it leaves the message. */
  datatype Outcome = Abort | Skip | Emit(ev: LOBEvent)

  // ---- One entry ----

  function GetOr<T>(o: Option<T>, fallback: T): T {
    if o.Some? then o.value else fallback
  }

  function ActionOf(c: char): Option<MDUpdateAction> {
    if c == '0' then Some(New) else if c == '1' then Some(Change) else if c == '2' then Some(Delete) else None
  }

  function KindOf(c: char): Option<MDEntryType> {
    if c == '0' then Some(Bid) else if c == '1' then Some(Offer) else if c == '2' then Some(Trade) else None
  }

  /** FIX 4.4, MDUpdateAction (tag 279). */
  function ActionCode(a: MDUpdateAction): char {
    match a
    case New => '0'
    case Change => '1'
    case Delete => '2'
  }

  /** FIX 4.4, MDEntryType (tag 269). */
  function KindCode(k: MDEntryType): char {
    match k
    case Bid => '0'
    case Offer => '1'
    case Trade => '2'
  }

  /** The handler knows exactly the codes of these actions and types. */
  lemma CodesRoundTrip(c: char, a: MDUpdateAction, k: MDEntryType)
    ensures ActionOf(c) == Some(a) <==> c == ActionCode(a)
    ensures KindOf(c) == Some(k) <==> c == KindCode(k)
  {
    match a {
      case New =>
      case Change =>
      case Delete =>
    }
  }

  /** A Delete as it comes off the wire: an id and nothing else. */
  function BareDelete(ts: nat, id: nat): LOBEvent {
    LOBEvent(ts, id, 0, 0, Delete, Bid)
  }

  function Quote(ts: nat, e: MDEntry, action: MDUpdateAction, side: MDEntryType): LOBEvent {
    LOBEvent(ts, GetOr(e.id, 0), GetOr(e.px, 0), GetOr(e.size, 0), action, side)
  }

  function DecodeRefresh(b: B.Book, ts: nat, e: MDEntry): Outcome {
    if e.action.None? then Abort
    else
      match ActionOf(e.action.value)
      case None => Skip
      case Some(Delete) => Emit(B.Resolve(b, BareDelete(ts, GetOr(e.id, 0))))
      case Some(action) =>
        if e.kind.None? then Abort
        else
          match KindOf(e.kind.value)
          case None => Skip
          case Some(side) => Emit(Quote(ts, e, action, side))
  }

  /** An event written out as the entry of a refresh. */
  function WireEntry(ev: LOBEvent): MDEntry {
    MDEntry(Some(ActionCode(ev.action)), Some(ev.entryId), Some(KindCode(ev.side)), Some(ev.price), Some(ev.qty))
  }

  /** Decoding undoes that, except that a Delete keeps only its id and takes the rest from the book. */
  lemma EntryRoundTrip(b: B.Book, ev: LOBEvent)
    ensures DecodeRefresh(b, ev.timestampNs, WireEntry(ev))
         == Emit(if ev.action.Delete? then B.Resolve(b, BareDelete(ev.timestampNs, ev.entryId)) else ev)
  {
    CodesRoundTrip(ActionCode(ev.action), ev.action, ev.side);
    CodesRoundTrip(KindCode(ev.side), ev.action, ev.side);
  }

  function DecodeSnapshot(ts: nat, e: MDEntry): Outcome {
    if e.kind.None? then Abort
    else
      match KindOf(e.kind.value)
      case None => Skip
      case Some(Trade) => Skip
      case Some(side) => Emit(Quote(ts, e, New, side))
  }

  // ---- Messages ----

  /** `mark` is the length the log had when the book was last cleared, and marks[k] what it was
      when event k was logged. */
  datatype Gateway = Gateway(book: B.Book, log: seq<LOBEvent>, line: Line, mark: nat, marks: seq<nat>)

  const STARTED := Gateway(B.EMPTY_BOOK, [], EMPTY_LINE, 0, [])

  function Publish(out: Outlet, g: Gateway, ev: LOBEvent): Gateway {
    Gateway(B.Apply(g.book, ev), g.log + [ev], Offered(out, g.line, |g.log|, ev), g.mark, g.marks + [g.mark])
  }

  function Cleared(g: Gateway): Gateway {
    g.(book := B.EMPTY_BOOK, mark := |g.log|)
  }

  function Refresh(out: Outlet, g: Gateway, ts: nat, entries: seq<MDEntry>): Gateway
    decreases |entries|
  {
    if entries == [] then g
    else
      match DecodeRefresh(g.book, ts, entries[0])
      case Abort => g
      case Skip => Refresh(out, g, ts, entries[1..])
      case Emit(ev) => Refresh(out, Publish(out, g, ev), ts, entries[1..])
  }

  function Snapshot(out: Outlet, g: Gateway, ts: nat, entries: seq<MDEntry>): Gateway
    decreases |entries|
  {
    if entries == [] then g
    else
      match DecodeSnapshot(ts, entries[0])
      case Abort => g
      case Skip => Snapshot(out, g, ts, entries[1..])
      case Emit(ev) => Snapshot(out, Publish(out, g, ev), ts, entries[1..])
  }

  /** A snapshot clears the book before it looks for its entries. */
  function Handle(out: Outlet, g: Gateway, m: Message): Gateway {
    match m
    case IncrementalRefresh(ts, entries) => Refresh(out, g, ts, GetOr(entries, []))
    case SnapshotFullRefresh(ts, entries) => Snapshot(out, Cleared(g), ts, GetOr(entries, []))
  }

  function Run(out: Outlet, ms: seq<Message>): Gateway {
    if ms == [] then STARTED else Handle(out, Run(out, ms[..|ms| - 1]), ms[|ms| - 1])
  }

  // ---- What every message keeps ----

  /** The book as it was just before event k: the events since the clear before it. */
  ghost function BookBefore(g: Gateway, k: nat): B.Book
    requires k < |g.log| == |g.marks| && g.marks[k] <= k
  {
    B.ApplyAll(B.EMPTY_BOOK, g.log[g.marks[k]..k])
  }

  ghost predicate ResolvedAt(g: Gateway, k: nat)
    requires k < |g.log| == |g.marks| && g.marks[k] <= k
  {
    var ev := g.log[k];
    ev.action.Delete? ==> ev == B.Resolve(BookBefore(g, k), BareDelete(ev.timestampNs, ev.entryId))
  }

  ghost predicate Inv(g: Gateway) {
    && |g.marks| == |g.log| && g.mark <= |g.log|
    && (forall k :: 0 <= k < |g.log| ==> g.marks[k] <= k)
    && g.book == B.ApplyAll(B.EMPTY_BOOK, g.log[g.mark..])
    && (forall k :: 0 <= k < |g.log| ==> ResolvedAt(g, k))
  }

  /** The event is what some entry decodes to in this book. */
  ghost predicate Decoded(b: B.Book, ev: LOBEvent) {
    ev.action.Delete? ==> ev == B.Resolve(b, BareDelete(ev.timestampNs, ev.entryId))
  }

  lemma DecodeRefreshDecodes(b: B.Book, ts: nat, e: MDEntry)
    ensures DecodeRefresh(b, ts, e).Emit? ==> Decoded(b, DecodeRefresh(b, ts, e).ev)
  {
  }

  lemma ResolvedStays(g: Gateway, g': Gateway, k: nat)
    requires k < |g.log| == |g.marks| && g.marks[k] <= k && ResolvedAt(g, k)
    requires |g'.log| == |g'.marks| && g.log <= g'.log && g.marks <= g'.marks
    ensures ResolvedAt(g', k)
  {
    assert g'.log[g'.marks[k]..k] == g.log[g.marks[k]..k];
  }

  lemma PublishKeeps(out: Outlet, g: Gateway, ev: LOBEvent)
    requires Inv(g) && Decoded(g.book, ev)
    ensures Inv(Publish(out, g, ev))
  {
    var g', n := Publish(out, g, ev), |g.log|;
    var since := g.log[g.mark..];
    assert g'.log[g'.mark..] == since + [ev];
    assert (since + [ev])[..|since|] == since;
    assert g'.log[..n] == g.log;
    forall k | 0 <= k < n
      ensures ResolvedAt(g', k)
    {
      ResolvedStays(g, g', k);
    }
    assert g'.log[g'.marks[n]..n] == since;
  }

  lemma {:induction false} RefreshKeeps(out: Outlet, g: Gateway, ts: nat, entries: seq<MDEntry>)
    requires Inv(g)
    ensures Inv(Refresh(out, g, ts, entries))
    decreases |entries|
  {
    if entries != [] {
      var outcome := DecodeRefresh(g.book, ts, entries[0]);
      if outcome.Skip? {
        RefreshKeeps(out, g, ts, entries[1..]);
      } else if outcome.Emit? {
        DecodeRefreshDecodes(g.book, ts, entries[0]);
        PublishKeeps(out, g, outcome.ev);
        RefreshKeeps(out, Publish(out, g, outcome.ev), ts, entries[1..]);
      }
    }
  }

  lemma {:induction false} SnapshotKeeps(out: Outlet, g: Gateway, ts: nat, entries: seq<MDEntry>)
    requires Inv(g)
    ensures Inv(Snapshot(out, g, ts, entries))
    decreases |entries|
  {
    if entries != [] {
      var outcome := DecodeSnapshot(ts, entries[0]);
      if outcome.Skip? {
        SnapshotKeeps(out, g, ts, entries[1..]);
      } else if outcome.Emit? {
        PublishKeeps(out, g, outcome.ev);
        SnapshotKeeps(out, Publish(out, g, outcome.ev), ts, entries[1..]);
      }
    }
  }

  lemma {:induction false} RunKeeps(out: Outlet, ms: seq<Message>)
    ensures Inv(Run(out, ms))
  {
    if ms != [] {
      var g, m := Run(out, ms[..|ms| - 1]), ms[|ms| - 1];
      RunKeeps(out, ms[..|ms| - 1]);
      match m
      case IncrementalRefresh(ts, entries) =>
        RefreshKeeps(out, g, ts, GetOr(entries, []));
      case SnapshotFullRefresh(ts, entries) =>
        forall k | 0 <= k < |g.log|
          ensures ResolvedAt(Cleared(g), k)
        {
          ResolvedStays(g, Cleared(g), k);
        }
        SnapshotKeeps(out, Cleared(g), ts, GetOr(entries, []));
    }
  }

  // ---- Main results ----

  /** After any messages, the events logged since the last clear, replayed into an empty book,
      give the gateway's own book. */
  lemma {:induction false} LogRebuildsBook(out: Outlet, ms: seq<Message>)
    ensures var g := Run(out, ms); g.mark <= |g.log| && g.book == B.ApplyAll(B.EMPTY_BOOK, g.log[g.mark..])
  {
    RunKeeps(out, ms);
  }

  lemma {:induction false} RunSnoc(out: Outlet, ms: seq<Message>, m: Message)
    ensures Run(out, ms + [m]) == Handle(out, Run(out, ms), m)
  {
    assert (ms + [m])[..|ms|] == ms;
  }

  lemma {:induction false} LogOfSnapshot(out: Outlet, ms: seq<Message>, m: Message)
    requires m.SnapshotFullRefresh?
    ensures Run(out, ms + [m]).log == Run(out, ms).log + SnapshotEvents(m.ts, GetOr(m.entries, []))
  {
    RunSnoc(out, ms, m);
    SnapshotLogs(out, Cleared(Run(out, ms)), m.ts, GetOr(m.entries, []));
  }

  lemma {:induction false} EventsOfOne(ts: nat, e: MDEntry, entries: seq<MDEntry>)
    requires entries == [e] && DecodeSnapshot(ts, e).Emit?
    ensures SnapshotEvents(ts, entries) == [DecodeSnapshot(ts, e).ev]
  {
    assert entries[1..] == [];
  }

  /** The clear itself is not logged, so the log as a whole does not rebuild the book: an order
      of a first snapshot that a second, empty one no longer has comes back to life in a replay. */
  lemma {:induction false} WholeLogDoesNot(out: Outlet, first: Message, second: Message, quote: MDEntry)
    requires quote == MDEntry(None, Some(7), Some('0'), Some(100), Some(1))
    requires first == SnapshotFullRefresh(1, Some([quote])) && second == SnapshotFullRefresh(2, Some([]))
    ensures var g := Run(out, [first] + [second]);
            g.book == B.EMPTY_BOOK && 7 in B.ApplyAll(B.EMPTY_BOOK, g.log).entries
  {
    var ev := Quote(1, quote, New, Bid);
    assert [] + [first] == [first];
    LogOfSnapshot(out, [], first);
    LogOfSnapshot(out, [first], second);
    SnapshotForgets(out, [first], second);
    EventsOfOne(1, quote, [quote]);
    assert SnapshotEvents(2, []) == [] && [] + [ev] + [] == [ev] && [ev][..0] == [];
  }

  /** The event decides the entry of this id, whatever it was before. */
  predicate Settles(ev: LOBEvent, id: nat) {
    ev.entryId == id && !(ev.action.New? && ev.qty <= 0)
  }

  ghost predicate Settled(evs: seq<LOBEvent>, id: nat) {
    exists i :: 0 <= i < |evs| && Settles(evs[i], id)
  }

  ghost predicate SameEntry(a: B.Entries, b: B.Entries, id: nat) {
    (id in a <==> id in b) && (id in a ==> a[id] == b[id])
  }

  lemma {:induction false} EntryFrom(b: B.Book, evs: seq<LOBEvent>, id: nat)
    ensures SameEntry(B.ApplyAll(b, evs).entries,
                      if Settled(evs, id) then B.ApplyAll(B.EMPTY_BOOK, evs).entries else b.entries, id)
    ensures !Settled(evs, id) ==> id !in B.ApplyAll(B.EMPTY_BOOK, evs).entries
  {
    if evs != [] {
      var n := |evs| - 1;
      var before, ev := evs[..n], evs[n];
      EntryFrom(b, before, id);
      B.EntriesOfApply(B.ApplyAll(b, before), ev);
      B.EntriesOfApply(B.ApplyAll(B.EMPTY_BOOK, before), ev);
      if Settled(before, id) {
        var i :| 0 <= i < n && Settles(before[i], id);
        assert Settles(evs[i], id);
      } else if Settled(evs, id) {
        var i :| 0 <= i <= n && Settles(evs[i], id);
        assert i == n || Settles(before[i], id);
      } else {
        assert !Settles(evs[n], id);
      }
    }
  }

  lemma {:induction false} ApplyAllSnoc(b: B.Book, evs: seq<LOBEvent>, ev: LOBEvent)
    ensures B.ApplyAll(b, evs + [ev]) == B.Apply(B.ApplyAll(b, evs), ev)
  {
    assert (evs + [ev])[..|evs|] == evs;
  }

  lemma {:induction false} ApplyAllSplit(b: B.Book, before: seq<LOBEvent>, after: seq<LOBEvent>)
    ensures B.ApplyAll(b, before + after) == B.ApplyAll(B.ApplyAll(b, before), after)
    decreases |after|
  {
    if after == [] {
      assert before + after == before;
    } else {
      var front, last := after[..|after| - 1], after[|after| - 1];
      ApplyAllSplit(b, before, front);
      ApplyAllSnoc(b, before + front, last);
      ApplyAllSnoc(B.ApplyAll(b, before), front, last);
      assert after == front + [last] && before + after == before + front + [last];
    }
  }

  lemma SameMaps(a: B.Entries, b: B.Entries)
    requires forall id: nat :: SameEntry(a, b, id)
    ensures a == b
  {
    forall id: nat
      ensures id in a <==> id in b
      ensures id in a ==> a[id] == b[id]
    {
      assert SameEntry(a, b, id);
    }
  }

  lemma {:induction false} SameOrdersIff(stale: B.Book, since: seq<LOBEvent>)
    ensures B.ApplyAll(stale, since).entries == B.ApplyAll(B.EMPTY_BOOK, since).entries
       <==> forall id :: id in stale.entries ==> Settled(since, id)
  {
    var one, two := B.ApplyAll(stale, since).entries, B.ApplyAll(B.EMPTY_BOOK, since).entries;
    forall id: nat
      ensures SameEntry(one, two, id) <==> (id in stale.entries ==> Settled(since, id))
    {
      EntryFrom(stale, since, id);
    }
    if forall id: nat :: SameEntry(one, two, id) {
      SameMaps(one, two);
    }
  }

  /** A replay of the whole log ends with the gateway's live orders if and only if every order it
      holds at the last clear is decided anew by an event after it. */
  lemma {:induction false} WholeLogRebuildsIff(out: Outlet, ms: seq<Message>)
    ensures var g := Run(out, ms);
            && g.mark <= |g.log|
            && (B.ApplyAll(B.EMPTY_BOOK, g.log).entries == g.book.entries <==>
                forall id :: id in B.ApplyAll(B.EMPTY_BOOK, g.log[..g.mark]).entries ==> Settled(g.log[g.mark..], id))
  {
    var g := Run(out, ms);
    LogRebuildsBook(out, ms);
    ApplyAllSplit(B.EMPTY_BOOK, g.log[..g.mark], g.log[g.mark..]);
    assert g.log[..g.mark] + g.log[g.mark..] == g.log;
    SameOrdersIff(B.ApplyAll(B.EMPTY_BOOK, g.log[..g.mark]), g.log[g.mark..]);
  }

  lemma {:induction false} StaysClean(stale: B.Book, front: seq<LOBEvent>, ev: LOBEvent)
    requires !B.NewOverLive(B.ApplyAll(stale, front), ev)
    ensures !B.NewOverLive(B.ApplyAll(B.EMPTY_BOOK, front), ev)
  {
    EntryFrom(stale, front, ev.entryId);
  }

  lemma ApplyAllUpTo(log: seq<LOBEvent>, m: nat, k: nat)
    requires m <= k <= |log|
    ensures B.ApplyAll(B.EMPTY_BOOK, log[..k]) == B.ApplyAll(B.ApplyAll(B.EMPTY_BOOK, log[..m]), log[m..k])
  {
    ApplyAllSplit(B.EMPTY_BOOK, log[..m], log[m..k]);
    assert log[..m] + log[m..k] == log[..k];
  }

  lemma CleanAt(log: seq<LOBEvent>, m: nat, k: nat)
    requires m <= k < |log| && B.CleanRun(log)
    ensures !B.NewOverLive(B.ApplyAll(B.EMPTY_BOOK, log[m..k]), log[k])
  {
    assert !B.NewOverLive(B.ApplyAll(B.EMPTY_BOOK, log[..k]), log[k]);
    ApplyAllUpTo(log, m, k);
    StaysClean(B.ApplyAll(B.EMPTY_BOOK, log[..m]), log[m..k], log[k]);
  }

  /** A clean log is clean from the last clear on: what is live since then is live in the whole. */
  lemma {:induction false} CleanSuffix(log: seq<LOBEvent>, m: nat)
    requires m <= |log| && B.CleanRun(log)
    ensures B.CleanRun(log[m..])
  {
    var since := log[m..];
    forall i | 0 <= i < |since|
      ensures !B.NewOverLive(B.ApplyAll(B.EMPTY_BOOK, since[..i]), since[i])
    {
      CleanAt(log, m, m + i);
      assert since[..i] == log[m..m + i];
    }
  }

  lemma {:induction false} CleanRunEnds(evs: seq<LOBEvent>)
    requires B.CleanRun(evs)
    ensures B.Consistent(B.ApplyAll(B.EMPTY_BOOK, evs))
  {
    B.CleanRunConsistent(evs, |evs|);
    assert evs[..|evs|] == evs;
  }

  /** When the log has no New over a live quote, the same condition decides the whole book, levels
      and all. */
  lemma {:induction false} CleanLogRebuildsBookIff(out: Outlet, ms: seq<Message>)
    requires B.CleanRun(Run(out, ms).log)
    ensures var g := Run(out, ms);
            && g.mark <= |g.log|
            && (B.ApplyAll(B.EMPTY_BOOK, g.log) == g.book <==>
                forall id :: id in B.ApplyAll(B.EMPTY_BOOK, g.log[..g.mark]).entries ==> Settled(g.log[g.mark..], id))
  {
    var g := Run(out, ms);
    WholeLogRebuildsIff(out, ms);
    LogRebuildsBook(out, ms);
    CleanSuffix(g.log, g.mark);
    CleanRunEnds(g.log);
    CleanRunEnds(g.log[g.mark..]);
    if B.ApplyAll(B.EMPTY_BOOK, g.log).entries == g.book.entries {
      B.SameEntriesSameBook(B.ApplyAll(B.EMPTY_BOOK, g.log), g.book);
    }
  }

  // ---- What gets into the queue ----

  lemma {:induction false} RefreshKeepsOrder(out: Outlet, g: Gateway, ts: nat, entries: seq<MDEntry>)
    requires Orderly(out, g.line, g.log)
    ensures var g' := Refresh(out, g, ts, entries); Orderly(out, g'.line, g'.log)
    decreases |entries|
  {
    if entries != [] {
      match DecodeRefresh(g.book, ts, entries[0])
      case Abort =>
      case Skip => RefreshKeepsOrder(out, g, ts, entries[1..]);
      case Emit(ev) =>
        OfferedIsOrderly(out, g.line, g.log, ev);
        RefreshKeepsOrder(out, Publish(out, g, ev), ts, entries[1..]);
    }
  }

  lemma {:induction false} SnapshotKeepsOrder(out: Outlet, g: Gateway, ts: nat, entries: seq<MDEntry>)
    requires Orderly(out, g.line, g.log)
    ensures var g' := Snapshot(out, g, ts, entries); Orderly(out, g'.line, g'.log)
    decreases |entries|
  {
    if entries != [] {
      match DecodeSnapshot(ts, entries[0])
      case Abort =>
      case Skip => SnapshotKeepsOrder(out, g, ts, entries[1..]);
      case Emit(ev) =>
        OfferedIsOrderly(out, g.line, g.log, ev);
        SnapshotKeepsOrder(out, Publish(out, g, ev), ts, entries[1..]);
    }
  }

  /** After any messages and whatever the other thread took in between, what it took and what still
      waits is the logged events that got in, in the order of the log; and an event was dropped
      exactly when the queue was full. */
  lemma {:induction false} EnqueuedInOrder(out: Outlet, ms: seq<Message>)
    ensures var g := Run(out, ms); Orderly(out, g.line, g.log)
  {
    if ms != [] {
      var g, m := Run(out, ms[..|ms| - 1]), ms[|ms| - 1];
      EnqueuedInOrder(out, ms[..|ms| - 1]);
      match m
      case IncrementalRefresh(ts, entries) =>
        RefreshKeepsOrder(out, g, ts, GetOr(entries, []));
      case SnapshotFullRefresh(ts, entries) =>
        SnapshotKeepsOrder(out, Cleared(g), ts, GetOr(entries, []));
    }
  }

  /** Event j set the entry its id has at the end: no later event of the id, other than a New
      without quantity, which the book ignores. */
  ghost predicate SetBy(evs: seq<LOBEvent>, id: nat, j: nat) {
    && j < |evs| && evs[j].entryId == id && !evs[j].action.Delete? && evs[j].qty > 0
    && forall i :: j < i < |evs| && evs[i].entryId == id ==> evs[i].action.New? && evs[i].qty <= 0
  }

  lemma SetBySnoc(evs: seq<LOBEvent>, ev: LOBEvent, id: nat, j: nat)
    requires j < |evs|
    ensures SetBy(evs + [ev], id, j) <==> SetBy(evs, id, j) && (ev.entryId == id ==> ev.action.New? && ev.qty <= 0)
  {
    var all := evs + [ev];
    if SetBy(all, id, j) {
      forall i | j < i < |evs| && evs[i].entryId == id
        ensures evs[i].action.New? && evs[i].qty <= 0
      {
        assert all[i] == evs[i];
      }
      assert all[|evs|] == ev;
    }
  }

  /** An order is live if and only if some event set it last, and then it is as that event said. */
  lemma {:induction false} LiveIffSet(evs: seq<LOBEvent>, id: nat)
    ensures id in B.ApplyAll(B.EMPTY_BOOK, evs).entries <==> exists j: nat :: SetBy(evs, id, j)
    ensures forall j: nat :: SetBy(evs, id, j) ==>
              B.ApplyAll(B.EMPTY_BOOK, evs).entries[id] == B.EntryInfo(evs[j].side, evs[j].price, evs[j].qty)
  {
    if evs != [] {
      var n := |evs| - 1;
      var before, ev := evs[..n], evs[n];
      assert evs == before + [ev];
      LiveIffSet(before, id);
      B.EntriesOfApply(B.ApplyAll(B.EMPTY_BOOK, before), ev);
      forall j | 0 <= j < n
        ensures SetBy(evs, id, j) <==> SetBy(before, id, j) && (ev.entryId == id ==> ev.action.New? && ev.qty <= 0)
      {
        SetBySnoc(before, ev, id, j);
      }
      assert SetBy(evs, id, n) <==> ev.entryId == id && !ev.action.Delete? && ev.qty > 0;
    }
  }

  /** A logged Delete of a live order carries the side, price and quantity the order was last
      given; any other logged Delete is a Bid of nothing at price 0. */
  lemma {:induction false} DeletesCarryLatestQuote(out: Outlet, ms: seq<Message>, k: nat)
    requires var g := Run(out, ms); k < |g.log| && g.log[k].action.Delete?
    ensures var g := Run(out, ms);
            && |g.marks| == |g.log| && g.marks[k] <= k
            && var since, ev := g.log[g.marks[k]..k], g.log[k];
               && (forall j: nat :: SetBy(since, ev.entryId, j) ==>
                     ev.side == since[j].side && ev.price == since[j].price && ev.qty == since[j].qty)
               && ((forall j: nat :: !SetBy(since, ev.entryId, j)) ==> ev.side == Bid && ev.price == 0 && ev.qty == 0)
  {
    var g := Run(out, ms);
    RunKeeps(out, ms);
    assert ResolvedAt(g, k);
    LiveIffSet(g.log[g.marks[k]..k], g.log[k].entryId);
  }

  // ---- What the cancel factor counts ----

  ghost predicate LiveAs(b: B.Book, id: nat, side: MDEntryType) {
    id in b.entries && b.entries[id].side == side
  }

  /** Deletes the cancel factor counts on a side, among the first n logged. */
  function Cancels(log: seq<LOBEvent>, n: nat, side: MDEntryType): nat
    requires n <= |log|
  {
    if n == 0 then 0
    else Cancels(log, n - 1, side) + if log[n - 1].action.Delete? && log[n - 1].side == side then 1 else 0
  }

  ghost predicate Indexed(g: Gateway) {
    |g.marks| == |g.log| && forall k :: 0 <= k < |g.log| ==> g.marks[k] <= k
  }

  /** Deletes of orders that rested on that side, among the first n. */
  ghost function LiveCancels(g: Gateway, n: nat, side: MDEntryType): nat
    requires Indexed(g) && n <= |g.log|
  {
    if n == 0 then 0
    else LiveCancels(g, n - 1, side)
         + if g.log[n - 1].action.Delete? && LiveAs(BookBefore(g, n - 1), g.log[n - 1].entryId, side) then 1 else 0
  }

  /** Deletes of ids the book did not know, among the first n. */
  ghost function UnknownDeletes(g: Gateway, n: nat): nat
    requires Indexed(g) && n <= |g.log|
  {
    if n == 0 then 0
    else UnknownDeletes(g, n - 1)
         + if g.log[n - 1].action.Delete? && g.log[n - 1].entryId !in BookBefore(g, n - 1).entries then 1 else 0
  }

  lemma {:induction false} CountsUpTo(out: Outlet, g: Gateway, n: nat)
    requires Inv(g) && n <= |g.log|
    ensures Cancels(g.log, n, Offer) == LiveCancels(g, n, Offer)
    ensures Cancels(g.log, n, Bid) == LiveCancels(g, n, Bid) + UnknownDeletes(g, n)
  {
    if n > 0 {
      CountsUpTo(out, g, n - 1);
      assert ResolvedAt(g, n - 1);
    }
  }

  /** Every ask cancel counted is the Delete of an order that rested as an Offer. Bid cancels also
      count the Deletes of unknown ids, so they are genuine exactly when there were none. */
  lemma {:induction false} CancelsAreDeletes(out: Outlet, ms: seq<Message>)
    ensures var g := Run(out, ms); var n := |g.log|;
            && Indexed(g)
            && Cancels(g.log, n, Offer) == LiveCancels(g, n, Offer)
            && Cancels(g.log, n, Bid) == LiveCancels(g, n, Bid) + UnknownDeletes(g, n)
            && (Cancels(g.log, n, Bid) == LiveCancels(g, n, Bid) <==> UnknownDeletes(g, n) == 0)
  {
    RunKeeps(out, ms);
    CountsUpTo(out, Run(out, ms), |Run(out, ms).log|);
  }

  /** The gateway's levels are the sums of its live orders at every moment of a run of events
      since the clear if and only if none of them is a New over a live quote. */
  lemma {:induction false} BookSumsIff(out: Outlet, ms: seq<Message>)
    ensures var g := Run(out, ms);
            && g.mark <= |g.log|
            && (B.CleanRun(g.log[g.mark..]) ==> B.Consistent(g.book))
            && (B.CleanRun(g.log[g.mark..]) <==>
                forall n :: 0 <= n <= |g.log| - g.mark ==> B.Consistent(B.ApplyAll(B.EMPTY_BOOK, g.log[g.mark..][..n])))
  {
    var g := Run(out, ms);
    RunKeeps(out, ms);
    var since := g.log[g.mark..];
    B.ConsistentThroughoutIff(since);
    assert since[..|since|] == since;
  }

  // ---- Malformed entries ----

  /** The entry lacks a field its handler insists on. */
  predicate Malformed(e: MDEntry) {
    e.action.None? || (e.kind.None? && (e.action.value == '0' || e.action.value == '1'))
  }

  /** A refresh is handled up to its first malformed entry; the rest of the message is lost, and
      what came before stays. */
  lemma {:induction false} MalformedCutsMessage(out: Outlet, g: Gateway, ts: nat, entries: seq<MDEntry>, p: nat)
    requires p < |entries| && Malformed(entries[p]) && forall i :: 0 <= i < p ==> !Malformed(entries[i])
    ensures Refresh(out, g, ts, entries) == Refresh(out, g, ts, entries[..p])
    decreases p
  {
    if p > 0 {
      var outcome := DecodeRefresh(g.book, ts, entries[0]);
      assert entries[..p][1..] == entries[1..][..p - 1];
      MalformedCutsMessage(out, if outcome.Emit? then Publish(out, g, outcome.ev) else g, ts, entries[1..], p - 1);
    }
  }

  /** So is a snapshot, whose entries need nothing but their type. */
  lemma {:induction false} MalformedCutsSnapshot(out: Outlet, g: Gateway, ts: nat, entries: seq<MDEntry>, p: nat)
    requires p < |entries| && entries[p].kind.None? && forall i :: 0 <= i < p ==> entries[i].kind.Some?
    ensures Snapshot(out, g, ts, entries) == Snapshot(out, g, ts, entries[..p])
    decreases p
  {
    if p > 0 {
      var outcome := DecodeSnapshot(ts, entries[0]);
      assert entries[..p][1..] == entries[1..][..p - 1];
      MalformedCutsSnapshot(out, if outcome.Emit? then Publish(out, g, outcome.ev) else g, ts, entries[1..], p - 1);
    }
  }

  /** The events of a snapshot, which depend on nothing but the message. */
  function SnapshotEvents(ts: nat, entries: seq<MDEntry>): seq<LOBEvent> {
    if entries == [] then []
    else
      match DecodeSnapshot(ts, entries[0])
      case Abort => []
      case Skip => SnapshotEvents(ts, entries[1..])
      case Emit(ev) => [ev] + SnapshotEvents(ts, entries[1..])
  }

  lemma {:induction false} SnapshotLogs(out: Outlet, g: Gateway, ts: nat, entries: seq<MDEntry>)
    ensures Snapshot(out, g, ts, entries).log == g.log + SnapshotEvents(ts, entries)
    ensures Snapshot(out, g, ts, entries).mark == g.mark
    decreases |entries|
  {
    if entries != [] {
      match DecodeSnapshot(ts, entries[0])
      case Abort =>
      case Skip => SnapshotLogs(out, g, ts, entries[1..]);
      case Emit(ev) => SnapshotLogs(out, Publish(out, g, ev), ts, entries[1..]);
    }
  }

  /** Whatever came before, the book after a snapshot holds what the snapshot says. */
  lemma {:induction false} SnapshotForgets(out: Outlet, ms: seq<Message>, m: Message)
    requires m.SnapshotFullRefresh?
    ensures Run(out, ms + [m]).book == B.ApplyAll(B.EMPTY_BOOK, SnapshotEvents(m.ts, GetOr(m.entries, [])))
  {
    var g := Run(out, ms);
    assert (ms + [m])[..|ms|] == ms;
    RunKeeps(out, ms + [m]);
    SnapshotLogs(out, Cleared(g), m.ts, GetOr(m.entries, []));
    var after := Run(out, ms + [m]);
    assert after.log[after.mark..] == SnapshotEvents(m.ts, GetOr(m.entries, []));
  }

  lemma {:induction false} RefreshEntry(out: Outlet, g: Gateway, ts: nat, entries: seq<MDEntry>, i: nat)
    requires i < |entries|
    ensures Refresh(out, g, ts, entries[i..])
         == match DecodeRefresh(g.book, ts, entries[i])
            case Abort => g
            case Skip => Refresh(out, g, ts, entries[i + 1..])
            case Emit(ev) => Refresh(out, Publish(out, g, ev), ts, entries[i + 1..])
  {
    assert entries[i..][1..] == entries[i + 1..];
  }

  lemma {:induction false} SnapshotEntry(out: Outlet, g: Gateway, ts: nat, entries: seq<MDEntry>, i: nat)
    requires i < |entries|
    ensures Snapshot(out, g, ts, entries[i..])
         == match DecodeSnapshot(ts, entries[i])
            case Abort => g
            case Skip => Snapshot(out, g, ts, entries[i + 1..])
            case Emit(ev) => Snapshot(out, Publish(out, g, ev), ts, entries[i + 1..])
  {
    assert entries[i..][1..] == entries[i + 1..];
  }

  // ---- The gateway object ----

  class FixMdGateway {
    const book: B.OrderBook
    const feed: Feed
    var log: seq<LOBEvent>
    ghost var mark: nat
    ghost var marks: seq<nat>

    ghost predicate Valid()
      reads feed, feed.Repr
    {
      feed.Valid() && this !in feed.Repr && book !in feed.Repr
    }

    ghost function State(): Gateway
      requires Valid()
      reads this, book, feed, feed.Repr
    {
      Gateway(book.State(), log, feed.State(), mark, marks)
    }

    constructor (feed: Feed)
      requires feed.Valid() && feed.State() == EMPTY_LINE
      ensures Valid() && State() == STARTED && this.feed == feed && fresh(book)
    {
      this.feed := feed;
      book := new B.OrderBook();
      log, mark, marks := [], 0, [];
    }

    /** Log first, then the book, then the queue, best effort. */
    method Deliver(ev: LOBEvent)
      requires Valid()
      modifies this, book, feed.Repr
      ensures Valid() && State() == Publish(feed.Out(), old(State()), ev)
    {
      var k := |log|;
      log := log + [ev];
      marks := marks + [mark];
      var moved := book.Update(ev);
      feed.Offer(ev, k);
    }

    method OnIncrementalRefresh(ts: nat, entries: seq<MDEntry>)
      requires Valid()
      modifies this, book, feed.Repr
      ensures Valid() && State() == Refresh(feed.Out(), old(State()), ts, entries)
    {
      for i := 0 to |entries|
        invariant Valid()
        invariant Refresh(feed.Out(), State(), ts, entries[i..]) == Refresh(feed.Out(), old(State()), ts, entries)
      {
        var e := entries[i];
        RefreshEntry(feed.Out(), State(), ts, entries, i);
        if e.action.None? {
          return;
        }
        var action := ActionOf(e.action.value);
        if action.None? {
          continue;
        }
        var ev := LOBEvent(ts, GetOr(e.id, 0), 0, 0, action.value, Bid);
        if action.value.Delete? {
          var found := book.LookupEntry(ev.entryId);
          if found.Some? {
            ev := ev.(side := found.value.side, price := found.value.price, qty := found.value.qty);
          }
        } else {
          if e.kind.None? {
            return;
          }
          var kind := KindOf(e.kind.value);
          if kind.None? {
            continue;
          }
          ev := ev.(side := kind.value, price := GetOr(e.px, 0), qty := GetOr(e.size, 0));
        }
        Deliver(ev);
      }
    }

    method OnSnapshot(ts: nat, entries: Option<seq<MDEntry>>)
      requires Valid()
      modifies this, book, feed.Repr
      ensures Valid() && State() == Snapshot(feed.Out(), Cleared(old(State())), ts, GetOr(entries, []))
    {
      book.Clear();
      mark := |log|;
      assert State() == Cleared(old(State()));
      if entries.Some? {
        SnapshotEntries(ts, entries.value);
      }
    }

    /** The loop over the entries of a snapshot, after the clear. */
    method SnapshotEntries(ts: nat, es: seq<MDEntry>)
      requires Valid()
      modifies this, book, feed.Repr
      ensures Valid() && State() == Snapshot(feed.Out(), old(State()), ts, es)
    {
      for i := 0 to |es|
        invariant Valid()
        invariant Snapshot(feed.Out(), State(), ts, es[i..]) == Snapshot(feed.Out(), old(State()), ts, es)
      {
        var e := es[i];
        SnapshotEntry(feed.Out(), State(), ts, es, i);
        if e.kind.None? {
          return;
        }
        var kind := KindOf(e.kind.value);
        if kind.None? || kind.value.Trade? {
          continue;
        }
        Deliver(Quote(ts, e, New, kind.value));
      }
    }

    method FromApp(m: Message)
      requires Valid()
      modifies this, book, feed.Repr
      ensures Valid() && State() == Handle(feed.Out(), old(State()), m)
    {
      match m {
        case IncrementalRefresh(ts, entries) =>
          if entries.Some? {
            OnIncrementalRefresh(ts, entries.value);
          }
        case SnapshotFullRefresh(ts, entries) =>
          OnSnapshot(ts, entries);
      }
    }
  }
}
