/** Which entries of a message are published, in which order, and as what; and what that leaves. */
module MessageEvents {
  import opened Types
  import B = OrderBook
  import opened EventFeed
  import opened FixMdGateway

  // ---- One entry and one event ----

  /** A field that is not set reads as 0. */
  predicate Reads(field: Option<int>, value: int) {
    if field.Some? then value == field.value else value == 0
  }

  /** The event has the stamp of the message, and the type, price and quantity of the entry. */
  predicate Quotes(ts: nat, e: MDEntry, ev: LOBEvent) {
    && ev.timestampNs == ts && Reads(e.id, ev.entryId) && Reads(e.px, ev.price) && Reads(e.size, ev.qty)
    && match ev.side
       case Bid => e.kind == Some('0')
       case Offer => e.kind == Some('1')
       case Trade => e.kind == Some('2')
  }

  /** A quote of a snapshot becomes a New. */
  predicate Announces(ts: nat, e: MDEntry, ev: LOBEvent) {
    ev.action.New? && !ev.side.Trade? && Quotes(ts, e, ev)
  }

  /** An entry of a refresh becomes what its action says; of a Delete only the id counts. */
  predicate Reports(ts: nat, e: MDEntry, ev: LOBEvent) {
    match ev.action
    case New => e.action == Some('0') && Quotes(ts, e, ev)
    case Change => e.action == Some('1') && Quotes(ts, e, ev)
    case Delete => e.action == Some('2') && ev.timestampNs == ts && Reads(e.id, ev.entryId)
  }

  // ---- Snapshots ----

  predicate IsQuote(e: MDEntry) {
    e.kind == Some('0') || e.kind == Some('1')
  }

  function QuotesIn(es: seq<MDEntry>): seq<MDEntry> {
    if es == [] then [] else (if IsQuote(es[0]) then [es[0]] else []) + QuotesIn(es[1..])
  }

  /** The first n entries have a type, and the next one, if there is one, has none. */
  ghost predicate UpToUntyped(es: seq<MDEntry>, n: nat) {
    n <= |es| && (forall i :: 0 <= i < n ==> es[i].kind.Some?) && (n < |es| ==> es[n].kind.None?)
  }

  ghost predicate AllAnnounced(ts: nat, es: seq<MDEntry>, evs: seq<LOBEvent>) {
    |es| == |evs| && forall i :: 0 <= i < |es| ==> Announces(ts, es[i], evs[i])
  }

  lemma {:induction false} QuotesFront(es: seq<MDEntry>, n: nat)
    requires 0 < n <= |es|
    ensures QuotesIn(es[..n]) == (if IsQuote(es[0]) then [es[0]] else []) + QuotesIn(es[1..][..n - 1])
  {
    assert es[..n][1..] == es[1..][..n - 1];
  }

  lemma AnnouncedFront(ts: nat, e: MDEntry, ev: LOBEvent, es: seq<MDEntry>, evs: seq<LOBEvent>)
    requires Announces(ts, e, ev) && AllAnnounced(ts, es, evs)
    ensures AllAnnounced(ts, [e] + es, [ev] + evs)
  {
  }

  lemma {:induction false} EventsAnnounce(ts: nat, es: seq<MDEntry>, n: nat)
    requires UpToUntyped(es, n)
    ensures AllAnnounced(ts, QuotesIn(es[..n]), SnapshotEvents(ts, es))
    decreases |es|
  {
    if n > 0 {
      EventsAnnounce(ts, es[1..], n - 1);
      QuotesFront(es, n);
      if IsQuote(es[0]) {
        AnnouncedFront(ts, es[0], DecodeSnapshot(ts, es[0]).ev, QuotesIn(es[1..][..n - 1]),
                       SnapshotEvents(ts, es[1..]));
      } else {
        assert [] + QuotesIn(es[1..][..n - 1]) == QuotesIn(es[1..][..n - 1]);
      }
    }
  }

  /** After any messages a snapshot publishes a New for each Bid and each Offer among its entries up to the
      first without a type, in order, with the fields of the entry, and nothing for a trade or an unknown type. */
  lemma {:induction false} SnapshotPublishes(out: Outlet, ms: seq<Message>, ts: nat, es: seq<MDEntry>, n: nat)
    requires UpToUntyped(es, n)
    ensures var log, log' := Run(out, ms).log, Run(out, ms + [SnapshotFullRefresh(ts, Some(es))]).log;
            log <= log' && AllAnnounced(ts, QuotesIn(es[..n]), log'[|log|..])
  {
    LogOfSnapshot(out, ms, SnapshotFullRefresh(ts, Some(es)));
    EventsAnnounce(ts, es, n);
  }

  /** Quotes written out as the entries of a snapshot. */
  function Written(evs: seq<LOBEvent>): (es: seq<MDEntry>)
    ensures |es| == |evs|
  {
    seq(|evs|, i requires 0 <= i < |evs| =>
      MDEntry(None, Some(evs[i].entryId), Some(KindCode(evs[i].side)), Some(evs[i].price), Some(evs[i].qty)))
  }

  ghost predicate AreQuotes(ts: nat, evs: seq<LOBEvent>) {
    forall i :: 0 <= i < |evs| ==> evs[i].action.New? && !evs[i].side.Trade? && evs[i].timestampNs == ts
  }

  lemma {:induction false} OnlyQuotes(es: seq<MDEntry>)
    requires forall i :: 0 <= i < |es| ==> IsQuote(es[i])
    ensures QuotesIn(es) == es
  {
    if es != [] { OnlyQuotes(es[1..]); }
  }

  lemma {:induction false} EventsOfWritten(ts: nat, evs: seq<LOBEvent>)
    requires AreQuotes(ts, evs)
    ensures SnapshotEvents(ts, Written(evs)) == evs
  {
    var es := Written(evs);
    assert es[..|es|] == es;
    EventsAnnounce(ts, es, |es|);
    OnlyQuotes(es);
    var evs' := SnapshotEvents(ts, es);
    forall i | 0 <= i < |evs|
      ensures evs'[i] == evs[i]
    {
      assert Announces(ts, es[i], evs'[i]);
    }
  }

  /** Any quotes, written out, come back: the snapshot logs exactly them, and leaves the book they build. */
  lemma {:induction false} SnapshotRoundTrip(out: Outlet, ms: seq<Message>, ts: nat, evs: seq<LOBEvent>)
    requires AreQuotes(ts, evs)
    ensures var g := Run(out, ms + [SnapshotFullRefresh(ts, Some(Written(evs)))]);
            g.log == Run(out, ms).log + evs && g.book == B.ApplyAll(B.EMPTY_BOOK, evs)
  {
    LogOfSnapshot(out, ms, SnapshotFullRefresh(ts, Some(Written(evs))));
    SnapshotForgets(out, ms, SnapshotFullRefresh(ts, Some(Written(evs))));
    EventsOfWritten(ts, evs);
  }

  // ---- A snapshot of a book ----

  /** The quotes are the live orders of the book, each once. */
  ghost predicate Lists(b: B.Book, evs: seq<LOBEvent>) {
    && (forall i :: 0 <= i < |evs| ==>
          && evs[i].entryId in b.entries
          && b.entries[evs[i].entryId] == B.EntryInfo(evs[i].side, evs[i].price, evs[i].qty))
    && (forall id :: id in b.entries ==> exists i :: 0 <= i < |evs| && evs[i].entryId == id)
    && (forall i, j :: 0 <= i < j < |evs| ==> evs[i].entryId != evs[j].entryId)
  }

  lemma {:induction false} ListIsClean(b: B.Book, ts: nat, evs: seq<LOBEvent>)
    requires AreQuotes(ts, evs) && Lists(b, evs)
    ensures B.CleanRun(evs)
  {
    forall i | 0 <= i < |evs|
      ensures !B.NewOverLive(B.ApplyAll(B.EMPTY_BOOK, evs[..i]), evs[i])
    {
      LiveIffSet(evs[..i], evs[i].entryId);
    }
  }

  lemma {:induction false} ListSets(b: B.Book, ts: nat, evs: seq<LOBEvent>, j: nat)
    requires AreQuotes(ts, evs) && Lists(b, evs) && B.Positive(b.entries) && j < |evs|
    ensures SetBy(evs, evs[j].entryId, j)
  {
  }

  lemma {:induction false} ListHasEntries(b: B.Book, ts: nat, evs: seq<LOBEvent>)
    requires AreQuotes(ts, evs) && Lists(b, evs) && B.Positive(b.entries)
    ensures B.ApplyAll(B.EMPTY_BOOK, evs).entries == b.entries
  {
    var es := B.ApplyAll(B.EMPTY_BOOK, evs).entries;
    forall id: nat
      ensures SameEntry(es, b.entries, id)
    {
      LiveIffSet(evs, id);
      if id in b.entries {
        var j :| 0 <= j < |evs| && evs[j].entryId == id;
        ListSets(b, ts, evs, j);
      }
    }
    SameMaps(es, b.entries);
  }

  /** A snapshot that lists the live orders of a book whose levels are their sums leaves that very book,
      levels and all, whatever the gateway had before. */
  lemma {:induction false} SnapshotRestores(out: Outlet, ms: seq<Message>, ts: nat, evs: seq<LOBEvent>, b: B.Book)
    requires B.Consistent(b) && AreQuotes(ts, evs) && Lists(b, evs)
    ensures Run(out, ms + [SnapshotFullRefresh(ts, Some(Written(evs)))]).book == b
  {
    SnapshotRoundTrip(out, ms, ts, evs);
    ListIsClean(b, ts, evs);
    CleanRunEnds(evs);
    ListHasEntries(b, ts, evs);
    B.SameEntriesSameBook(B.ApplyAll(B.EMPTY_BOOK, evs), b);
  }

  // ---- Refreshes ----

  /** An entry the handler publishes: a Delete, or a New or Change of a type it knows. */
  predicate IsKnown(e: MDEntry) {
    || e.action == Some('2')
    || ((e.action == Some('0') || e.action == Some('1'))
        && (e.kind == Some('0') || e.kind == Some('1') || e.kind == Some('2')))
  }

  function KnownIn(es: seq<MDEntry>): seq<MDEntry> {
    if es == [] then [] else (if IsKnown(es[0]) then [es[0]] else []) + KnownIn(es[1..])
  }

  ghost predicate UpToMalformed(es: seq<MDEntry>, n: nat) {
    n <= |es| && (forall i :: 0 <= i < n ==> !Malformed(es[i])) && (n < |es| ==> Malformed(es[n]))
  }

  ghost predicate AllReported(ts: nat, es: seq<MDEntry>, evs: seq<LOBEvent>) {
    |es| == |evs| && forall i :: 0 <= i < |es| ==> Reports(ts, es[i], evs[i])
  }

  lemma {:induction false} KnownFront(es: seq<MDEntry>, n: nat)
    requires 0 < n <= |es|
    ensures KnownIn(es[..n]) == (if IsKnown(es[0]) then [es[0]] else []) + KnownIn(es[1..][..n - 1])
  {
    assert es[..n][1..] == es[1..][..n - 1];
  }

  lemma DecodedReports(b: B.Book, ts: nat, e: MDEntry)
    ensures DecodeRefresh(b, ts, e).Emit? <==> IsKnown(e)
    ensures DecodeRefresh(b, ts, e).Abort? <==> Malformed(e)
    ensures IsKnown(e) ==> Reports(ts, e, DecodeRefresh(b, ts, e).ev)
  {
  }

  lemma ReportedFront(ts: nat, e: MDEntry, ev: LOBEvent, es: seq<MDEntry>, log: seq<LOBEvent>, log': seq<LOBEvent>)
    requires log + [ev] <= log' && Reports(ts, e, ev) && AllReported(ts, es, log'[|log| + 1..])
    ensures AllReported(ts, [e] + es, log'[|log|..])
  {
    assert log'[|log|..] == [ev] + log'[|log| + 1..];
  }

  lemma {:induction false} RefreshReports(out: Outlet, g: Gateway, ts: nat, es: seq<MDEntry>, n: nat)
    requires UpToMalformed(es, n)
    ensures var log' := Refresh(out, g, ts, es).log;
            g.log <= log' && AllReported(ts, KnownIn(es[..n]), log'[|g.log|..])
    decreases |es|
  {
    if es != [] {
      var e, outcome := es[0], DecodeRefresh(g.book, ts, es[0]);
      DecodedReports(g.book, ts, e);
      if n > 0 {
        KnownFront(es, n);
        if outcome.Emit? {
          RefreshReports(out, Publish(out, g, outcome.ev), ts, es[1..], n - 1);
          ReportedFront(ts, e, outcome.ev, KnownIn(es[1..][..n - 1]), g.log, Refresh(out, g, ts, es).log);
        } else {
          RefreshReports(out, g, ts, es[1..], n - 1);
          assert [] + KnownIn(es[1..][..n - 1]) == KnownIn(es[1..][..n - 1]);
        }
      }
    }
  }

  /** After any messages a refresh publishes one event for each Delete and each New or Change of a known type
      among its entries up to the first malformed one, in order, with the fields of the entry; a Delete takes
      its id from the entry and the rest from the book. Entries of unknown actions or types are passed over. */
  lemma {:induction false} RefreshPublishes(out: Outlet, ms: seq<Message>, ts: nat, es: seq<MDEntry>, n: nat)
    requires UpToMalformed(es, n)
    ensures var log, log' := Run(out, ms).log, Run(out, ms + [IncrementalRefresh(ts, Some(es))]).log;
            log <= log' && AllReported(ts, KnownIn(es[..n]), log'[|log|..])
  {
    RunSnoc(out, ms, IncrementalRefresh(ts, Some(es)));
    RefreshReports(out, Run(out, ms), ts, es, n);
  }
}
