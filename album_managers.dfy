/** The two album aggregation managers of album.go.

    Each arrival goes through `Add`; each goroutine or `time.AfterFunc` the
    source starts is a pending timer (an entry of the `pending` multiset) that
    the environment later fires with `Fire`. Holding the manager's mutex for
    the whole of a method is modelled by each method being one atomic step.

    The user's album handler is `CallHandler`: it records the batch it is given
    in the ghost log `flushed` and returns, nondeterministically, success, an
    error or a panic. Errors reported through the bot's error hook are kept in
    `reports`, with the context they are reported against. */
module TgAlbumManagers {
  import opened Wrappers
  import opened TgAlbum
  import Sorting

  /** What the album handler did: returned nil, returned an error, or panicked
      with a value (shown as `%v` prints it). */
  datatype Outcome = Ok | Err(e: string) | Panic(v: string)

  /** A call of the bot's error hook. */
  datatype Report = Report(err: string, ctx: Context)

  /** What `add` does for its caller: return an error (or nil), or let a panic
      of the handler run through it. */
  datatype AddResult = Returned(err: Option<string>) | Panicked(v: string)

  /** The key an arrival is grouped under. */
  function Key(c: Context): string {
    MediaGroupToId(c.message)
  }

  function MessageId(c: Context): int {
    c.message.id
  }

  /** A batch as the handler should see it: non-empty, one album. */
  ghost predicate OneAlbum(batch: seq<Context>) {
    batch != [] && forall j :: 0 <= j < |batch| ==> Key(batch[j]) == Key(batch[0])
  }

  /** The handler calls a manager makes: each appends its batch to `flushed`. */
  method CallHandler(batch: seq<Context>, ghost flushed: seq<seq<Context>>)
    returns (o: Outcome, ghost flushed': seq<seq<Context>>)
    ensures flushed' == flushed + [batch]
  {
    flushed' := flushed + [batch];
    o :| true;
  }

  /** What the error hook is given after the handler ran on a batch whose
      first context is `first`: nothing on success, the error, or the panic
      value after `panicPrefix`. */
  function Reported(o: Outcome, panicPrefix: string, first: Context): seq<Report> {
    match o
    case Ok => []
    case Err(e) => [Report(e, first)]
    case Panic(v) => [Report(panicPrefix + v, first)]
  }

  const SyncedPanicPrefix: string := "syncedManager.delayHandling(id) panicked: "
  const UnsyncedPanicPrefix: string := "album handling paniced: "

  /** `syncedManager`: one album buffered at a time. An arrival under another
      key flushes the buffer at once and starts a new one; the delayed flush
      only happens if its key is still the buffered one. */
  class SyncedManager {
    var current: string
    var ctx: seq<Context>
    var pending: multiset<string>
    var reports: seq<Report>
    ghost var flushed: seq<seq<Context>>

    /** The buffer is empty exactly when no key is current, everything in it
        belongs to the current key, and every batch ever handed to the handler
        was one album. */
    ghost predicate Valid()
      reads this
    {
      (current == "" <==> ctx == [])
      && (forall i :: 0 <= i < |ctx| ==> Key(ctx[i]) == current)
      && (forall i :: 0 <= i < |flushed| ==> OneAlbum(flushed[i]))
    }

    /** `newSyncedManager`. */
    constructor ()
      ensures Valid()
      ensures current == "" && ctx == [] && pending == multiset{} && reports == [] && flushed == []
    {
      current, ctx, pending, reports, flushed := "", [], multiset{}, [], [];
    }

    /** `syncedManager.add`. `handled` is what the handler did when the old
        buffer was flushed inline, and None when it was not called. */
    method Add(c: Context) returns (r: AddResult, handled: Option<Outcome>)
      requires Valid()
      modifies this
      ensures Valid()
      ensures reports == old(reports)
      // Same album: buffered, nothing else happens.
      ensures Key(c) == old(current) ==>
        r == Returned(None) && handled == None
        && current == old(current) && ctx == old(ctx) + [c]
        && pending == old(pending) && flushed == old(flushed)
      // Another album and nothing buffered: start a buffer and one timer.
      ensures Key(c) != old(current) && old(ctx) == [] ==>
        r == Returned(None) && handled == None
        && current == Key(c) && ctx == [c]
        && pending == old(pending) + multiset{Key(c)} && flushed == old(flushed)
      // Another album after a buffered one: the old buffer goes to the handler first.
      ensures Key(c) != old(current) && old(ctx) != [] ==>
        handled.Some? && flushed == old(flushed) + [old(ctx)]
        && match handled.value
           case Panic(v) =>
             r == Panicked(v) && current == old(current) && ctx == old(ctx) && pending == old(pending)
           case _ =>
             r == Returned(if handled.value.Err? then Some(handled.value.e) else None)
             && current == Key(c) && ctx == [c] && pending == old(pending) + multiset{Key(c)}
    {
      var id := Key(c);
      MediaGroupToIdNonEmpty(c.message);
      if current == id {
        ctx := ctx + [c];
        return Returned(None), None;
      }
      r, handled := Returned(None), None;
      if |ctx| != 0 {
        var o;
        o, flushed := CallHandler(ctx, flushed);
        handled := Some(o);
        match o {
          case Panic(v) =>
            return Panicked(v), handled;
          case Err(e) =>
            r := Returned(Some(e));
          case Ok =>
        }
      }
      current := id;
      ctx := [c];
      pending := pending + multiset{id};
    }

    /** The timer armed for `id` by `delayHandling` goes off. */
    method Fire(id: string) returns (handled: Option<Outcome>)
      requires Valid() && id in pending
      modifies this
      ensures Valid()
      ensures pending == old(pending) - multiset{id}
      // A timer whose album was already flushed does nothing.
      ensures old(ctx) == [] || id != old(current) ==>
        handled == None && current == old(current) && ctx == old(ctx)
        && reports == old(reports) && flushed == old(flushed)
      // Otherwise the buffer goes to the handler once.
      ensures old(ctx) != [] && id == old(current) ==>
        handled.Some? && flushed == old(flushed) + [old(ctx)]
        && reports == old(reports) + Reported(handled.value, SyncedPanicPrefix, old(ctx)[0])
        // A panic leaves the album buffered; otherwise the buffer is emptied.
        && (if handled.value.Panic? then current == old(current) && ctx == old(ctx)
            else current == "" && ctx == [])
    {
      pending := pending - multiset{id};
      if |ctx| == 0 || id != current {
        return None;
      }
      var o := FlushBuffer();
      return Some(o);
    }

    /** The delayed flush of the buffered album: the handler gets it once, an
        error or a panic is reported against its first context, and the
        buffer is emptied unless the handler panicked. */
    method FlushBuffer() returns (o: Outcome)
      requires Valid() && ctx != []
      modifies this
      ensures Valid()
      ensures pending == old(pending)
      ensures flushed == old(flushed) + [old(ctx)]
      ensures reports == old(reports) + Reported(o, SyncedPanicPrefix, old(ctx)[0])
      ensures if o.Panic? then current == old(current) && ctx == old(ctx) else current == "" && ctx == []
    {
      assert OneAlbum(ctx);
      o, flushed := CallHandler(ctx, flushed);
      reports := reports + Reported(o, SyncedPanicPrefix, ctx[0]);
      if !o.Panic? {
        current := "";
        ctx := [];
      }
    }
  }

  /** An album waiting in the unsynced manager: how many of its timers are
      still to go off, and its contexts in arrival order. */
  datatype Unit = Unit(delays: int, ctx: seq<Context>)

  /** `unsyncedManager`: a counting debounce per album. Every arrival arms its
      own timer; the album is handed over, sorted by message id, when the last
      of its timers goes off. */
  class UnsyncedManager {
    var unscheduled: map<string, Unit>
    var pending: multiset<string>
    var reports: seq<Report>
    ghost var flushed: seq<seq<Context>>

    ghost predicate Valid()
      reads this
    {
      Waiting(unscheduled, pending, flushed)
    }

    /** `newUnsyncedManager`. */
    constructor ()
      ensures Valid()
      ensures unscheduled == map[] && pending == multiset{} && reports == [] && flushed == []
    {
      unscheduled, pending, reports, flushed := map[], multiset{}, [], [];
    }

    /** `unsyncedManager.add`: one more context and one more timer for its
        album; never an error. */
    method Add(c: Context) returns (err: Option<string>)
      requires Valid()
      modifies this
      ensures Valid()
      ensures err == None
      ensures pending == old(pending) + multiset{Key(c)}
      ensures Key(c) in old(unscheduled) ==>
        unscheduled == old(unscheduled)[Key(c) := Unit(old(unscheduled)[Key(c)].delays + 1,
                                                        old(unscheduled)[Key(c)].ctx + [c])]
      ensures Key(c) !in old(unscheduled) ==> unscheduled == old(unscheduled)[Key(c) := Unit(1, [c])]
      ensures reports == old(reports) && flushed == old(flushed)
    {
      var id := Key(c);
      ArriveWaiting(unscheduled, pending, flushed, c);
      if id in unscheduled {
        var unit := unscheduled[id];
        unscheduled := unscheduled[id := Unit(unit.delays + 1, unit.ctx + [c])];
      } else {
        unscheduled := unscheduled[id := Unit(1, [c])];
      }
      pending := pending + multiset{id};
      return None;
    }

    /** `handle(id)`, as run by a timer that `add` armed for `id`: that timer
        is consumed (each armed timer ends in exactly one such call, and a
        call for an id with no timer consumes nothing). `handled` is what the
        handler did, None when it was not called. */
    method Fire(id: string) returns (handled: Option<Outcome>)
      requires Valid()
      modifies this
      ensures Valid()
      ensures pending == old(pending) - multiset{id}
      // An album nobody waits for is ignored.
      ensures id !in old(unscheduled) ==>
        handled == None && unscheduled == old(unscheduled)
        && reports == old(reports) && flushed == old(flushed)
      // Not the last timer of the album: count it down.
      ensures id in old(unscheduled) && old(unscheduled)[id].delays != 1 ==>
        handled == None && reports == old(reports) && flushed == old(flushed)
        && unscheduled == old(unscheduled)[id := Unit(old(unscheduled)[id].delays - 1, old(unscheduled)[id].ctx)]
      // The last timer: the album, sorted by message id, goes to the handler
      // once and is dropped whatever the handler does.
      ensures id in old(unscheduled) && old(unscheduled)[id].delays == 1 ==>
        handled.Some? && unscheduled == old(unscheduled) - {id}
        && flushed == old(flushed) + [Sorting.SortBy(old(unscheduled)[id].ctx, MessageId)]
        && reports == old(reports) + Reported(handled.value, UnsyncedPanicPrefix,
                                              Sorting.SortBy(old(unscheduled)[id].ctx, MessageId)[0])
    {
      if id !in unscheduled {
        NoTimerWaiting(unscheduled, pending, flushed, id);
        return None;
      }
      if unscheduled[id].delays - 1 != 0 {
        CountDown(id);
        return None;
      }
      var o := Handover(id);
      return Some(o);
    }

    /** A timer of album `id` that is not its last: one timer fewer, and the
        album's count goes down by one. */
    method CountDown(id: string)
      requires Valid() && id in unscheduled && unscheduled[id].delays != 1
      modifies this
      ensures Valid()
      ensures pending == old(pending) - multiset{id}
      ensures unscheduled == old(unscheduled)[id := Unit(old(unscheduled)[id].delays - 1, old(unscheduled)[id].ctx)]
      ensures reports == old(reports) && flushed == old(flushed)
    {
      var unit := unscheduled[id];
      CountDownWaiting(unscheduled, pending, flushed, id);
      pending := pending - multiset{id};
      unscheduled := unscheduled[id := Unit(unit.delays - 1, unit.ctx)];
    }

    /** The last timer of album `id` went off: its contexts, sorted by message
        id, go to the handler, and the album is deleted however the handler
        ends; an error or a panic is reported against the first of them. */
    method Handover(id: string) returns (o: Outcome)
      requires Valid() && id in unscheduled && unscheduled[id].delays == 1
      modifies this
      ensures Valid()
      ensures pending == old(pending) - multiset{id}
      ensures unscheduled == old(unscheduled) - {id}
      ensures flushed == old(flushed) + [Sorting.SortBy(old(unscheduled)[id].ctx, MessageId)]
      ensures reports == old(reports) + Reported(o, UnsyncedPanicPrefix, Sorting.SortBy(old(unscheduled)[id].ctx, MessageId)[0])
    {
      var contexts := unscheduled[id].ctx;
      var sorted := Sorting.Sort(contexts, MessageId);
      FlushWaiting(unscheduled, pending, flushed, id);
      unscheduled := unscheduled - {id};
      pending := pending - multiset{id};
      o, flushed := CallHandler(sorted, flushed);
      reports := reports + Reported(o, UnsyncedPanicPrefix, sorted[0]);
    }
  }

  /** The unsynced manager's invariant: every pending timer belongs to a
      waiting album; each waiting album's `delays` is exactly the number of its
      pending timers, it holds at least one context and only contexts of its
      own key; and every batch handed to the handler was one album sorted by
      message id. */
  ghost predicate Waiting(units: map<string, Unit>, pending: multiset<string>, flushed: seq<seq<Context>>) {
    (forall id :: id in pending ==> id in units)
    && (forall id :: id in units ==>
          units[id].delays == pending[id] && units[id].delays >= 1
          && units[id].ctx != []
          && forall i :: 0 <= i < |units[id].ctx| ==> Key(units[id].ctx[i]) == id)
    && (forall i :: 0 <= i < |flushed| ==>
          OneAlbum(flushed[i]) && Sorting.SortedBy(flushed[i], MessageId))
  }

  /** No timer is pending for an album that is not waiting. */
  lemma NoTimerWaiting(units: map<string, Unit>, pending: multiset<string>, flushed: seq<seq<Context>>, id: string)
    requires Waiting(units, pending, flushed)
    requires id !in units
    ensures pending - multiset{id} == pending
  {
    assert id !in pending;
  }

  /** A timer that is not its album's last only counts the album down. */
  lemma CountDownWaiting(units: map<string, Unit>, pending: multiset<string>, flushed: seq<seq<Context>>, id: string)
    requires Waiting(units, pending, flushed)
    requires id in units && units[id].delays != 1
    ensures Waiting(units[id := Unit(units[id].delays - 1, units[id].ctx)], pending - multiset{id}, flushed)
  {
  }

  /** The last timer of an album hands it over, sorted, and forgets it. */
  lemma FlushWaiting(units: map<string, Unit>, pending: multiset<string>, flushed: seq<seq<Context>>, id: string)
    requires Waiting(units, pending, flushed)
    requires id in units && units[id].delays == 1
    ensures Waiting(units - {id}, pending - multiset{id}, flushed + [Sorting.SortBy(units[id].ctx, MessageId)])
  {
    SortedBatch(units[id].ctx, id);
  }

  /** An arrival adds one context and one timer to its album. */
  lemma ArriveWaiting(units: map<string, Unit>, pending: multiset<string>, flushed: seq<seq<Context>>, c: Context)
    requires Waiting(units, pending, flushed)
    ensures Waiting(units[Key(c) := if Key(c) in units then Unit(units[Key(c)].delays + 1, units[Key(c)].ctx + [c])
                                    else Unit(1, [c])],
                    pending + multiset{Key(c)}, flushed)
  {
  }

  /** Sorting an album's contexts keeps them one album, and sorted. */
  lemma SortedBatch(ctx: seq<Context>, id: string)
    requires ctx != []
    requires forall i :: 0 <= i < |ctx| ==> Key(ctx[i]) == id
    ensures |Sorting.SortBy(ctx, MessageId)| == |ctx|
    ensures OneAlbum(Sorting.SortBy(ctx, MessageId))
    ensures Sorting.SortedBy(Sorting.SortBy(ctx, MessageId), MessageId)
  {
    var s := Sorting.SortBy(ctx, MessageId);
    Sorting.SortBySorted(ctx, MessageId);
    Sorting.SortByKeepsElements(ctx, MessageId);
    forall j | 0 <= j < |s| ensures Key(s[j]) == id {
      assert s[j] in ctx;
    }
  }

  // ---------------------------------------------------------------------------
  // Runs of the managers
  // ---------------------------------------------------------------------------

  /** Arrivals keyed A, A, B, A at a new synced manager. With a handler that
      does not panic, {A, A} is flushed inline when B arrives and {B} inline
      when A comes back; the last A is buffered, and three timers are armed,
      two of them for A. */
  method SyncedArrivals(a1: Context, a2: Context, b: Context, a3: Context)
    returns (m: SyncedManager, panicked: bool)
    requires Key(a1) == Key(a2) == Key(a3) != Key(b)
    ensures fresh(m) && m.Valid()
    ensures !panicked ==> (m.flushed == [[a1, a2], [b]] && m.current == Key(a3) && m.ctx == [a3]
      && m.pending == multiset{Key(a1), Key(b), Key(a3)})
  {
    var A, B := Key(a1), Key(b);
    m := new SyncedManager();
    MediaGroupToIdNonEmpty(a1.message);
    var r, h := m.Add(a1);
    assert m.current == A && m.ctx == [a1] && m.flushed == [];
    r, h := m.Add(a2);
    assert m.current == A && m.ctx == [a1, a2] && m.flushed == [] && m.pending == multiset{A};
    r, h := m.Add(b);
    panicked := h.Some? && h.value.Panic?;
    if panicked {
      return;
    }
    assert m.flushed == [[a1, a2]] && m.ctx == [b] && m.pending == multiset{A, B};
    r, h := m.Add(a3);
    panicked := h.Some? && h.value.Panic?;
  }

  /** The three timers of that run going off in the order they were armed. A
      timer is matched by key only, so the first timer of A, armed for the
      first album, flushes the second album of A early; the timers of B and
      of the second A then find nothing to do. */
  method SyncedTimers(m: SyncedManager, A: string, B: string, last: Context)
    returns (panicked: bool, ghost afterFirstTimer: seq<seq<Context>>)
    requires m.Valid() && A != B && m.current == A && m.ctx == [last] && m.pending == multiset{A, B, A}
    modifies m
    ensures m.Valid()
    ensures !panicked ==> afterFirstTimer == old(m.flushed) + [[last]]
    ensures !panicked ==> (m.flushed == old(m.flushed) + [[last]]
      && m.current == "" && m.ctx == [] && m.pending == multiset{})
  {
    var h := m.Fire(A);
    panicked := h.Some? && h.value.Panic?;
    afterFirstTimer := m.flushed;
    if panicked {
      return;
    }
    assert m.current == "" && m.ctx == [] && m.pending == multiset{B, A};
    h := m.Fire(B);
    assert m.current == "" && m.ctx == [] && m.pending == multiset{A} && m.flushed == afterFirstTimer;
    h := m.Fire(A);
  }

  /** The whole run: three flushes, {A, A}, {B} and {A}, the last one made by
      the first timer; afterwards the manager is idle. */
  method SyncedRun(a1: Context, a2: Context, b: Context, a3: Context)
    returns (m: SyncedManager, panicked: bool, ghost afterFirstTimer: seq<seq<Context>>)
    requires Key(a1) == Key(a2) == Key(a3) != Key(b)
    ensures fresh(m) && m.Valid()
    ensures !panicked ==> afterFirstTimer == [[a1, a2], [b], [a3]]
    ensures !panicked ==> (m.flushed == [[a1, a2], [b], [a3]]
      && m.current == "" && m.ctx == [] && m.pending == multiset{})
  {
    m, panicked := SyncedArrivals(a1, a2, b, a3);
    if panicked {
      afterFirstTimer := m.flushed;
      return;
    }
    panicked, afterFirstTimer := SyncedTimers(m, Key(a1), Key(b), a3);
  }

  /** An unsynced manager with one album `id` waiting, holding `waiting`
      with `n` timers to go, that has handed nothing over yet. */
  ghost predicate OnlyWaiting(m: UnsyncedManager, id: string, n: nat, waiting: seq<Context>)
    reads m
  {
    m.Valid() && m.unscheduled == map[id := Unit(n, waiting)] && m.pending == multiset{}[id := n] && m.flushed == []
  }

  /** Arrivals `cs` of one album at a new unsynced manager: one unit holding
      them in arrival order, one timer per arrival, nothing handed over. */
  method DebounceArrivals(cs: seq<Context>) returns (m: UnsyncedManager)
    requires |cs| >= 1
    requires forall i :: 0 <= i < |cs| ==> Key(cs[i]) == Key(cs[0])
    ensures fresh(m) && OnlyWaiting(m, Key(cs[0]), |cs|, cs)
  {
    var id := Key(cs[0]);
    m := DebounceFirst(cs[0]);
    ghost var seen := [cs[0]];
    var i := 1;
    while i < |cs|
      invariant 1 <= i <= |cs| && seen == cs[..i]
      invariant OnlyWaiting(m, id, i, seen)
    {
      DebounceArrival(m, id, i, seen, cs[i]);
      seen := seen + [cs[i]];
      i := i + 1;
    }
    assert seen == cs;
  }

  /** The first arrival at a new unsynced manager. */
  method DebounceFirst(c: Context) returns (m: UnsyncedManager)
    ensures fresh(m) && OnlyWaiting(m, Key(c), 1, [c])
  {
    m := new UnsyncedManager();
    var err := m.Add(c);
  }

  /** One more arrival for the one waiting album. */
  method DebounceArrival(m: UnsyncedManager, id: string, n: nat, ghost waiting: seq<Context>, c: Context)
    requires OnlyWaiting(m, id, n, waiting) && Key(c) == id
    modifies m
    ensures OnlyWaiting(m, id, n + 1, waiting + [c])
  {
    var err := m.Add(c);
  }

  /** All but the last timer of the waiting album go off: each only counts the
      album down, and nothing is handed over. */
  method DebounceCountDown(m: UnsyncedManager, id: string, n: nat, ghost waiting: seq<Context>)
    requires n >= 1 && OnlyWaiting(m, id, n, waiting)
    modifies m
    ensures OnlyWaiting(m, id, 1, waiting)
  {
    var left := n;
    while left > 1
      invariant 1 <= left <= n && OnlyWaiting(m, id, left, waiting)
    {
      DebounceTick(m, id, left, waiting);
      left := left - 1;
    }
  }

  /** A timer of the waiting album that is not its last. */
  method DebounceTick(m: UnsyncedManager, id: string, n: nat, ghost waiting: seq<Context>)
    requires n > 1 && OnlyWaiting(m, id, n, waiting)
    modifies m
    ensures OnlyWaiting(m, id, n - 1, waiting)
  {
    var h := m.Fire(id);
  }

  /** Arrivals `cs` of one album at an unsynced manager, then their timers:
      nothing reaches the handler until the last timer goes off, and that one
      hands over all of them, sorted by message id, in a single batch, after
      which the manager is empty again. */
  method DebounceRun(cs: seq<Context>) returns (m: UnsyncedManager, ghost beforeLast: seq<seq<Context>>)
    requires |cs| >= 1
    requires forall i :: 0 <= i < |cs| ==> Key(cs[i]) == Key(cs[0])
    ensures fresh(m) && m.Valid()
    ensures beforeLast == []
    ensures m.flushed == [Sorting.SortBy(cs, MessageId)]
    ensures m.unscheduled == map[] && m.pending == multiset{}
  {
    var id := Key(cs[0]);
    m := DebounceArrivals(cs);
    DebounceCountDown(m, id, |cs|, cs);
    beforeLast := m.flushed;
    var h := m.Fire(id);
  }
}
