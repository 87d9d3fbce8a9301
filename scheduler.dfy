/** The outgoing-call rate limiter of scheduler/implementation.go and
    scheduler/scheduler.go.

    A scheduler keeps a global counter of quota in use, a per-chat counter map
    and a queue of timed release events. Time is an integer number of
    milliseconds supplied by the caller; the ticker loop of `SyncFunc` becomes a
    sequence of clock readings, and the mutex becomes the atomicity of `Poll`.

    The value-level functions (`Ready`, `Reserve`, `Sweep`) state what the
    class's methods do; the lemmas about them are the properties the code has. */
module Scheduler {
  import opened Wrappers
  import Text
  import Sorting

  /** Global quota: 30 calls per second (scheduler/scheduler.go). */
  const ApiRequestQuota: int := 30
  const ApiRequestQuotaTimeout: int := 1000
  /** Per-chat quota: 20 calls per minute. */
  const ApiRequestQuotaPerChat: int := 20
  const ApiRequestQuotaPerChatTimeout: int := 60_000
  const DefaultPollingRate: int := 10

  /** A reservation to give back at `time`. The global-window event has chat "". */
  datatype Event = Event(time: int, count: int, chat: string)

  function EventTime(e: Event): int {
    e.time
  }

  /** The fields of a scheduler other than its polling rate. */
  datatype Ledger = Ledger(
    globalLimit: int,
    global: int,
    perChatLimit: int,
    perChat: map<string, int>,
    events: seq<Event>)

  /** The outcome of one admission attempt: the action ran (and its result, error
      included, is passed through) or the caller must wait for the next tick. */
  datatype Attempt<R> = Ran(result: R) | Refused

  /** `isPersonal`: the chat id parses as a base-10 int64 that is not negative. */
  function IsPersonal(chat: string): bool {
    var id := Text.ParseInt64(chat);
    id.Some? && id.value >= 0
  }

  /** Go's `m[k]`, which reads zero for a missing key. */
  function Get(m: map<string, int>, k: string): int {
    if k in m then m[k] else 0
  }

  /** `isReadyFor`: the admission test. The per-chat limit is consulted only for
      chats that already have an entry. */
  predicate Ready(l: Ledger, count: int, chat: string) {
    && !(l.globalLimit < l.global + count)
    && !(chat in l.perChat && l.perChatLimit < l.perChat[chat] + count)
  }

  /** `add`: reserve `count` globally (released after one second) and, for a
      chat that is not personal, per chat (released after one minute); then
      re-sort the queue. */
  function Reserve(l: Ledger, now: int, count: int, chat: string): Ledger {
    l.(global := l.global + count,
       perChat := if IsPersonal(chat) then l.perChat else l.perChat[chat := Get(l.perChat, chat) + count],
       events := Sorting.SortBy(l.events + NewEvents(now, count, chat), EventTime))
  }

  /** The events `add` appends: the global one, then for a chat that is not
      personal the per-chat one. */
  function NewEvents(now: int, count: int, chat: string): seq<Event> {
    var globalEvent := Event(now + ApiRequestQuotaTimeout, count, "");
    if IsPersonal(chat) then [globalEvent]
    else [globalEvent, Event(now + ApiRequestQuotaPerChatTimeout, count, chat)]
  }

  /** How many events at the front of the queue are due at `now`: exactly the
      leading ones with `time <= now`, stopping at the first later one. */
  function ExpiredCount(events: seq<Event>, now: int): (k: nat)
    ensures k <= |events|
    ensures forall i :: 0 <= i < k ==> events[i].time <= now
    ensures k < |events| ==> events[k].time > now
  {
    if events == [] || events[0].time > now then 0
    else 1 + ExpiredCount(events[1..], now)
  }

  lemma ExpiredCountUnique(events: seq<Event>, now: int, k: nat)
    requires k <= |events|
    requires forall i :: 0 <= i < k ==> events[i].time <= now
    requires k < |events| ==> events[k].time > now
    ensures k == ExpiredCount(events, now)
  {
  }

  function SumCounts(events: seq<Event>): int {
    if events == [] then 0
    else SumCounts(events[..|events| - 1]) + events[|events| - 1].count
  }

  /** What one swept event does to the per-chat map: nothing for a personal
      chat; otherwise subtract, and delete the entry once it is at most zero. */
  lemma SweepIs(l: Ledger, now: int, k: nat)
    requires k == ExpiredCount(l.events, now)
    ensures Sweep(l, now) == Ledger(l.globalLimit, l.global - SumCounts(l.events[..k]), l.perChatLimit,
      ReleaseAll(l.perChat, l.events[..k]), l.events[k..])
  {
  }

  function Release(perChat: map<string, int>, e: Event): map<string, int> {
    if IsPersonal(e.chat) then perChat
    else
      var left := Get(perChat, e.chat) - e.count;
      if left <= 0 then perChat - {e.chat} else perChat[e.chat := left]
  }

  function ReleaseAll(perChat: map<string, int>, events: seq<Event>): map<string, int> {
    if events == [] then perChat
    else Release(ReleaseAll(perChat, events[..|events| - 1]), events[|events| - 1])
  }

  /** `handleEvents(now)`: consume the due events at the front of the queue.
      Every consumed event lowers `global`, the per-chat one included. */
  function Sweep(l: Ledger, now: int): Ledger {
    var k := ExpiredCount(l.events, now);
    l.(global := l.global - SumCounts(l.events[..k]),
       perChat := ReleaseAll(l.perChat, l.events[..k]),
       events := l.events[k..])
  }

  /** One attempt of `SyncFunc`'s loop, made under the lock at the tick time
      `now`: sweep; if admitted, run the action (its result `fn`, error or not,
      is passed through) and reserve at `doneAt`, the clock reading `add` takes
      after the action returns; otherwise only the sweep happens. */
  function Tick<R>(l: Ledger, now: int, doneAt: int, count: int, chat: string, fn: R): (Ledger, Attempt<R>) {
    var swept := Sweep(l, now);
    if Ready(swept, count, chat) then (Reserve(swept, doneAt, count, chat), Ran(fn))
    else (swept, Refused)
  }

  /** The `SyncFunc` loop over the clock readings `ticks` (the first is the call
      time, the rest are ticker ticks), the action taking `elapsed`
      milliseconds: attempt at each reading until admitted. Refused means still
      waiting after the last reading. */
  function Throttle<R>(l: Ledger, ticks: seq<int>, elapsed: nat, count: int, chat: string, fn: R)
    : (Ledger, Attempt<R>)
    decreases |ticks|
  {
    if ticks == [] then (l, Refused)
    else
      var t := Tick(l, ticks[0], ticks[0] + elapsed, count, chat, fn);
      if t.1.Ran? then t else Throttle(t.0, ticks[1..], elapsed, count, chat, fn)
  }

  /** Whatever the clock readings, `SyncFunc` either is still waiting or has
      run the action exactly once and passes its result through unchanged; in
      the second case the reservation it recorded keeps `global` within the
      limit, and an admission at the first reading is all there is to it. */
  lemma {:induction false} ThrottleOutcome<R>(l: Ledger, ticks: seq<int>, elapsed: nat, count: int, chat: string, fn: R)
    ensures var t := Throttle(l, ticks, elapsed, count, chat, fn);
      && (t.1 == Ran(fn) || t.1 == Refused)
      && (t.1.Ran? ==> t.0.global <= t.0.globalLimit && t.0.globalLimit == l.globalLimit)
      && (t.1.Refused? ==> t.0.globalLimit == l.globalLimit)
      && (ticks != [] && Ready(Sweep(l, ticks[0]), count, chat) ==>
            t == (Reserve(Sweep(l, ticks[0]), ticks[0] + elapsed, count, chat), Ran(fn)))
    decreases |ticks|
  {
    if ticks != [] {
      var t := Tick(l, ticks[0], ticks[0] + elapsed, count, chat, fn);
      if !t.1.Ran? {
        ThrottleOutcome(t.0, ticks[1..], elapsed, count, chat, fn);
      }
    }
  }

  /** The loop of `handleEvents`: walk the queue from the front, stop at the
      first event later than `now`, and give back what each earlier one
      reserved; `handled` is how many were consumed. */
  method Expire(queue: seq<Event>, global: int, perChat: map<string, int>, now: int)
    returns (handled: nat, g: int, pc: map<string, int>)
    ensures handled == ExpiredCount(queue, now)
    ensures g == global - SumCounts(queue[..handled])
    ensures pc == ReleaseAll(perChat, queue[..handled])
  {
    g, pc := global, perChat;
    handled := 0;
    while handled < |queue|
      invariant 0 <= handled <= |queue|
      invariant forall j :: 0 <= j < handled ==> queue[j].time <= now
      invariant g == global - SumCounts(queue[..handled])
      invariant pc == ReleaseAll(perChat, queue[..handled])
    {
      var e := queue[handled];
      if e.time > now {
        break;
      }
      assert queue[..handled + 1][..handled] == queue[..handled];
      handled := handled + 1;
      g := g - e.count;
      if IsPersonal(e.chat) {
        continue;
      }
      var left := Get(pc, e.chat) - e.count;
      if left <= 0 {
        pc := pc - {e.chat};
      } else {
        pc := pc[e.chat := left];
      }
    }
    ExpiredCountUnique(queue, now, handled);
  }

  // ---------------------------------------------------------------------------
  // The scheduler object
  // ---------------------------------------------------------------------------

  class Scheduler {
    var globalLimit: int
    var global: int
    var perChatLimit: int
    var perChat: map<string, int>
    var events: seq<Event>
    var pollingRate: int

    function State(): Ledger
      reads this
    {
      Ledger(globalLimit, global, perChatLimit, perChat, events)
    }

    /** `Custom`: the given limits and polling rate, nothing in use. */
    constructor Custom(global: int, perChat: int, pollingRate: int)
      ensures State() == Ledger(global, 0, perChat, map[], [])
      ensures this.pollingRate == pollingRate
    {
      globalLimit := global;
      this.global := 0;
      perChatLimit := perChat;
      this.perChat := map[];
      events := [];
      this.pollingRate := pollingRate;
    }

    /** `order`: sort the queue by release time. */
    method Order()
      modifies this`events
      ensures events == Sorting.SortBy(old(events), EventTime)
    {
      events := Sorting.Sort(events, EventTime);
    }

    /** `add`, with the clock reading `now` it takes. */
    method Add(now: int, count: int, chat: string)
      modifies this`global, this`perChat, this`events
      ensures State() == Reserve(old(State()), now, count, chat)
      ensures pollingRate == old(pollingRate)
    {
      var queue := events + [Event(now + ApiRequestQuotaTimeout, count, "")];
      var pc := perChat;
      if !IsPersonal(chat) {
        pc := pc[chat := Get(pc, chat) + count];
        queue := queue + [Event(now + ApiRequestQuotaPerChatTimeout, count, chat)];
      }
      assert queue == events + NewEvents(now, count, chat);
      global, perChat, events := global + count, pc, queue;
      Order();
    }

    /** `handleEvents`: consume the due events at the front of the queue and
      drop them. */
    method HandleEvents(now: int)
      modifies this`global, this`perChat, this`events
      ensures State() == Sweep(old(State()), now)
    {
      if |events| == 0 {
        assert events[..0] == [] && events[0..] == events;
        return;
      }
      var handled, g, pc := Expire(events, global, perChat, now);
      global, perChat, events := g, pc, events[handled..];
    }

    /** One iteration of `SyncFunc`'s loop, done under the lock. */
    method Poll<R>(now: int, doneAt: int, count: int, chat: string, fn: R) returns (a: Attempt<R>)
      modifies this`global, this`perChat, this`events
      ensures (State(), a) == Tick(old(State()), now, doneAt, count, chat, fn)
      ensures pollingRate == old(pollingRate)
    {
      HandleEvents(now);
      if !Ready(State(), count, chat) {
        return Refused;
      }
      a := Ran(fn);
      Add(doneAt, count, chat);
    }
  }

  /** `(*scheduler).SyncFunc`: a nil receiver just runs the action; otherwise poll
      at each clock reading until admitted. */
  method SyncFunc<R>(sch: Scheduler?, ticks: seq<int>, elapsed: nat, count: int, chat: string, fn: R)
    returns (a: Attempt<R>)
    modifies sch
    ensures sch == null ==> a == Ran(fn)
    ensures sch != null ==>
      (sch.State(), a) == Throttle(old(sch.State()), ticks, elapsed, count, chat, fn)
    ensures sch != null ==> sch.pollingRate == old(sch.pollingRate)
  {
    if sch == null {
      return Ran(fn);
    }
    a := Refused;
    var i := 0;
    while i < |ticks|
      invariant 0 <= i <= |ticks|
      invariant a == Refused
      invariant sch.pollingRate == old(sch.pollingRate)
      invariant Throttle(old(sch.State()), ticks, elapsed, count, chat, fn)
             == Throttle(sch.State(), ticks[i..], elapsed, count, chat, fn)
    {
      assert ticks[i..][1..] == ticks[i + 1..];
      a := sch.Poll(ticks[i], ticks[i] + elapsed, count, chat, fn);
      if a.Ran? {
        return;
      }
      i := i + 1;
    }
  }

  /** `nilScheduler.SyncFunc`: runs the action at once, keeps no books. */
  method NilSyncFunc<R>(count: int, chat: string, fn: R) returns (a: Attempt<R>)
    ensures a == Ran(fn)
  {
    a := Ran(fn);
  }

  /** `Default`: the documented API limits, polled every 10ms. */
  method Default() returns (s: Scheduler)
    ensures fresh(s)
    ensures s.State() == Ledger(30, 0, 20, map[], []) && s.pollingRate == 10
  {
    s := new Scheduler.Custom(ApiRequestQuota, ApiRequestQuotaPerChat, DefaultPollingRate);
  }

  /** `Conservative`: integer 4/5 of the limits, polled 10 times less often. */
  method Conservative() returns (s: Scheduler)
    ensures fresh(s)
    ensures s.State() == Ledger(24, 0, 16, map[], []) && s.pollingRate == 100
  {
    s := new Scheduler.Custom(ApiRequestQuota * 4 / 5, ApiRequestQuotaPerChat * 4 / 5, DefaultPollingRate * 10);
  }

  /** `ExtraConservative`: half the limits, polled 100 times less often. */
  method ExtraConservative() returns (s: Scheduler)
    ensures fresh(s)
    ensures s.State() == Ledger(15, 0, 10, map[], []) && s.pollingRate == 1000
  {
    s := new Scheduler.Custom(ApiRequestQuota / 2, ApiRequestQuotaPerChat / 2, DefaultPollingRate * 100);
  }

  // ---------------------------------------------------------------------------
  // Chat classification
  // ---------------------------------------------------------------------------

  /** A chat id rendered in decimal is personal exactly when it is not negative:
      user chats are personal, (negative) group ids are not. */
  lemma PersonalIffNonNegative(id: int)
    requires Text.InInt64(id)
    ensures IsPersonal(Text.FormatInt(id)) <==> id >= 0
  {
    Text.ParseFormatInt(id);
  }

  /** The chat key "" of the global-window events does not parse, so it is
      treated as a group chat. */
  lemma EmptyChatNotPersonal()
    ensures !IsPersonal("")
  {
  }

  /** Only strings made of an optional sign and digits are personal. */
  lemma PersonalShape(chat: string)
    requires IsPersonal(chat)
    ensures |chat| >= 1
    ensures chat[0] == '+' || chat[0] == '-' || Text.IsDigit(chat[0])
    ensures forall i :: 1 <= i < |chat| ==> Text.IsDigit(chat[i])
  {
    var start := if chat[0] == '+' || chat[0] == '-' then 1 else 0;
    Text.DigitsFromDigits(chat, start, 0);
  }

  // ---------------------------------------------------------------------------
  // Admission
  // ---------------------------------------------------------------------------

  /** Admission keeps the global counter within its limit, and the counter of a
      chat that already had an entry within the per-chat limit. */
  lemma AdmissionWithinLimits(l: Ledger, now: int, count: int, chat: string)
    requires Ready(l, count, chat)
    ensures Reserve(l, now, count, chat).global <= l.globalLimit
    ensures chat in l.perChat && !IsPersonal(chat) ==>
      Reserve(l, now, count, chat).perChat[chat] <= l.perChatLimit
  {
  }

  /** A chat without an entry is never refused on the per-chat limit, even when
      `count` alone is over it; so a new group chat can go over the limit. */
  lemma NoEntryNeverRefusedPerChat(l: Ledger, now: int, count: int, chat: string)
    requires chat !in l.perChat
    ensures Ready(l, count, chat) <==> l.global + count <= l.globalLimit
    ensures Ready(l, count, chat) && !IsPersonal(chat) ==>
      Reserve(l, now, count, chat).perChat[chat] == count
  {
  }

  /** What every reachable ledger satisfies: the queue is sorted by time, and
      neither a queued event nor a per-chat entry belongs to a personal chat. */
  ghost predicate Inv(l: Ledger) {
    && Sorting.SortedBy(l.events, EventTime)
    && (forall i :: 0 <= i < |l.events| ==> !IsPersonal(l.events[i].chat))
    && (forall k :: k in l.perChat ==> !IsPersonal(k))
  }

  lemma CustomInv(globalLimit: int, perChatLimit: int)
    ensures Inv(Ledger(globalLimit, 0, perChatLimit, map[], []))
  {
  }

  /** After `add` the queue is sorted again and the invariant holds. */
  lemma ReserveKeepsInv(l: Ledger, now: int, count: int, chat: string)
    requires Inv(l)
    ensures Inv(Reserve(l, now, count, chat))
  {
    var r := Reserve(l, now, count, chat);
    var added := if IsPersonal(chat) then [Event(now + ApiRequestQuotaTimeout, count, "")]
      else [Event(now + ApiRequestQuotaTimeout, count, ""),
            Event(now + ApiRequestQuotaPerChatTimeout, count, chat)];
    Sorting.SortByKeepsElements(l.events + added, EventTime);
    Sorting.SortBySorted(l.events + added, EventTime);
    assert r.events == Sorting.SortBy(l.events + added, EventTime);
    forall i | 0 <= i < |r.events|
      ensures !IsPersonal(r.events[i].chat)
    {
      assert r.events[i] in l.events + added;
    }
  }

  lemma {:induction false} ReleaseAllKeys(m: map<string, int>, events: seq<Event>)
    requires forall k :: k in m ==> !IsPersonal(k)
    ensures forall k :: k in ReleaseAll(m, events) ==> !IsPersonal(k)
  {
    if events != [] {
      ReleaseAllKeys(m, events[..|events| - 1]);
    }
  }

  /** Sweeping keeps the invariant, and on a sorted queue leaves only events
      later than `now`, in their order: a reservation is never given back early. */
  lemma SweepKeepsInv(l: Ledger, now: int)
    requires Inv(l)
    ensures Inv(Sweep(l, now))
    ensures forall i :: 0 <= i < |Sweep(l, now).events| ==> Sweep(l, now).events[i].time > now
  {
    var k := ExpiredCount(l.events, now);
    ReleaseAllKeys(l.perChat, l.events[..k]);
    forall i | k <= i < |l.events|
      ensures l.events[i].time > now
    {
      assert EventTime(l.events[k]) <= EventTime(l.events[i]);
    }
  }

  /** For every reachable ledger, a personal chat is refused only on the
      global limit. */
  lemma PersonalChatOnlyGlobalLimit(l: Ledger, count: int, chat: string)
    requires Inv(l) && IsPersonal(chat)
    ensures Ready(l, count, chat) <==> l.global + count <= l.globalLimit
  {
  }

  /** The queue `add` leaves on an empty scheduler for a group chat: the global
      event, then the per-chat one a minute later. */
  lemma FreshGroupReserve(globalLimit: int, perChatLimit: int, now: int, count: int, chat: string)
    requires !IsPersonal(chat)
    ensures var l1 := Reserve(Ledger(globalLimit, 0, perChatLimit, map[], []), now, count, chat);
      && l1.global == count
      && l1.perChat == map[chat := count]
      && l1.events == [Event(now + ApiRequestQuotaTimeout, count, ""),
                       Event(now + ApiRequestQuotaPerChatTimeout, count, chat)]
  {
    var g := Event(now + ApiRequestQuotaTimeout, count, "");
    var p := Event(now + ApiRequestQuotaPerChatTimeout, count, chat);
    var l0 := Ledger(globalLimit, 0, perChatLimit, map[], []);
    assert NewEvents(now, count, chat) == [g, p];
    assert l0.events + [g, p] == [g, p];
    assert Sorting.SortBy([g], EventTime) == [g] by {
      assert [g][..0] == [];
    }
    assert Sorting.SortBy([g, p], EventTime) == [g, p] by {
      assert [g, p][..1] == [g];
      assert Sorting.InsertBy([g], p, EventTime) == [g, p];
    }
  }

  /** Giving back both events of a group admission empties the per-chat map,
      whether or not the chat key is the global events' key "". */
  lemma ReleaseGroupAdmission(now: int, count: int, chat: string)
    requires count > 0 && !IsPersonal(chat)
    ensures ReleaseAll(map[chat := count], [Event(now + ApiRequestQuotaTimeout, count, ""),
                       Event(now + ApiRequestQuotaPerChatTimeout, count, chat)]) == map[]
  {
    var g := Event(now + ApiRequestQuotaTimeout, count, "");
    var p := Event(now + ApiRequestQuotaPerChatTimeout, count, chat);
    var m := map[chat := count];
    EmptyChatNotPersonal();
    assert [g, p][..1] == [g] && [g][..0] == [];
    assert ReleaseAll(m, [g]) == Release(m, g);
    assert ReleaseAll(m, [g, p]) == Release(Release(m, g), p);
    if chat == "" {
      assert Release(m, g) == map[];
      assert Release(map[], p) == map[];
    } else {
      assert Release(m, g) == m;
      assert Release(m, p) == map[];
    }
  }

  /** A group-chat admission on a fresh scheduler, swept once its minute is
      over: both of its events lower `global`, which ends at `-count`. The
      per-chat entry and the queue are empty again. */
  lemma GroupAdmissionReleasedTwice(globalLimit: int, perChatLimit: int, now: int, count: int, chat: string)
    requires count > 0 && !IsPersonal(chat)
    ensures var l1 := Reserve(Ledger(globalLimit, 0, perChatLimit, map[], []), now, count, chat);
      && Sweep(l1, now + ApiRequestQuotaPerChatTimeout).global == -count
      && Sweep(l1, now + ApiRequestQuotaPerChatTimeout).perChat == map[]
      && Sweep(l1, now + ApiRequestQuotaPerChatTimeout).events == []
  {
    var l1 := Reserve(Ledger(globalLimit, 0, perChatLimit, map[], []), now, count, chat);
    FreshGroupReserve(globalLimit, perChatLimit, now, count, chat);
    var g := Event(now + ApiRequestQuotaTimeout, count, "");
    var p := Event(now + ApiRequestQuotaPerChatTimeout, count, chat);
    var t := now + ApiRequestQuotaPerChatTimeout;
    ExpiredCountUnique([g, p], t, 2);
    SweepIs(l1, t, 2);
    assert [g, p][..2] == [g, p];
    assert [g, p][..1] == [g] && [g][..0] == [];
    assert SumCounts([g]) == count;
    assert SumCounts([g, p]) == 2 * count;
    ReleaseGroupAdmission(now, count, chat);
  }
}
