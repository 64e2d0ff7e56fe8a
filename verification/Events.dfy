/** event.c: the queue of things that are to happen at a given T-state. */
module Events {

  // event_no_events, the largest libspectrum_dword
  const NO_EVENTS: int := 0xffffffff

  // event_type_null
  const DELETED: nat := 0

  // An event as seen over a whole run: when it is to happen, counted from the first frame and
  // not from the current one, and which one it is of all that were ever added
  datatype Item = Item(time: int, kind: nat, data: int, serial: nat)

  ghost predicate ByTime(q: seq<Item>) {
    forall i, j :: 0 <= i < j < |q| ==> q[i].time <= q[j].time
  }

  // event_add_cmp
  function Compare(a: Item, b: Item): int {
    if a.time != b.time then (if a.time > b.time then 1 else -1) else a.kind - b.kind
  }

  // Where g_slist_insert_sorted puts x, looking from i on: before the first event that it
  // does not compare greater than
  function Slot(q: seq<Item>, x: Item, i: nat): (s: nat)
    requires i <= |q|
    ensures i <= s <= |q|
    ensures forall j :: i <= j < s ==> Compare(x, q[j]) > 0
    ensures s < |q| ==> Compare(x, q[s]) <= 0
    decreases |q| - i
  {
    if i < |q| && Compare(x, q[i]) > 0 then Slot(q, x, i + 1) else i
  }

  function Inserted(q: seq<Item>, x: Item): (r: seq<Item>)
    ensures |r| == |q| + 1
  {
    var s := Slot(q, x, 0);
    q[..s] + [x] + q[s..]
  }

  lemma SlotFilled<T>(q: seq<T>, i: nat, x: T)
    requires i <= |q|
    ensures var r := q[..i] + [x] + q[i..];
            && |r| == |q| + 1
            && forall k :: 0 <= k < |r| ==> r[k] == if k < i then q[k] else if k == i then x else q[k - 1]
  {
  }

  // The order by time stands even where deleted events have upset the order by kind
  lemma InsertedByTime(q: seq<Item>, x: Item)
    requires ByTime(q)
    ensures ByTime(Inserted(q, x))
  {
    var s := Slot(q, x, 0);
    if s < |q| {
      forall j | s <= j < |q| ensures x.time <= q[j].time { assert q[s].time <= q[j].time; }
    }
  }

  // Events for the same time are in the order of their kinds, and of one kind the newest is first.
  // Deleted ones stand anywhere.
  predicate InRank(x: Item, y: Item) {
    x.time == y.time && x.kind != DELETED && y.kind != DELETED ==>
      x.kind < y.kind || (x.kind == y.kind && x.serial > y.serial)
  }

  ghost predicate Ranked(q: seq<Item>) { forall i, j :: 0 <= i < j < |q| ==> InRank(q[i], q[j]) }

  lemma RankAround(q: seq<Item>, x: Item, j: nat)
    requires ByTime(q) && Ranked(q) && j < |q| && q[j].serial < x.serial
    ensures if j < Slot(q, x, 0) then InRank(q[j], x) else InRank(x, q[j])
  {
    var s := Slot(q, x, 0);
    if j < s {
      assert Compare(x, q[j]) > 0;
    } else {
      assert Compare(x, q[s]) <= 0 && q[s].time <= q[j].time;
      if s < j { assert InRank(q[s], q[j]); }
    }
  }

  lemma InsertedRanked(q: seq<Item>, x: Item)
    requires ByTime(q) && Ranked(q) && forall i :: 0 <= i < |q| ==> q[i].serial < x.serial
    ensures Ranked(Inserted(q, x))
  {
    var s, r := Slot(q, x, 0), Inserted(q, x);
    SlotFilled(q, s, x);
    forall i, j | 0 <= i < j < |r| ensures InRank(r[i], r[j]) {
      if i == s {
        RankAround(q, x, j - 1);
      } else if j == s {
        RankAround(q, x, i);
      } else {
        assert InRank(q[if i < s then i else i - 1], q[if j < s then j else j - 1]);
      }
    }
  }

  // The events of a kind, or those of them with certain data, turned into deleted ones
  function Without(q: seq<Item>, kind: nat, data: int -> bool): (r: seq<Item>)
    ensures |r| == |q|
  {
    seq(|q|, i requires 0 <= i < |q| =>
          if q[i].kind == kind && data(q[i].data) then q[i].(kind := DELETED) else q[i])
  }

  function AnyData(): int -> bool { (d: int) => true }

  function OnlyData(data: int): int -> bool { (d: int) => d == data }

  // ---------------------------------------------------------------- what becomes of an event

  // x is one of the events added, though it may have been deleted since
  ghost predicate Stems(added: seq<Item>, x: Item) {
    && x.serial < |added|
    && added[x.serial].time == x.time && added[x.serial].data == x.data
    && (x.kind == added[x.serial].kind || x.kind == DELETED)
  }

  ghost predicate OnceEach(added: seq<Item>, all: seq<Item>) {
    && |all| == |added|
    && (forall i :: 0 <= i < |all| ==> Stems(added, all[i]))
    && forall i, j :: 0 <= i < j < |all| ==> all[i].serial != all[j].serial
  }

  lemma OnceEachAdded(added: seq<Item>, log: seq<Item>, q: seq<Item>, x: Item)
    requires OnceEach(added, log + q) && x.serial == |added|
    ensures OnceEach(added + [x], log + Inserted(q, x))
  {
    var k := |log| + Slot(q, x, 0);
    var was := log + q;
    assert log + Inserted(q, x) == was[..k] + [x] + was[k..];
    OnceEachInserted(added, was, k, x);
  }

  lemma OnceEachInserted(added: seq<Item>, was: seq<Item>, k: nat, x: Item)
    requires OnceEach(added, was) && k <= |was| && x.serial == |added|
    ensures OnceEach(added + [x], was[..k] + [x] + was[k..])
  {
    var all := was[..k] + [x] + was[k..];
    forall i | 0 <= i < |all| ensures Stems(added + [x], all[i]) && (i == k || all[i].serial < |added|) {
      assert i != k ==> Stems(added, was[if i < k then i else i - 1]);
    }
    forall i, j | 0 <= i < j < |all| ensures all[i].serial != all[j].serial {
      if i != k && j != k {
        assert was[if i < k then i else i - 1].serial != was[if j < k then j else j - 1].serial;
      }
    }
  }

  lemma OnceEachDeleted(added: seq<Item>, log: seq<Item>, q: seq<Item>, kind: nat, data: int -> bool)
    requires OnceEach(added, log + q)
    ensures OnceEach(added, log + Without(q, kind, data))
  {
    var was, all := log + q, log + Without(q, kind, data);
    forall i | 0 <= i < |all| ensures all[i] == was[i] || all[i] == was[i].(kind := DELETED) {
    }
  }

  lemma {:induction false} SerialsCount(all: seq<Item>, m: nat) returns (serials: set<nat>)
    requires m <= |all| && forall i, j :: 0 <= i < j < |all| ==> all[i].serial != all[j].serial
    ensures |serials| == m && forall k: nat :: k in serials <==> exists i :: 0 <= i < m && all[i].serial == k
  {
    serials := {};
    if m > 0 {
      var before := SerialsCount(all, m - 1);
      serials := before + {all[m - 1].serial};
    }
  }

  lemma {:induction false} NumbersBelow(n: nat) returns (numbers: set<nat>)
    ensures |numbers| == n && forall k: nat :: k in numbers <==> k < n
  {
    numbers := {};
    if n > 0 {
      var before := NumbersBelow(n - 1);
      numbers := before + {n - 1};
    }
  }

  lemma {:induction false} SubsetSize(s: set<nat>, t: set<nat>)
    requires s <= t
    ensures |s| <= |t|
  {
    if s != {} {
      var k :| k in s;
      SubsetSize(s - {k}, t - {k});
    }
  }

  // The books are right: what waits is in the order of time, and every event is accounted for
  ghost predicate Booked(added: seq<Item>, log: seq<Item>, q: seq<Item>) {
    ByTime(q) && Ranked(q) && OnceEach(added, log + q)
  }

  lemma BookedAdded(added: seq<Item>, log: seq<Item>, q: seq<Item>, x: Item)
    requires Booked(added, log, q) && x.serial == |added|
    ensures Booked(added + [x], log, Inserted(q, x))
  {
    InsertedByTime(q, x);
    forall i | 0 <= i < |q| ensures q[i].serial < x.serial { assert Stems(added, (log + q)[|log| + i]); }
    InsertedRanked(q, x);
    OnceEachAdded(added, log, q, x);
  }

  lemma BookedDeleted(added: seq<Item>, log: seq<Item>, q: seq<Item>, kind: nat, data: int -> bool)
    requires Booked(added, log, q)
    ensures Booked(added, log, Without(q, kind, data))
  {
    OnceEachDeleted(added, log, q, kind, data);
  }

  lemma BookedDispatched(added: seq<Item>, log: seq<Item>, q: seq<Item>)
    requires Booked(added, log, q) && q != []
    ensures Booked(added, log + [q[0]], q[1..])
  {
    assert log + [q[0]] + q[1..] == log + q;
  }

  // ---------------------------------------------------------------- order and progress

  // From number n on, events were dispatched in the order of their times, and the first event
  // that waits is not earlier than they
  ghost predicate InOrder(log: seq<Item>, q: seq<Item>, n: nat) {
    && n <= |log|
    && (forall i, j :: n <= i < j < |log| ==> log[i].time <= log[j].time)
    && (n < |log| && q != [] ==> log[|log| - 1].time <= q[0].time)
  }

  lemma InOrderAdded(log: seq<Item>, q: seq<Item>, n: nat, x: Item)
    requires InOrder(log, q, n) && (log != [] ==> log[|log| - 1].time <= x.time)
    ensures InOrder(log, Inserted(q, x), n)
  {
  }

  lemma InOrderDeleted(log: seq<Item>, q: seq<Item>, n: nat, kind: nat, data: int -> bool)
    requires InOrder(log, q, n)
    ensures InOrder(log, Without(q, kind, data), n)
  {
  }

  lemma InOrderDispatched(log: seq<Item>, q: seq<Item>, n: nat)
    requires InOrder(log, q, n) && ByTime(q) && q != []
    ensures InOrder(log + [q[0]], q[1..], n)
  {
  }

  // How many events wait for time t
  ghost function WaitingFor(q: seq<Item>, t: int): nat { multiset(Times(q))[t] }

  function Times(q: seq<Item>): seq<int> { seq(|q|, i requires 0 <= i < |q| => q[i].time) }

  lemma WaitingAdded(q: seq<Item>, x: Item, t: int)
    requires x.time != t
    ensures WaitingFor(Inserted(q, x), t) == WaitingFor(q, t)
  {
    var s := Slot(q, x, 0);
    assert Times(Inserted(q, x)) == Times(q)[..s] + [x.time] + Times(q)[s..];
    assert Times(q) == Times(q)[..s] + Times(q)[s..];
  }

  lemma WaitingDeleted(q: seq<Item>, kind: nat, data: int -> bool, t: int)
    ensures WaitingFor(Without(q, kind, data), t) == WaitingFor(q, t)
  {
    assert Times(Without(q, kind, data)) == Times(q);
  }

  lemma WaitingDispatched(q: seq<Item>)
    requires q != []
    ensures WaitingFor(q, q[0].time) == WaitingFor(q[1..], q[0].time) + 1
  {
    assert Times(q) == [q[0].time] + Times(q[1..]);
  }

  // The same while a handler runs, that of an event for this time: the last one dispatched
  ghost predicate Orderly(log: seq<Item>, q: seq<Item>, n: nat, time: int, waiting: nat) {
    InOrder(log, q, n) && log != [] && log[|log| - 1].time == time && WaitingFor(q, time) == waiting
  }

  lemma OrderlyAdded(log: seq<Item>, q: seq<Item>, n: nat, time: int, waiting: nat, x: Item)
    requires Orderly(log, q, n, time, waiting) && time < x.time
    ensures Orderly(log, Inserted(q, x), n, time, waiting)
  {
    InOrderAdded(log, q, n, x);
    WaitingAdded(q, x, time);
  }

  lemma OrderlyDeleted(log: seq<Item>, q: seq<Item>, n: nat, time: int, waiting: nat, kind: nat, data: int -> bool)
    requires Orderly(log, q, n, time, waiting)
    ensures Orderly(log, Without(q, kind, data), n, time, waiting)
  {
    InOrderDeleted(log, q, n, kind, data);
    WaitingDeleted(q, kind, data, time);
  }

  lemma OrderlyDispatched(log: seq<Item>, q: seq<Item>, n: nat)
    requires InOrder(log, q, n) && ByTime(q) && q != []
    ensures Orderly(log + [q[0]], q[1..], n, q[0].time, WaitingFor(q[1..], q[0].time))
    ensures WaitingFor(q[1..], q[0].time) < WaitingFor(q, q[0].time)
  {
    InOrderDispatched(log, q, n);
    WaitingDispatched(q);
  }

  // Every event ever added has been dispatched once or is still waiting, and never both
  lemma NoneLostOrRepeated(added: seq<Item>, log: seq<Item>, q: seq<Item>, k: nat)
    requires OnceEach(added, log + q) && k < |added|
    ensures exists i :: 0 <= i < |log + q| && (log + q)[i].serial == k
                        && forall j :: 0 <= j < |log + q| && (log + q)[j].serial == k ==> j == i
  {
    var all := log + q;
    var serials := SerialsCount(all, |all|);
    var numbers := NumbersBelow(|added|);
    assert forall i :: 0 <= i < |all| ==> Stems(added, all[i]);
    assert serials <= numbers;
    if k !in serials {
      SubsetSize(serials, numbers - {k});
      assert false;
    }
    var i :| 0 <= i < |all| && all[i].serial == k;
  }

  // ---------------------------------------------------------------- the queue

  // Subtraction of libspectrum_dwords
  function Minus(t: int, length: nat): (r: int)
    ensures length <= t <= NO_EVENTS ==> r == t - length
  {
    (t - length) % 0x1_0000_0000
  }

  lemma MinusFits(t: int, length: nat)
    requires 0 <= t <= NO_EVENTS
    ensures Minus(t, length) >= 0 && (length <= t <==> Minus(t, length) == t - length)
  {
  }

  // What a handler may do to the queue
  datatype Action = Add(time: int, kind: nat, data: int) | Remove(kind: nat) | RemoveWith(kind: nat, data: int)

  // What the handlers go by: how many calls there have been, and what they are told of the event
  datatype Told = Told(calls: nat, tstates: int, kind: nat, data: int)

  type Handlers = Told -> seq<Action>

  // Only events for later than t are added
  ghost predicate Later(t: int, actions: seq<Action>) {
    forall i :: 0 <= i < |actions| && actions[i].Add? ==> t < actions[i].time
  }

  // Times are libspectrum_dwords
  ghost predicate InRange(actions: seq<Action>) {
    forall i :: 0 <= i < |actions| && actions[i].Add? ==> 0 <= actions[i].time <= NO_EVENTS
  }

  ghost predicate AddInRange(handlers: Handlers) { forall told: Told :: InRange(handlers(told)) }

  lemma ActionsInRange(handlers: Handlers, told: Told)
    requires AddInRange(handlers)
    ensures InRange(handlers(told))
  {
  }

  // Every handler adds only events for later than its own
  ghost predicate AddLater(handlers: Handlers) {
    forall told: Told :: Later(told.tstates, handlers(told))
  }

  // All events ever added, those dispatched, and those that wait, in order
  datatype Books = Books(added: seq<Item>, log: seq<Item>, pending: seq<Item>)

  // What an action does when the frame began at base
  function Acted(b: Books, base: int, action: Action): Books {
    match action
    case Add(t, kind, data) =>
      var x := Item(base + t, kind, data, |b.added|);
      b.(added := b.added + [x], pending := Inserted(b.pending, x))
    case Remove(kind) => b.(pending := Without(b.pending, kind, AnyData()))
    case RemoveWith(kind, data) => b.(pending := Without(b.pending, kind, OnlyData(data)))
  }

  function ActedTo(b: Books, base: int, actions: seq<Action>, n: nat): Books
    requires n <= |actions|
  {
    if n == 0 then b else Acted(ActedTo(b, base, actions, n - 1), base, actions[n - 1])
  }

  datatype Turn = Turn(books: Books, calls: nat)

  // What dispatching the first event does: its handler acts, unless it has been deleted
  function Dispatched(b: Books, base: int, calls: nat, handlers: Handlers): Turn
    requires b.pending != []
  {
    var x := b.pending[0];
    Handled(b.(log := b.log + [x], pending := b.pending[1..]), base, calls, handlers, x)
  }

  function Handled(b: Books, base: int, calls: nat, handlers: Handlers, x: Item): Turn {
    if x.kind == DELETED then Turn(b, calls)
    else
      var actions := handlers(Told(calls, x.time - base, x.kind, x.data));
      Turn(ActedTo(b, base, actions, |actions|), calls + 1)
  }

  // And what n such turns do
  function Turns(t: Turn, base: int, handlers: Handlers, n: nat): Turn {
    if n == 0 then t
    else
      var u := Turns(t, base, handlers, n - 1);
      if u.books.pending == [] then u else Dispatched(u.books, base, u.calls, handlers)
  }

  // While a handler acts, order is kept, and no event more is due with its own
  lemma {:induction false} ActedOrderly(b: Books, base: int, actions: seq<Action>, m: nat, n: nat, time: int,
                                        waiting: nat)
    requires m <= |actions| && Later(time - base, actions) && Orderly(b.log, b.pending, n, time, waiting)
    ensures var c := ActedTo(b, base, actions, m);
            c.log == b.log && b.added <= c.added && Orderly(c.log, c.pending, n, time, waiting)
  {
    if m > 0 {
      ActedOrderly(b, base, actions, m - 1, n, time, waiting);
      ActKeepsLog(ActedTo(b, base, actions, m - 1), base, actions[m - 1]);
      ActOrderly(ActedTo(b, base, actions, m - 1), base, actions[m - 1], n, time, waiting);
    }
  }

  lemma ActKeepsLog(b: Books, base: int, action: Action)
    ensures Acted(b, base, action).log == b.log && b.added <= Acted(b, base, action).added
  {
  }

  lemma ActOrderly(b: Books, base: int, action: Action, n: nat, time: int, waiting: nat)
    requires (action.Add? ==> time - base < action.time) && Orderly(b.log, b.pending, n, time, waiting)
    ensures Orderly(b.log, Acted(b, base, action).pending, n, time, waiting)
  {
    if action.Add? {
      OrderlyAdded(b.log, b.pending, n, time, waiting, Item(base + action.time, action.kind, action.data, |b.added|));
    } else {
      OrderlyDeleted(b.log, b.pending, n, time, waiting, action.kind,
                     if action.Remove? then AnyData() else OnlyData(action.data));
    }
  }

  lemma WaitsForLater(c: Books, n: nat, time: int, waiting: nat)
    requires Orderly(c.log, c.pending, n, time, waiting) && n < |c.log|
    ensures c.pending != [] ==> c.pending[0].time >= time
  {
  }

  // One turn keeps the order, and gets on: no event is left that is due earlier than the one
  // dispatched, and one less that is due with it
  lemma TurnGetsOn(b: Books, base: int, calls: nat, handlers: Handlers, n: nat)
    requires b.pending != [] && ByTime(b.pending) && InOrder(b.log, b.pending, n) && AddLater(handlers)
    ensures var c, t := Dispatched(b, base, calls, handlers).books, b.pending[0].time;
            && c.log == b.log + [b.pending[0]] && b.added <= c.added && InOrder(c.log, c.pending, n)
            && WaitingFor(c.pending, t) < WaitingFor(b.pending, t) && (c.pending != [] ==> c.pending[0].time >= t)
  {
    var x := b.pending[0];
    OrderlyDispatched(b.log, b.pending, n);
    var told := Told(calls, x.time - base, x.kind, x.data);
    var actions := handlers(told);
    assert Later(told.tstates, actions);
    var taken := b.(log := b.log + [x], pending := b.pending[1..]);
    var waiting := WaitingFor(b.pending[1..], x.time);
    ActedOrderly(taken, base, actions, |actions|, n, x.time, waiting);
    WaitsForLater(ActedTo(taken, base, actions, |actions|), n, x.time, waiting);
    WaitsForLater(taken, n, x.time, waiting);
  }

  // Handlers that may also add events for the time of their own
  ghost predicate AddNoEarlier(handlers: Handlers) {
    forall told: Told :: NoEarlier(told.tstates, handlers(told))
  }

  ghost predicate NoEarlier(t: int, actions: seq<Action>) {
    forall i :: 0 <= i < |actions| && actions[i].Add? ==> t <= actions[i].time
  }

  ghost predicate Kept(b: Books, n: nat) {
    Booked(b.added, b.log, b.pending) && InOrder(b.log, b.pending, n)
  }

  lemma {:induction false} ActedKept(b: Books, base: int, actions: seq<Action>, m: nat, n: nat)
    requires m <= |actions| && Kept(b, n) && b.log != [] && NoEarlier(b.log[|b.log| - 1].time - base, actions)
    ensures Kept(ActedTo(b, base, actions, m), n) && ActedTo(b, base, actions, m).log == b.log
  {
    if m > 0 {
      var c, action := ActedTo(b, base, actions, m - 1), actions[m - 1];
      ActedKept(b, base, actions, m - 1, n);
      ActKept(c, base, action, n);
    }
  }

  lemma ActKept(c: Books, base: int, action: Action, n: nat)
    requires Kept(c, n) && c.log != [] && (action.Add? ==> c.log[|c.log| - 1].time - base <= action.time)
    ensures Kept(Acted(c, base, action), n) && Acted(c, base, action).log == c.log
  {
    if action.Add? {
      var x := Item(base + action.time, action.kind, action.data, |c.added|);
      BookedAdded(c.added, c.log, c.pending, x);
      InOrderAdded(c.log, c.pending, n, x);
    } else {
      var data := if action.Remove? then AnyData() else OnlyData(action.data);
      BookedDeleted(c.added, c.log, c.pending, action.kind, data);
      InOrderDeleted(c.log, c.pending, n, action.kind, data);
    }
  }

  lemma TurnKept(b: Books, base: int, calls: nat, handlers: Handlers, n: nat)
    requires Kept(b, n) && b.pending != [] && AddNoEarlier(handlers)
    ensures Kept(Dispatched(b, base, calls, handlers).books, n)
  {
    var x := b.pending[0];
    BookedDispatched(b.added, b.log, b.pending);
    InOrderDispatched(b.log, b.pending, n);
    var told := Told(calls, x.time - base, x.kind, x.data);
    var actions := handlers(told);
    assert NoEarlier(told.tstates, actions);
    ActedKept(b.(log := b.log + [x], pending := b.pending[1..]), base, actions, |actions|, n);
  }

  // Even then events are dispatched once each and in the order of their times, however many
  // turns there are
  lemma {:induction false} TurnsKept(t: Turn, base: int, handlers: Handlers, m: nat, n: nat)
    requires Kept(t.books, n) && AddNoEarlier(handlers)
    ensures Kept(Turns(t, base, handlers, m).books, n)
  {
    if m > 0 {
      TurnsKept(t, base, handlers, m - 1, n);
      var u := Turns(t, base, handlers, m - 1);
      if u.books.pending != [] { TurnKept(u.books, base, u.calls, handlers, n); }
    }
  }

  // ---------------------------------------------------------------- who goes first

  // Of two events, the one with number a stands before that with number b
  ghost predicate Precedes(all: seq<Item>, a: nat, b: nat) {
    exists i, j :: 0 <= i < j < |all| && all[i].serial == a && all[j].serial == b
  }

  // The books are right, and the one has been or is to be dispatched before the other
  ghost predicate Ahead(b: Books, x: nat, y: nat) {
    Booked(b.added, b.log, b.pending) && Precedes(b.log + b.pending, x, y)
  }

  lemma PrecedesInserted(was: seq<Item>, s: nat, item: Item, x: nat, y: nat)
    requires s <= |was| && Precedes(was, x, y)
    ensures Precedes(was[..s] + [item] + was[s..], x, y)
  {
    var i, j :| 0 <= i < j < |was| && was[i].serial == x && was[j].serial == y;
    var all := was[..s] + [item] + was[s..];
    SlotFilled(was, s, item);
    var i', j' := if i < s then i else i + 1, if j < s then j else j + 1;
    assert all[i'].serial == x && all[j'].serial == y;
  }

  lemma PrecedesAdded(log: seq<Item>, q: seq<Item>, item: Item, x: nat, y: nat)
    requires Precedes(log + q, x, y)
    ensures Precedes(log + Inserted(q, item), x, y)
  {
    var was, s := log + q, |log| + Slot(q, item, 0);
    PrecedesInserted(was, s, item, x, y);
    assert log + Inserted(q, item) == was[..s] + [item] + was[s..];
  }

  lemma PrecedesDeleted(log: seq<Item>, q: seq<Item>, kind: nat, data: int -> bool, x: nat, y: nat)
    requires Precedes(log + q, x, y)
    ensures Precedes(log + Without(q, kind, data), x, y)
  {
    var was, all := log + q, log + Without(q, kind, data);
    var i, j :| 0 <= i < j < |was| && was[i].serial == x && was[j].serial == y;
    assert all[i].serial == x && all[j].serial == y;
  }

  lemma ActAhead(b: Books, base: int, action: Action, x: nat, y: nat)
    requires Ahead(b, x, y)
    ensures Ahead(Acted(b, base, action), x, y)
  {
    if action.Add? {
      var item := Item(base + action.time, action.kind, action.data, |b.added|);
      BookedAdded(b.added, b.log, b.pending, item);
      PrecedesAdded(b.log, b.pending, item, x, y);
    } else {
      var data := if action.Remove? then AnyData() else OnlyData(action.data);
      BookedDeleted(b.added, b.log, b.pending, action.kind, data);
      PrecedesDeleted(b.log, b.pending, action.kind, data, x, y);
    }
  }

  lemma {:induction false} ActedAhead(b: Books, base: int, actions: seq<Action>, n: nat, x: nat, y: nat)
    requires n <= |actions| && Ahead(b, x, y)
    ensures Ahead(ActedTo(b, base, actions, n), x, y)
  {
    if n > 0 {
      ActedAhead(b, base, actions, n - 1, x, y);
      ActAhead(ActedTo(b, base, actions, n - 1), base, actions[n - 1], x, y);
    }
  }

  lemma TurnAhead(b: Books, base: int, calls: nat, handlers: Handlers, x: nat, y: nat)
    requires Ahead(b, x, y) && b.pending != []
    ensures Ahead(Dispatched(b, base, calls, handlers).books, x, y)
  {
    var first := b.pending[0];
    var taken := b.(log := b.log + [first], pending := b.pending[1..]);
    BookedDispatched(b.added, b.log, b.pending);
    assert taken.log + taken.pending == b.log + b.pending;
    var actions := handlers(Told(calls, first.time - base, first.kind, first.data));
    ActedAhead(taken, base, actions, |actions|, x, y);
  }

  lemma {:induction false} TurnsAhead(t: Turn, base: int, handlers: Handlers, m: nat, x: nat, y: nat)
    requires Ahead(t.books, x, y)
    ensures Ahead(Turns(t, base, handlers, m).books, x, y)
  {
    if m > 0 {
      TurnsAhead(t, base, handlers, m - 1, x, y);
      var u := Turns(t, base, handlers, m - 1);
      if u.books.pending != [] { TurnAhead(u.books, base, u.calls, handlers, x, y); }
    }
  }

  lemma InOrderOfBoth(q: seq<Item>, i: nat, j: nat)
    requires ByTime(q) && Ranked(q) && i < j < |q|
    ensures q[i].time <= q[j].time && InRank(q[i], q[j])
  {
  }

  // Of two events that wait, neither of them deleted, the earlier one is dispatched first, of two for
  // the same time that of the smaller kind, and of the same kind the newer one, whatever handlers do
  // in between
  lemma DispatchedInRank(t: Turn, base: int, handlers: Handlers, m: nat, i: nat, j: nat, n: nat)
    requires Booked(t.books.added, t.books.log, t.books.pending)
    requires i < |t.books.pending| && j < |t.books.pending|
    requires var x, y := t.books.pending[i], t.books.pending[j];
             && x.kind != DELETED && y.kind != DELETED && x.time <= y.time
             && (x.time == y.time ==> x.kind < y.kind || (x.kind == y.kind && x.serial > y.serial))
             && var log := Turns(t, base, handlers, m).books.log; n < |log| && log[n].serial == y.serial
    ensures var log := Turns(t, base, handlers, m).books.log;
            exists k :: 0 <= k < n && log[k].serial == t.books.pending[i].serial
  {
    var q, x, y := t.books.pending, t.books.pending[i], t.books.pending[j];
    assert i < j by {
      if j < i { InOrderOfBoth(q, j, i); }
    }
    var was := t.books.log + q;
    assert was[|t.books.log| + i] == x && was[|t.books.log| + j] == y;
    TurnsAhead(t, base, handlers, m, x.serial, y.serial);
    Behind(Turns(t, base, handlers, m).books, x.serial, y.serial, n);
  }

  lemma Behind(b: Books, x: nat, y: nat, n: nat)
    requires Ahead(b, x, y) && n < |b.log| && b.log[n].serial == y
    ensures exists k :: 0 <= k < n && b.log[k].serial == x
  {
    var all := b.log + b.pending;
    var i, j :| 0 <= i < j < |all| && all[i].serial == x && all[j].serial == y;
    assert all[n].serial == y;
    assert j == n;
    assert b.log[i].serial == x;
  }

  // ---------------------------------------------------------------- who is not told

  // No event of this kind waits that could be handed to its handler
  ghost predicate NoneWaits(b: Books, kind: nat) {
    kind != DELETED ==> forall i :: 0 <= i < |b.pending| ==> b.pending[i].kind != kind
  }

  ghost predicate AddsNone(actions: seq<Action>, kind: nat) {
    kind != DELETED ==> forall i :: 0 <= i < |actions| && actions[i].Add? ==> actions[i].kind != kind
  }

  // The handlers do the same, except for this kind, and add none of it
  ghost predicate Alike(handlers: Handlers, others: Handlers, kind: nat) {
    && (forall told: Told :: told.kind != kind ==> handlers(told) == others(told))
    && forall told: Told :: AddsNone(handlers(told), kind)
  }

  lemma NoneRemains(b: Books, base: int, kind: nat)
    ensures NoneWaits(Acted(b, base, Remove(kind)), kind)
  {
  }

  lemma ActNoneWaits(b: Books, base: int, action: Action, kind: nat)
    requires NoneWaits(b, kind) && (action.Add? && kind != DELETED ==> action.kind != kind)
    ensures NoneWaits(Acted(b, base, action), kind)
  {
  }

  lemma {:induction false} ActedNoneWaits(b: Books, base: int, actions: seq<Action>, n: nat, kind: nat)
    requires n <= |actions| && NoneWaits(b, kind) && AddsNone(actions, kind)
    ensures NoneWaits(ActedTo(b, base, actions, n), kind)
  {
    if n > 0 {
      ActedNoneWaits(b, base, actions, n - 1, kind);
      ActNoneWaits(ActedTo(b, base, actions, n - 1), base, actions[n - 1], kind);
    }
  }

  lemma TurnNoneWaits(b: Books, base: int, calls: nat, handlers: Handlers, others: Handlers, kind: nat)
    requires NoneWaits(b, kind) && Alike(handlers, others, kind) && b.pending != []
    ensures Dispatched(b, base, calls, handlers) == Dispatched(b, base, calls, others)
    ensures NoneWaits(Dispatched(b, base, calls, handlers).books, kind)
  {
    var x := b.pending[0];
    var actions := handlers(Told(calls, x.time - base, x.kind, x.data));
    ActedNoneWaits(b.(log := b.log + [x], pending := b.pending[1..]), base, actions, |actions|, kind);
  }

  // Once all events of a kind have been removed its handler is not called, whatever it would do, as
  // long as none is added; and deleted events have no handler
  lemma {:induction false} RemovedIsSilent(t: Turn, base: int, handlers: Handlers, others: Handlers, kind: nat, m: nat)
    requires NoneWaits(t.books, kind) && Alike(handlers, others, kind)
    ensures Turns(t, base, handlers, m) == Turns(t, base, others, m)
    ensures NoneWaits(Turns(t, base, handlers, m).books, kind)
  {
    if m > 0 {
      RemovedIsSilent(t, base, handlers, others, kind, m - 1);
      var u := Turns(t, base, handlers, m - 1);
      if u.books.pending != [] { TurnNoneWaits(u.books, base, u.calls, handlers, others, kind); }
    }
  }

  // ---------------------------------------------------------------- turns without end

  function Renewing(): Handlers { (told: Told) => [Add(told.tstates, told.kind, told.data)] }

  // But there need be no end to the turns: an event whose handler adds it again for the same
  // time is always due
  lemma {:induction false} RenewedForever(t: Turn, base: int, m: nat)
    requires |t.books.pending| == 1 && t.books.pending[0].kind != DELETED
    ensures var q := Turns(t, base, Renewing(), m).books.pending;
            |q| == 1 && q[0].time == t.books.pending[0].time && q[0].kind == t.books.pending[0].kind
  {
    if m > 0 {
      RenewedForever(t, base, m - 1);
      var u := Turns(t, base, Renewing(), m - 1);
      RenewedOnce(u.books, base, u.calls);
    }
  }

  lemma RenewedOnce(b: Books, base: int, calls: nat)
    requires |b.pending| == 1 && b.pending[0].kind != DELETED
    ensures var q := Dispatched(b, base, calls, Renewing()).books.pending;
            |q| == 1 && q[0].time == b.pending[0].time && q[0].kind == b.pending[0].kind
  {
    var x := b.pending[0];
    var taken := b.(log := b.log + [x], pending := b.pending[1..]);
    var actions := Renewing()(Told(calls, x.time - base, x.kind, x.data));
    assert actions == [Add(x.time - base, x.kind, x.data)];
    assert ActedTo(taken, base, actions, 0) == taken;
    var added := Item(base + (x.time - base), x.kind, x.data, |b.added|);
    assert b.pending[1..] == [] && Inserted([], added) == [added];
  }

  // Is an event due by now, the frame having begun at base?
  ghost predicate Due(b: Books, base: int, now: int) { b.pending != [] && b.pending[0].time <= base + now }

  // After some number of turns nothing more is due
  ghost predicate Ends(t: Turn, base: int, now: int, handlers: Handlers) {
    exists m: nat {:trigger Turns(t, base, handlers, m)} :: !Due(Turns(t, base, handlers, m).books, base, now)
  }

  ghost predicate AllDue(t: Turn, base: int, now: int, handlers: Handlers, m: nat) {
    forall j: nat {:trigger Turns(t, base, handlers, j)} :: j < m ==> Due(Turns(t, base, handlers, j).books, base, now)
  }

  // From t to u events were dispatched that were due by now, one a turn
  ghost predicate Done(t: Turn, u: Turn, base: int, now: int, handlers: Handlers) {
    && t.books.log <= u.books.log && t.books.added <= u.books.added
    && u == Turns(t, base, handlers, |u.books.log| - |t.books.log|)
    && AllDue(t, base, now, handlers, |u.books.log| - |t.books.log|)
  }

  lemma {:induction false} ActedGrows(b: Books, base: int, actions: seq<Action>, m: nat)
    requires m <= |actions|
    ensures ActedTo(b, base, actions, m).log == b.log && b.added <= ActedTo(b, base, actions, m).added
  {
    if m > 0 {
      ActedGrows(b, base, actions, m - 1);
      ActKeepsLog(ActedTo(b, base, actions, m - 1), base, actions[m - 1]);
    }
  }

  lemma TurnGrows(b: Books, base: int, calls: nat, handlers: Handlers)
    requires b.pending != []
    ensures var c := Dispatched(b, base, calls, handlers).books;
            c.log == b.log + [b.pending[0]] && b.added <= c.added
  {
    var x := b.pending[0];
    var actions := handlers(Told(calls, x.time - base, x.kind, x.data));
    ActedGrows(b.(log := b.log + [x], pending := b.pending[1..]), base, actions, |actions|);
  }

  lemma OneTurnMore(t: Turn, u: Turn, base: int, now: int, handlers: Handlers)
    requires Done(t, u, base, now, handlers) && Due(u.books, base, now)
    ensures Done(t, Dispatched(u.books, base, u.calls, handlers), base, now, handlers)
  {
    TurnGrows(u.books, base, u.calls, handlers);
  }

  // Only events that were due are dispatched, whatever handlers do
  lemma {:induction false} NoneEarly(t: Turn, base: int, now: int, handlers: Handlers, m: nat)
    requires AllDue(t, base, now, handlers, m)
    ensures var log := Turns(t, base, handlers, m).books.log;
            |log| == |t.books.log| + m && t.books.log <= log && AllBy(log, |t.books.log|, base + now)
  {
    if m > 0 {
      NoneEarly(t, base, now, handlers, m - 1);
      var u := Turns(t, base, handlers, m - 1);
      assert Due(u.books, base, now);
      TurnGrows(u.books, base, u.calls, handlers);
    }
  }

  // With handlers that add nothing earlier than their own event the order of the run holds
  lemma OrderHolds(t: Turn, u: Turn, base: int, now: int, handlers: Handlers)
    requires Done(t, u, base, now, handlers) && AddNoEarlier(handlers)
    requires Kept(t.books, 0) && AllBy(t.books.log, 0, base + now)
    ensures Kept(u.books, 0) && AllBy(u.books.log, 0, base + now)
  {
    var m := |u.books.log| - |t.books.log|;
    TurnsKept(t, base, handlers, m, 0);
    NoneEarly(t, base, now, handlers, m);
  }

  lemma {:induction false} TurnsShift(t: Turn, base: int, handlers: Handlers, m: nat)
    requires t.books.pending != []
    ensures Turns(t, base, handlers, m + 1)
         == Turns(Dispatched(t.books, base, t.calls, handlers), base, handlers, m)
  {
    if m > 0 { TurnsShift(t, base, handlers, m - 1); }
  }

  lemma LaterIsNoEarlier(handlers: Handlers)
    requires AddLater(handlers)
    ensures AddNoEarlier(handlers)
  {
    forall told: Told ensures NoEarlier(told.tstates, handlers(told)) {
      assert Later(told.tstates, handlers(told));
    }
  }

  // How late the first event is, and how many wait for the same time
  ghost function Late(b: Books, base: int, now: int): nat {
    if Due(b, base, now) then base + now - b.pending[0].time + 1 else 0
  }

  ghost function WithFirst(b: Books): nat { if b.pending == [] then 0 else WaitingFor(b.pending, b.pending[0].time) }

  // With handlers that add only later events there is an end to the turns
  lemma {:induction false} LaterEnds(t: Turn, base: int, now: int, handlers: Handlers, n: nat)
    requires Kept(t.books, n) && AddLater(handlers)
    ensures Ends(t, base, now, handlers)
    decreases Late(t.books, base, now), WithFirst(t.books)
  {
    if Due(t.books, base, now) {
      var u := Dispatched(t.books, base, t.calls, handlers);
      TurnGetsOn(t.books, base, t.calls, handlers, n);
      LaterIsNoEarlier(handlers);
      TurnKept(t.books, base, t.calls, handlers, n);
      LaterEnds(u, base, now, handlers, n);
      var m: nat :| !Due(Turns(u, base, handlers, m).books, base, now);
      TurnsShift(t, base, handlers, m);
    } else {
      assert Turns(t, base, handlers, 0) == t;
    }
  }

  // With an event that is due and is always renewed there is none
  lemma RenewedNeverEnds(t: Turn, base: int, now: int)
    requires |t.books.pending| == 1 && t.books.pending[0].kind != DELETED && Due(t.books, base, now)
    ensures !Ends(t, base, now, Renewing())
  {
    forall m: nat ensures Due(Turns(t, base, Renewing(), m).books, base, now) { RenewedForever(t, base, m); }
  }

  // With which handlers there is an end to the turns at any time of a run
  ghost predicate AlwaysEnd(handlers: Handlers) {
    forall t: Turn, base: int, now: int {:trigger Ends(t, base, now, handlers)} ::
      Kept(t.books, 0) ==> Ends(t, base, now, handlers)
  }

  lemma LaterAlwaysEnds(handlers: Handlers)
    requires AddLater(handlers)
    ensures AlwaysEnd(handlers)
  {
    forall t: Turn, base: int, now: int | Kept(t.books, 0) ensures Ends(t, base, now, handlers) {
      LaterEnds(t, base, now, handlers, 0);
    }
  }

  class Event {
    var tstates: int
    var kind: nat
    var data: int

    constructor ()
    {
      tstates, kind, data := 0, 0, 0;
    }
  }

  // From number m on, no event was dispatched that was for later than this
  ghost predicate AllBy(log: seq<Item>, m: nat, time: int) {
    forall i :: m <= i < |log| ==> log[i].time <= time
  }

  class Queue {
    var list: seq<Event>
    var free: Event?
    var next: int                    // event_next_event
    var tstates: int
    var calls: nat                   // of handlers, who may do something else each time

    ghost var nodes: set<Event>      // every event_t allocated
    ghost var current: Event?        // the event whose handler runs
    ghost var base: int              // T-states in the frames that are over
    ghost var pending: seq<Item>
    ghost var log: seq<Item>         // the events dispatched so far
    ghost var added: seq<Item>

    ghost predicate Valid()
      reads this, nodes
    {
      && Nodes() && Shows(pending) && NextIsHead() && Booked(added, log, pending)
    }

    // The list holds different nodes, and neither the one that is free nor the one whose
    // handler runs is among them
    ghost predicate Nodes()
      reads this
    {
      && (forall i :: 0 <= i < |list| ==> list[i] in nodes)
      && (forall i, j :: 0 <= i < j < |list| ==> list[i] != list[j])
      && (free != null ==> free in nodes && free !in list)
      && (current != null ==> current in nodes && current !in list && current != free)
    }

    // The nodes hold the events of q, timed within the frame
    ghost predicate Shows(q: seq<Item>)
      reads this, list
    {
      && |list| == |q|
      && forall i :: 0 <= i < |q| ==>
           list[i].tstates == q[i].time - base && 0 <= list[i].tstates <= NO_EVENTS
           && list[i].kind == q[i].kind && list[i].data == q[i].data
    }

    // Is this node in no use at all?
    ghost predicate Unused(ptr: Event)
      reads this
    {
      ptr in nodes && ptr !in list && ptr != free && ptr != current
    }

    constructor ()
      ensures Valid() && current == null && fresh(nodes) && pending == [] && log == [] && added == [] && base == 0
    {
      list, free, next, tstates, calls := [], null, NO_EVENTS, 0, 0;
      nodes, current, base, pending, log, added := {}, null, 0, [], [], [];
    }

    // The node holds x
    ghost predicate Holds(ptr: Event, x: Item)
      reads this`base, ptr
    {
      ptr.tstates == x.time - base && 0 <= ptr.tstates <= NO_EVENTS && ptr.kind == x.kind && ptr.data == x.data
    }

    // The search of g_slist_insert_sorted
    method FindSlot(ptr: Event, ghost x: Item) returns (i: nat)
      requires Shows(pending) && Holds(ptr, x)
      ensures i == Slot(pending, x, 0) && i <= |list|
    {
      i := 0;
      while i < |list|
            && (if ptr.tstates != list[i].tstates then ptr.tstates > list[i].tstates else ptr.kind > list[i].kind)
        invariant i <= |list| && Slot(pending, x, 0) == Slot(pending, x, i)
      {
        i := i + 1;
      }
    }

    // Put a node into the list, with i nodes before it
    method Link(ptr: Event, i: nat, ghost x: Item)
      requires Unused(ptr) && Nodes() && Shows(pending) && Holds(ptr, x) && i <= |list|
      modifies this`list, this`pending
      ensures pending == old(pending)[..i] + [x] + old(pending)[i..] && list == old(list)[..i] + [ptr] + old(list)[i..]
      ensures Nodes() && Shows(pending)
    {
      SlotFilled(list, i, ptr);
      SlotFilled(pending, i, x);
      list := list[..i] + [ptr] + list[i..];
      pending := pending[..i] + [x] + pending[i..];
    }

    // The node that is free, or else a new one
    method Allocate() returns (ptr: Event)
      requires Nodes() && Shows(pending)
      modifies this`free, this`nodes
      ensures Nodes() && Shows(pending) && Unused(ptr) && nodes == old(nodes) + {ptr}
      ensures fresh(nodes - old(nodes)) && (if old(free) != null then ptr == old(free) else fresh(ptr)) && free == null
    {
      if free != null {
        ptr := free;
        free := null;
      } else {
        ptr := new Event();
        nodes := nodes + {ptr};
      }
    }

    method Fill(ptr: Event, time: int, kind: nat, data: int)
      requires Unused(ptr) && Nodes() && Shows(pending)
      modifies ptr
      ensures ptr.tstates == time && ptr.kind == kind && ptr.data == data && Nodes() && Shows(pending)
    {
      ptr.tstates, ptr.kind, ptr.data := time, kind, data;
    }

    ghost predicate NextIsHead()
      reads this, list
    {
      next == if list == [] then NO_EVENTS else list[0].tstates
    }

    // The last part of event_add_with_data
    method Insert(ptr: Event, ghost x: Item)
      requires Unused(ptr) && Nodes() && Shows(pending) && Holds(ptr, x) && NextIsHead()
      modifies this`list, this`next, this`pending
      ensures Nodes() && Shows(pending) && NextIsHead() && pending == Inserted(old(pending), x)
      ensures forall n :: n in list ==> n in old(list) || n == ptr
    {
      if ptr.tstates < next {
        next := ptr.tstates;
        Link(ptr, 0, x);
      } else {
        var i := FindSlot(ptr, x);
        Link(ptr, i, x);
      }
    }

    // event_add_with_data, without the books
    method AddEvent(time: int, kind: nat, data: int, ghost x: Item)
      requires Nodes() && Shows(pending) && NextIsHead()
      requires 0 <= time <= NO_EVENTS && x.time == base + time && x.kind == kind && x.data == data
      modifies this`list, this`free, this`next, this`nodes, this`pending, free
      ensures Nodes() && Shows(pending) && NextIsHead() && pending == Inserted(old(pending), x)
      ensures fresh(nodes - old(nodes)) && old(nodes) <= nodes && free == null
      ensures (old(free) != null ==> nodes == old(nodes))
    {
      var ptr := Allocate();
      Fill(ptr, time, kind, data);
      Insert(ptr, x);
    }

    // event_add_with_data. A node kept for reuse is used. The event whose handler runs is never taken for the new one.
    method AddWithData(time: int, kind: nat, data: int)
      requires Valid() && 0 <= time <= NO_EVENTS
      modifies this`list, this`free, this`next, this`nodes, this`pending, this`added, free
      ensures Valid() && fresh(nodes - old(nodes)) && old(nodes) <= nodes && free == null
      ensures (old(free) != null ==> nodes == old(nodes))
      ensures var x := Item(base + time, kind, data, |old(added)|);
              added == old(added) + [x] && pending == Inserted(old(pending), x)
    {
      ghost var x := Item(base + time, kind, data, |added|);
      BookedAdded(added, log, pending, x);
      AddEvent(time, kind, data, x);
      added := added + [x];
    }

    // g_slist_foreach with set_event_null
    method SetEventsNull(kind: nat)
      requires Nodes()
      modifies list`kind
      ensures forall i :: 0 <= i < |list| ==>
                list[i].kind == if old(list[i].kind) == kind then DELETED else old(list[i].kind)
    {
      var i := 0;
      while i < |list|
        modifies list`kind
        invariant i <= |list|
        invariant forall j :: 0 <= j < i ==>
                    list[j].kind == if old(list[j].kind) == kind then DELETED else old(list[j].kind)
        invariant forall j :: i <= j < |list| ==> list[j].kind == old(list[j].kind)
      {
        assert forall j :: 0 <= j < |list| && j != i ==> list[j] != list[i];
        if list[i].kind == kind { list[i].kind := DELETED; }
        i := i + 1;
      }
    }

    // g_slist_foreach with set_event_null_with_user_data
    method SetEventsNullWithUserData(kind: nat, data: int)
      requires Nodes()
      modifies list`kind
      ensures forall i :: 0 <= i < |list| ==>
                list[i].kind == if old(list[i].kind) == kind && list[i].data == data then DELETED else old(list[i].kind)
    {
      var i := 0;
      while i < |list|
        modifies list`kind
        invariant i <= |list|
        invariant forall j :: 0 <= j < i ==>
                    list[j].kind == if old(list[j].kind) == kind && list[j].data == data
                      then DELETED else old(list[j].kind)
        invariant forall j :: i <= j < |list| ==> list[j].kind == old(list[j].kind)
      {
        assert forall j :: 0 <= j < |list| && j != i ==> list[j] != list[i];
        if list[i].kind == kind && list[i].data == data { list[i].kind := DELETED; }
        i := i + 1;
      }
    }

    // event_remove_type
    method RemoveType(kind: nat)
      requires Valid()
      modifies this`pending, list`kind
      ensures Valid() && pending == Without(old(pending), kind, AnyData())
      ensures forall i {:trigger pending[i]} :: 0 <= i < |pending| ==>
                pending[i] == if old(pending)[i].kind == kind then old(pending)[i].(kind := 0) else old(pending)[i]
    {
      BookedDeleted(added, log, pending, kind, AnyData());
      NullType(kind);
    }

    method NullType(kind: nat)
      requires Nodes() && Shows(pending) && NextIsHead()
      modifies this`pending, list`kind
      ensures Nodes() && Shows(pending) && NextIsHead() && pending == Without(old(pending), kind, AnyData())
    {
      SetEventsNull(kind);
      pending := Without(pending, kind, AnyData());
    }

    // event_remove_type_user_data
    method RemoveTypeUserData(kind: nat, data: int)
      requires Valid()
      modifies this`pending, list`kind
      ensures Valid() && pending == Without(old(pending), kind, OnlyData(data))
      ensures forall i {:trigger pending[i]} :: 0 <= i < |pending| ==>
                var was := old(pending)[i];
                pending[i] == if was.kind == kind && was.data == data then was.(kind := 0) else was
    {
      BookedDeleted(added, log, pending, kind, OnlyData(data));
      NullTypeUserData(kind, data);
    }

    method NullTypeUserData(kind: nat, data: int)
      requires Nodes() && Shows(pending) && NextIsHead()
      modifies this`pending, list`kind
      ensures Nodes() && Shows(pending) && NextIsHead() && pending == Without(old(pending), kind, OnlyData(data))
    {
      SetEventsNullWithUserData(kind, data);
      pending := Without(pending, kind, OnlyData(data));
    }

    // g_slist_foreach with event_reduce_tstates
    method ReduceTstates(length: nat)
      requires Nodes()
      modifies list`tstates
      ensures forall i :: 0 <= i < |list| ==> list[i].tstates == Minus(old(list[i].tstates), length)
    {
      var i := 0;
      while i < |list|
        modifies list`tstates
        invariant i <= |list|
        invariant forall j :: 0 <= j < i ==> list[j].tstates == Minus(old(list[j].tstates), length)
        invariant forall j :: i <= j < |list| ==> list[j].tstates == old(list[j].tstates)
      {
        assert forall j :: 0 <= j < |list| && j != i ==> list[j] != list[i];
        list[i].tstates := Minus(list[i].tstates, length);
        i := i + 1;
      }
    }

    // May the frame end after this many T-states, with no event before that still waiting?
    ghost predicate MayEnd(length: nat)
      reads this`base, this`pending
    {
      forall i :: 0 <= i < |pending| ==> base + length <= pending[i].time
    }

    // event_frame. Every event keeps its time in the run exactly when none waits that is
    // earlier than the end of the frame; otherwise the time of one wraps.
    method Frame(length: nat)
      requires Valid()
      modifies this`next, this`base, list`tstates
      ensures base == old(base) + length && NextIsHead() && (Valid() <==> old(MayEnd(length)))
      ensures forall i :: 0 <= i < |list| ==> list[i].tstates == (old(list[i].tstates) - length) % 0x1_0000_0000
    {
      Rebase(length);
      forall i | 0 <= i < |pending|
        ensures base <= pending[i].time <==> list[i].tstates == pending[i].time - base
      {
        MinusFits(pending[i].time - old(base), length);
      }
    }

    method Rebase(length: nat)
      requires Nodes()
      modifies this`next, this`base, list`tstates
      ensures base == old(base) + length && NextIsHead() && Nodes()
      ensures forall i :: 0 <= i < |list| ==> list[i].tstates == Minus(old(list[i].tstates), length)
    {
      ReduceTstates(length);
      base := base + length;
      next := if list != [] then list[0].tstates else NO_EVENTS;
    }

    ghost function View(): Books
      reads this`added, this`log, this`pending
    {
      Books(added, log, pending)
    }

    method AddOne(time: int, kind: nat, data: int)
      requires Valid() && 0 <= time <= NO_EVENTS
      modifies this`list, this`free, this`next, this`nodes, this`pending, this`added, free
      ensures Valid() && fresh(nodes - old(nodes)) && old(nodes) <= nodes
      ensures View() == Acted(old(View()), base, Add(time, kind, data))
    {
      AddWithData(time, kind, data);
    }

    // One action of a handler
    method Act(action: Action)
      requires Valid() && (action.Add? ==> 0 <= action.time <= NO_EVENTS)
      modifies this`list, this`free, this`next, this`nodes, this`pending, this`added, nodes
      ensures Valid() && View() == Acted(old(View()), base, action) && fresh(nodes - old(nodes)) && old(nodes) <= nodes
    {
      match action {
        case Add(t, kind, data) => AddOne(t, kind, data);
        case Remove(kind) => RemoveType(kind);
        case RemoveWith(kind, data) => RemoveTypeUserData(kind, data);
      }
    }

    // The call of a handler
    method Handle(actions: seq<Action>)
      requires Valid() && InRange(actions)
      modifies this`list, this`free, this`next, this`nodes, this`pending, this`added, nodes
      ensures Valid() && View() == ActedTo(old(View()), base, actions, |actions|)
      ensures fresh(nodes - old(nodes)) && old(nodes) <= nodes
    {
      ghost var b := View();
      var i := 0;
      while i < |actions|
        invariant i <= |actions| && Valid() && View() == ActedTo(b, base, actions, i)
        invariant fresh(nodes - old(nodes)) && old(nodes) <= nodes
      {
        Act(actions[i]);
        i := i + 1;
      }
    }

    // Remove the first event from the list, before it is processed
    method Unlink() returns (ptr: Event)
      requires Valid() && list != [] && current == null
      modifies this`list, this`next, this`current, this`pending, this`log
      ensures Valid() && current == ptr && ptr == old(list[0]) && old(pending) != []
      ensures View() == old(View()).(log := old(log) + [old(pending)[0]], pending := old(pending)[1..])
      ensures Holds(ptr, old(pending)[0]) && old(pending)[0].time == base + old(next)
    {
      BookedDispatched(added, log, pending);
      ptr := list[0];
      list := list[1..];
      next := if list == [] then NO_EVENTS else list[0].tstates;
      current, log, pending := ptr, log + [pending[0]], pending[1..];
    }

    // Keep the node for the next event, if none is kept yet
    method Recycle(ptr: Event)
      requires Valid() && current == ptr
      modifies this`free, this`current
      ensures Valid() && current == null && free == if old(free) == null then ptr else old(free)
    {
      current := null;
      if free == null { free := ptr; }
    }

    // Call the handler for an event, if it has not been deleted
    method Call(handlers: Handlers, ptr: Event, ghost x: Item)
      requires Valid() && AddInRange(handlers) && Holds(ptr, x)
      modifies this`list, this`free, this`next, this`calls, this`nodes, this`pending, this`added, nodes
      ensures Valid() && fresh(nodes - old(nodes)) && old(nodes) <= nodes
      ensures Turn(View(), calls) == Handled(old(View()), base, old(calls), handlers, x)
    {
      if ptr.kind != DELETED {
        var told := Told(calls, ptr.tstates, ptr.kind, ptr.data);
        ActionsInRange(handlers, told);
        Tell(handlers(told));
      }
    }

    // One call of a handler more
    method Tell(actions: seq<Action>)
      requires Valid() && InRange(actions)
      modifies this`list, this`free, this`next, this`calls, this`nodes, this`pending, this`added, nodes
      ensures Valid() && View() == ActedTo(old(View()), base, actions, |actions|) && calls == old(calls) + 1
      ensures fresh(nodes - old(nodes)) && old(nodes) <= nodes
    {
      Handle(actions);
      calls := calls + 1;
    }

    // The body of the loop of event_do_events
    method DoEvent(handlers: Handlers)
      requires Valid() && list != [] && AddInRange(handlers) && current == null
      modifies this`list, this`free, this`next, this`calls, this`nodes, this`current
      modifies this`pending, this`log, this`added, nodes
      ensures Valid() && fresh(nodes - old(nodes)) && old(nodes) <= nodes && current == null
      ensures old(pending) != [] && old(pending)[0].time == base + old(next)
      ensures Turn(View(), calls) == Dispatched(old(View()), base, old(calls), handlers)
    {
      ghost var x := pending[0];
      var ptr := Unlink();
      Call(handlers, ptr, x);
      Recycle(ptr);
    }

    // event_do_events: it ends if there is an end to the turns, having dispatched each event
    // that was due by now, and no other
    method DoEvents(handlers: Handlers)
      requires Valid() && AddInRange(handlers) && 0 <= tstates < NO_EVENTS && current == null
      requires Ends(Turn(View(), calls), base, tstates, handlers)
      modifies this`list, this`free, this`next, this`calls, this`nodes, this`current
      modifies this`pending, this`log, this`added, nodes
      ensures Valid() && current == null && fresh(nodes - old(nodes)) && old(nodes) <= nodes
      ensures Done(old(Turn(View(), calls)), Turn(View(), calls), base, tstates, handlers)
      ensures MayEnd(tstates + 1) && tstates < next
    {
      ghost var t := Turn(View(), calls);
      ghost var m: nat :| !Due(Turns(t, base, handlers, m).books, base, tstates);
      while next <= tstates
        invariant Valid() && current == null && fresh(nodes - old(nodes)) && old(nodes) <= nodes
        invariant Done(t, Turn(View(), calls), base, tstates, handlers) && |log| - |t.books.log| <= m
        decreases m - (|log| - |t.books.log|)
      {
        DoDue(handlers, t, m);
      }
      FirstIsNext();
    }

    method DoDue(handlers: Handlers, ghost t: Turn, ghost m: nat)
      requires Valid() && AddInRange(handlers) && next <= tstates < NO_EVENTS && current == null
      requires Done(t, Turn(View(), calls), base, tstates, handlers) && |log| - |t.books.log| <= m
      requires !Due(Turns(t, base, handlers, m).books, base, tstates)
      modifies this`list, this`free, this`next, this`calls, this`nodes, this`current
      modifies this`pending, this`log, this`added, nodes
      ensures Valid() && current == null && fresh(nodes - old(nodes)) && old(nodes) <= nodes
      ensures Done(t, Turn(View(), calls), base, tstates, handlers)
      ensures |log| == |old(log)| + 1 && |log| - |t.books.log| <= m
    {
      ghost var u := Turn(View(), calls);
      FirstIsNext();
      OneTurnMore(t, u, base, tstates, handlers);
      TurnGrows(u.books, base, u.calls, handlers);
      DoEvent(handlers);
    }

    // At every moment of a run: all events so far were dispatched in the order of their times,
    // none of them early, and none that waits is earlier
    ghost predicate Sound()
      reads this, nodes
    {
      Valid() && InOrder(log, pending, 0) && current == null
      && AllBy(log, 0, base + tstates) && 0 <= tstates < NO_EVENTS
    }

    // The processor runs for a while
    method Elapse(spent: nat)
      requires Sound() && tstates + spent < NO_EVENTS
      modifies this`tstates
      ensures Sound() && tstates == old(tstates) + spent
    {
      tstates := tstates + spent;
    }

    // A device asks for an event, not in the past
    method Schedule(t: int, kind: nat, data: int)
      requires Sound() && tstates <= t <= NO_EVENTS
      modifies this`list, this`free, this`next, this`nodes, this`pending, this`added, free
      ensures Sound() && fresh(nodes - old(nodes)) && old(nodes) <= nodes
      ensures added == old(added) + [Item(base + t, kind, data, |old(added)|)]
    {
      ghost var x := Item(base + t, kind, data, |added|);
      InOrderAdded(log, pending, 0, x);
      AddWithData(t, kind, data);
    }

    // The events due by now are dispatched
    method Dispatch(handlers: Handlers)
      requires Sound() && AddInRange(handlers) && AddNoEarlier(handlers)
      requires Ends(Turn(View(), calls), base, tstates, handlers)
      modifies this`list, this`free, this`next, this`calls, this`nodes, this`current
      modifies this`pending, this`log, this`added, nodes
      ensures Sound() && fresh(nodes - old(nodes)) && old(nodes) <= nodes && old(log) <= log && old(added) <= added
      ensures MayEnd(tstates + 1) && tstates < next
    {
      ghost var t := Turn(View(), calls);
      DoEvents(handlers);
      OrderHolds(t, Turn(View(), calls), base, tstates, handlers);
    }

    // event_force_events, of use when what is left of the frame is not to be emulated
    method ForceEvents(handlers: Handlers, length: nat)
      requires Sound() && AddInRange(handlers) && AddNoEarlier(handlers) && AlwaysEnd(handlers) && length <= NO_EVENTS
      modifies this, nodes
      ensures Sound() && fresh(nodes - old(nodes)) && old(nodes) <= nodes && old(log) <= log && old(added) <= added
      ensures base == old(base) && length <= next && MayEnd(length)
      ensures old(MayEnd(tstates)) ==> MayEnd(tstates)
    {
      while next < length
        invariant Sound() && fresh(nodes - old(nodes)) && old(nodes) <= nodes
        invariant old(log) <= log && old(added) <= added && base == old(base)
        invariant old(MayEnd(tstates)) ==> MayEnd(tstates)
        decreases length - next
      {
        ForceNext(handlers);
      }
      FirstIsNext();
    }

    // Jump along to the next event, and do it
    method ForceNext(handlers: Handlers)
      requires Sound() && AddInRange(handlers) && AddNoEarlier(handlers) && AlwaysEnd(handlers) && next < NO_EVENTS
      modifies this`tstates, this`list, this`free, this`next, this`calls, this`nodes, this`current
      modifies this`pending, this`log, this`added, nodes
      ensures Sound() && fresh(nodes - old(nodes)) && old(nodes) <= nodes && old(log) <= log && old(added) <= added
      ensures tstates == old(next) < next && MayEnd(tstates)
    {
      FirstIsNext();
      tstates := next;
      assert Kept(View(), 0) && Ends(Turn(View(), calls), base, tstates, handlers);
      Dispatch(handlers);
    }

    // Events are dispatched, and the next frame begins
    method EndFrame(handlers: Handlers, length: nat)
      requires Sound() && AddInRange(handlers) && AddNoEarlier(handlers) && length <= tstates
      requires Ends(Turn(View(), calls), base, tstates, handlers)
      modifies this, nodes
      ensures Sound() && fresh(nodes - old(nodes)) && old(nodes) <= nodes && old(log) <= log && old(added) <= added
      ensures base == old(base) + length && tstates == old(tstates) - length
      ensures MayEnd(tstates + 1)
    {
      Dispatch(handlers);
      NextFrame(length);
    }

    // The times of the events and the clock go back by the length of the frame that is over
    method NextFrame(length: nat)
      requires Sound() && MayEnd(length) && length <= tstates
      modifies this`tstates, this`next, this`base, list`tstates
      ensures Sound() && base == old(base) + length && tstates == old(tstates) - length
    {
      Frame(length);
      tstates := tstates - length;
    }

    // The end of a frame that is played back: it ends with what there is to do before length
    method EndPlayedFrame(handlers: Handlers, length: nat)
      requires Sound() && AddInRange(handlers) && AddNoEarlier(handlers) && AlwaysEnd(handlers)
      requires MayEnd(tstates) && length <= NO_EVENTS
      modifies this, nodes
      ensures Sound() && fresh(nodes - old(nodes)) && old(nodes) <= nodes && old(log) <= log && old(added) <= added
      ensures base >= old(base) && tstates == 0
    {
      ForceEvents(handlers, length);
      NextFrame(tstates);
    }

    lemma FirstIsNext()
      requires Valid()
      ensures MayEnd(next) && ByTime(pending) && (list != [] ==> pending != [] && pending[0].time == base + next)
    {
    }
  }
}
