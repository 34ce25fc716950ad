/** The registrations of sleeping futures seen from outside: who waits, until when, and through which
    waker; and what holds over every run of polls, drops and ticks. */
module DelayRuns {
  type Waker = nat

  datatype Entry = Entry(target: nat, waker: Waker)

  /** D stands for the futures. */
  datatype Event<D> =
    | Polled(d: D, target: nat, now: nat, waker: Waker, ready: bool)
    | Dropped(d: D)
    | Ticked(now: nat, woken: seq<Waker>)
    | Skipped                                // a tick that found the list locked

  ghost predicate WokenAre<D>(t: map<D, Entry>, now: nat, woken: seq<Waker>)
  {
    forall w :: w in woken <==> exists d :: d in t && t[d].target <= now && t[d].waker == w
  }

  ghost predicate Next<D>(t: map<D, Entry>, e: Event<D>, t': map<D, Entry>)
  {
    match e
    case Polled(d, target, now, waker, ready) =>
      (ready || now < target) && t' == if ready then t - {d} else t[d := Entry(target, waker)]
    case Dropped(d) => t' == t - {d}
    case Ticked(now, woken) => WokenAre(t, now, woken) && t' == map d | d in t && now < t[d].target :: t[d]
    case Skipped => t' == t
  }

  ghost predicate IsRun<D>(tables: seq<map<D, Entry>>, events: seq<Event<D>>)
  {
    && |tables| == |events| + 1
    && tables[0] == map[]
    && forall k | 0 <= k < |events| :: Next(tables[k], events[k], tables[k + 1])
  }

  /** The future is neither polled nor dropped by this event. */
  ghost predicate Spares<D>(e: Event<D>, d: D)
  {
    (e.Polled? || e.Dropped? ==> e.d != d)
  }

  ghost predicate Undisturbed<D>(events: seq<Event<D>>, d: D, j: nat, k: nat)
    requires k <= |events|
  {
    forall i | j < i < k :: Spares(events[i], d)
  }

  ghost predicate Wakes<D>(e: Event<D>, target: nat, w: Waker)
  {
    e.Ticked? && target <= e.now && w in e.woken
  }

  /** What a Pending poll left behind stays, until it is woken. */
  lemma {:induction false} StaysOrWoken<D>(tables: seq<map<D, Entry>>, events: seq<Event<D>>, j: nat, k: nat)
    requires IsRun(tables, events) && j < k < |tables| && events[j].Polled? && !events[j].ready
    requires Undisturbed(events, events[j].d, j, k)
    ensures var Polled(d, target, _, w, _) := events[j];
            || (d in tables[k] && tables[k][d] == Entry(target, w))
            || exists i :: j < i < k && Wakes(events[i], target, w)
  {
    var Polled(d, target, _, w, _) := events[j];
    assert Next(tables[j], events[j], tables[j + 1]);
    if k > j + 1 {
      StaysOrWoken(tables, events, j, k - 1);
      assert Spares(events[k - 1], d) && Next(tables[k - 1], events[k - 1], tables[k - 1 + 1]);
      if d in tables[k - 1] && tables[k - 1][d] == Entry(target, w) && d !in tables[k] {
        assert Wakes(events[k - 1], target, w);
      }
    }
  }

  /** No lost wake: a future whose last poll was Pending, and which has not been dropped, has been
      woken through the waker of that poll once a tick has gone by its target. */
  lemma WokenInTime<D>(tables: seq<map<D, Entry>>, events: seq<Event<D>>, j: nat, m: nat)
    requires IsRun(tables, events) && j < m < |events| && events[j].Polled? && !events[j].ready
    requires Undisturbed(events, events[j].d, j, m) && events[m].Ticked? && events[j].target <= events[m].now
    ensures exists i :: j < i <= m && Wakes(events[i], events[j].target, events[j].waker)
  {
    StaysOrWoken(tables, events, j, m);
    var Polled(d, target, _, w, _) := events[j];
    if d in tables[m] && tables[m][d] == Entry(target, w) {
      assert Next(tables[m], events[m], tables[m + 1]);
      assert Wakes(events[m], target, w);
    }
  }

  /** A registration is that of the future's last poll. */
  lemma {:induction false} LastPoll<D>(tables: seq<map<D, Entry>>, events: seq<Event<D>>, k: nat, d: D) returns (j: nat)
    requires IsRun(tables, events) && k < |tables| && d in tables[k]
    ensures j < k && events[j].Polled? && !events[j].ready && events[j].d == d
    ensures tables[k][d] == Entry(events[j].target, events[j].waker)
    ensures Undisturbed(events, d, j, k)
    ensures forall i | j < i < k && events[i].Ticked? :: events[i].now < events[j].target
  {
    assert k > 0;
    var e := events[k - 1];
    assert Next(tables[k - 1], e, tables[k - 1 + 1]);
    if e.Polled? && e.d == d {
      j := k - 1;
    } else {
      j := LastPoll(tables, events, k - 1, d);
    }
  }

  /** No waker but a due future's own: each wake is for a future that has not been dropped, through the
      waker of its last poll, and at the first tick that is not before its target. */
  lemma WakesOnlyOwn<D>(tables: seq<map<D, Entry>>, events: seq<Event<D>>, m: nat, w: Waker) returns (j: nat)
    requires IsRun(tables, events) && m < |events| && events[m].Ticked? && w in events[m].woken
    ensures j < m && events[j].Polled? && !events[j].ready && events[j].waker == w && events[j].target <= events[m].now
    ensures Undisturbed(events, events[j].d, j, m)
    ensures forall i | j < i < m && events[i].Ticked? :: events[i].now < events[j].target
  {
    assert Next(tables[m], events[m], tables[m + 1]);
    var d :| d in tables[m] && tables[m][d].target <= events[m].now && tables[m][d].waker == w;
    j := LastPoll(tables, events, m, d);
  }
}
