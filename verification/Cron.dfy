/** The scheduler object of `plugin/cron/cron.go`, proved against the state machine. */
module Cron {
  import opened Wrappers
  import opened CronScheduler
  import CronSpec

  /** Asks a schedule for its next activation. */
  method Activate(s: Schedule, t: int) returns (r: Option<int>)
    ensures r == NextOf(s, t)
  {
    match s {
      case Crontab(spec) => r := CronSpec.Next(spec, t);
      case ConstantDelay(delay) => r := Some(t + (delay - t % CronSpec.NANO));
      case Custom(next) => r := next(t);
    }
  }

  class Entry {
    const id: nat
    const schedule: Schedule
    var next: Option<int>
    var prev: Option<int>

    constructor (id: nat, schedule: Schedule)
      ensures View() == EntryView(id, schedule, None, None)
    {
      this.id := id;
      this.schedule := schedule;
      next, prev := None, None;
    }

    ghost function View(): EntryView
      reads this
    {
      EntryView(id, schedule, next, prev)
    }
  }

  ghost function Views(es: seq<Entry>): seq<EntryView>
    reads es
  {
    seq(|es|, i requires 0 <= i < |es| reads es => es[i].View())
  }

  lemma ViewsAt(es: seq<Entry>)
    ensures |Views(es)| == |es| && forall i | 0 <= i < |es| :: Views(es)[i] == es[i].View()
  {
  }

  lemma ViewsOfConcat(a: seq<Entry>, b: seq<Entry>)
    ensures Views(a + b) == Views(a) + Views(b)
  {
  }

  method InsertByTime(es: seq<Entry>, e: Entry) returns (r: seq<Entry>)
    requires SortedByTime(Views(es))
    ensures SortedByTime(Views(r)) && multiset(r) == multiset(es) + multiset{e}
    ensures multiset(Views(r)) == multiset(Views(es)) + multiset{e.View()}
  {
    hide SortedByTime, Less, Views;
    var k := |es|;
    ViewsAt(es);
    while k > 0 && Less(e.next, es[k - 1].next)
      invariant 0 <= k <= |es|
      invariant forall j | k <= j < |es| :: Less(e.next, Views(es)[j].next)
    {
      k := k - 1;
    }
    InsertKeepsSorted(Views(es), k, e.View());
    ViewsOfInsert(es, k, e);
    InsertCounts(es, k, e);
    InsertCounts(Views(es), k, e.View());
    r := es[..k] + [e] + es[k..];
  }

  /** `sort.Sort(byTime(es))`, by insertion; callers rely only on what any sort provides. */
  method SortByTime(es: seq<Entry>) returns (sorted: seq<Entry>)
    ensures multiset(sorted) == multiset(es) && SortOf(Views(sorted), Views(es))
  {
    hide SortedByTime, Less, Views;
    sorted := [];
    ViewsOfNone();
    for n := 0 to |es|
      invariant multiset(sorted) == multiset(es[..n])
      invariant SortedByTime(Views(sorted)) && multiset(Views(sorted)) == multiset(Views(es[..n]))
    {
      sorted := InsertByTime(sorted, es[n]);
      assert es[..n + 1] == es[..n] + [es[n]];
      ViewsOfConcat(es[..n], [es[n]]);
      ViewsAt([es[n]]);
    }
    assert es[..|es|] == es;
  }

  lemma InsertCounts<T>(s: seq<T>, k: nat, x: T)
    requires k <= |s|
    ensures multiset(s[..k] + [x] + s[k..]) == multiset(s) + multiset{x}
  {
    assert s == s[..k] + s[k..];
  }

  lemma ViewsOfInsert(es: seq<Entry>, k: nat, e: Entry)
    requires k <= |es|
    ensures |Views(es)| == |es|
    ensures Views(es[..k] + [e] + es[k..]) == Views(es)[..k] + [e.View()] + Views(es)[k..]
  {
  }

  lemma ViewsOfNone()
    ensures Views([]) == [] && SortedByTime([])
  {
  }

  predicate Distinct<T(==)>(s: seq<T>) {
    forall i, j | 0 <= i < j < |s| :: s[i] != s[j]
  }

  lemma PermutationIsDistinct<T>(a: seq<T>, b: seq<T>)
    requires multiset(a) == multiset(b) && Distinct(b)
    ensures Distinct(a)
  {
    forall i, j | 0 <= i < j < |a| ensures a[i] != a[j] {
      if a[i] == a[j] {
        TwoPlacesMeanTwice(a, i, j);
        var k, l := TwiceMeansTwoPlaces(b, a[i]);
      }
    }
  }

  /** The first `i` entries have been run, and what is left to do is what the loop does from there. */
  ghost predicate Progress(was: seq<EntryView>, current: seq<EntryView>, now: int, i: nat, done: seq<Launch>) {
    && i <= |was| == |current| && current[i..] == was[i..]
    && current[..i] + RunDue(was[i..], now).0 == RunDue(was, now).0
    && done + RunDue(was[i..], now).1 == RunDue(was, now).1
  }

  lemma ProgressStarts(was: seq<EntryView>, now: int)
    ensures Progress(was, was, now, 0, [])
  {
    hide RunDue;
    assert was[0..] == was;
  }

  lemma ProgressStep(was: seq<EntryView>, current: seq<EntryView>, now: int, i: nat, done: seq<Launch>)
    requires Progress(was, current, now, i, done)
    ensures i < |was| ==> current[i] == was[i]
    ensures i == |was| || !Due(was[i], now) ==> (current, done) == RunDue(was, now)
    ensures i < |was| && Due(was[i], now) ==>
              Progress(was, current[i := Ran(was[i], now)], now, i + 1,
                       done + [Launch(was[i].id, was[i].next.value, now)])
  {
    hide NextOf;
    assert current == current[..i] + current[i..] && done + [] == done;
    if i < |was| {
      assert was[i..][0] == was[i];
      assert was[i..][1..] == was[i + 1..];
      assert current[i] == current[i..][0];
      var next := current[i := Ran(was[i], now)];
      assert next[i + 1..] == current[i..][1..];
      assert next[..i + 1] == current[..i] + [Ran(was[i], now)];
      var (rest, launched) := RunDue(was[i + 1..], now);
      if Due(was[i], now) {
        var l := Launch(was[i].id, was[i].next.value, now);
        assert RunDue(was[i..], now) == ([Ran(was[i], now)] + rest, [l] + launched);
        assert next[..i + 1] + rest == current[..i] + ([Ran(was[i], now)] + rest);
        assert done + [l] + launched == done + ([l] + launched);
      }
    }
  }

  lemma WithoutStep(es: seq<EntryView>, i: nat, id: nat)
    requires i <= |es|
    ensures Without([], id) == []
    ensures i < |es| ==>
              Without(es[i..], id) == (if es[i].id != id then [es[i]] else []) + Without(es[i + 1..], id)
  {
    if i < |es| { assert es[i..][1..] == es[i + 1..]; }
  }

  lemma DistinctSubsequence<T>(s: seq<T>, kept: seq<T>, i: nat)
    requires i <= |s| && Distinct(s) && forall x <- kept :: x in s[..i]
    ensures Distinct<T>([])
    ensures i < |s| && Distinct(kept) ==> Distinct(kept + [s[i]])
  {
    assert forall j | 0 <= j < |kept| :: kept[j] in kept;
    assert i < |s| ==> s[i] !in s[..i];
  }

  class Cron {
    var entries: seq<Entry>
    var running: bool
    var nextID: nat
    var launched: seq<Launch>
    ghost var clock: int

    ghost predicate Valid()
      reads this
    {
      Distinct(entries)
    }

    ghost function View(): State
      reads this, entries
    {
      State(Views(entries), running, nextID, launched, clock)
    }

    constructor (ghost clock: int)
      ensures Valid() && View() == State([], false, 0, [], clock)
    {
      entries, running, nextID, launched := [], false, 0, [];
      this.clock := clock;
    }

    /** The top of the scheduler's loop. */
    method Sort()
      requires Valid()
      modifies this`entries
      ensures Valid() && multiset(entries) == multiset(old(entries))
      ensures View() == old(View()).(entries := Views(entries)) && SortOf(Views(entries), old(Views(entries)))
    {
      var sorted := SortByTime(entries);
      PermutationIsDistinct(sorted, entries);
      entries := sorted;
    }

    method RescheduleAll(now: int)
      requires Valid()
      modifies entries
      ensures View() == old(View()).(entries := Rescheduled(old(Views(entries)), now))
    {
      hide NextOf, Views;
      ghost var was := Views(entries);
      ViewsAt(entries);
      for i := 0 to |entries|
        invariant forall k | 0 <= k < i :: entries[k].View() == Rescheduled(was, now)[k]
        invariant forall k | i <= k < |entries| :: entries[k].View() == was[k]
      {
        var e := entries[i];
        e.next := Activate(e.schedule, now);
      }
      ViewsAt(entries);
      assert Views(entries) == Rescheduled(was, now);
    }

    /** Starts the scheduler: every entry is scheduled anew from the current time. */
    method Start(now: int)
      requires Valid() && clock <= now
      modifies this, entries
      ensures Valid() && Step(old(View()), Event.Start(now), View())
      ensures multiset(entries) == multiset(old(entries))
    {
      hide NextOf, SortOf, Views, Rescheduled;
      if running {
        return;
      }
      running := true;
      RescheduleAll(now);
      clock := now;
      assert View() == Handled(old(View()), Event.Start(now));
      Sort();
    }

    /** Runs every entry whose time has come, stopping at the first that has not. */
    method RunDueEntries(now: int)
      requires Valid()
      modifies this`launched, entries
      ensures View() == old(View()).(
                entries := RunDue(old(Views(entries)), now).0,
                launched := old(launched) + RunDue(old(Views(entries)), now).1)
    {
      hide NextOf, RunDue, Views, Progress;
      var i := 0;
      ghost var was := Views(entries);
      ghost var current, done := was, [];
      ViewsAt(entries);
      ProgressStarts(was, now);
      while i < |entries|
        invariant 0 <= i <= |entries| == |was|
        invariant Views(entries) == current && Progress(was, current, now, i, done)
        invariant launched == old(launched) + done
      {
        var e := entries[i];
        ViewsAt(entries);
        ProgressStep(was, current, now, i, done);
        if e.next.None? || e.next.value > now {
          break;
        }
        launched := launched + [Launch(e.id, e.next.value, now)];
        done := done + [Launch(e.id, e.next.value, now)];
        current := current[i := Ran(e.View(), now)];
        e.prev := e.next;
        e.next := Activate(e.schedule, now);
        ViewsAt(entries);
        assert Views(entries) == current;
        i := i + 1;
      }
      ProgressStep(was, current, now, i, done);
    }

    /** The timer fires. */
    method Wake(now: int)
      requires Valid() && clock <= now
      modifies this, entries
      ensures Valid() && Step(old(View()), Event.Wake(now), View())
      ensures multiset(entries) == multiset(old(entries))
    {
      hide RunDue, SortOf, Views;
      if !running {
        return;
      }
      clock := now;
      RunDueEntries(now);
      assert View() == Handled(old(View()), Event.Wake(now));
      Sort();
    }

    /** Adds an entry; a running scheduler gives it its first activation time. */
    method Schedule(schedule: Schedule, now: int) returns (id: nat)
      requires Valid() && clock <= now
      modifies this, entries
      ensures Valid() && Step(old(View()), Event.Add(schedule, now), View())
      ensures id == nextID == old(nextID) + 1
      ensures forall e <- entries :: e in old(entries) || fresh(e)
    {
      hide NextOf, SortOf, Views;
      nextID := nextID + 1;
      id := nextID;
      var entry := new Entry(id, schedule);
      if !running {
        entries := entries + [entry];
      } else {
        clock := now;
        entry.next := Activate(entry.schedule, now);
        entries := entries + [entry];
      }
      ViewsOfConcat(old(entries), [entry]);
      ViewsAt([entry]);
      assert View() == Handled(old(View()), Event.Add(schedule, now));
      if running {
        Sort();
        assert forall e <- entries :: e in multiset(entries);
      }
    }

    /** Keeps the entries with another ID, in their order. */
    method RemoveEntry(id: nat)
      requires Valid()
      modifies this`entries
      ensures Valid() && View() == old(View()).(entries := Without(old(Views(entries)), id))
      ensures forall e <- entries :: e in old(entries)
    {
      hide Views, Distinct, Without;
      var kept: seq<Entry> := [];
      ghost var was := Views(entries);
      ViewsOfNone();
      ViewsAt(entries);
      DistinctSubsequence(entries, kept, 0);
      assert was[0..] == was;
      for i := 0 to |entries|
        invariant entries == old(entries)
        invariant Views(kept) + Without(was[i..], id) == Without(was, id)
        invariant Distinct(kept) && forall e <- kept :: e in entries[..i]
      {
        var e := entries[i];
        WithoutStep(was, i, id);
        DistinctSubsequence(entries, kept, i);
        if e.id != id {
          ViewsOfConcat(kept, [e]);
          ViewsAt([e]);
          kept := kept + [e];
        }
      }
      assert was[|entries|..] == [];
      WithoutStep(was, |entries|, id);
      entries := kept;
    }

    /** Removes an entry; a running scheduler reads the clock and sorts again. */
    method Remove(id: nat, now: int)
      requires Valid() && clock <= now
      modifies this
      ensures Valid() && Step(old(View()), Event.Remove(id, now), View())
      ensures forall e <- entries :: e in old(entries)
    {
      hide SortOf;
      if running {
        clock := now;
      }
      RemoveEntry(id);
      if running {
        Sort();
        assert forall e <- entries :: e in multiset(entries);
      }
    }

    /** A copy of the entries; neither they nor their order change. */
    method Entries() returns (snapshot: seq<EntryView>)
      ensures snapshot == Views(entries)
    {
      snapshot := [];
      for i := 0 to |entries|
        invariant snapshot == Views(entries)[..i]
      {
        var e := entries[i];
        snapshot := snapshot + [EntryView(e.id, e.schedule, e.next, e.prev)];
      }
    }

    method Stop()
      requires Valid()
      modifies this`running
      ensures Valid() && Step(old(View()), Event.Stop, View())
    {
      if running {
        running := false;
      }
    }
  }
}
