/**
 The scheduler of `plugin/cron/cron.go` as a state machine. Every received event is one atomic
 step that ends where the source sorts its entries again. Times are nanoseconds.
 */
module CronScheduler {
  import opened Wrappers
  import opened Sequences
  import CronSpec

  // ---------- Schedules ----------

  /** The two schedules of the package, and any other implementation of the interface. */
  datatype Schedule =
    | Crontab(spec: CronSpec.SpecSchedule)
    | ConstantDelay(delay: int)
    | Custom(next: int -> Option<int>)

  /** Delays below a second are raised to a second, and fractions of a second are dropped. */
  function Every(duration: int): Schedule {
    var d := if duration < CronSpec.NANO then CronSpec.NANO else duration;
    ConstantDelay(d - d % CronSpec.NANO)
  }

  function NextOf(s: Schedule, t: int): Option<int> {
    match s
    case Crontab(spec) => CronSpec.FirstActivation(spec, t)
    case ConstantDelay(delay) => Some(t + (delay - t % CronSpec.NANO))
    case Custom(next) => next(t)
  }

  /** The contract of the interface: the zero time, or a time later than the given one. */
  ghost predicate StrictlyLater(s: Schedule) {
    forall t :: NextOf(s, t).Some? ==> t < NextOf(s, t).value
  }

  lemma CrontabIsStrictlyLater(spec: CronSpec.SpecSchedule)
    ensures StrictlyLater(Crontab(spec))
  {
    forall t ensures NextOf(Crontab(spec), t).Some? ==> t < NextOf(Crontab(spec), t).value {
      CronSpec.FirstActivationIsEarliest(spec, t);
    }
  }

  /** The delay of `Every` is the whole seconds of the duration, and at least one. */
  function WholeSeconds(duration: int): int {
    if duration < 1_000_000_000 then 1 else duration / 1_000_000_000
  }

  /**
   `Every` keeps the contract: it activates on the whole second that many seconds after the one of the given time.
   */
  lemma EveryIsStrictlyLater(duration: int)
    ensures StrictlyLater(Every(duration))
    ensures forall t :: NextOf(Every(duration), t) ==
                        Some((t / 1_000_000_000 + WholeSeconds(duration)) * 1_000_000_000)
  {
    var s := Every(duration);
    var d := if duration < CronSpec.NANO then CronSpec.NANO else duration;
    assert d == d / CronSpec.NANO * CronSpec.NANO + d % CronSpec.NANO;
    assert s.delay == WholeSeconds(duration) * CronSpec.NANO;
    forall t
      ensures t < (t / CronSpec.NANO + WholeSeconds(duration)) * CronSpec.NANO
      ensures NextOf(s, t) == Some((t / CronSpec.NANO + WholeSeconds(duration)) * CronSpec.NANO)
    {
      assert t == t / CronSpec.NANO * CronSpec.NANO + t % CronSpec.NANO;
    }
  }

  // ---------- The state ----------

  datatype EntryView = EntryView(id: nat, schedule: Schedule, next: Option<int>, prev: Option<int>)

  /** A job started: which entry, for which activation time, and when. */
  datatype Launch = Launch(id: nat, scheduled: int, at: int)

  datatype State = State(entries: seq<EntryView>, running: bool, nextID: nat, launched: seq<Launch>, clock: int)

  // ---------- Sorting ----------

  /** `byTime.Less`: earlier first, and the zero time after every other. */
  predicate Less(a: Option<int>, b: Option<int>) {
    if a.None? then false
    else if b.None? then true
    else a.value < b.value
  }

  /** What `sort.Sort` leaves behind: no later element is less than an earlier one. */
  predicate SortedByTime(es: seq<EntryView>) {
    forall i, j | 0 <= i < j < |es| :: !Less(es[j].next, es[i].next)
  }

  ghost predicate SortOf(es: seq<EntryView>, from: seq<EntryView>) {
    multiset(es) == multiset(from) && SortedByTime(es)
  }

  /** `sort.Sort` needs a strict weak order: incomparability must be transitive. */
  lemma LessIsStrictWeakOrder(a: Option<int>, b: Option<int>, c: Option<int>)
    ensures !Less(a, a)
    ensures Less(a, b) ==> !Less(b, a)
    ensures Less(a, b) && Less(b, c) ==> Less(a, c)
    ensures !Less(a, b) && !Less(b, a) && !Less(b, c) && !Less(c, b) ==> !Less(a, c) && !Less(c, a)
  {
  }

  /** Inserting an element behind the last one it is not less than keeps a list sorted. */
  lemma InsertKeepsSorted(es: seq<EntryView>, k: nat, e: EntryView)
    requires k <= |es| && SortedByTime(es)
    requires k == 0 || !Less(e.next, es[k - 1].next)
    requires forall j | k <= j < |es| :: Less(e.next, es[j].next)
    ensures SortedByTime(es[..k] + [e] + es[k..])
  {
    var r := es[..k] + [e] + es[k..];
    forall i, j | 0 <= i < j < |r| ensures !Less(r[j].next, r[i].next) {
      var i', j' := if i < k then i else i - 1, if j < k then j else j - 1;
      assert i != k ==> r[i] == es[i'];
      assert j != k ==> r[j] == es[j'];
      if i != k && j != k {
        assert !Less(es[j'].next, es[i'].next);
      } else if j == k {
        assert i == k - 1 || !Less(es[k - 1].next, es[i].next);
      }
    }
  }

  // ---------- Waking up ----------

  predicate Due(e: EntryView, now: int) {
    e.next.Some? && e.next.value <= now
  }

  function Ran(e: EntryView, now: int): EntryView {
    e.(prev := e.next, next := NextOf(e.schedule, now))
  }

  /** The loop of the source: run entries from the front and stop at the first that is not due. */
  function RunDue(es: seq<EntryView>, now: int): (seq<EntryView>, seq<Launch>) {
    if es == [] || !Due(es[0], now) then (es, [])
    else
      var (rest, launched) := RunDue(es[1..], now);
      ([Ran(es[0], now)] + rest, [Launch(es[0].id, es[0].next.value, now)] + launched)
  }

  /** Looking at every entry, in any order of times. */
  function RunAllDue(es: seq<EntryView>, now: int): (seq<EntryView>, seq<Launch>) {
    if es == [] then (es, [])
    else
      var (rest, launched) := RunAllDue(es[1..], now);
      if Due(es[0], now) then ([Ran(es[0], now)] + rest, [Launch(es[0].id, es[0].next.value, now)] + launched)
      else ([es[0]] + rest, launched)
  }

  lemma {:induction false} NoneDue(es: seq<EntryView>, now: int)
    requires forall e <- es :: !Due(e, now)
    ensures RunAllDue(es, now) == (es, [])
  {
    if es != [] {
      assert es[0] in es && forall e <- es[1..] :: e in es;
      NoneDue(es[1..], now);
      assert es == [es[0]] + es[1..];
    }
  }

  /** The early stop loses nothing, because the entries are sorted with the zero times last. */
  lemma {:induction false} StoppingEarlyIsSound(es: seq<EntryView>, now: int)
    requires SortedByTime(es)
    ensures RunDue(es, now) == RunAllDue(es, now)
  {
    if es != [] {
      if Due(es[0], now) {
        StoppingEarlyIsSound(es[1..], now);
      } else {
        forall e <- es ensures !Due(e, now) {
          var i :| 0 <= i < |es| && es[i] == e;
          assert i == 0 || !Less(es[i].next, es[0].next);
        }
        NoneDue(es, now);
      }
    }
  }

  /** Sorting matters: with the zero time in front, a due entry would be missed. */
  lemma StoppingEarlyNeedsTheOrder()
    ensures var es := [EntryView(1, ConstantDelay(1), None, None), EntryView(2, ConstantDelay(1), Some(3), None)];
            RunDue(es, 5).1 == [] && RunAllDue(es, 5).1 == [Launch(2, 3, 5)]
  {
    var es := [EntryView(1, ConstantDelay(1), None, None), EntryView(2, ConstantDelay(1), Some(3), None)];
    assert es[1..] == [EntryView(2, ConstantDelay(1), Some(3), None)];
    assert es[1..][1..] == [];
    assert RunAllDue(es[1..], 5).1 == [Launch(2, 3, 5)];
  }

  lemma {:induction false} RunAllDueLength(es: seq<EntryView>, now: int)
    ensures |RunAllDue(es, now).0| == |es|
  {
    hide NextOf;
    if es != [] {
      RunAllDueLength(es[1..], now);
    }
  }

  /** Each entry is looked at once, in its place: a due one has run, any other is unchanged. */
  lemma {:induction false} RunAllDueAt(es: seq<EntryView>, now: int, i: nat)
    requires i < |es| == |RunAllDue(es, now).0|
    ensures RunAllDue(es, now).0[i] == if Due(es[i], now) then Ran(es[i], now) else es[i]
  {
    hide NextOf;
    if i > 0 {
      RunAllDueLength(es[1..], now);
      RunAllDueAt(es[1..], now, i - 1);
    }
  }

  // ---------- Runs ----------

  datatype Event =
    | Start(now: int)
    | Wake(now: int)
    | Add(schedule: Schedule, now: int)
    | Remove(id: nat, now: int)
    | Snapshot
    | Stop

  function Rescheduled(es: seq<EntryView>, now: int): seq<EntryView> {
    seq(|es|, i requires 0 <= i < |es| => es[i].(next := NextOf(es[i].schedule, now)))
  }

  function Without(es: seq<EntryView>, id: nat): seq<EntryView> {
    if es == [] then []
    else (if es[0].id != id then [es[0]] else []) + Without(es[1..], id)
  }

  /** The entries and launches of a received event, before the entries are sorted again. */
  function Handled(s: State, ev: Event): State {
    match ev
    case Start(now) => s.(entries := Rescheduled(s.entries, now), running := true, clock := now)
    case Wake(now) =>
      var (es, launched) := RunDue(s.entries, now);
      s.(entries := es, launched := s.launched + launched, clock := now)
    case Add(schedule, now) =>
      if s.running then
        var e := EntryView(s.nextID + 1, schedule, NextOf(schedule, now), None);
        s.(entries := s.entries + [e], nextID := s.nextID + 1, clock := now)
      else
        s.(entries := s.entries + [EntryView(s.nextID + 1, schedule, None, None)], nextID := s.nextID + 1)
    case Remove(id, now) =>
      s.(entries := Without(s.entries, id), clock := if s.running then now else s.clock)
    case Snapshot => s
    case Stop => s.(running := false)
  }

  /** Starting twice does nothing, and only a running scheduler wakes up. */
  predicate Ignored(s: State, ev: Event) {
    (ev.Start? && s.running) || (ev.Wake? && !s.running)
  }

  /** The clock the scheduler reads never runs backwards. */
  predicate OnTime(s: State, ev: Event) {
    match ev
    case Start(now) => s.clock <= now
    case Wake(now) => s.clock <= now
    case Add(_, now) => s.clock <= now
    case Remove(_, now) => s.clock <= now
    case Snapshot => true
    case Stop => true
  }

  ghost predicate Step(s: State, ev: Event, s': State) {
    if Ignored(s, ev) then s' == s
    else
      var h := Handled(s, ev);
      && OnTime(s, ev)
      && s' == h.(entries := s'.entries)
      && if h.running && !ev.Snapshot? then SortOf(s'.entries, h.entries) else s'.entries == h.entries
  }

  // ---------- The invariant of every run ----------

  predicate DistinctIds(es: seq<EntryView>) {
    forall i, j | 0 <= i < j < |es| :: es[i].id != es[j].id
  }

  /** Activations of one entry increase strictly, and no job starts before its time. */
  predicate LaunchesIncrease(ls: seq<Launch>) {
    && (forall l <- ls :: l.scheduled <= l.at)
    && forall i, j | 0 <= i < j < |ls| :: ls[i].at <= ls[j].at && (ls[i].id == ls[j].id ==>
        ls[i].scheduled < ls[j].scheduled)
  }

  /** `Prev` is the latest activation of the entry, and none if it never ran. */
  predicate PrevIsLatest(e: EntryView, ls: seq<Launch>) {
    && (forall l <- ls | l.id == e.id :: e.prev.Some? && l.scheduled <= e.prev.value)
    && (e.prev.Some? ==> exists l <- ls :: l.id == e.id && l.scheduled == e.prev.value)
  }

  /** While running, `Next` is what the schedule said at a time already seen, and later than the latest activation. */
  ghost predicate NextIsPending(e: EntryView, clock: int) {
    && (e.next.Some? && e.prev.Some? ==> e.prev.value < e.next.value)
    && exists base :: base <= clock && e.next == NextOf(e.schedule, base)
  }

  ghost predicate Inv(s: State) {
    UnsortedInv(s) && (s.running ==> SortedByTime(s.entries))
  }

  ghost predicate UnsortedInv(s: State) {
    && DistinctIds(s.entries)
    && (forall e <- s.entries :: e.id <= s.nextID && StrictlyLater(e.schedule))
    && (forall l <- s.launched :: l.id <= s.nextID && l.at <= s.clock)
    && LaunchesIncrease(s.launched)
    && (forall e <- s.entries :: PrevIsLatest(e, s.launched))
    && (s.running ==> forall e <- s.entries :: NextIsPending(e, s.clock))
  }

  lemma TwiceMeansTwoPlaces<T>(s: seq<T>, x: T) returns (i: nat, j: nat)
    requires multiset(s)[x] >= 2
    ensures i < j < |s| && s[i] == s[j] == x
  {
    i :| 0 <= i < |s| && s[i] == x;
    assert s == s[..i] + [x] + s[i + 1..];
    if x in s[..i] {
      j := i;
      i :| 0 <= i < j && s[..j][i] == x;
    } else {
      var k :| 0 <= k < |s[i + 1..]| && s[i + 1..][k] == x;
      j := i + 1 + k;
    }
  }

  lemma TwoPlacesMeanTwice<T>(s: seq<T>, i: nat, j: nat)
    requires i < j < |s| && s[i] == s[j]
    ensures multiset(s)[s[i]] >= 2
  {
    assert s == s[..j] + [s[j]] + s[j + 1..];
    assert s[..j][i] in s[..j];
  }

  lemma SortingKeepsIdsDistinct(es: seq<EntryView>, from: seq<EntryView>)
    requires multiset(es) == multiset(from) && DistinctIds(from)
    ensures DistinctIds(es)
  {
    forall i, j | 0 <= i < j < |es| ensures es[i].id != es[j].id {
      if es[i].id == es[j].id {
        assert es[i] in multiset(es) && es[j] in multiset(es);
        var a :| 0 <= a < |from| && from[a] == es[i];
        var b :| 0 <= b < |from| && from[b] == es[j];
        assert a == b;
        TwoPlacesMeanTwice(es, i, j);
        var k, l := TwiceMeansTwoPlaces(from, es[i]);
      }
    }
  }

  lemma SortingKeepsInv(s: State, es: seq<EntryView>)
    requires UnsortedInv(s) && SortOf(es, s.entries)
    ensures Inv(s.(entries := es))
  {
    SortingKeepsIdsDistinct(es, s.entries);
    forall e <- es ensures e in s.entries {
      assert e in multiset(es);
    }
  }

  lemma StartKeepsInv(s: State, now: int)
    requires Inv(s) && !s.running && s.clock <= now
    ensures UnsortedInv(Handled(s, Start(now)))
  {
    hide NextOf;
    var h := Handled(s, Start(now));
    forall e <- h.entries
      ensures e.id <= h.nextID && StrictlyLater(e.schedule) && PrevIsLatest(e, h.launched) && NextIsPending(e, now)
    {
      var i :| 0 <= i < |h.entries| && h.entries[i] == e;
      assert s.entries[i] in s.entries;
      assert PrevIsLatest(s.entries[i], s.launched);
    }
  }

  /** The jobs started at one wake-up: one for each due entry, and none twice. */
  lemma {:induction false} LaunchesAtWake(es: seq<EntryView>, now: int)
    requires DistinctIds(es)
    ensures var ls := RunAllDue(es, now).1;
            && (forall l <- ls :: exists e <- es :: Due(e, now) && l == Launch(e.id, e.next.value, now))
            && (forall e <- es | Due(e, now) :: Launch(e.id, e.next.value, now) in ls)
            && (forall i, j | 0 <= i < j < |ls| :: ls[i].id != ls[j].id)
  {
    hide NextOf;
    if es != [] {
      LaunchesAtWake(es[1..], now);
      assert es[0] in es && forall e <- es[1..] :: e in es;
      var ls, rest := RunAllDue(es, now).1, RunAllDue(es[1..], now).1;
      forall l <- rest
        ensures l.id != es[0].id && exists e <- es :: Due(e, now) && l == Launch(e.id, e.next.value, now)
      {
        var e :| e in es[1..] && Due(e, now) && l == Launch(e.id, e.next.value, now);
        var i :| 0 <= i < |es[1..]| && es[1..][i] == e;
      }
    }
  }

  lemma WakeLaunchesIncrease(s: State, now: int)
    requires Inv(s) && s.running && s.clock <= now
    ensures LaunchesIncrease(s.launched + RunAllDue(s.entries, now).1)
  {
    hide NextOf, RunAllDue, StrictlyLater;
    LaunchesAtWake(s.entries, now);
    var started := RunAllDue(s.entries, now).1;
    var all := s.launched + started;
    forall i, j | 0 <= i < j < |all|
      ensures all[i].at <= all[j].at && (all[i].id == all[j].id ==> all[i].scheduled < all[j].scheduled)
    {
      if j >= |s.launched| {
        var l := started[j - |s.launched|];
        assert l in started;
        var e :| e in s.entries && Due(e, now) && l == Launch(e.id, e.next.value, now);
        if i < |s.launched| {
          assert s.launched[i] in s.launched && PrevIsLatest(e, s.launched) && NextIsPending(e, s.clock);
        } else {
          assert started[i - |s.launched|] in started;
        }
      }
    }
  }

  lemma WakeKeepsEntry(s: State, now: int, i: nat)
    requires Inv(s) && s.running && s.clock <= now && i < |s.entries| == |RunAllDue(s.entries, now).0|
    ensures var e := RunAllDue(s.entries, now).0[i];
            && e.id == s.entries[i].id && e.schedule == s.entries[i].schedule
            && PrevIsLatest(e, s.launched + RunAllDue(s.entries, now).1) && NextIsPending(e, now)
            && (e.next.Some? ==> now < e.next.value)
  {
    hide NextOf, RunAllDue;
    RunAllDueAt(s.entries, now, i);
    LaunchesAtWake(s.entries, now);
    var old_ := s.entries[i];
    var e := RunAllDue(s.entries, now).0[i];
    var started := RunAllDue(s.entries, now).1;
    assert old_ in s.entries && PrevIsLatest(old_, s.launched) && NextIsPending(old_, s.clock);
    if Due(old_, now) {
      var l := Launch(e.id, e.prev.value, now);
      assert l in s.launched + started;
      forall k <- s.launched + started | k.id == e.id ensures k.scheduled <= e.prev.value {
        if k in started {
          var d :| d in s.entries && Due(d, now) && k == Launch(d.id, d.next.value, now);
          assert d == old_;
        }
      }
    } else {
      forall k <- started ensures k.id != e.id {
        var d :| d in s.entries && Due(d, now) && k == Launch(d.id, d.next.value, now);
        assert d != old_;
      }
    }
  }

  lemma WakeKeepsInv(s: State, now: int)
    requires Inv(s) && s.running && s.clock <= now
    ensures UnsortedInv(Handled(s, Wake(now)))
    ensures forall e <- Handled(s, Wake(now)).entries :: e.next.Some? ==> now < e.next.value
  {
    hide NextOf, RunAllDue, RunDue, StrictlyLater, PrevIsLatest, NextIsPending, LaunchesIncrease;
    var h := Handled(s, Wake(now));
    StoppingEarlyIsSound(s.entries, now);
    LaunchesAtWake(s.entries, now);
    WakeLaunchesIncrease(s, now);
    RunAllDueLength(s.entries, now);
    forall i | 0 <= i < |h.entries|
      ensures h.entries[i].id == s.entries[i].id && h.entries[i].schedule == s.entries[i].schedule
      ensures PrevIsLatest(h.entries[i], h.launched) && NextIsPending(h.entries[i], now)
      ensures h.entries[i].next.Some? ==> now < h.entries[i].next.value
    {
      WakeKeepsEntry(s, now, i);
    }
    forall l <- h.launched ensures l.id <= h.nextID && l.at <= now {
    }
  }

  lemma AddKeepsInv(s: State, schedule: Schedule, now: int)
    requires Inv(s) && s.clock <= now && StrictlyLater(schedule)
    ensures UnsortedInv(Handled(s, Add(schedule, now)))
  {
    hide NextOf, StrictlyLater, LaunchesIncrease;
    var h := Handled(s, Add(schedule, now));
    forall e <- h.entries
      ensures e.id <= h.nextID && StrictlyLater(e.schedule) && PrevIsLatest(e, h.launched)
      ensures h.running ==> NextIsPending(e, now)
    {
      if e in s.entries {
        assert PrevIsLatest(e, s.launched);
      }
    }
  }

  lemma {:induction false} WithoutKeeps(es: seq<EntryView>, id: nat)
    ensures forall e :: e in Without(es, id) <==> e in es && e.id != id
    ensures DistinctIds(es) ==> DistinctIds(Without(es, id))
  {
    if es != [] {
      WithoutKeeps(es[1..], id);
      assert es == [es[0]] + es[1..];
    }
  }

  /** Exactly the entries with another ID stay, in their order. */
  lemma {:induction false} WithoutIsFiltered(es: seq<EntryView>, id: nat, keep: EntryView -> bool)
    requires forall e :: keep(e) <==> e.id != id
    ensures Without(es, id) == Filtered(es, keep)
  {
    hide NextOf;
    if es != [] {
      WithoutIsFiltered(es[1..], id, keep);
    }
  }

  lemma RemoveKeepsInv(s: State, id: nat, now: int)
    requires Inv(s) && s.clock <= now
    ensures UnsortedInv(Handled(s, Remove(id, now)))
  {
    hide NextOf, StrictlyLater, LaunchesIncrease, PrevIsLatest, Without;
    WithoutKeeps(s.entries, id);
    forall e <- s.entries ensures s.running ==> NextIsPending(e, now) {
    }
  }

  /** One step of the scheduler keeps the invariant, whatever order a sort gives to equal times. */
  lemma StepKeepsInv(s: State, ev: Event, s': State)
    requires Inv(s) && Step(s, ev, s')
    requires ev.Add? ==> StrictlyLater(ev.schedule)
    ensures Inv(s')
  {
    hide Inv, UnsortedInv, Handled, SortOf;
    if !Ignored(s, ev) {
      var h := Handled(s, ev);
      HandledKeepsInv(s, ev);
      if h.running && !ev.Snapshot? {
        SortingKeepsInv(h, s'.entries);
      }
    }
  }

  lemma HandledKeepsInv(s: State, ev: Event)
    requires Inv(s) && OnTime(s, ev) && !Ignored(s, ev)
    requires ev.Add? ==> StrictlyLater(ev.schedule)
    ensures UnsortedInv(Handled(s, ev))
    ensures !Handled(s, ev).running || ev.Snapshot? ==> Inv(Handled(s, ev))
  {
    hide SortedByTime, NextOf, StrictlyLater, LaunchesIncrease, PrevIsLatest, DistinctIds;
    match ev
    case Start(now) => StartKeepsInv(s, now);
    case Wake(now) => WakeKeepsInv(s, now);
    case Add(schedule, now) => AddKeepsInv(s, schedule, now);
    case Remove(id, now) => RemoveKeepsInv(s, id, now);
    case Snapshot =>
    case Stop =>
  }

  // ---------- Every run ----------

  /** A run from a fresh scheduler: one state before each event, and one at the end. */
  ghost predicate Run(states: seq<State>, events: seq<Event>) {
    && |states| == |events| + 1
    && states[0] == State([], false, 0, [], states[0].clock)
    && (forall ev <- events :: ev.Add? ==> StrictlyLater(ev.schedule))
    && forall k | 0 <= k < |events| :: Step(states[k], events[k], states[k + 1])
  }

  lemma {:induction false} RunKeepsInv(states: seq<State>, events: seq<Event>, k: nat)
    requires Run(states, events) && k < |states|
    ensures Inv(states[k])
  {
    hide Step, StrictlyLater;
    if k > 0 {
      RunKeepsInv(states, events, k - 1);
      assert events[k - 1] in events;
      StepKeepsInv(states[k - 1], events[k - 1], states[k]);
    }
  }

  /**
   In every run, over any number of stops and restarts, the activations of an entry increase
   strictly, and no job is started before its activation time.
   */
  lemma ActivationsIncrease(states: seq<State>, events: seq<Event>, k: nat, i: nat, j: nat)
    requires Run(states, events) && k < |states| && i < j < |states[k].launched|
    requires states[k].launched[i].id == states[k].launched[j].id
    ensures var ls := states[k].launched;
            ls[i].scheduled < ls[j].scheduled && ls[i].scheduled <= ls[i].at && ls[i].at <= ls[j].at
  {
    RunKeepsInv(states, events, k);
    assert states[k].launched[i] in states[k].launched;
  }

  /**
   At every wake-up of a run exactly the due entries are started, each once; afterwards each of
   them has its old `Next` as `Prev` and the time that its schedule gives from now on as `Next`, every other
   entry is unchanged, and nothing is due any more.
   */
  lemma WakeRunsExactlyTheDue(states: seq<State>, events: seq<Event>, k: nat)
    requires Run(states, events) && k < |events| && events[k].Wake? && states[k].running
    ensures var s, s', now := states[k], states[k + 1], events[k].now;
            && |s.launched| <= |s'.launched| && s'.launched[..|s.launched|] == s.launched
            && var started := s'.launched[|s.launched|..];
            && (forall l :: l in started <==>
                exists e <- s.entries :: Due(e, now) && l == Launch(e.id, e.next.value, now))
            && (forall a, b | 0 <= a < b < |started| :: started[a].id != started[b].id)
            && (forall e <- s.entries :: Due(e, now) ==>
                EntryView(e.id, e.schedule, NextOf(e.schedule, now), e.next) in s'.entries)
            && (forall e <- s.entries :: !Due(e, now) ==> e in s'.entries)
            && |s'.entries| == |s.entries|
            && (forall e <- s'.entries :: e.next.Some? ==> now < e.next.value)
  {
    hide Inv, NextOf, RunAllDue, RunDue, StrictlyLater;
    var s, s', now := states[k], states[k + 1], events[k].now;
    RunKeepsInv(states, events, k);
    InvParts(s);
    StoppingEarlyIsSound(s.entries, now);
    LaunchesAtWake(s.entries, now);
    WakeKeepsInv(s, now);
    RunAllDueLength(s.entries, now);
    assert Step(s, events[k], s');
    var h := Handled(s, events[k]);
    assert |multiset(s'.entries)| == |multiset(h.entries)|;
    forall e <- s.entries ensures (if Due(e, now) then Ran(e, now) else e) in s'.entries {
      var i :| 0 <= i < |s.entries| && s.entries[i] == e;
      RunAllDueAt(s.entries, now, i);
      assert h.entries[i] in multiset(h.entries);
    }
    forall e <- s'.entries ensures e in h.entries {
      assert e in multiset(s'.entries);
    }
  }

  lemma InvParts(s: State)
    requires Inv(s)
    ensures DistinctIds(s.entries) && (s.running ==> SortedByTime(s.entries))
  {
  }

  // ---------- What becomes of an entry ----------

  /** Each event as a relation between an entry before it and after it. */
  ghost predicate Becomes(ev: Event, e: EntryView, e': EntryView) {
    match ev
    case Start(now) => e' == EntryView(e.id, e.schedule, NextOf(e.schedule, now), e.prev)
    case Wake(now) =>
      if e.next.Some? && e.next.value <= now then e' == EntryView(e.id, e.schedule, NextOf(e.schedule, now), e.next)
      else e' == e
    case Remove(id, _) => e.id != id && e' == e
    case _ => e' == e
  }

  /** The entry that is added: without an activation until the scheduler runs. */
  ghost predicate IsNew(s: State, ev: Event, e': EntryView) {
    && ev.Add?
    && e' == EntryView(s.nextID + 1, ev.schedule, if s.running then NextOf(ev.schedule, ev.now) else None, None)
  }

  lemma HandledEntries(s: State, ev: Event, e': EntryView)
    requires Inv(s) && !Ignored(s, ev)
    ensures e' in Handled(s, ev).entries <==> IsNew(s, ev, e') || exists e <- s.entries :: Becomes(ev, e, e')
  {
    hide NextOf, RunAllDue, RunDue, Without, Inv;
    var es := Handled(s, ev).entries;
    match ev
    case Start(now) =>
      if e' in es {
        var i :| 0 <= i < |es| && es[i] == e';
        assert s.entries[i] in s.entries && Becomes(ev, s.entries[i], e');
      }
      if e :| e in s.entries && Becomes(ev, e, e') {
        var i :| 0 <= i < |s.entries| && s.entries[i] == e;
        assert es[i] in es;
      }
    case Wake(now) => WakeEntries(s, now, e');
    case Add(schedule, now) =>
      assert e' in s.entries ==> Becomes(ev, e', e');
    case Remove(id, now) =>
      WithoutKeeps(s.entries, id);
      assert e' in s.entries && e'.id != id ==> Becomes(ev, e', e');
    case Snapshot =>
      assert e' in s.entries ==> Becomes(ev, e', e');
    case Stop =>
      assert e' in s.entries ==> Becomes(ev, e', e');
  }

  lemma WakeEntries(s: State, now: int, e': EntryView)
    requires Inv(s) && s.running
    ensures e' in RunDue(s.entries, now).0 <==> exists e <- s.entries :: Becomes(Wake(now), e, e')
  {
    hide NextOf, RunAllDue, RunDue, Inv;
    InvParts(s);
    StoppingEarlyIsSound(s.entries, now);
    RunAllDueLength(s.entries, now);
    var es := RunAllDue(s.entries, now).0;
    if e' in es {
      var i :| 0 <= i < |es| && es[i] == e';
      RunAllDueAt(s.entries, now, i);
      assert s.entries[i] in s.entries && Becomes(Wake(now), s.entries[i], e');
    }
    if e :| e in s.entries && Becomes(Wake(now), e, e') {
      var i :| 0 <= i < |s.entries| && s.entries[i] == e;
      RunAllDueAt(s.entries, now, i);
      assert es[i] in es;
    }
  }

  /** After an event there are exactly the entries that it makes of those before, and the one it adds. */
  lemma StepOnEntries(s: State, ev: Event, s': State)
    requires Inv(s) && Step(s, ev, s') && !Ignored(s, ev)
    ensures forall e' :: e' in s'.entries <==> IsNew(s, ev, e') || exists e <- s.entries :: Becomes(ev, e, e')
    ensures s'.running == (ev.Start? || (s.running && !ev.Stop?))
    ensures s'.nextID == if ev.Add? then s.nextID + 1 else s.nextID
    ensures !ev.Wake? ==> s'.launched == s.launched
  {
    hide NextOf, Inv, Becomes, IsNew, SortedByTime;
    var es := Handled(s, ev).entries;
    forall e'
      ensures e' in s'.entries <==> IsNew(s, ev, e') || exists e <- s.entries :: Becomes(ev, e, e')
    {
      HandledEntries(s, ev, e');
      assert e' in s'.entries <==> e' in multiset(s'.entries);
      assert e' in es <==> e' in multiset(es);
    }
  }

  /** An event at which the schedule of an entry is asked: its addition or run while running, or a start. */
  ghost predicate Asks(s: State, ev: Event, id: nat) {
    match ev
    case Start(now) => !s.running
    case Wake(now) => s.running && exists e <- s.entries :: e.id == id && e.next.Some? && e.next.value <= now
    case Add(_, _) => s.running && id == s.nextID + 1
    case _ => false
  }

  /** An event has the schedule of an entry asked, or leaves its `Next` as it was. */
  lemma AskedOrKept(s: State, ev: Event, s': State, e: EntryView) returns (was: EntryView)
    requires Inv(s) && Step(s, ev, s') && !Ignored(s, ev) && s'.running && e in s'.entries
    ensures if Asks(s, ev, e.id) then e.next == NextOf(e.schedule, ev.now)
            else s.running && was in s.entries && was.id == e.id && was.schedule == e.schedule && was.next == e.next
  {
    hide NextOf, Inv, Step, SortedByTime;
    StepOnEntries(s, ev, s');
    if IsNew(s, ev, e) {
      was := e;
    } else {
      was :| was in s.entries && Becomes(ev, was, e);
      IdsAreKnown(s, was);
      OneEntryPerId(s, was);
    }
  }

  /**
   In every run, the `Next` of an entry of a running scheduler, zero or not, is what its schedule said at the
   last of its start, the addition of the entry, and the wake-ups at which the entry ran.
   */
  lemma {:induction false} NextIsLastAsked(states: seq<State>, events: seq<Event>, k: nat, e: EntryView)
    returns (j: nat)
    requires Run(states, events) && k < |states| && states[k].running && e in states[k].entries
    ensures j < k && Asks(states[j], events[j], e.id) && e.next == NextOf(e.schedule, events[j].now)
    ensures forall i | j < i < k :: !Asks(states[i], events[i], e.id)
  {
    hide NextOf, Inv, StrictlyLater, Becomes, IsNew, Step;
    RunKeepsInv(states, events, k - 1);
    var s, ev := states[k - 1], events[k - 1];
    assert Step(s, ev, states[k]);
    if Ignored(s, ev) {
      IgnoredStays(s, ev, states[k], e.id);
      j := NextIsLastAsked(states, events, k - 1, e);
    } else {
      var was := AskedOrKept(s, ev, states[k], e);
      if Asks(s, ev, e.id) {
        j := k - 1;
      } else {
        j := NextIsLastAsked(states, events, k - 1, was);
      }
    }
  }

  lemma IgnoredStays(s: State, ev: Event, s': State, id: nat)
    requires Step(s, ev, s') && Ignored(s, ev)
    ensures s' == s && !Asks(s, ev, id)
  {
  }

  lemma IdsAreKnown(s: State, e: EntryView)
    requires Inv(s) && e in s.entries
    ensures e.id <= s.nextID
  {
  }

  lemma OneEntryPerId(s: State, e: EntryView)
    requires Inv(s) && e in s.entries
    ensures forall d <- s.entries :: d.id == e.id ==> d == e
  {
  }

  // ---------- The timer ----------

  /** When the next timer fires: at the first entry's time, or in 100000 hours. */
  function TimerDeadline(s: State): int {
    if s.entries == [] || s.entries[0].next.None? then s.clock + 100000 * 3600 * CronSpec.NANO
    else s.entries[0].next.value
  }

  /** The scheduler sleeps up to the earliest pending activation. */
  lemma TimerIsEarliest(states: seq<State>, events: seq<Event>, k: nat)
    requires Run(states, events) && k < |states| && states[k].running
    ensures forall e <- states[k].entries :: e.next.Some? ==> TimerDeadline(states[k]) <= e.next.value
    ensures (exists e <- states[k].entries :: e.next == Some(TimerDeadline(states[k]))) ||
            ((forall e <- states[k].entries :: e.next.None?)
             && TimerDeadline(states[k]) == states[k].clock + 360_000_000_000_000_000)
  {
    RunKeepsInv(states, events, k);
    var s := states[k];
    InvParts(s);
    forall e <- s.entries ensures e.next.Some? ==> TimerDeadline(s) <= e.next.value {
      var i :| 0 <= i < |s.entries| && s.entries[i] == e;
      assert i == 0 || !Less(s.entries[i].next, s.entries[0].next);
    }
  }
}
