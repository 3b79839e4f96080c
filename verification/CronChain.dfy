/**
 The job wrappers of `plugin/cron/chain.go`. `SkipIfStillRunning` and `DelayIfStillRunning` are
 protocols between the invocations of one wrapped job; each step below is one atomic action of one
 invocation, and steps of different invocations come in any order.
 */
module CronChain {
  import opened Wrappers

  // ---------- Chains ----------

  /** m1(m2(m3(job))) for the wrappers m1, m2 and m3. */
  function Wrapped<J>(wrappers: seq<J -> J>, j: J): J {
    if wrappers == [] then j else wrappers[0](Wrapped(wrappers[1..], j))
  }

  method Then<J>(wrappers: seq<J -> J>, job: J) returns (j: J)
    ensures j == Wrapped(wrappers, job)
  {
    j := job;
    for i := 0 to |wrappers|
      invariant j == Wrapped(wrappers[|wrappers| - i..], job)
    {
      var rest := wrappers[|wrappers| - i - 1..];
      assert rest[1..] == wrappers[|wrappers| - i..];
      j := wrappers[|wrappers| - i - 1](j);
    }
    assert wrappers[0..] == wrappers;
  }

  /** The first wrapper is the outermost; without any the job is as it was. */
  lemma WrappedOne<J>(first: J -> J, second: J -> J, j: J)
    ensures Wrapped([], j) == j && Wrapped([first], j) == first(j) && Wrapped([first, second], j) == first(second(j))
  {
    assert [first, second][1..] == [second] && [first][1..] == [] && [second][1..] == [];
  }

  /** A chain of two chains is the outer one around the inner one. */
  lemma {:induction false} WrappedTwice<J>(outer: seq<J -> J>, inner: seq<J -> J>, j: J)
    ensures Wrapped(outer + inner, j) == Wrapped(outer, Wrapped(inner, j))
  {
    if outer == [] {
      assert outer + inner == inner;
    } else {
      WrappedTwice(outer[1..], inner, j);
      assert (outer + inner)[1..] == outer[1..] + inner;
    }
  }

  // ---------- Invocations ----------

  /** Where an invocation stands: a job body that panics still runs the deferred statement. */
  datatype Phase = Waiting | Running | Leaving(panicked: bool) | Finished(panicked: bool) | Skipped

  datatype Mark = Started(who: nat) | Ended(who: nat)

  datatype Event = Invoke | Enter(who: nat) | Finish(who: nat, panics: bool) | Leave(who: nat)

  /** `free` counts the tokens in the channel, or is 1 when the mutex is unlocked; `log` records job bodies. */
  datatype State = State(free: nat, phases: seq<Phase>, log: seq<Mark>)

  const START := State(1, [], [])

  /** The two wrappers differ in what an invocation does that cannot enter at once. */
  datatype Wrapper = Skip | Delay

  function Steps(w: Wrapper, s: State, e: Event): Option<State> {
    match e
    case Invoke => Some(s.(phases := s.phases + [Waiting]))
    case Enter(i) =>
      if i >= |s.phases| || s.phases[i] != Waiting then None
      else if s.free > 0 then Some(State(s.free - 1, s.phases[i := Running], s.log + [Started(i)]))
      else if w == Skip then Some(s.(phases := s.phases[i := Skipped]))
      else None // blocked in Lock
    case Finish(i, panics) =>
      if i >= |s.phases| || s.phases[i] != Running then None
      else Some(s.(phases := s.phases[i := Leaving(panics)], log := s.log + [Ended(i)]))
    case Leave(i) =>
      if i >= |s.phases| || !s.phases[i].Leaving? || s.free >= 1 then None // a full channel would block
      else Some(s.(free := s.free + 1, phases := s.phases[i := Finished(s.phases[i].panicked)]))
  }

  /** A run: the state after each event in turn. */
  function Runs(w: Wrapper, es: seq<Event>): Option<State> {
    if es == [] then Some(START)
    else
      match Runs(w, es[..|es| - 1])
      case None => None
      case Some(s) => Steps(w, s, es[|es| - 1])
  }

  /** Any number of invocations can be waiting at once. */
  lemma {:induction false} AllWaiting(w: Wrapper, n: nat) returns (es: seq<Event>)
    ensures Runs(w, es) == Some(State(1, seq(n, _ => Waiting), []))
  {
    if n == 0 {
      es := [];
    } else {
      var before := AllWaiting(w, n - 1);
      es := before + [Invoke];
      assert es[..|es| - 1] == before;
      assert seq(n - 1, _ => Waiting) + [Waiting] == seq(n, _ => Waiting);
    }
  }

  // ---------- What every run keeps ----------

  predicate Holds(p: Phase) {
    p.Running? || p.Leaving?
  }

  function Holders(ps: seq<Phase>): nat {
    if ps == [] then 0 else Holders(ps[..|ps| - 1]) + if Holds(ps[|ps| - 1]) then 1 else 0
  }

  lemma {:induction false} HoldersUpdate(ps: seq<Phase>, i: nat, p: Phase)
    requires i < |ps|
    ensures Holders(ps[i := p]) + (if Holds(ps[i]) then 1 else 0) == Holders(ps) + if Holds(p) then 1 else 0
  {
    var n := |ps| - 1;
    if i < n {
      HoldersUpdate(ps[..n], i, p);
      assert ps[i := p][..n] == ps[..n][i := p];
    } else {
      assert ps[i := p][..n] == ps[..n];
    }
  }

  lemma {:induction false} HoldersCounts(ps: seq<Phase>, i: nat)
    requires i < |ps| && Holds(ps[i])
    ensures Holders(ps) >= 1
    ensures Holders(ps) == 1 ==> forall j | 0 <= j < |ps| && Holds(ps[j]) :: j == i
  {
    forall j | 0 <= j < |ps| && Holds(ps[j]) && j != i ensures Holders(ps) >= 2 {
      HoldersUpdate(ps, i, Skipped);
      HoldersUpdate(ps[i := Skipped], j, Skipped);
    }
    HoldersUpdate(ps, i, Skipped);
  }

  /** The job body that has started and not ended, when bodies do not overlap. */
  function OpenIn(log: seq<Mark>): Option<nat> {
    if log != [] && log[|log| - 1].Started? then Some(log[|log| - 1].who) else None
  }

  /** Job bodies start and end one at a time. */
  predicate Serial(log: seq<Mark>) {
    log != [] ==>
      var before, m := log[..|log| - 1], log[|log| - 1];
      Serial(before) && OpenIn(before) == if m.Started? then None else Some(m.who)
  }

  lemma SerialSnoc(log: seq<Mark>, m: Mark)
    requires Serial(log) && OpenIn(log) == if m.Started? then None else Some(m.who)
    ensures Serial(log + [m]) && OpenIn(log + [m]) == if m.Started? then Some(m.who) else None
  {
    assert (log + [m])[..|log|] == log;
  }

  /** How often the body of an invocation in this phase has started. */
  function StartsOf(p: Phase): nat {
    if p.Waiting? || p.Skipped? then 0 else 1
  }

  ghost predicate Inv(s: State) {
    && s.free + Holders(s.phases) == 1
    && (forall i | 0 <= i < |s.phases| :: multiset(s.log)[Started(i)] == StartsOf(s.phases[i]))
    && (forall i | i >= |s.phases| :: multiset(s.log)[Started(i)] == 0)
    && Serial(s.log)
    && (forall i | 0 <= i < |s.phases| :: s.phases[i] == Running <==> OpenIn(s.log) == Some(i))
    && (OpenIn(s.log).Some? ==> OpenIn(s.log).value < |s.phases|)
  }

  lemma EnterKeepsInv(w: Wrapper, s: State, i: nat)
    requires Inv(s) && Steps(w, s, Enter(i)).Some?
    ensures Inv(Steps(w, s, Enter(i)).value)
  {
    hide Serial, OpenIn, Holders;
    var t := Steps(w, s, Enter(i)).value;
    HoldersUpdate(s.phases, i, t.phases[i]);
    if s.free > 0 {
      NoneRuns(s);
      SerialSnoc(s.log, Started(i));
    }
  }

  /** With the token in the channel, or the mutex unlocked, no job body runs. */
  lemma NoneRuns(s: State)
    requires Inv(s) && s.free > 0
    ensures OpenIn(s.log) == None
  {
    hide Serial, OpenIn, Holders;
    if OpenIn(s.log).Some? {
      HoldersCounts(s.phases, OpenIn(s.log).value);
    }
  }

  lemma FinishKeepsInv(w: Wrapper, s: State, i: nat, panics: bool)
    requires Inv(s) && Steps(w, s, Finish(i, panics)).Some?
    ensures Inv(Steps(w, s, Finish(i, panics)).value)
  {
    hide Serial, OpenIn, Holders;
    HoldersUpdate(s.phases, i, Leaving(panics));
    SerialSnoc(s.log, Ended(i));
  }

  lemma StepKeepsInv(w: Wrapper, s: State, e: Event)
    requires Inv(s) && Steps(w, s, e).Some?
    ensures Inv(Steps(w, s, e).value)
  {
    match e
    case Invoke => assert (s.phases + [Waiting])[..|s.phases|] == s.phases;
    case Enter(i) => EnterKeepsInv(w, s, i);
    case Finish(i, panics) => FinishKeepsInv(w, s, i, panics);
    case Leave(i) => HoldersUpdate(s.phases, i, Finished(s.phases[i].panicked));
  }

  lemma {:induction false} RunKeepsInv(w: Wrapper, es: seq<Event>)
    requires Runs(w, es).Some?
    ensures Inv(Runs(w, es).value)
  {
    hide Inv, Steps;
    if es == [] {
      StartInv();
    } else {
      RunKeepsInv(w, es[..|es| - 1]);
      StepKeepsInv(w, Runs(w, es[..|es| - 1]).value, es[|es| - 1]);
    }
  }

  lemma StartInv()
    ensures Inv(START)
  {
  }

  // ---------- What follows ----------

  /** In every run at most one job body runs, and never while another invocation has still to leave. */
  lemma OneAtATime(w: Wrapper, es: seq<Event>, i: nat, j: nat)
    requires Runs(w, es).Some?
    requires var ps := Runs(w, es).value.phases; i < |ps| && j < |ps| && Holds(ps[i]) && Holds(ps[j])
    ensures i == j && Serial(Runs(w, es).value.log)
  {
    RunKeepsInv(w, es);
    HoldersCounts(Runs(w, es).value.phases, i);
  }

  /** Giving the token back, or unlocking, never blocks, whether or not the job panicked. */
  lemma LeavingNeverBlocks(w: Wrapper, es: seq<Event>, i: nat)
    requires Runs(w, es).Some? && i < |Runs(w, es).value.phases| && Runs(w, es).value.phases[i].Leaving?
    ensures Steps(w, Runs(w, es).value, Leave(i)).Some?
  {
    RunKeepsInv(w, es);
    HoldersCounts(Runs(w, es).value.phases, i);
  }

  /** An invocation is skipped exactly when it arrives while another one holds the token. */
  lemma SkippedIffHeld(es: seq<Event>, i: nat)
    requires Runs(Skip, es).Some? && i < |Runs(Skip, es).value.phases| && Runs(Skip, es).value.phases[i] == Waiting
    ensures var s := Runs(Skip, es).value;
            && Steps(Skip, s, Enter(i)).Some?
            && (Steps(Skip, s, Enter(i)).value.phases[i] == Skipped <==>
                exists j | 0 <= j < |s.phases| :: Holds(s.phases[j]))
  {
    RunKeepsInv(Skip, es);
    var s := Runs(Skip, es).value;
    if j :| 0 <= j < |s.phases| && Holds(s.phases[j]) {
      HoldersCounts(s.phases, j);
    } else {
      NoHolders(s.phases);
    }
  }

  lemma {:induction false} NoHolders(ps: seq<Phase>)
    requires forall j | 0 <= j < |ps| :: !Holds(ps[j])
    ensures Holders(ps) == 0
  {
    if ps != [] {
      NoHolders(ps[..|ps| - 1]);
    }
  }

  /** Nothing is left to do for any invocation. */
  predicate Quiet(s: State) {
    forall i | 0 <= i < |s.phases| :: s.phases[i].Finished? || s.phases[i].Skipped?
  }

  /** The event that can happen next for an invocation, when its job body ends. */
  function NextOf(p: Phase, i: nat): Event {
    match p
    case Running => Finish(i, false)
    case Leaving(_) => Leave(i)
    case _ => Enter(i)
  }

  /** As long as an invocation is not done, some invocation can take a step: there is no deadlock. */
  lemma NeverStuck(w: Wrapper, es: seq<Event>) returns (i: nat)
    requires Runs(w, es).Some? && !Quiet(Runs(w, es).value)
    ensures var s := Runs(w, es).value; i < |s.phases| && Steps(w, s, NextOf(s.phases[i], i)).Some?
  {
    hide Runs;
    RunKeepsInv(w, es);
    var s := Runs(w, es).value;
    if j :| 0 <= j < |s.phases| && Holds(s.phases[j]) {
      HoldersCounts(s.phases, j);
      i := j;
    } else {
      NoHolders(s.phases);
      i :| 0 <= i < |s.phases| && !(s.phases[i].Finished? || s.phases[i].Skipped?);
    }
  }

  function Remaining(p: Phase): nat {
    match p
    case Waiting => 3
    case Running => 2
    case Leaving(_) => 1
    case _ => 0
  }

  function Work(ps: seq<Phase>): nat {
    if ps == [] then 0 else Work(ps[..|ps| - 1]) + Remaining(ps[|ps| - 1])
  }

  lemma {:induction false} WorkUpdate(ps: seq<Phase>, i: nat, p: Phase)
    requires i < |ps|
    ensures Work(ps[i := p]) + Remaining(ps[i]) == Work(ps) + Remaining(p)
  {
    var n := |ps| - 1;
    if i < n {
      WorkUpdate(ps[..n], i, p);
      assert ps[i := p][..n] == ps[..n][i := p];
    } else {
      assert ps[i := p][..n] == ps[..n];
    }
  }

  /** Every step but a new invocation leaves less to do, so finitely many invocations come to rest. */
  lemma StepsRunOut(w: Wrapper, s: State, e: Event)
    requires Steps(w, s, e).Some? && !e.Invoke?
    ensures Work(Steps(w, s, e).value.phases) < Work(s.phases)
    ensures |Steps(w, s, e).value.phases| == |s.phases|
  {
    hide Work;
    WorkUpdate(s.phases, e.who, Steps(w, s, e).value.phases[e.who]);
  }

  lemma RunGoesOn(w: Wrapper, es: seq<Event>, e: Event)
    requires Runs(w, es).Some?
    ensures Runs(w, es + [e]) == Steps(w, Runs(w, es).value, e)
  {
    hide Steps;
    assert (es + [e])[..|es|] == es;
  }

  /** From wherever a run stands, the invocations there are can all be brought to an end. */
  lemma {:induction false} ComesToRest(w: Wrapper, es: seq<Event>) returns (more: seq<Event>)
    requires Runs(w, es).Some?
    ensures Runs(w, es + more).Some? && Quiet(Runs(w, es + more).value)
    ensures |Runs(w, es + more).value.phases| == |Runs(w, es).value.phases|
    decreases Work(Runs(w, es).value.phases)
  {
    hide Runs, Steps, Work, Quiet;
    var s := Runs(w, es).value;
    if Quiet(s) {
      more := [];
      assert es + [] == es;
    } else {
      var i := NeverStuck(w, es);
      var e := NextOf(s.phases[i], i);
      StepsRunOut(w, s, e);
      RunGoesOn(w, es, e);
      var rest := ComesToRest(w, es + [e]);
      more := [e] + rest;
      assert es + [e] + rest == es + more;
    }
  }

  lemma {:induction false} DelayNeverSkips(es: seq<Event>, i: nat)
    requires Runs(Delay, es).Some? && i < |Runs(Delay, es).value.phases|
    ensures Runs(Delay, es).value.phases[i] != Skipped
  {
    var before := Runs(Delay, es[..|es| - 1]).value;
    if i < |before.phases| {
      DelayNeverSkips(es[..|es| - 1], i);
    }
  }

  /** When a delayed job has come to rest, the body has run exactly once for every invocation, one after the other. */
  lemma DelayRunsEachOnce(es: seq<Event>, i: nat)
    requires Runs(Delay, es).Some? && Quiet(Runs(Delay, es).value) && i < |Runs(Delay, es).value.phases|
    ensures multiset(Runs(Delay, es).value.log)[Started(i)] == 1 && Serial(Runs(Delay, es).value.log)
  {
    RunKeepsInv(Delay, es);
    DelayNeverSkips(es, i);
  }

  /** A job that may be skipped runs once for every invocation that is not skipped, and not for the others. */
  lemma SkipRunsTheOthersOnce(es: seq<Event>, i: nat)
    requires Runs(Skip, es).Some? && Quiet(Runs(Skip, es).value) && i < |Runs(Skip, es).value.phases|
    ensures var s := Runs(Skip, es).value; multiset(s.log)[Started(i)] == if s.phases[i] == Skipped then 0 else 1
  {
    RunKeepsInv(Skip, es);
  }
}
