/**
  * When every transaction id is run exactly once: exactly when the workers cannot hand tickets back behind each
  * other's backs and the 32-bit counter cannot wrap around.
  */
module TicketLaws {
  import opened Options
  import opened Tickets

  ghost predicate EachOnce(c: Config, s: State) {
    forall id: nat :: multiset(s.runs)[id] == if id < c.n then 1 else 0
  }

  /** Every complete run of t workers runs every id below n exactly once, and no other. */
  ghost predicate ExactlyOnce(c: Config, t: nat) {
    forall es :: Run(c, Initial(t), es).Some? && Complete(Run(c, Initial(t), es).value) ==>
                   EachOnce(c, Run(c, Initial(t), es).value)
  }

  // ---------------------------------------------------------------- when it holds

  function HoldersOf(ws: seq<Worker>, id: nat): nat {
    if ws == [] then 0 else (if ws[0] == Holding(id) then 1 else 0) + HoldersOf(ws[1..], id)
  }

  lemma {:induction false} HoldersAfter(ws: seq<Worker>, w: nat, x: Worker, id: nat)
    requires w < |ws|
    ensures HoldersOf(ws[w := x], id) + (if ws[w] == Holding(id) then 1 else 0)
         == HoldersOf(ws, id) + (if x == Holding(id) then 1 else 0)
  {
    if w == 0 {
      assert ws[w := x][1..] == ws[1..];
    } else {
      assert ws[w := x][1..] == ws[1..][w - 1 := x];
      HoldersAfter(ws[1..], w - 1, x, id);
    }
  }

  /** Ids handed out so far. */
  function Issued(s: State): nat { |s.runs| + Holders(s.workers) }

  /** The ids below Issued, and no others, are running, done or held, each once; nobody leaves before all are issued. */
  ghost predicate InOrder(c: Config, s: State) {
    && Balanced(c, s)
    && (forall id: nat :: multiset(s.runs)[id] + HoldersOf(s.workers, id) == if id < Issued(s) then 1 else 0)
    && (Exits(s.workers) > 0 ==> Issued(s) == c.n)
    && (|s.workers| == 1 && s.workers[0].Holding? ==> s.workers[0].id == |s.runs|)
  }

  lemma StepKeepsOrder(c: Config, s: State, e: Event)
    requires (!c.limited || |s.workers| == 1) && c.n + |s.workers| <= WRAP
    requires InOrder(c, s) && Next(c, s, e).Some?
    ensures InOrder(c, Next(c, s, e).value)
  {
    var s' := Next(c, s, e).value;
    StepKeepsBalance(c, s, e);
    BalancedNoWrap(c, s, e.w);
    CountsAfter(s.workers, e.w, s'.workers[e.w]);
    forall id: nat
      ensures multiset(s'.runs)[id] + HoldersOf(s'.workers, id) == if id < Issued(s') then 1 else 0
    {
      HoldersAfter(s.workers, e.w, s'.workers[e.w], id);
    }
    if e.HandBack? { assert s.workers == [s.workers[0]] && Holders(s.workers) == 1; }
  }

  lemma {:induction false} OrderKept(c: Config, t: nat, es: seq<Event>)
    requires (!c.limited || t == 1) && c.n + t <= WRAP && Run(c, Initial(t), es).Some?
    ensures var s := Run(c, Initial(t), es).value; |s.workers| == t && InOrder(c, s)
  {
    if es == [] {
      NobodyYet(t);
      forall id ensures HoldersOf(Initial(t).workers, id) == 0 { NobodyHolds(t, id); }
    } else {
      OrderKept(c, t, es[..|es| - 1]);
      StepKeepsOrder(c, Run(c, Initial(t), es[..|es| - 1]).value, es[|es| - 1]);
    }
  }

  lemma {:induction false} NobodyHolds(t: nat, id: nat)
    ensures HoldersOf(Initial(t).workers, id) == 0
  {
    if t > 0 {
      NobodyHolds(t - 1, id);
      assert Initial(t).workers[1..] == Initial(t - 1).workers;
    }
  }

  lemma {:induction false} AllOutHoldNone(ws: seq<Worker>, id: nat)
    requires forall v :: 0 <= v < |ws| ==> ws[v].Exited?
    ensures HoldersOf(ws, id) == 0
  {
    if ws != [] { AllOutHoldNone(ws[1..], id); }
  }

  lemma OnceWhenOrdered(c: Config, t: nat, es: seq<Event>)
    requires 0 < t && (!c.limited || t == 1) && c.n + t <= WRAP
    requires Run(c, Initial(t), es).Some? && Complete(Run(c, Initial(t), es).value)
    ensures EachOnce(c, Run(c, Initial(t), es).value)
  {
    var s := Run(c, Initial(t), es).value;
    OrderKept(c, t, es);
    AllOut(s.workers);
    forall id: nat ensures HoldersOf(s.workers, id) == 0 { AllOutHoldNone(s.workers, id); }
  }

  lemma {:induction false} NothingToRun(c: Config, t: nat, es: seq<Event>)
    requires c.n == 0 && Run(c, Initial(t), es).Some?
    ensures var s := Run(c, Initial(t), es).value;
            s.runs == [] && forall w :: 0 <= w < |s.workers| ==> !s.workers[w].Holding?
  {
    if es != [] { NothingToRun(c, t, es[..|es| - 1]); }
  }

  // ---------------------------------------------------------------- when it fails: schedules

  lemma {:induction false} RunConcat(c: Config, s: State, es: seq<Event>, fs: seq<Event>)
    requires Run(c, s, es).Some?
    ensures Run(c, s, es + fs) == Run(c, Run(c, s, es).value, fs)
    decreases |fs|
  {
    if fs == [] {
      assert es + fs == es;
    } else {
      assert (es + fs)[..|es + fs| - 1] == es + fs[..|fs| - 1];
      RunConcat(c, s, es, fs[..|fs| - 1]);
    }
  }

  /** Some interleaving leads from s to s'. */
  ghost predicate Leads(c: Config, s: State, s': State) {
    exists es :: Run(c, s, es) == Some(s')
  }

  lemma Stay(c: Config, s: State)
    ensures Leads(c, s, s)
  {
    assert Run(c, s, []) == Some(s);
  }

  lemma Join(c: Config, s: State, s1: State, s2: State)
    requires Leads(c, s, s1) && Leads(c, s1, s2)
    ensures Leads(c, s, s2)
  {
    var es :| Run(c, s, es) == Some(s1);
    var fs :| Run(c, s1, fs) == Some(s2);
    RunConcat(c, s, es, fs);
    assert Run(c, s, es + fs) == Some(s2);
  }

  /** One more step of a schedule. */
  lemma Then(c: Config, s0: State, s: State, e: Event) returns (s': State)
    requires Leads(c, s0, s) && Next(c, s, e).Some?
    ensures Leads(c, s0, s') && s' == Next(c, s, e).value
  {
    var es :| Run(c, s0, es) == Some(s);
    s' := Next(c, s, e).value;
    assert (es + [e])[..|es + [e]| - 1] == es;
    assert Run(c, s0, es + [e]) == Some(s');
  }

  /** Worker w takes a ticket and starts its transaction. */
  lemma TakeAndStart(c: Config, s: State, w: nat) returns (s': State)
    requires w < |s.workers| && s.workers[w].Fetching? && s.counter < c.n < WRAP
    ensures Leads(c, s, s')
    ensures s' == State(s.counter + 1, s.workers[w := Running(s.counter)], s.runs + [s.counter])
  {
    Stay(c, s);
    s' := Then(c, s, s, Take(w));
    s' := Then(c, s, s', Start(w));
  }

  /** Left alone, worker w runs what is left and exits; nothing started is forgotten. */
  lemma {:induction false} Drive(c: Config, s: State, w: nat) returns (s': State)
    requires c.n < WRAP && w < |s.workers| && !s.workers[w].Exited?
    ensures Leads(c, s, s') && s'.workers == s.workers[w := Exited] && s.runs <= s'.runs
    ensures s.counter <= c.n ==> s'.counter == (c.n + 1) % WRAP && |s'.runs| >= |s.runs| + (c.n - s.counter)
    ensures s.counter < c.n && s.workers[w].Fetching? ==> s.runs + [s.counter] <= s'.runs
    decreases if s.counter < c.n then c.n - s.counter else 0, s.workers[w].Holding?, s.workers[w].Running?
  {
    Stay(c, s);
    if s.workers[w].Fetching? && s.counter >= c.n {
      s' := Then(c, s, s, Take(w));
    } else {
      var s1;
      if s.workers[w].Fetching? {
        s1 := TakeAndStart(c, s, w);
      } else if s.workers[w].Holding? {
        s1 := Then(c, s, s, Start(w));
      } else {
        s1 := Then(c, s, s, Finish(w));
      }
      s' := Drive(c, s1, w);
      Join(c, s, s1, s');
    }
  }

  predicate OutBelow(s: State, k: nat) { forall w :: 0 <= w < |s.workers| && w < k ==> s.workers[w].Exited? }

  /** Every schedule can be completed. */
  lemma {:induction false} DriveAll(c: Config, s: State, k: nat) returns (s': State)
    requires c.n < WRAP && k <= |s.workers| && OutBelow(s, k)
    ensures Leads(c, s, s') && Complete(s') && s.runs <= s'.runs
    decreases |s.workers| - k
  {
    if k == |s.workers| {
      s' := s;
      Stay(c, s);
    } else if s.workers[k].Exited? {
      s' := DriveAll(c, s, k + 1);
    } else {
      var s1 := Drive(c, s, k);
      s' := DriveAll(c, s1, k + 1);
      Join(c, s, s1, s');
    }
  }

  /** With all ids issued and room on the counter, fetching workers j to k - 1 just leave. */
  lemma {:induction false} LeaveAll(c: Config, s: State, j: nat, k: nat) returns (s': State)
    requires j <= k <= |s.workers| && c.n <= s.counter && s.counter + (k - j) <= WRAP
    requires OutBelow(s, j) && forall w :: j <= w < k ==> s.workers[w].Fetching?
    ensures Leads(c, s, s') && s'.runs == s.runs && |s'.workers| == |s.workers|
    ensures OutBelow(s', k) && forall w :: k <= w < |s.workers| ==> s'.workers[w] == s.workers[w]
    ensures s'.counter == if k == j then s.counter else (s.counter + (k - j)) % WRAP
    decreases k - j
  {
    Stay(c, s);
    s' := s;
    if j < k {
      var s1 := Then(c, s, s, Take(j));
      s' := s1;
      if j + 1 < k {
        s' := LeaveAll(c, s1, j + 1, k);
        Join(c, s, s1, s');
      }
    }
  }

  lemma PrefixCounts(xs: seq<nat>, ys: seq<nat>, id: nat)
    requires xs <= ys
    ensures multiset(xs)[id] <= multiset(ys)[id]
  {
    assert ys == xs + ys[|xs|..];
  }

  /** A complete state that can be reached and is not exactly once. */
  lemma Refuted(c: Config, t: nat, s: State)
    requires Leads(c, Initial(t), s) && Complete(s) && !EachOnce(c, s)
    ensures !ExactlyOnce(c, t)
  {
    var es :| Run(c, Initial(t), es) == Some(s);
  }

  /** A schedule after which some id was started twice completes to a run that is not exactly once. */
  lemma RepeatedId(c: Config, t: nat, s: State, id: nat)
    requires c.n < WRAP && Leads(c, Initial(t), s) && multiset(s.runs)[id] >= 2
    ensures !ExactlyOnce(c, t)
  {
    var s' := DriveAll(c, s, 0);
    Join(c, Initial(t), s, s');
    PrefixCounts(s.runs, s'.runs, id);
    Refuted(c, t, s');
  }

  /** Two workers take tickets 0 and 1, and the first hands its own back. */
  lemma HandBackFirst(c: Config, t: nat) returns (s: State)
    requires c.limited && 1 <= c.n < WRAP && 2 <= t
    ensures Leads(c, Initial(t), s) && s.counter == 1 && s.runs == []
    ensures s.workers == Initial(t).workers[1 := if c.n == 1 then Exited else Holding(1)]
  {
    Stay(c, Initial(t));
    s := Then(c, Initial(t), Initial(t), Take(0));
    s := Then(c, Initial(t), s, Take(1));
    s := Then(c, Initial(t), s, HandBack(0));
    assert Initial(t).workers[0] == Fetching;
  }

  /** Then ticket 1 is taken again, and run twice. */
  lemma HandBackRepeats(c: Config, t: nat)
    requires c.limited && 2 <= c.n < WRAP && 2 <= t
    ensures !ExactlyOnce(c, t)
  {
    var s := HandBackFirst(c, t);
    s := Then(c, Initial(t), s, Start(1));
    s := Then(c, Initial(t), s, Take(0));
    s := Then(c, Initial(t), s, Start(0));
    assert s.runs == [1, 1];
    RepeatedId(c, t, s, 1);
  }

  /** With one transaction, the other worker left while ticket 0 was out, and then nobody runs it. */
  lemma HandBackLoses(c: Config, t: nat)
    requires c.limited && c.n == 1 && 2 <= t < WRAP
    ensures !ExactlyOnce(c, t)
  {
    var s := HandBackFirst(c, t);
    s := Then(c, Initial(t), s, Take(0));
    var s' := LeaveAll(c, s, 2, t);
    Join(c, Initial(t), s, s');
    assert multiset(s'.runs)[0] == 0;
    Refuted(c, t, s');
  }

  /** After n runs, WRAP - n workers have left and the counter is 0 again. */
  lemma LeaveUntilWrapped(c: Config, t: nat) returns (s: State)
    requires 1 <= c.n < WRAP && t < WRAP && c.n + t > WRAP
    ensures Leads(c, Initial(t), s) && s.counter == 0 && [0] <= s.runs && |s.runs| >= c.n
    ensures |s.workers| == t && s.workers[WRAP - c.n].Fetching?
  {
    s := Drive(c, Initial(t), 0);
    if c.n + 1 < WRAP {
      var s1 := s;
      s := LeaveAll(c, s1, 1, WRAP - c.n);
      Join(c, Initial(t), s1, s);
    }
  }

  /** Enough workers leave to wrap the counter around, and the next one starts again at id 0. */
  lemma WrapRepeats(c: Config, t: nat)
    requires 1 <= c.n < WRAP && t < WRAP && c.n + t > WRAP
    ensures !ExactlyOnce(c, t)
  {
    var s := LeaveUntilWrapped(c, t);
    var w, before := WRAP - c.n, s.runs;
    PrefixCounts([0], before, 0);
    s := Then(c, Initial(t), s, Take(w));
    s := Then(c, Initial(t), s, Start(w));
    assert s.runs == before + [0];
    RepeatedId(c, t, s, 0);
  }

  /**
    * n transactions by t workers are each run exactly once, in every interleaving, if and only if there is
    * nothing to run, one worker, or neither a rate limit nor room for the counter to wrap around.
    */
  lemma ExactlyOnceIff(c: Config, t: nat)
    requires c.n < WRAP && 0 < t < WRAP
    ensures ExactlyOnce(c, t) <==> c.n == 0 || t == 1 || (!c.limited && c.n + t <= 0x1_0000_0000)
  {
    if c.n == 0 {
      forall es | Run(c, Initial(t), es).Some? ensures EachOnce(c, Run(c, Initial(t), es).value) {
        NothingToRun(c, t, es);
      }
    } else if t == 1 || (!c.limited && c.n + t <= WRAP) {
      forall es | Run(c, Initial(t), es).Some? && Complete(Run(c, Initial(t), es).value)
        ensures EachOnce(c, Run(c, Initial(t), es).value)
      {
        OnceWhenOrdered(c, t, es);
      }
    } else if c.n + t > WRAP {
      WrapRepeats(c, t);
    } else if c.n == 1 {
      HandBackLoses(c, t);
    } else {
      HandBackRepeats(c, t);
    }
  }

  // ---------------------------------------------------------------- what wrapping around does to the counts

  /** The counter equals started + held + exited until every worker has left. */
  ghost predicate CounterExact(c: Config, t: nat) {
    forall es :: Run(c, Initial(t), es).Some? && !Complete(Run(c, Initial(t), es).value) ==>
                   Run(c, Initial(t), es).value.counter == Accounted(Run(c, Initial(t), es).value)
  }

  lemma CounterExactIff(c: Config, t: nat)
    requires c.n < WRAP && 0 < t < WRAP
    ensures CounterExact(c, t) <==> c.n + t <= WRAP
  {
    if c.n + t <= WRAP {
      forall es | Run(c, Initial(t), es).Some? && !Complete(Run(c, Initial(t), es).value)
        ensures Run(c, Initial(t), es).value.counter == Accounted(Run(c, Initial(t), es).value)
      {
        CounterBalances(c, t, es);
      }
    } else {
      var s := LeaveUntilWrapped(c, t);
      var es :| Run(c, Initial(t), es) == Some(s);
      assert !Complete(s) && s.counter != Accounted(s);
    }
  }

  /** Every complete run of t workers starts between n - (t - 1) and n transactions. */
  ghost predicate Bounded(c: Config, t: nat) {
    forall es :: Run(c, Initial(t), es).Some? && Complete(Run(c, Initial(t), es).value) ==>
                   c.n - (t - 1) <= |Run(c, Initial(t), es).value.runs| <= c.n
  }

  /** Once the counter has wrapped around, one more transaction runs. */
  lemma WrapExceeds(c: Config, t: nat) returns (s: State)
    requires 1 <= c.n < WRAP && t < WRAP && c.n + t > WRAP
    ensures Leads(c, Initial(t), s) && Complete(s) && |s.runs| > c.n
  {
    var s1 := LeaveUntilWrapped(c, t);
    s1 := Then(c, Initial(t), s1, Take(WRAP - c.n));
    s1 := Then(c, Initial(t), s1, Start(WRAP - c.n));
    s := DriveAll(c, s1, 0);
    Join(c, Initial(t), s1, s);
  }

  lemma BoundedIff(c: Config, t: nat)
    requires c.n < WRAP && 0 < t < WRAP
    ensures Bounded(c, t) <==> c.n + t <= WRAP
  {
    if c.n + t <= WRAP {
      forall es | Run(c, Initial(t), es).Some? && Complete(Run(c, Initial(t), es).value)
        ensures c.n - (t - 1) <= |Run(c, Initial(t), es).value.runs| <= c.n
      {
        RunCount(c, t, es);
      }
    } else {
      var s := WrapExceeds(c, t);
      var es :| Run(c, Initial(t), es) == Some(s);
    }
  }

  // ---------------------------------------------------------------- the lower bound is reached

  /** Worker 0 runs the first m transactions alone. */
  lemma {:induction false} RunFirst(c: Config, t: nat, m: nat) returns (s: State)
    requires 0 < t && m <= c.n < WRAP
    ensures Leads(c, Initial(t), s) && s.workers == Initial(t).workers && s.counter == m && |s.runs| == m
  {
    if m == 0 {
      s := Initial(t);
      Stay(c, s);
    } else {
      var s1 := RunFirst(c, t, m - 1);
      var s2 := TakeAndStart(c, s1, 0);
      Join(c, Initial(t), s1, s2);
      s := Then(c, Initial(t), s2, Finish(0));
      assert s.workers == s1.workers;
    }
  }

  /** Fetching workers j to k - 1 each take a ticket and keep it. */
  lemma {:induction false} HoldAll(c: Config, s: State, j: nat, k: nat) returns (s': State)
    requires j <= k <= |s.workers| && s.counter + (k - j) <= c.n < WRAP
    requires forall w :: j <= w < k ==> s.workers[w].Fetching?
    ensures Leads(c, s, s') && s'.runs == s.runs && |s'.workers| == |s.workers|
    ensures s'.counter == s.counter + (k - j)
    ensures forall w :: 0 <= w < |s.workers| ==> if j <= w < k then s'.workers[w].Holding? else s'.workers[w] == s.workers[w]
    decreases k - j
  {
    Stay(c, s);
    s' := s;
    if j < k {
      var s1 := Then(c, s, s, Take(j));
      s' := HoldAll(c, s1, j + 1, k);
      Join(c, s, s1, s');
    }
  }

  /** With every ticket out, a worker hands its own back and finds none left. */
  lemma ReleaseOne(c: Config, s: State, w: nat) returns (s': State)
    requires c.limited && w < |s.workers| && s.workers[w].Holding? && s.counter == c.n + 1 < WRAP
    ensures Leads(c, s, s') && s' == s.(workers := s.workers[w := Exited])
  {
    Stay(c, s);
    s' := Then(c, s, s, HandBack(w));
    assert s'.counter == c.n;
    s' := Then(c, s, s', Take(w));
  }

  /** With every ticket out, holding workers j and up hand theirs back one after the other and find none left. */
  lemma {:induction false} ReleaseAll(c: Config, s: State, j: nat) returns (s': State)
    requires c.limited && j <= |s.workers| && s.counter == c.n + 1 < WRAP && OutBelow(s, j)
    requires forall w :: j <= w < |s.workers| ==> s.workers[w].Holding?
    ensures Leads(c, s, s') && s'.runs == s.runs && Complete(s')
    decreases |s.workers| - j
  {
    if j == |s.workers| {
      s' := s;
      Stay(c, s);
    } else {
      var s1 := ReleaseOne(c, s, j);
      s' := ReleaseAll(c, s1, j + 1);
      Join(c, s, s1, s');
    }
  }

  /** The other workers take the last tickets, and worker 0 finds none left. */
  lemma LastTicketsHeld(c: Config, s: State) returns (s': State)
    requires 1 <= |s.workers| && s.counter + |s.workers| - 1 == c.n && c.n + 1 < WRAP
    requires forall w :: 0 <= w < |s.workers| ==> s.workers[w].Fetching?
    ensures Leads(c, s, s') && s'.counter == c.n + 1 && s'.runs == s.runs && |s'.workers| == |s.workers|
    ensures OutBelow(s', 1) && forall w :: 1 <= w < |s.workers| ==> s'.workers[w].Holding?
  {
    var s1 := HoldAll(c, s, 1, |s.workers|);
    assert s1.workers[0].Fetching?;
    s' := Then(c, s, s1, Take(0));
  }

  /** Some interleaving of rate-limited workers runs only n - (t - 1) transactions: the bound of RunCount is exact. */
  lemma LowestCountReached(c: Config, t: nat) returns (es: seq<Event>)
    requires c.limited && 2 <= t && t - 1 <= c.n && c.n + t <= WRAP
    ensures Run(c, Initial(t), es).Some?
    ensures var s := Run(c, Initial(t), es).value; Complete(s) && |s.runs| == c.n - (t - 1)
  {
    var s1 := RunFirst(c, t, c.n - (t - 1));
    var s2 := LastTicketsHeld(c, s1);
    Join(c, Initial(t), s1, s2);
    var s' := ReleaseAll(c, s2, 1);
    Join(c, Initial(t), s2, s');
    es :| Run(c, Initial(t), es) == Some(s');
  }
}
