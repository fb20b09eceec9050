/**
  * benchmark/benchmark_util/data_table_benchmark_util.cpp: the workers of SimulateOltp share an atomic 32-bit
  * counter; each takes tickets from it and, if rate limited, may hand a ticket back.
  */
module Tickets {
  import opened Options

  const WRAP: nat := 0x1_0000_0000

  /** Where a worker is: about to fetch, holding a valid ticket, running a transaction, or out of the loop. */
  datatype Worker = Fetching | Holding(id: nat) | Running(id: nat) | Exited

  /** runs lists the ids of the transactions started so far. */
  datatype State = State(counter: nat, workers: seq<Worker>, runs: seq<nat>)

  /** num_transactions, and whether a submit interval is set. */
  datatype Config = Config(n: nat, limited: bool)

  datatype Event = Take(w: nat) | HandBack(w: nat) | Start(w: nat) | Finish(w: nat)

  function Next(c: Config, s: State, e: Event): Option<State> {
    if e.w >= |s.workers| then None
    else
      var at := s.workers[e.w];
      match e
      case Take(w) =>
        if !at.Fetching? then None
        else
          var worker := if s.counter < c.n then Holding(s.counter) else Exited;
          Some(s.(counter := (s.counter + 1) % WRAP, workers := s.workers[w := worker]))
      case HandBack(w) =>
        if !at.Holding? || !c.limited then None
        else Some(s.(counter := (s.counter + WRAP - 1) % WRAP, workers := s.workers[w := Fetching]))
      case Start(w) =>
        if !at.Holding? then None
        else Some(s.(workers := s.workers[w := Running(at.id)], runs := s.runs + [at.id]))
      case Finish(w) =>
        if !at.Running? then None else Some(s.(workers := s.workers[w := Fetching]))
  }

  /** An interleaving of the workers' steps. */
  function Run(c: Config, s: State, es: seq<Event>): Option<State> {
    if es == [] then Some(s)
    else
      match Run(c, s, es[..|es| - 1])
      case None => None
      case Some(s') => Next(c, s', es[|es| - 1])
  }

  function Initial(t: nat): State { State(0, seq(t, _ => Fetching), []) }

  predicate Complete(s: State) { forall w :: 0 <= w < |s.workers| ==> s.workers[w].Exited? }

  // ---------------------------------------------------------------- counting workers

  /** How many workers hold a ticket. */
  function Holders(ws: seq<Worker>): nat {
    if ws == [] then 0 else (if ws[0].Holding? then 1 else 0) + Holders(ws[1..])
  }

  function Exits(ws: seq<Worker>): nat {
    if ws == [] then 0 else (if ws[0].Exited? then 1 else 0) + Exits(ws[1..])
  }

  lemma {:induction false} CountsAfter(ws: seq<Worker>, w: nat, x: Worker)
    requires w < |ws|
    ensures Holders(ws[w := x]) + (if ws[w].Holding? then 1 else 0) == Holders(ws) + (if x.Holding? then 1 else 0)
    ensures Exits(ws[w := x]) + (if ws[w].Exited? then 1 else 0) == Exits(ws) + (if x.Exited? then 1 else 0)
    ensures ws[w].Holding? ==> Holders(ws) > 0
  {
    if w == 0 {
      assert ws[w := x][1..] == ws[1..];
    } else {
      assert ws[w := x][1..] == ws[1..][w - 1 := x];
      CountsAfter(ws[1..], w - 1, x);
    }
  }

  lemma {:induction false} ExitsBound(ws: seq<Worker>)
    ensures Exits(ws) <= |ws|
    ensures forall w :: 0 <= w < |ws| && !ws[w].Exited? ==> Exits(ws) < |ws|
  {
    if ws != [] {
      ExitsBound(ws[1..]);
      forall w | 0 <= w < |ws| && !ws[w].Exited? ensures Exits(ws) < |ws| {
        if w > 0 { assert !ws[1..][w - 1].Exited?; }
      }
    }
  }

  // ---------------------------------------------------------------- every interleaving

  /** Tickets accounted for: transactions started, tickets held, and workers that left with one. */
  function Accounted(s: State): nat { |s.runs| + Holders(s.workers) + Exits(s.workers) }

  /** What every step keeps. */
  ghost predicate Accounts(s: State) { s.counter == Accounted(s) % WRAP }

  /** What every step keeps if the counter cannot wrap around. */
  ghost predicate Balanced(c: Config, s: State) { Accounts(s) && |s.runs| + Holders(s.workers) <= c.n }

  lemma BalancedNoWrap(c: Config, s: State, w: nat)
    requires c.n + |s.workers| <= WRAP && Balanced(c, s) && w < |s.workers| && !s.workers[w].Exited?
    ensures s.counter == Accounted(s)
  {
    ExitsBound(s.workers);
  }

  lemma WrapStep(a: nat)
    ensures (a % WRAP + 1) % WRAP == (a + 1) % WRAP
    ensures a > 0 ==> (a % WRAP + WRAP - 1) % WRAP == (a - 1) % WRAP
  {
  }

  lemma StepAccounts(c: Config, s: State, e: Event)
    requires Accounts(s) && Next(c, s, e).Some?
    ensures Accounts(Next(c, s, e).value)
  {
    CountsAfter(s.workers, e.w, Next(c, s, e).value.workers[e.w]);
    WrapStep(Accounted(s));
  }

  lemma StepKeepsBalance(c: Config, s: State, e: Event)
    requires Accounts(s) && Next(c, s, e).Some?
    ensures Accounts(Next(c, s, e).value)
    ensures c.n + |s.workers| <= WRAP && Balanced(c, s) ==>
              Balanced(c, Next(c, s, e).value) && (e.HandBack? ==> s.counter > 0)
  {
    StepAccounts(c, s, e);
    CountsAfter(s.workers, e.w, Next(c, s, e).value.workers[e.w]);
    if c.n + |s.workers| <= WRAP && Balanced(c, s) { BalancedNoWrap(c, s, e.w); }
  }

  /**
    * Over every interleaving the counter equals started + held + exited modulo 2^32. With n + t <= 2^32 it is
    * equal until every worker has left, and never underflows: it is positive whenever a ticket is handed back.
    */
  lemma {:induction false} CounterBalances(c: Config, t: nat, es: seq<Event>)
    requires Run(c, Initial(t), es).Some?
    ensures var s := Run(c, Initial(t), es).value;
            && |s.workers| == t && Accounts(s)
            && (c.n + t <= WRAP ==> Balanced(c, s) && (!Complete(s) ==> s.counter == Accounted(s)))
    ensures c.n + t <= WRAP && es != [] && es[|es| - 1].HandBack? ==>
              Run(c, Initial(t), es[..|es| - 1]).value.counter > 0
  {
    var s := Run(c, Initial(t), es).value;
    if es == [] {
      NobodyYet(t);
    } else {
      CounterBalances(c, t, es[..|es| - 1]);
      StepKeepsBalance(c, Run(c, Initial(t), es[..|es| - 1]).value, es[|es| - 1]);
    }
    if c.n + t <= WRAP && !Complete(s) {
      var w :| 0 <= w < |s.workers| && !s.workers[w].Exited?;
      BalancedNoWrap(c, s, w);
    }
  }

  lemma {:induction false} NobodyYet(t: nat)
    ensures Holders(Initial(t).workers) == 0 && Exits(Initial(t).workers) == 0
  {
    if t > 0 {
      NobodyYet(t - 1);
      assert Initial(t).workers[1..] == Initial(t - 1).workers;
    }
  }

  // ---------------------------------------------------------------- how many transactions run

  lemma {:induction false} AllButOne(ws: seq<Worker>, w: nat)
    requires w < |ws| && ws[w].Fetching? && forall v :: 0 <= v < |ws| && v != w ==> ws[v].Exited?
    ensures Holders(ws) == 0 && Exits(ws) == |ws| - 1
  {
    if w == 0 { AllOut(ws[1..]); } else { AllButOne(ws[1..], w - 1); }
  }

  lemma {:induction false} AllOut(ws: seq<Worker>)
    requires forall v :: 0 <= v < |ws| ==> ws[v].Exited?
    ensures Holders(ws) == 0 && Exits(ws) == |ws|
  {
    if ws != [] { AllOut(ws[1..]); }
  }

  /**
    * However the workers interleave and hand tickets back, between n - (t - 1) and n transactions run; with one
    * worker exactly n.
    */
  lemma RunCount(c: Config, t: nat, es: seq<Event>)
    requires 0 < t && c.n + t <= WRAP && Run(c, Initial(t), es).Some? && Complete(Run(c, Initial(t), es).value)
    ensures c.n - (t - 1) <= |Run(c, Initial(t), es).value.runs| <= c.n
  {
    var s' := Run(c, Initial(t), es).value;
    CounterBalances(c, t, es);
    assert !Complete(Initial(t)) by { assert Initial(t).workers[0].Fetching?; }
    var s, e := Run(c, Initial(t), es[..|es| - 1]).value, es[|es| - 1];
    CounterBalances(c, t, es[..|es| - 1]);
    assert s'.workers[e.w].Exited?;
    forall v | 0 <= v < t && v != e.w ensures s.workers[v].Exited? {
      assert s'.workers[v] == s.workers[v];
    }
    AllButOne(s.workers, e.w);
  }
}
