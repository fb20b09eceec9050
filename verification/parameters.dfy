/**
  * The parameters of a prepared statement: binding records their types, and later executions promote fresh
  * parameters to the recorded types without visiting the statement again.
  */
module Parameters {
  import opened Options
  import opened SqlTypes
  import opened Promotion
  import opened PromotionLaws

  /** A parameter expression is visited with the sherpa's desired type for it. */
  datatype ParameterVisit = ParameterVisit(index: nat, desired: TypeId)

  datatype Binding = Binding(parameters: seq<Constant>, recorded: seq<TypeId>)

  predicate VisitsInRange(visits: seq<ParameterVisit>, n: nat) {
    forall v :: v in visits ==> v.index < n
  }

  /** One visit: promote the parameter and record its type. */
  function VisitOne(lib: TextParsers, b: Binding, v: ParameterVisit): Result<Binding>
    requires |b.parameters| == |b.recorded| && v.index < |b.parameters|
  {
    var c :- PromoteIfTyped(lib, b.parameters[v.index], v.desired);
    Ok(Binding(b.parameters[v.index := c], b.recorded[v.index := c.ty]))
  }

  /** Every visit of a statement, in any order and any number. */
  function RunVisits(lib: TextParsers, b: Binding, visits: seq<ParameterVisit>): (r: Result<Binding>)
    requires |b.parameters| == |b.recorded| && VisitsInRange(visits, |b.parameters|)
    ensures r.Ok? ==> |r.value.parameters| == |r.value.recorded| == |b.parameters|
    decreases visits
  {
    if visits == [] then Ok(b)
    else
      var b' :- VisitOne(lib, b, visits[0]);
      RunVisits(lib, b', visits[1..])
  }

  function DesiredOf(visits: seq<ParameterVisit>, i: nat): seq<TypeId> {
    if visits == [] then []
    else if visits[0].index == i then [visits[0].desired] + DesiredOf(visits[1..], i)
    else DesiredOf(visits[1..], i)
  }

  lemma {:induction false} VisitsAreChains(lib: TextParsers, b: Binding, visits: seq<ParameterVisit>, i: nat)
    requires |b.parameters| == |b.recorded| && VisitsInRange(visits, |b.parameters|)
    requires RunVisits(lib, b, visits).Ok? && i < |b.parameters|
    ensures var b' := RunVisits(lib, b, visits).value;
            && Chain(lib, b.parameters[i], DesiredOf(visits, i)) == Ok(b'.parameters[i])
            && b'.recorded[i] == if DesiredOf(visits, i) == [] then b.recorded[i] else b'.parameters[i].ty
    decreases visits
  {
    if visits != [] {
      var v := visits[0];
      var c := PromoteIfTyped(lib, b.parameters[v.index], v.desired).value;
      VisitsAreChains(lib, Binding(b.parameters[v.index := c], b.recorded[v.index := c.ty]), visits[1..], i);
      if v.index == i {
        assert DesiredOf(visits, i)[1..] == DesiredOf(visits[1..], i);
      }
    }
  }

  /** PromoteParameters as a function: parameters i and up are promoted in order, up to the first failure. */
  function PromoteFrom(lib: TextParsers, ps: seq<Constant>, ts: seq<TypeId>, i: nat): Result<seq<Constant>>
    requires i <= |ps| == |ts|
    decreases |ps| - i
  {
    if i == |ps| then Ok(ps)
    else match PromoteIfTyped(lib, ps[i], ts[i])
         case Err(e) => Err(e)
         case Ok(c) => PromoteFrom(lib, ps[i := c], ts, i + 1)
  }

  lemma {:induction false} PromoteKeeps(lib: TextParsers, ps: seq<Constant>, ts: seq<TypeId>, i: nat)
    requires i <= |ps| == |ts|
    ensures var r := PromoteFrom(lib, ps, ts, i); r.Ok? ==> |r.value| == |ps| && r.value[..i] == ps[..i]
    decreases |ps| - i
  {
    if i < |ps| && PromoteIfTyped(lib, ps[i], ts[i]).Ok? {
      var ps' := ps[i := PromoteIfTyped(lib, ps[i], ts[i]).value];
      PromoteKeeps(lib, ps', ts, i + 1);
      assert ps'[..i + 1][..i] == ps[..i];
    }
  }

  lemma {:induction false} PromotePointwise(lib: TextParsers, ps: seq<Constant>, ts: seq<TypeId>, i: nat, qs: seq<Constant>)
    requires i <= |ps| == |ts| == |qs| && ps[..i] == qs[..i]
    ensures PromoteFrom(lib, ps, ts, i) == Ok(qs)
       <==> forall j :: i <= j < |ps| ==> PromoteIfTyped(lib, ps[j], ts[j]) == Ok(qs[j])
    decreases |ps| - i
  {
    if i == |ps| {
      assert ps == ps[..i] && qs == qs[..i];
    } else if PromoteIfTyped(lib, ps[i], ts[i]).Ok? {
      var ps' := ps[i := PromoteIfTyped(lib, ps[i], ts[i]).value];
      if ps'[i] == qs[i] {
        PromotePointwise(lib, ps', ts, i + 1, qs);
      } else {
        PromoteKeeps(lib, ps', ts, i + 1);
      }
    }
  }

  /**
    * The fast path: after a statement bound with parameters ps and recorded its parameter types, promoting the
    * same raw parameters to the recorded types gives the very same constants, exactly when no parameter's text
    * was read twice. Promoting the bound parameters once more changes nothing.
    */
  lemma FastPathAgrees(lib: TextParsers, ps: seq<Constant>, visits: seq<ParameterVisit>)
    requires forall c :: c in ps ==> WellFormed(c)
    requires VisitsInRange(visits, |ps|)
    requires RunVisits(lib, Binding(ps, seq(|ps|, _ => INVALID)), visits).Ok?
    ensures var b := RunVisits(lib, Binding(ps, seq(|ps|, _ => INVALID)), visits).value;
            && (PromoteFrom(lib, ps, b.recorded, 0) == Ok(b.parameters)
                <==> forall i :: 0 <= i < |ps| ==> !ReadsTwice(lib, ps[i], DesiredOf(visits, i)))
            && PromoteFrom(lib, b.parameters, b.recorded, 0) == Ok(b.parameters)
  {
    var start := Binding(ps, seq(|ps|, _ => INVALID));
    var b := RunVisits(lib, start, visits).value;
    forall i | 0 <= i < |ps|
      ensures PromoteIfTyped(lib, ps[i], b.recorded[i]) == Ok(b.parameters[i])
         <==> !ReadsTwice(lib, ps[i], DesiredOf(visits, i))
      ensures PromoteIfTyped(lib, b.parameters[i], b.recorded[i]) == Ok(b.parameters[i])
    {
      VisitsAreChains(lib, start, visits, i);
      ChainCollapses(lib, ps[i], DesiredOf(visits, i));
    }
    PromotePointwise(lib, ps, b.recorded, 0, b.parameters);
    PromotePointwise(lib, b.parameters, b.recorded, 0, b.parameters);
  }

  ghost function Values(ps: seq<ConstantValueExpression>): (cs: seq<Constant>)
    reads ps
    ensures |cs| == |ps| && forall i :: 0 <= i < |ps| ==> cs[i] == ps[i].Get()
  {
    seq(|ps|, i requires 0 <= i < |ps| reads ps => ps[i].Get())
  }

  /** ps became qs: the first k are promoted, the others are as they were. */
  ghost predicate PromotedUpTo(lib: TextParsers, ps: seq<Constant>, ts: seq<TypeId>, k: nat, qs: seq<Constant>) {
    && k <= |ps| == |ts| == |qs|
    && (forall j :: 0 <= j < k ==> PromoteIfTyped(lib, ps[j], ts[j]) == Ok(qs[j]))
    && (forall j :: k <= j < |ps| ==> qs[j] == ps[j])
  }

  /** PromoteParameters, in place on the parameter vector. A failure leaves the parameters before it promoted. */
  method PromoteParameters(lib: TextParsers, parameters: seq<ConstantValueExpression>, desired: seq<TypeId>)
    returns (error: Option<Error>)
    requires |parameters| == |desired|
    requires forall i, j :: 0 <= i < j < |parameters| ==> parameters[i] != parameters[j]
    modifies parameters
    ensures match PromoteFrom(lib, old(Values(parameters)), desired, 0)
            case Err(e) => error == Some(e)
            case Ok(cs) => error == None && Values(parameters) == cs
    ensures error.Some? ==>
              exists k: nat :: PromotedUpTo(lib, old(Values(parameters)), desired, k, Values(parameters))
                               && k < |desired| && PromoteIfTyped(lib, old(Values(parameters))[k], desired[k]) == Err(error.value)
  {
    ghost var raw := Values(parameters);
    var i := 0;
    while i < |desired|
      invariant 0 <= i <= |desired|
      invariant PromoteFrom(lib, Values(parameters), desired, i) == PromoteFrom(lib, raw, desired, 0)
      invariant PromotedUpTo(lib, raw, desired, i, Values(parameters))
    {
      ghost var before := Values(parameters);
      if !desired[i].INVALID? {
        error := CheckAndTryPromoteType(lib, parameters[i], desired[i]);
        if error.Some? {
          assert Values(parameters) == before;
          return;
        }
      }
      assert Values(parameters) == before[i := parameters[i].Get()];
      i := i + 1;
    }
    error := None;
  }

  /** The parameters a statement is bound with and the types recorded for them. */
  class ParameterBinder {
    const parameters: seq<ConstantValueExpression>
    var recorded: seq<TypeId>

    ghost predicate Valid()
      reads this
    {
      |recorded| == |parameters| && forall i, j :: 0 <= i < j < |parameters| ==> parameters[i] != parameters[j]
    }

    ghost function Get(): Binding
      reads this, parameters
    {
      Binding(Values(parameters), recorded)
    }

    constructor (parameters: seq<ConstantValueExpression>)
      requires forall i, j :: 0 <= i < j < |parameters| ==> parameters[i] != parameters[j]
      ensures Valid() && this.parameters == parameters && recorded == seq(|parameters|, _ => INVALID)
    {
      this.parameters := parameters;
      recorded := seq(|parameters|, _ => INVALID);
    }

    /** The visit of a parameter expression; its return type becomes that of the parameter. */
    method VisitParameter(lib: TextParsers, index: nat, desired: TypeId) returns (error: Option<Error>, returnType: TypeId)
      requires Valid() && index < |parameters|
      modifies this, parameters[index]
      ensures Valid()
      ensures match VisitOne(lib, old(Get()), ParameterVisit(index, desired))
              case Ok(b) => error == None && Get() == b && returnType == b.parameters[index].ty
              case Err(e) => error == Some(e) && Get() == old(Get())
    {
      ghost var before := Values(parameters);
      var param := parameters[index];
      error, returnType := None, param.returnType;
      if desired != INVALID {
        error := CheckAndTryPromoteType(lib, param, desired);
        if error.Some? {
          assert Values(parameters) == before;
          return;
        }
      }
      returnType := param.returnType;
      recorded := recorded[index := param.returnType];
      assert Values(parameters) == before[index := param.Get()];
    }
  }
}
