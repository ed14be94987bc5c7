/** The load client's measurement callbacks: token allocation and delivery. */
module Measurements {
  import opened Bytes
  import opened Cbor

  const TOKENS: nat := 0x1_0000_0000

  type Token = x: int | 0 <= x < TOKENS

  /** ++counter on a 32-bit counter. */
  function Increment(t: Token): Token {
    (t + 1) % TOKENS
  }

  // ---------- Pigeonhole ----------

  function UpTo(n: nat): (s: set<int>)
    ensures forall x :: x in s <==> 1 <= x <= n
    ensures |s| == n
  {
    if n == 0 then {} else UpTo(n - 1) + {n}
  }

  lemma SubsetSize(a: set<int>, b: set<int>)
    requires a <= b
    ensures |a| <= |b|
  {
    assert b == a + (b - a);
  }

  /** With fewer than 2^32 - 1 tokens in use, some nonzero token is free. */
  lemma FreeToken(used: set<Token>) returns (t: Token)
    requires |used| < 4_294_967_295
    ensures t != 0 && t !in used
  {
    var all := UpTo(TOKENS - 1);
    if all <= used {
      SubsetSize(all, used);
    }
    var x :| x in all && x !in used;
    t := x;
  }

  /** Steps that the counter takes to reach a token; reaching the current value takes a lap. */
  function Distance(from: Token, to: Token): nat {
    (to - from - 1) % TOKENS + 1
  }

  lemma DistanceBounds(from: Token, to: Token)
    ensures 1 <= Distance(from, to) <= TOKENS
    ensures Distance(from, Increment(from)) == 1
    ensures Distance(from, to) < TOKENS ==> Distance(from, Increment(to)) == Distance(from, to) + 1
  {}

  lemma DistanceInjective(from: Token, a: Token, b: Token)
    requires Distance(from, a) == Distance(from, b)
    ensures a == b
  {}

  // ---------- Measurements ----------

  // None stands for the NaN that reading a control value as a float gives.
  datatype Measurement = Measurement(voltage: Option<real>, current: Option<real>, temperature: Option<real>)

  datatype Reading = Reading(value: Option<real>) | Malformed

  /** A quantity of a measurement message; zero if it is absent. */
  function ReadingOf(value: Option<Item>): Reading {
    match value
    case None => Reading(Some(0.0))
    case Some(Float(x)) => Reading(Some(x))
    case Some(Bool(_)) => Reading(None)
    case Some(Null) => Reading(None)
    case _ => Malformed
  }

  function Decoded(item: Item): Option<Measurement> {
    var v, i, t := ReadingOf(Get(item, "v")), ReadingOf(Get(item, "i")), ReadingOf(Get(item, "t"));
    if !item.Map? || v.Malformed? || i.Malformed? || t.Malformed? then None
    else Some(Measurement(v.value, i.value, t.value))
  }

  predicate Numeric(value: Option<Item>) {
    value.Some? ==> value.value.Float? || value.value.Bool? || value.value.Null?
  }

  /** Voltage, current and temperature each come from their own key, wherever it stands in the map.
      A missing key reads as zero, a control value as NaN, and anything else is an error. */
  lemma DecodedFields(item: Item)
    ensures Decoded(item).Some? <==>
            item.Map? && Numeric(Lookup(item.pairs, "v")) && Numeric(Lookup(item.pairs, "i"))
            && Numeric(Lookup(item.pairs, "t"))
    ensures Decoded(item).Some? ==>
              && Decoded(item).value.voltage ==
                 (match Lookup(item.pairs, "v") case None => Some(0.0) case Some(Float(x)) => Some(x) case _ => None)
              && Decoded(item).value.current ==
                 (match Lookup(item.pairs, "i") case None => Some(0.0) case Some(Float(x)) => Some(x) case _ => None)
              && Decoded(item).value.temperature ==
                 (match Lookup(item.pairs, "t") case None => Some(0.0) case Some(Float(x)) => Some(x) case _ => None)
  {
    hide Lookup;
  }

  /** One callback invocation. */
  datatype Call<C> = Call(token: Token, callback: C, measurement: Measurement)

  /** Every live callback is called exactly once, with the same measurement. */
  ghost predicate DeliveredOnce<C>(calls: seq<Call<C>>, callbacks: map<Token, C>, m: Measurement) {
    && (forall j, k :: 0 <= j < k < |calls| ==> calls[j].token != calls[k].token)
    && (forall j :: 0 <= j < |calls| ==>
          calls[j].token in callbacks && calls[j] == Call(calls[j].token, callbacks[calls[j].token], m))
    && (forall t :: t in callbacks ==> exists j :: 0 <= j < |calls| && calls[j].token == t)
  }

  // ---------- Runs of the client ----------

  /** Every token between the counter and t cannot be handed out. */
  ghost predicate Passed(counter: Token, t: Token, used: set<Token>) {
    forall u: Token :: Distance(counter, u) < Distance(counter, t) ==> u == 0 || u in used
  }

  /** The token handed out next: the first one after the counter that is nonzero and free. */
  ghost predicate IsNextToken(counter: Token, used: set<Token>, t: Token) {
    t != 0 && t !in used && Passed(counter, t, used)
  }

  /** The counter some steps on. */
  function StepsOn(counter: Token, steps: nat): Token {
    (counter + steps) % 4_294_967_296
  }

  lemma StepsDistance(counter: Token, steps: nat, u: Token)
    requires 1 <= steps <= 4_294_967_296
    ensures Distance(counter, StepsOn(counter, steps)) == steps
    ensures StepsOn(counter, Distance(counter, u)) == u && 1 <= Distance(counter, u)
  {}

  /** The next token, counted out: so many steps on, and nothing before it could be handed out. */
  lemma NextTokenCounted(counter: Token, used: set<Token>, steps: nat)
    requires 1 <= steps <= 4_294_967_296
    ensures var t := StepsOn(counter, steps);
            IsNextToken(counter, used, t) <==>
            && t != 0 && t !in used
            && forall e :: 1 <= e < steps ==> StepsOn(counter, e) == 0 || StepsOn(counter, e) in used
  {
    hide Distance, StepsOn;
    var t := StepsOn(counter, steps);
    StepsDistance(counter, steps, t);
    if Passed(counter, t, used) {
      forall e | 1 <= e < steps
        ensures StepsOn(counter, e) == 0 || StepsOn(counter, e) in used
      {
        StepsDistance(counter, e, t);
      }
    }
    if forall e :: 1 <= e < steps ==> StepsOn(counter, e) == 0 || StepsOn(counter, e) in used {
      forall u: Token | Distance(counter, u) < Distance(counter, t)
        ensures u == 0 || u in used
      {
        StepsDistance(counter, 1, u);
      }
    }
  }

  lemma NothingPassed(counter: Token)
    ensures forall used :: Passed(counter, Increment(counter), used)
  {}

  lemma PassedOne(counter: Token, t: Token, used: set<Token>)
    requires Passed(counter, t, used) && (t == 0 || t in used) && Distance(counter, t) < TOKENS
    ensures Passed(counter, Increment(t), used)
  {
    hide Distance, Increment;
    DistanceBounds(counter, t);
    forall u: Token | Distance(counter, u) < Distance(counter, Increment(t))
      ensures u == 0 || u in used
    {
      if Distance(counter, u) == Distance(counter, t) {
        DistanceInjective(counter, u, t);
      }
    }
  }

  datatype Op<C> = Added(token: Token, callback: C) | Removed(token: Token)

  /** The live callbacks after a run. */
  function LiveAfter<C>(run: seq<Op<C>>): map<Token, C> {
    if run == [] then map[]
    else
      var live := LiveAfter(run[..|run| - 1]);
      match run[|run| - 1]
      case Added(t, cb) => live[t := cb]
      case Removed(t) => live - {t}
  }

  /** The token counter after a run. */
  function CounterAfter<C>(run: seq<Op<C>>): Token {
    if run == [] then 0
    else match run[|run| - 1]
      case Added(t, _) => t
      case Removed(_) => CounterAfter(run[..|run| - 1])
  }

  /** Runs in which every token was handed out by AddMeasurementCallback. */
  ghost predicate Possible<C>(run: seq<Op<C>>) {
    run == [] ||
    var init := run[..|run| - 1];
    && Possible(init)
    && (run[|run| - 1].Added? ==> IsNextToken(CounterAfter(init), LiveAfter(init).Keys, run[|run| - 1].token))
  }

  lemma AddedNext<C>(run: seq<Op<C>>, t: Token, cb: C)
    requires Possible(run) && IsNextToken(CounterAfter(run), LiveAfter(run).Keys, t)
    ensures Possible(run + [Added(t, cb)])
    ensures LiveAfter(run + [Added(t, cb)]) == LiveAfter(run)[t := cb]
    ensures CounterAfter(run + [Added(t, cb)]) == t
  {
    assert (run + [Added(t, cb)])[..|run|] == run;
  }

  // ---------- The client ----------

  class LoaddClient<C> {
    var measurementCallbacks: map<Token, C>
    var nextMeasurementCallbackToken: Token
    ghost var run: seq<Op<C>>

    ghost predicate Valid()
      reads this
    {
      && Possible(run)
      && measurementCallbacks == LiveAfter(run) && nextMeasurementCallbackToken == CounterAfter(run)
    }

    constructor ()
      ensures Valid() && run == []
    {
      measurementCallbacks, nextMeasurementCallbackToken, run := map[], 0, [];
    }

    method AddMeasurementCallback(cb: C) returns (token: Token)
      requires Valid() && |measurementCallbacks| < TOKENS - 1
      modifies this
      ensures Valid() && run == old(run) + [Added(token, cb)]
      ensures IsNextToken(old(nextMeasurementCallbackToken), old(measurementCallbacks).Keys, token)
      ensures nextMeasurementCallbackToken == token
      ensures measurementCallbacks == old(measurementCallbacks)[token := cb]
    {
      hide Increment, Distance, LiveAfter, CounterAfter, Possible, Passed;
      ghost var start := nextMeasurementCallbackToken;
      ghost var used := measurementCallbacks.Keys;
      ghost var free := FreeToken(used);
      DistanceBounds(start, free);
      nextMeasurementCallbackToken := Increment(nextMeasurementCallbackToken);
      token := nextMeasurementCallbackToken;
      NothingPassed(start);
      while token == 0 || token in measurementCallbacks
        invariant token == nextMeasurementCallbackToken
        invariant measurementCallbacks == old(measurementCallbacks) && run == old(run)
        invariant Distance(start, token) <= Distance(start, free)
        invariant Passed(start, token, used)
        decreases Distance(start, free) - Distance(start, token)
      {
        if Distance(start, token) == Distance(start, free) {
          DistanceInjective(start, token, free);
        }
        DistanceBounds(start, token);
        PassedOne(start, token, used);
        nextMeasurementCallbackToken := Increment(nextMeasurementCallbackToken);
        token := nextMeasurementCallbackToken;
      }
      measurementCallbacks := measurementCallbacks[token := cb];
      AddedNext(run, token, cb);
      run := run + [Added(token, cb)];
    }

    method RemoveMeasurementCallback(token: Token) returns (removed: bool)
      requires Valid()
      modifies this`measurementCallbacks, this`run
      ensures Valid() && run == old(run) + [Removed(token)]
      ensures removed <==> token in old(measurementCallbacks)
      ensures measurementCallbacks == old(measurementCallbacks) - {token}
    {
      removed := token in measurementCallbacks;
      measurementCallbacks := measurementCallbacks - {token};
      run := run + [Removed(token)];
      assert run[..|run| - 1] == old(run);
    }

    /** order is the iteration order of the callback table, which the language leaves open. */
    method ProcessMeasurement(item: Item, order: seq<Token>) returns (threw: bool, calls: seq<Call<C>>)
      requires Lists(order, measurementCallbacks.Keys)
      ensures threw <==> Decoded(item).None?
      ensures if threw then calls == [] else DeliveredOnce(calls, measurementCallbacks, Decoded(item).value)
      ensures !threw ==> item.Map? && forall j :: 0 <= j < |calls| ==>
                && calls[j].measurement.voltage ==
                   (match Lookup(item.pairs, "v") case None => Some(0.0) case Some(Float(x)) => Some(x) case _ => None)
                && calls[j].measurement.current ==
                   (match Lookup(item.pairs, "i") case None => Some(0.0) case Some(Float(x)) => Some(x) case _ => None)
                && calls[j].measurement.temperature ==
                   (match Lookup(item.pairs, "t") case None => Some(0.0) case Some(Float(x)) => Some(x) case _ => None)
    {
      hide Get, Lookup;
      DecodedFields(item);
      calls := [];
      if !item.Map? {
        return true, [];
      }
      var v := CborMapGet(item, "v");
      var i := CborMapGet(item, "i");
      var t := CborMapGet(item, "t");
      if ReadingOf(v).Malformed? || ReadingOf(i).Malformed? || ReadingOf(t).Malformed? {
        return true, [];
      }
      var meas := Measurement(ReadingOf(v).value, ReadingOf(i).value, ReadingOf(t).value);
      for n := 0 to |order|
        invariant |calls| == n
        invariant forall j :: 0 <= j < n ==> calls[j] == Call(order[j], measurementCallbacks[order[j]], meas)
      {
        calls := calls + [Call(order[n], measurementCallbacks[order[n]], meas)];
      }
      return false, calls;
    }
  }

  // ---------- What holds over any run ----------

  /** A token can be handed out if and only if fewer than 2^32 - 1 are live; with that many the
      search for one would never end. */
  lemma TokenLeftIff(used: set<Token>)
    requires 0 !in used
    ensures (exists t: Token :: t != 0 && t !in used) <==> |used| < 4_294_967_295
  {
    var all: set<int> := UpTo(TOKENS - 1);
    if |used| < TOKENS - 1 {
      var t := FreeToken(used);
    } else if exists t: Token :: t != 0 && t !in used {
      var t: Token :| t != 0 && t !in used;
      SubsetSize(used, all - {t});
    }
  }

  /** The first token ever handed out is 1. */
  lemma FirstToken<C>(t: Token, cb: C)
    ensures Possible([Added(t, cb)]) <==> t == 1
  {
    var run := [Added(t, cb)];
    assert run[..0] == [];
    NextTokenCounted(0, {}, 1);
  }

  lemma {:induction false} LiveTokensNonzero<C>(run: seq<Op<C>>)
    requires Possible(run)
    ensures 0 !in LiveAfter(run)
  {
    if run != [] { LiveTokensNonzero(run[..|run| - 1]); }
  }

  lemma {:induction false} StaysLive<C>(run: seq<Op<C>>, i: nat)
    requires Possible(run) && i < |run| && run[i].Added?
    requires forall k :: i < k < |run| ==> run[k] != Removed(run[i].token)
    ensures run[i].token in LiveAfter(run) && LiveAfter(run)[run[i].token] == run[i].callback
  {
    var init := run[..|run| - 1];
    if i < |init| {
      assert init[i] == run[i];
      StaysLive(init, i);
    }
  }

  lemma {:induction false} PossiblePrefix<C>(run: seq<Op<C>>, n: nat)
    requires Possible(run) && n <= |run|
    ensures Possible(run[..n])
  {
    if n < |run| {
      assert run[..|run| - 1][..n] == run[..n];
      PossiblePrefix(run[..|run| - 1], n);
    } else {
      assert run[..n] == run;
    }
  }

  /** A token given out twice was removed in between: a callback keeps its token, and its token
      keeps meaning that callback, until the removal. */
  lemma TokenNotReused<C>(run: seq<Op<C>>, i: nat, j: nat)
    requires Possible(run) && i < j < |run|
    requires run[i].Added? && run[j].Added? && run[i].token == run[j].token
    ensures exists k :: i < k < j && run[k] == Removed(run[i].token)
  {
    var before := run[..j];
    PossiblePrefix(run, j);
    PossiblePrefix(run, j + 1);
    assert run[..j + 1][..j] == before;
    if forall k :: i < k < |before| ==> before[k] != Removed(before[i].token) {
      StaysLive(before, i);
    }
    var k :| i < k < |before| && before[k] == Removed(before[i].token);
    assert run[k] == before[k];
  }

  lemma AddThenRemove<C>(m: map<Token, C>, t: Token, cb: C)
    requires t !in m
    ensures m[t := cb] - {t} == m
  {}

  lemma LiveAfterRemoval<C>(run: seq<Op<C>>, t: Token)
    ensures LiveAfter(run + [Removed(t)]) == LiveAfter(run) - {t}
  {
    assert (run + [Removed(t)])[..|run|] == run;
  }

  lemma {:induction false} LiveWithout<C>(run: seq<Op<C>>, t: Token, cb: C, since: seq<Op<C>>)
    requires Possible(run + [Added(t, cb)] + since)
    requires forall k :: 0 <= k < |since| ==> since[k].token != t
    ensures t !in LiveAfter(run + since)
    ensures LiveAfter(run + [Added(t, cb)] + since) == LiveAfter(run + since)[t := cb]
  {
    var whole := run + [Added(t, cb)] + since;
    if since == [] {
      assert whole == run + [Added(t, cb)] && whole[..|whole| - 1] == run && run + since == run;
    } else {
      var init, last := since[..|since| - 1], since[|since| - 1];
      assert whole[..|whole| - 1] == run + [Added(t, cb)] + init;
      assert (run + since)[..|run + since| - 1] == run + init;
      LiveWithout(run, t, cb, init);
    }
  }

  /** Removing a token takes away its own callback and no other, however much was added and
      removed since it was handed out. */
  lemma RemovalUndoesAdd<C>(run: seq<Op<C>>, t: Token, cb: C, since: seq<Op<C>>)
    requires Possible(run + [Added(t, cb)] + since)
    requires forall k :: 0 <= k < |since| ==> since[k].token != t
    ensures LiveAfter(run + [Added(t, cb)] + since + [Removed(t)]) == LiveAfter(run + since)
  {
    hide LiveAfter, Possible;
    LiveWithout(run, t, cb, since);
    LiveAfterRemoval(run + [Added(t, cb)] + since, t);
    AddThenRemove(LiveAfter(run + since), t, cb);
  }
}
