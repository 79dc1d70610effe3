/** `$.fn.select2list`: one SelectList per element, and method calls by name
    passed through to the instances already bound. */
module Dispatch {
  import opened Js
  import opened Seqs
  import opened OptionStore
  import opened Settings
  import opened Widget

  /** How the plugin is called: with an options object (or nothing), or
      with a method name followed by that method's arguments. */
  datatype Invocation = Construct(options: Option<Options>) | Call(name: string, args: seq<Value>)

  /** What the plugin call gives back: the jQuery set itself (for chaining),
      an array of `count` method results (each `undefined`), or an exception. */
  datatype Returned = Chain | Results(count: nat) | Threw(error: string)

  /** The names the instance's public object has as own methods. */
  predicate IsMethod(name: string) {
    name in {"redraw", "add", "select", "enable", "disable"}
  }

  /** The `i`-th argument, `undefined` when it was not passed. */
  function Arg(args: seq<Value>, i: nat): Value {
    if i < |args| then args[i] else Undefined
  }

  /** How many of `es` are bound. */
  function BoundCount(es: seq<SelectElement>, bound: set<SelectElement>): nat
  {
    if |es| == 0 then 0
    else BoundCount(es[..|es| - 1], bound) + (if es[|es| - 1] in bound then 1 else 0)
  }

  /** The elements of `es` that are not bound, in order. */
  function Unbound(es: seq<SelectElement>, bound: set<SelectElement>): seq<SelectElement>
  {
    if |es| == 0 then []
    else Unbound(es[..|es| - 1], bound) + (if es[|es| - 1] in bound then [] else [es[|es| - 1]])
  }

  /** The caller's options object after `$.extend(options, data)` has run
      for each of `es` in turn: every element's data is merged into the
      same object, a later element's data winning over earlier values. */
  function Accumulated(o: Options, es: seq<SelectElement>): Options
  {
    if |es| == 0 then o else Accumulated(o, es[..|es| - 1]) + es[|es| - 1].data
  }

  /** The options a newly bound element gets, `added` being the unbound
      elements met so far and the last of them the element itself. */
  function InstanceOptions(inv: Invocation, added: seq<SelectElement>): Options
    requires |added| > 0
  {
    if inv.Construct? && inv.options.Some? then Accumulated(inv.options.value, added)
    else added[|added| - 1].data
  }

  /** Every element of `added` has an instance built from its options. */
  ghost predicate BuiltFrom(m: map<SelectElement, SelectList>, added: seq<SelectElement>, inv: Invocation)
  {
    forall j | 0 <= j < |added| :: added[j] in m && m[added[j]].options == InstanceOptions(inv, added[..j + 1])
  }

  lemma BuiltFromExtend(m: map<SelectElement, SelectList>, added: seq<SelectElement>, inv: Invocation,
                        e: SelectElement, sl: SelectList)
    requires BuiltFrom(m, added, inv) && e !in m
    requires sl.options == InstanceOptions(inv, added + [e])
    ensures BuiltFrom(m[e := sl], added + [e], inv)
  {
    var added' := added + [e];
    forall j | 0 <= j < |added'|
      ensures added'[j] in m[e := sl] && m[e := sl][added'[j]].options == InstanceOptions(inv, added'[..j + 1])
    {
      if j < |added| {
        assert added'[..j + 1] == added[..j + 1];
        assert added'[j] == added[j] != e;
      } else {
        assert added'[..j + 1] == added';
      }
    }
  }

  lemma {:induction false} BoundCountPositive(es: seq<SelectElement>, bound: set<SelectElement>)
    ensures BoundCount(es, bound) > 0 <==> exists e | e in es :: e in bound
  {
    if |es| > 0 {
      var n := |es| - 1;
      BoundCountPositive(es[..n], bound);
      assert es == es[..n] + [es[n]];
      if es[n] !in bound {
        forall e | e in es && e in bound ensures e in es[..n] {
          var j :| 0 <= j < |es| && es[j] == e;
          assert j < n && es[..n][j] == e;
        }
      }
    }
  }

  /** What a call on the matched elements `es` returns, `bound` being
      those that already had an instance: an exception exactly when `add`
      reaches an instance, the jQuery set when a method name reaches no
      instance or options were passed, otherwise the array of results,
      one per instance that has the named method. */
  predicate ReturnsFor(es: seq<SelectElement>, bound: set<SelectElement>, inv: Invocation, r: Returned)
  {
    var count := BoundCount(es, bound);
    && (r.Threw? <==> inv.Call? && inv.name == "add" && count > 0)
    && (r.Chain? <==> inv.Construct? || count == 0)
    && (r.Results? ==> r.count == if IsMethod(inv.name) then count else 0)
  }

  /** The loop's bookkeeping after the prefix `es` of the matched elements:
      the results array so far (none until a string call reaches an
      instance), no `add` passed through yet, and the caller's options
      object with the data of each unbound element of `es` merged in. */
  ghost predicate Tally(es: seq<SelectElement>, bound: set<SelectElement>, inv: Invocation,
                        results: Option<nat>, merged: Options)
  {
    var count := BoundCount(es, bound);
    && results == (if inv.Call? && count > 0 then Some(if IsMethod(inv.name) then count else 0) else None)
    && (inv.Call? && inv.name == "add" ==> count == 0)
    && (inv.Construct? && inv.options.Some? ==> merged == Accumulated(inv.options.value, Unbound(es, bound)))
  }

  /** The instances `m` after the elements `es` were visited, starting from
      `m0`: every old binding kept, every element of `es` bound, and each
      new instance built from its options. */
  ghost predicate Grown(m0: map<SelectElement, SelectList>, m: map<SelectElement, SelectList>,
                        es: seq<SelectElement>, inv: Invocation)
  {
    && (forall e | e in m0 :: e in m && m[e] == m0[e])
    && m.Keys == m0.Keys + (set e | e in es)
    && BuiltFrom(m, Unbound(es, m0.Keys), inv)
  }

  /** The loop over the matched elements after the first `i` of them were
      visited without a throw: results and merged options tallied, bindings
      grown from `m0`. */
  ghost predicate Progress(m0: map<SelectElement, SelectList>, m: map<SelectElement, SelectList>,
                           es: seq<SelectElement>, i: nat, inv: Invocation, results: Option<nat>, merged: Options)
  {
    i <= |es| && Tally(es[..i], m0.Keys, inv, results, merged) && Grown(m0, m, es[..i], inv)
  }

  /** The visit stopped at `es[stop]`, an element that had an instance,
      after binding the elements before it. */
  ghost predicate StoppedAt(m0: map<SelectElement, SelectList>, m: map<SelectElement, SelectList>,
                            es: seq<SelectElement>, stop: int, inv: Invocation)
  {
    && 0 <= stop < |es|
    && es[stop] in m0
    && BoundCount(es[..stop], m0.Keys) == 0
    && Grown(m0, m, es[..stop], inv)
  }

  /** The next element has an instance exactly when it had one before the
      call: the elements are distinct. */
  lemma Lookup(m0: map<SelectElement, SelectList>, m: map<SelectElement, SelectList>,
               es: seq<SelectElement>, i: nat, inv: Invocation)
    requires Distinct(es) && i < |es| && Grown(m0, m, es[..i], inv)
    ensures es[i] in m <==> es[i] in m0
  {
    DistinctNotInPrefix(es, i);
  }

  /** Passing through to an instance counts one more result. */
  lemma VisitedBound(m0: map<SelectElement, SelectList>, m: map<SelectElement, SelectList>,
                     es: seq<SelectElement>, i: nat, inv: Invocation, results: Option<nat>, merged: Options)
    requires i < |es| && es[i] in m0 && !(inv.Call? && inv.name == "add")
    requires Tally(es[..i], m0.Keys, inv, results, merged) && Grown(m0, m, es[..i], inv)
    ensures Tally(es[..i + 1], m0.Keys, inv, if inv.Call? then Some(
        (if results.Some? then results.value else 0) + (if IsMethod(inv.name) then 1 else 0)) else results, merged)
    ensures Grown(m0, m, es[..i + 1], inv)
  {
    var e := es[i];
    assert es[..i + 1] == es[..i] + [e];
    assert es[..i + 1][..i] == es[..i];
    assert Unbound(es[..i + 1], m0.Keys) == Unbound(es[..i], m0.Keys);
    var longer, shorter := es[..i + 1], es[..i];
    assert (set x | x in longer) == (set x | x in shorter) + {e};
  }

  /** Binding a new instance merges the element's data and records the
      instance under the element. */
  lemma VisitedUnbound(m0: map<SelectElement, SelectList>, m: map<SelectElement, SelectList>,
                       es: seq<SelectElement>, i: nat, inv: Invocation, results: Option<nat>, merged: Options,
                       sl: SelectList)
    requires i < |es| && es[i] !in m
    requires Tally(es[..i], m0.Keys, inv, results, merged) && Grown(m0, m, es[..i], inv)
    requires sl.options == if inv.Construct? && inv.options.Some? then merged + es[i].data else es[i].data
    ensures Tally(es[..i + 1], m0.Keys, inv, results,
      if inv.Construct? && inv.options.Some? then merged + es[i].data else merged)
    ensures Grown(m0, m[es[i] := sl], es[..i + 1], inv)
  {
    UnboundStep(es, i, m0.Keys);
    TallyUnbound(es, i, m0.Keys, inv, results, merged);
    GrownUnbound(m0, m, es, i, inv, sl, Unbound(es[..i], m0.Keys));
  }

  lemma UnboundStep(es: seq<SelectElement>, i: nat, bound: set<SelectElement>)
    requires i < |es| && es[i] !in bound
    ensures Unbound(es[..i + 1], bound) == Unbound(es[..i], bound) + [es[i]]
    ensures BoundCount(es[..i + 1], bound) == BoundCount(es[..i], bound)
  {
    assert es[..i + 1][..i] == es[..i];
  }

  lemma TallyUnbound(es: seq<SelectElement>, i: nat, bound: set<SelectElement>, inv: Invocation,
                     results: Option<nat>, merged: Options)
    requires i < |es| && es[i] !in bound
    requires Unbound(es[..i + 1], bound) == Unbound(es[..i], bound) + [es[i]]
    requires BoundCount(es[..i + 1], bound) == BoundCount(es[..i], bound)
    requires Tally(es[..i], bound, inv, results, merged)
    ensures Tally(es[..i + 1], bound, inv, results,
      if inv.Construct? && inv.options.Some? then merged + es[i].data else merged)
  {
    var added := Unbound(es[..i], bound);
    assert (added + [es[i]])[..|added|] == added;
  }

  lemma GrownUnbound(m0: map<SelectElement, SelectList>, m: map<SelectElement, SelectList>,
                     es: seq<SelectElement>, i: nat, inv: Invocation, sl: SelectList, added: seq<SelectElement>)
    requires i < |es| && es[i] !in m && added == Unbound(es[..i], m0.Keys)
    requires Unbound(es[..i + 1], m0.Keys) == added + [es[i]]
    requires Grown(m0, m, es[..i], inv)
    requires sl.options == InstanceOptions(inv, added + [es[i]])
    ensures Grown(m0, m[es[i] := sl], es[..i + 1], inv)
  {
    var longer, shorter := es[..i + 1], es[..i];
    assert longer == shorter + [es[i]];
    assert (set x | x in longer) == (set x | x in shorter) + {es[i]};
    BuiltFromExtend(m, added, inv, es[i], sl);
  }

  /** After the last element, the bookkeeping gives the returned value. */
  lemma Finished(es: seq<SelectElement>, bound: set<SelectElement>, inv: Invocation,
                 results: Option<nat>, merged: Options)
    requires Tally(es, bound, inv, results, merged)
    ensures ReturnsFor(es, bound, inv, if results.Some? then Results(results.value) else Chain)
  {
  }

  /** `add` reaching the instance of `es[i]` ends the call with its exception. */
  lemma ThrewAt(es: seq<SelectElement>, i: nat, bound: set<SelectElement>, inv: Invocation,
                results: Option<nat>, merged: Options, error: string)
    requires i < |es| && es[i] in bound && inv.Call? && inv.name == "add"
    requires Tally(es[..i], bound, inv, results, merged)
    ensures ReturnsFor(es, bound, inv, Threw(error)) && BoundCount(es[..i], bound) == 0
  {
    BoundCountPositive(es, bound);
  }

  /** What running the method `name` with the positional arguments `args`
      does to the instance `sl`, between the state before the call and the
      state after it. */
  twostate predicate Effect(sl: SelectList, name: string, args: seq<Value>)
    reads sl, sl.element
  {
    var v := Arg(args, 0);
    && (name == "redraw" ==>
          && sl.snapshot == Parsed(sl.element.options) && sl.current == old(sl.current)
          && sl.element.options == old(sl.element.options) && sl.element.value == old(sl.element.value)
          && sl.events == old(sl.events) + [Rendered])
    && (name == "select" ==>
          && sl.element.options == old(sl.element.options)
          && (old(sl.Accepts(v)) ==>
                && sl.current == v && sl.element.value == v && sl.snapshot == Parsed(sl.element.options)
                && sl.events == old(sl.events) + [Rendered, ChangeTriggered(v)]
                     + (if sl.config.hasChange then [ChangeHandled(v, LabelOf(sl.snapshot, ToString(v)))] else []))
          && (!old(sl.Accepts(v)) ==>
                && sl.current == old(sl.current) && sl.element.value == old(sl.element.value)
                && sl.snapshot == old(sl.snapshot) && sl.events == old(sl.events)))
    && (name == "add" ==>
          && sl.element.options == old(sl.element.options) + [NewEntry(v, Arg(args, 1))]
          && sl.element.value == old(sl.element.value)
          && unchanged(sl))
    && (name == "enable" || name == "disable" ==>
          && sl.element.options == Toggled(old(sl.element.options), old(sl.snapshot), Targets(v, old(sl.snapshot)), name == "disable")
          && sl.element.value == old(sl.element.value) && sl.current == old(sl.current)
          && sl.snapshot == Parsed(sl.element.options) && sl.events == old(sl.events) + [Rendered])
  }

  /** Pass a call through to an instance: the named method runs with the
      positional arguments, missing ones being `undefined`. */
  method Invoke(sl: SelectList, name: string, args: seq<Value>) returns (outcome: Outcome)
    requires sl.Valid() && IsMethod(name)
    modifies sl, sl.element
    ensures sl.Valid()
    ensures outcome.Thrown? <==> name == "add"
    ensures Effect(sl, name, args)
  {
    outcome := Returned;
    if name == "redraw" {
      sl.Redraw();
    } else if name == "add" {
      outcome := sl.Add(Arg(args, 0), Arg(args, 1));
    } else if name == "select" {
      sl.Select(Arg(args, 0));
    } else if name == "enable" {
      sl.Enable(Arg(args, 0));
    } else {
      sl.Disable(Arg(args, 0));
    }
  }

  /** The pass-through for one element that already has an instance: a
      string call starts the results array (even when the name is unknown)
      and, for a method the instance has, runs it and pushes its result. */
  method PassThrough(sl: SelectList, inv: Invocation, results: Option<nat>) returns (results': Option<nat>, outcome: Outcome)
    requires sl.Valid()
    modifies sl, sl.element
    ensures sl.Valid()
    ensures outcome.Thrown? <==> inv.Call? && inv.name == "add"
    ensures results' == if inv.Call? then Some(
        (if results.Some? then results.value else 0) + (if IsMethod(inv.name) then 1 else 0)) else results
    ensures inv.Call? && IsMethod(inv.name) ==> Effect(sl, inv.name, inv.args)
    ensures (inv.Construct? || !IsMethod(inv.name)) ==> unchanged(sl, sl.element)
  {
    results', outcome := results, Returned;
    if inv.Call? {
      if results' == None {
        results' := Some(0);
      }
      if IsMethod(inv.name) {
        outcome := Invoke(sl, inv.name, inv.args);
        results' := Some(results'.value + 1);
      }
    }
  }

  /** A new instance for an element that has none, built from `options`. */
  method Bind(e: SelectElement, options: Options) returns (sl: SelectList)
    ensures fresh(sl) && sl.Valid() && sl.element == e && sl.options == options
    ensures sl.config == MakeConfig(options)
    ensures sl.current == e.value && sl.snapshot == Parsed(e.options) && sl.events == [Rendered]
  {
    sl := new SelectList(e, options);
  }

  /** The per-element instance storage (`.data('select2list.SelectList')`). */
  class Registry {
    var instances: map<SelectElement, SelectList>

    /** Every stored instance is bound to the element it is stored under. */
    ghost predicate Valid()
      reads this, instances.Keys, instances.Values
    {
      && (forall e | e in instances :: instances[e].element == e)
      && (forall sl | sl in instances.Values :: sl.Valid())
    }

    constructor ()
      ensures Valid() && instances == map[]
    {
      instances := map[];
    }

    /** The pass-through on an element that is bound already: only that
        element and its instance change, and every instance stays valid. */
    method VisitBound(e: SelectElement, inv: Invocation, results: Option<nat>) returns (results': Option<nat>, outcome: Outcome)
      requires Valid() && e in instances
      modifies e, instances[e]
      ensures Valid()
      ensures outcome.Thrown? <==> inv.Call? && inv.name == "add"
      ensures results' == if inv.Call? then Some(
          (if results.Some? then results.value else 0) + (if IsMethod(inv.name) then 1 else 0)) else results
      ensures inv.Call? && IsMethod(inv.name) ==> Effect(instances[e], inv.name, inv.args)
      ensures (inv.Construct? || !IsMethod(inv.name)) ==> unchanged(e, instances[e])
    {
      results', outcome := PassThrough(instances[e], inv, results);
    }

    /** A new instance for an element that has none, built from the options
        merged with its data; the other bindings stay as they are. */
    method VisitUnbound(e: SelectElement, inv: Invocation, merged: Options) returns (merged': Options)
      requires Valid() && e !in instances
      modifies this
      ensures Valid() && e in instances
      ensures instances == old(instances)[e := instances[e]]
      ensures fresh(instances[e])
      ensures instances[e].options == (if inv.Construct? && inv.options.Some? then merged + e.data else e.data)
      ensures merged' == (if inv.Construct? && inv.options.Some? then merged + e.data else merged)
      ensures instances[e].config == MakeConfig(instances[e].options)
      ensures instances[e].current == e.value && instances[e].snapshot == Parsed(e.options)
      ensures instances[e].events == [Rendered]
    {
      merged' := merged;
      var options := if inv.Construct? && inv.options.Some? then merged + e.data else map[] + e.data;
      assert map[] + e.data == e.data;
      if inv.Construct? && inv.options.Some? {
        merged' := options;
      }
      var sl := Bind(e, options);
      instances := instances[e := sl];
    }

    /** The body of `this.each` for one matched element `e`: a pass-through
        when `e` already has an instance, otherwise a new instance built
        from the options merged with `e`'s data. `merged` is the caller's
        options object as `$.extend` has left it so far. */
    method Visit(e: SelectElement, inv: Invocation, results: Option<nat>, merged: Options)
      returns (results': Option<nat>, merged': Options, outcome: Outcome)
      requires Valid()
      modifies this, if e in instances then {e, instances[e]} else {}
      ensures Valid()
      ensures e in instances
      ensures e in old(instances) ==>
        && instances == old(instances)
        && merged' == merged
        && (outcome.Thrown? <==> inv.Call? && inv.name == "add")
        && results' == (if inv.Call? then Some(
             (if results.Some? then results.value else 0) + (if IsMethod(inv.name) then 1 else 0)) else results)
      ensures e in old(instances) && inv.Call? && IsMethod(inv.name) ==> Effect(instances[e], inv.name, inv.args)
      ensures (inv.Construct? || !IsMethod(inv.name)) ==>
        forall x | x in old(instances) :: unchanged(x, old(instances)[x])
      ensures e !in old(instances) ==>
        && instances == old(instances)[e := instances[e]]
        && fresh(instances[e])
        && outcome == Returned && results' == results
        && instances[e].options == (if inv.Construct? && inv.options.Some? then merged + e.data else e.data)
        && merged' == (if inv.Construct? && inv.options.Some? then merged + e.data else merged)
        && instances[e].config == MakeConfig(instances[e].options)
        && instances[e].current == e.value && instances[e].snapshot == Parsed(e.options)
        && instances[e].events == [Rendered]
    {
      if e in instances {
        merged' := merged;
        results', outcome := VisitBound(e, inv, results);
      } else {
        results', outcome := results, Returned;
        merged' := VisitUnbound(e, inv, merged);
      }
    }

    /** One turn of the loop over the matched elements: visit `elements[i]`
        and account for it in the tally and in the bindings grown from `m0`. */
    method Step(ghost m0: map<SelectElement, SelectList>, elements: seq<SelectElement>, i: nat, inv: Invocation,
                results: Option<nat>, merged: Options)
      returns (results': Option<nat>, merged': Options, outcome: Outcome)
      requires Valid() && Distinct(elements) && i < |elements|
      requires Progress(m0, instances, elements, i, inv, results, merged)
      modifies this, elements[i], if elements[i] in instances then {instances[elements[i]]} else {}
      ensures Valid()
      ensures outcome.Thrown? ==>
        StoppedAt(m0, instances, elements, i, inv) && ReturnsFor(elements, m0.Keys, inv, Threw(outcome.error))
      ensures !outcome.Thrown? ==> Progress(m0, instances, elements, i + 1, inv, results', merged')
    {
      var e := elements[i];
      Lookup(m0, instances, elements, i, inv);
      ghost var before := instances;
      results', merged', outcome := Visit(e, inv, results, merged);
      if outcome.Thrown? {
        ThrewAt(elements, i, m0.Keys, inv, results, merged, outcome.error);
        assert StoppedAt(m0, instances, elements, i, inv);
      } else if e in before {
        VisitedBound(m0, instances, elements, i, inv, results, merged);
      } else {
        VisitedUnbound(m0, before, elements, i, inv, results, merged, instances[e]);
      }
    }

    /** One call of the plugin on the matched elements `elements`. */
    method Dispatch(elements: seq<SelectElement>, inv: Invocation) returns (r: Returned)
      requires Valid()
      requires Distinct(elements)
      modifies this, set e | e in elements, set e | e in elements && e in instances :: instances[e]
      ensures Valid()
      ensures !r.Threw? ==> Grown(old(instances), instances, elements, inv)
      ensures r.Threw? ==> exists stop :: StoppedAt(old(instances), instances, elements, stop, inv)
      ensures ReturnsFor(elements, old(instances.Keys), inv, r)
    {
      ghost var m0 := instances;
      var results: Option<nat> := None;
      var merged := if inv.Construct? && inv.options.Some? then inv.options.value else map[];
      var i := 0;
      while i < |elements|
        invariant Valid()
        invariant Progress(m0, instances, elements, i, inv, results, merged)
      {
        assert Grown(m0, instances, elements[..i], inv);
        Lookup(m0, instances, elements, i, inv);
        var outcome;
        results, merged, outcome := Step(m0, elements, i, inv, results, merged);
        if outcome.Thrown? {
          return Threw(outcome.error);
        }
        i := i + 1;
      }
      assert elements[..|elements|] == elements;
      r := if results.Some? then Results(results.value) else Chain;
      Finished(elements, m0.Keys, inv, results, merged);
    }
  }
}
