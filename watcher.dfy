/**
 * The identity tracker (`Watcher` in watcher.py): a one-cell state machine that
 * suppresses unchanged updates and otherwise runs every rule, in configuration
 * order, against the old and new identity before committing the new one.
 */
module Watching {
  import opened Wrappers
  import opened RegexMatching
  import opened Rules

  /**
   * The indices below `n` of the rules that fire on `from` -> `to`, in
   * ascending (configuration) order.
   */
  function FiringIndices(config: seq<Rule>, from: Identity, to: Identity, n: nat): (ix: seq<nat>)
    requires n <= |config|
    ensures |ix| <= n
    ensures forall k :: 0 <= k < |ix| ==> ix[k] < n && config[ix[k]].Fires(from, to)
    ensures forall i :: 0 <= i < n && config[i].Fires(from, to) ==> i in ix
    ensures forall j, k :: 0 <= j < k < |ix| ==> ix[j] < ix[k]
  {
    if n == 0 then []
    else
      var prefix := FiringIndices(config, from, to, n - 1);
      if config[n - 1].Fires(from, to) then prefix + [n - 1] else prefix
  }

  /** The commands of the rules at the given indices, in that order. */
  function CommandsAt(config: seq<Rule>, ix: seq<nat>): seq<string>
    requires forall k :: 0 <= k < |ix| ==> ix[k] < |config|
  {
    seq(|ix|, k requires 0 <= k < |ix| => config[ix[k]].cmd)
  }

  /** The commands run by one evaluation pass of `config` over `from` -> `to`. */
  function FiredCommands(config: seq<Rule>, from: Identity, to: Identity): seq<string>
  {
    CommandsAt(config, FiringIndices(config, from, to, |config|))
  }

  /**
   * Specification of one `handle_update`: the new stored identity and the
   * commands run. An unchanged identity is a no-op.
   */
  function Step(config: seq<Rule>, current: Identity, update: Identity): (Identity, seq<string>)
  {
    if current == update then (current, [])
    else (update, FiredCommands(config, current, update))
  }

  /** A sequence of `handle_update` calls: the final identity and all commands run, oldest first. */
  function Trace(config: seq<Rule>, current: Identity, updates: seq<Identity>): (Identity, seq<string>)
    decreases |updates|
  {
    if updates == [] then (current, [])
    else
      var step := Step(config, current, updates[0]);
      var rest := Trace(config, step.0, updates[1..]);
      (rest.0, step.1 + rest.1)
  }

  class Watcher {
    const config: seq<Rule>
    var wName: Option<string>
    var wClass: Option<seq<string>>
    /** The commands run so far, oldest first (the record of `run_cmd` calls). */
    var ran: seq<string>

    /** The stored identity. */
    function Current(): Identity
      reads this
    {
      Identity(wName, wClass)
    }

    /** `Watcher.__init__`: the initial identity defaults to absent name and class. */
    constructor(config: seq<Rule>, wName: Option<string> := None, wClass: Option<seq<string>> := None)
      ensures this.config == config
      ensures Current() == Identity(wName, wClass)
      ensures ran == []
    {
      this.config := config;
      this.wName := wName;
      this.wClass := wClass;
      ran := [];
    }

    /** `Watcher.handle_update`. */
    method HandleUpdate(newName: Option<string>, newClass: Option<seq<string>>)
      modifies this
      ensures Current() == Step(config, old(Current()), Identity(newName, newClass)).0
      ensures ran == old(ran) + Step(config, old(Current()), Identity(newName, newClass)).1
    {
      var from := Current();
      var to := Identity(newName, newClass);
      if from == to {
        return;
      }
      var i := 0;
      while i < |config|
        invariant 0 <= i <= |config|
        invariant Current() == from
        invariant ran == old(ran) + CommandsAt(config, FiringIndices(config, from, to, i))
      {
        var r := config[i].HandleChange(Identity(wName, wClass), to);
        CommandsAtSnoc(config, FiringIndices(config, from, to, i), i);
        ran := ran + r;
        i := i + 1;
      }
      wName := newName;
      wClass := newClass;
    }
  }

  /** Appending one index appends that rule's command. */
  lemma CommandsAtSnoc(config: seq<Rule>, ix: seq<nat>, i: nat)
    requires forall k :: 0 <= k < |ix| ==> ix[k] < |config|
    requires i < |config|
    ensures CommandsAt(config, ix + [i]) == CommandsAt(config, ix) + [config[i].cmd]
  {
  }

  /**
   * Every non-suppressed update commits the new identity, whether or not a
   * rule fired; a suppressed one already holds it.
   */
  lemma StepCommitsUpdate(config: seq<Rule>, current: Identity, update: Identity)
    ensures Step(config, current, update).0 == update
    ensures current == update ==> Step(config, current, update).1 == []
  {
  }

  /** Delivering the same identity twice in a row fires nothing the second time. */
  lemma RepeatedUpdateFiresNothing(config: seq<Rule>, current: Identity, update: Identity)
    ensures var next := Step(config, current, update).0;
            Step(config, next, update) == (update, [])
  {
  }

  /**
   * On a changed update, each fired command belongs to a rule that fires on
   * (old, new), every firing rule contributes its command, and commands appear
   * in configuration order with each rule contributing at most once.
   */
  lemma FiredInConfigOrder(config: seq<Rule>, current: Identity, update: Identity)
    requires current != update
    ensures var ran := Step(config, current, update).1;
            var ix := FiringIndices(config, current, update, |config|);
            |ran| == |ix| <= |config| &&
            (forall k :: 0 <= k < |ran| ==> ran[k] == config[ix[k]].cmd && config[ix[k]].Fires(current, update)) &&
            (forall i :: 0 <= i < |config| && config[i].Fires(current, update) ==> i in ix) &&
            (forall j, k :: 0 <= j < k < |ix| ==> ix[j] < ix[k])
  {
  }

  /** Running two batches of updates is running the first and then the second from where it ended. */
  lemma {:induction false} TraceAppend(config: seq<Rule>, current: Identity, xs: seq<Identity>, ys: seq<Identity>)
    ensures var (mid, ran1) := Trace(config, current, xs);
            var (last, ran2) := Trace(config, mid, ys);
            Trace(config, current, xs + ys) == (last, ran1 + ran2)
    decreases |xs|
  {
    if xs == [] {
      assert xs + ys == ys;
      var ran2 := Trace(config, current, ys).1;
      assert [] + ran2 == ran2;
    } else {
      var (next, ran0) := Step(config, current, xs[0]);
      assert (xs + ys)[0] == xs[0];
      assert (xs + ys)[1..] == xs[1..] + ys;
      TraceAppend(config, next, xs[1..], ys);
      var (mid, ranRest) := Trace(config, next, xs[1..]);
      var (last, ran2) := Trace(config, mid, ys);
      calc {
        Trace(config, current, xs + ys);
        (Trace(config, next, xs[1..] + ys).0, ran0 + Trace(config, next, xs[1..] + ys).1);
        (last, ran0 + (ranRest + ran2));
        { assert ran0 + (ranRest + ran2) == (ran0 + ranRest) + ran2; }
        (last, (ran0 + ranRest) + ran2);
      }
    }
  }

  /** After any non-empty batch of updates the stored identity is the last one delivered. */
  lemma {:induction false} TraceEndsAtLastUpdate(config: seq<Rule>, current: Identity, updates: seq<Identity>)
    requires updates != []
    ensures Trace(config, current, updates).0 == updates[|updates| - 1]
    decreases |updates|
  {
    if |updates| > 1 {
      TraceEndsAtLastUpdate(config, Step(config, current, updates[0]).0, updates[1..]);
    }
  }

  /** A redundant delivery of an unchanged identity changes neither the final state nor the commands run. */
  lemma RedundantDeliveryIsNoOp(config: seq<Rule>, current: Identity, xs: seq<Identity>, u: Identity, ys: seq<Identity>)
    ensures Trace(config, current, xs + [u, u] + ys) == Trace(config, current, xs + [u] + ys)
  {
    var mid := Trace(config, current, xs).0;
    TraceAppend(config, current, xs, [u, u] + ys);
    TraceAppend(config, current, xs, [u] + ys);
    assert xs + [u, u] + ys == xs + ([u, u] + ys);
    assert xs + [u] + ys == xs + ([u] + ys);
    var s1 := Step(config, mid, u).0;
    assert ([u, u] + ys)[1..] == [u] + ys;
    assert ([u] + ys)[1..] == ys;
    assert s1 == u;
    var (last, rest) := Trace(config, u, ys);
    assert Trace(config, u, [u] + ys) == (last, [] + rest);
    assert [] + rest == rest;
  }

  /** The rule list of the daemon's entry point: hide the bar when the name becomes absent, show it when it returns. */
  function DefaultConfig(engine: PrefixEngine): (config: seq<Rule>)
    ensures |config| == 2
    ensures config[0].propType == Name && config[0].ruleType == OnMatch && config[0].regex.regex.None?
    ensures config[1].propType == Name && config[1].ruleType == StoppedMatching && config[1].regex.regex.None?
    ensures config[0].cmd == "polybar-msg cmd hide" && config[1].cmd == "polybar-msg cmd show"
  {
    [ NewRule(Name, OnMatch, None, "polybar-msg cmd hide", engine),
      NewRule(Name, StoppedMatching, None, "polybar-msg cmd show", engine) ]
  }

  /**
   * With the default rules, focus moving from a titled window to one whose
   * title is absent hides the bar, and moving on to a titled window shows it.
   */
  lemma DefaultConfigHidesAndShows(engine: PrefixEngine, first: string, firstClass: Option<seq<string>>,
                                   last: string, lastClass: Option<seq<string>>)
    ensures Trace(DefaultConfig(engine), Identity(Some(first), firstClass),
                  [Identity(None, None), Identity(Some(last), lastClass)])
         == (Identity(Some(last), lastClass), ["polybar-msg cmd hide", "polybar-msg cmd show"])
  {
    var config := DefaultConfig(engine);
    var a, b, c := Identity(Some(first), firstClass), Identity(None, None), Identity(Some(last), lastClass);
    AbsentPatternMatchesOnlyAbsence(None, engine, Some(first));
    AbsentPatternMatchesOnlyAbsence(None, engine, None);
    AbsentPatternMatchesOnlyAbsence(None, engine, Some(last));
    assert config[0].Fires(a, b) && !config[1].Fires(a, b);
    assert !config[0].Fires(b, c) && config[1].Fires(b, c);
    assert FiringIndices(config, a, b, 2) == [0];
    assert FiringIndices(config, b, c, 2) == [1];
    assert CommandsAt(config, [0]) == ["polybar-msg cmd hide"];
    assert CommandsAt(config, [1]) == ["polybar-msg cmd show"];
    assert [c][1..] == [] && [b, c][1..] == [c];
    assert Trace(config, b, [c]) == (c, ["polybar-msg cmd show"] + Trace(config, c, []).1);
    assert Trace(config, a, [b, c]).1 == ["polybar-msg cmd hide"] + ["polybar-msg cmd show"];
    assert ["polybar-msg cmd hide"] + ["polybar-msg cmd show"] == ["polybar-msg cmd hide", "polybar-msg cmd show"];
  }
}
