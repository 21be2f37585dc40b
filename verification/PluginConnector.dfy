/** `PluginConnector`: who is notified or asked for a checkpoint, when, and in which order. */
module PluginConnector {
  import opened Wrappers
  import opened RunLoop

  /** A pointer to a plugin; what the plugin does with a call is its own affair. */
  datatype Plugin = Plugin(id: nat)

  datatype Entry = Entry(plugin: Plugin, period: nat)

  datatype Call = Call(plugin: Plugin, step: nat)

  predicate Periods(list: seq<Entry>) {
    forall i :: 0 <= i < |list| ==> list[i].period > 0
  }

  /** One pass over the first `n` entries: a call for each entry that is due, in list order. */
  function Pass(list: seq<Entry>, n: nat, step: nat): seq<Call>
    requires Periods(list) && n <= |list|
  {
    if n == 0 then []
    else if step % list[n - 1].period == 0 then Pass(list, n - 1, step) + [Call(list[n - 1].plugin, step)]
    else Pass(list, n - 1, step)
  }

  /** When every entry is due, a pass calls every one of them, in list order. */
  lemma {:induction false} PassInOrder(list: seq<Entry>, n: nat, step: nat)
    requires Periods(list) && n <= |list| && forall i :: 0 <= i < n ==> step % list[i].period == 0
    ensures |Pass(list, n, step)| == n
    ensures forall i :: 0 <= i < n ==> Pass(list, n, step)[i] == Call(list[i].plugin, step)
  {
    if n > 0 {
      PassInOrder(list, n - 1, step);
    }
  }

  /** One pass per step. */
  function Passes(list: seq<Entry>, steps: seq<nat>): seq<Call>
    requires Periods(list)
  {
    if steps == [] then [] else Passes(list, steps[..|steps| - 1]) + Pass(list, |list|, steps[|steps| - 1])
  }

  /** The steps at which one object was called. */
  function StepsOf(o: Plugin, calls: seq<Call>): seq<nat> {
    if calls == [] then []
    else
      var last := calls[|calls| - 1];
      StepsOf(o, calls[..|calls| - 1]) + if last.plugin == o then [last.step] else []
  }

  lemma StepsOfOneMore(o: Plugin, calls: seq<Call>, c: Call)
    ensures StepsOf(o, calls + [c]) == StepsOf(o, calls) + if c.plugin == o then [c.step] else []
  {
    assert (calls + [c])[..|calls|] == calls;
  }

  lemma {:induction false} StepsOfAppend(o: Plugin, a: seq<Call>, b: seq<Call>)
    ensures StepsOf(o, a + b) == StepsOf(o, a) + StepsOf(o, b)
  {
    if b == [] {
      assert a + b == a;
    } else {
      assert (a + b)[..|a + b| - 1] == a + b[..|b| - 1];
      StepsOfAppend(o, a, b[..|b| - 1]);
    }
  }

  lemma {:induction false} PassesAppend(list: seq<Entry>, a: seq<nat>, b: seq<nat>)
    requires Periods(list)
    ensures Passes(list, a + b) == Passes(list, a) + Passes(list, b)
  {
    if b == [] {
      assert a + b == a;
    } else {
      assert (a + b)[..|a + b| - 1] == a + b[..|b| - 1];
      PassesAppend(list, a, b[..|b| - 1]);
    }
  }

  /** `o` is registered once, as entry `k`. */
  ghost predicate OnlyEntry(list: seq<Entry>, o: Plugin, k: nat) {
    k < |list| && list[k].plugin == o && forall i :: 0 <= i < |list| && i != k ==> list[i].plugin != o
  }

  lemma {:induction false} OnlyEntryPass(list: seq<Entry>, n: nat, o: Plugin, k: nat, step: nat)
    requires Periods(list) && OnlyEntry(list, o, k) && n <= |list|
    ensures StepsOf(o, Pass(list, n, step)) == if k < n && step % list[k].period == 0 then [step] else []
  {
    if n > 0 {
      var before, e := Pass(list, n - 1, step), list[n - 1];
      OnlyEntryPass(list, n - 1, o, k, step);
      if step % e.period == 0 {
        assert Pass(list, n, step) == before + [Call(e.plugin, step)];
        StepsOfOneMore(o, before, Call(e.plugin, step));
      } else {
        assert Pass(list, n, step) == before;
      }
    }
  }

  lemma {:induction false} OnlyEntryPasses(list: seq<Entry>, o: Plugin, k: nat, steps: seq<nat>)
    requires Periods(list) && OnlyEntry(list, o, k)
    ensures StepsOf(o, Passes(list, steps)) == Due(list[k].period, steps)
  {
    if steps != [] {
      var n := |steps| - 1;
      OnlyEntryPasses(list, o, k, steps[..n]);
      OnlyEntryPass(list, |list|, o, k, steps[n]);
      StepsOfAppend(o, Passes(list, steps[..n]), Pass(list, |list|, steps[n]));
    }
  }

  /** An object registered once is notified, over a whole fresh run, at the multiples of its period and no others. */
  lemma NotifiedAtMultiples(list: seq<Entry>, o: Plugin, k: nat, runSteps: nat)
    requires Periods(list) && OnlyEntry(list, o, k)
    ensures StepsOf(o, Passes(list, Dumped(FreshTrace(runSteps)))) == Multiples(list[k].period, runSteps)
  {
    FreshSteps(runSteps);
    OnlyEntryPasses(list, o, k, Range(0, runSteps + 1));
    DueInRange(list[k].period, runSteps);
  }

  /** Stopping and restarting loses, repeats and reorders no notification, however often objects are registered. */
  lemma NotificationsSurviveRestart(list: seq<Entry>, stop: nat, runSteps: nat)
    requires Periods(list) && stop <= runSteps
    ensures Passes(list, Dumped(FreshTrace(stop))) + Passes(list, Dumped(RestartTrace(stop, runSteps)))
         == Passes(list, Dumped(FreshTrace(runSteps)))
  {
    PassesAppend(list, Dumped(FreshTrace(stop)), Dumped(RestartTrace(stop, runSteps)));
    TraceAppend(FreshTrace(stop), RestartTrace(stop, runSteps));
    RestartIsSeamless(stop, runSteps);
    FreshSteps(runSteps);
  }

  /** The plugins as entries of one common period. */
  function WithPeriod(plugins: seq<Plugin>, period: nat): (list: seq<Entry>)
    requires period > 0
    ensures Periods(list) && |list| == |plugins|
    ensures forall i :: 0 <= i < |list| ==> list[i] == Entry(plugins[i], period)
  {
    seq(|plugins|, i requires 0 <= i < |plugins| => Entry(plugins[i], period))
  }

  lemma {:induction false} CommonPeriod(plugins: seq<Plugin>, period: nat, n: nat, step: nat)
    requires period > 0 && n <= |plugins|
    ensures Pass(WithPeriod(plugins, period), n, step)
         == if step % period == 0 then Pass(WithPeriod(plugins, 1), n, step) else []
  {
    if n > 0 {
      CommonPeriod(plugins, period, n - 1, step);
    }
  }

  /** The "last" field of every object holds its newest call; objects never called keep zero. */
  ghost predicate Recorded(last: map<Plugin, nat>, calls: seq<Call>) {
    forall o :: LastOf(last, o) == if StepsOf(o, calls) == [] then 0 else StepsOf(o, calls)[|StepsOf(o, calls)| - 1]
  }

  function LastOf(last: map<Plugin, nat>, o: Plugin): nat {
    if o in last then last[o] else 0
  }

  lemma RecordOneMore(last: map<Plugin, nat>, calls: seq<Call>, o: Plugin, step: nat)
    requires Recorded(last, calls)
    ensures Recorded(last[o := step], calls + [Call(o, step)])
  {
    var last', calls' := last[o := step], calls + [Call(o, step)];
    forall x
      ensures LastOf(last', x) == if StepsOf(x, calls') == [] then 0 else StepsOf(x, calls')[|StepsOf(x, calls')| - 1]
    {
      StepsOfOneMore(x, calls, Call(o, step));
      assert LastOf(last, x) == if StepsOf(x, calls) == [] then 0 else StepsOf(x, calls)[|StepsOf(x, calls)| - 1];
    }
  }

  class Connector {
    var plugins: seq<Plugin>
    var notificationList: seq<Entry>
    /** The `notify` calls made so far, and each object's `lastNotify`. */
    var notices: seq<Call>
    var lastNotify: map<Plugin, nat>
    /** The same for `checkpoint`. */
    var saves: seq<Call>
    var lastCheckpoint: map<Plugin, nat>

    ghost predicate Valid()
      reads this
    {
      Periods(notificationList) && Recorded(lastNotify, notices) && Recorded(lastCheckpoint, saves)
    }

    constructor ()
      ensures Valid() && plugins == [] && notificationList == [] && notices == [] && saves == []
    {
      plugins, notificationList, notices, saves, lastNotify, lastCheckpoint := [], [], [], [], map[], map[];
    }

    /** A null plugin is refused. */
    method RegisterPlugin(plugin: Option<Plugin>) returns (ok: bool)
      requires Valid()
      modifies this`plugins
      ensures Valid() && ok == plugin.Some?
      ensures plugins == if plugin.None? then old(plugins) else old(plugins) + [plugin.value]
    {
      if plugin.Some? {
        plugins := plugins + [plugin.value];
      }
      ok := plugin.Some?;
    }

    /** A null object is refused; a zero period is accepted and means never. */
    method SetNotificationPeriod(notified: Option<Plugin>, period: nat) returns (ok: bool)
      requires Valid()
      modifies this`notificationList
      ensures Valid() && ok == notified.Some?
      ensures notificationList == if notified.None? || period == 0 then old(notificationList)
                                  else old(notificationList) + [Entry(notified.value, period)]
    {
      if notified.Some? && period > 0 {
        notificationList := notificationList + [Entry(notified.value, period)];
      }
      ok := notified.Some?;
    }

    method NotifyPlugins(step: nat)
      requires Valid()
      modifies this`notices, this`lastNotify
      ensures Valid() && notices == old(notices) + Pass(notificationList, |notificationList|, step)
    {
      var i := 0;
      while i < |notificationList|
        invariant 0 <= i <= |notificationList|
        invariant Valid() && notices == old(notices) + Pass(notificationList, i, step)
      {
        var notified, period := notificationList[i].plugin, notificationList[i].period;
        if step % period == 0 {
          RecordOneMore(lastNotify, notices, notified, step);
          notices := notices + [Call(notified, step)];
          lastNotify := lastNotify[notified := step];
        }
        i := i + 1;
      }
    }

    method CheckpointPlugins(step: nat)
      requires Valid()
      modifies this`saves, this`lastCheckpoint
      ensures Valid() && saves == old(saves) + Pass(WithPeriod(plugins, 1), |plugins|, step)
    {
      var i := 0;
      while i < |plugins|
        invariant 0 <= i <= |plugins|
        invariant Valid() && saves == old(saves) + Pass(WithPeriod(plugins, 1), i, step)
      {
        RecordOneMore(lastCheckpoint, saves, plugins[i], step);
        saves := saves + [Call(plugins[i], step)];
        lastCheckpoint := lastCheckpoint[plugins[i] := step];
        i := i + 1;
      }
    }
  }
}
