/** `CommunicatorMPI::updateHostRank` as a message protocol between rank 0 and all other ranks, and the choice of a
    device by host rank. A blocking `MPI_Send` may return early (eager) or only together with its receive. */
module HostRank {
  import opened Arith
  import opened Wrappers

  predicate NameChar(c: char) {
    'A' <= c <= 'Z' || 'a' <= c <= 'z' || '0' <= c <= '9' || c == '_' || c == '-'
  }

  /** `cleanHostname`: cut at the first character that is not part of a name. */
  function Clean(name: string): (r: string)
    ensures r <= name && (forall i :: 0 <= i < |r| ==> NameChar(r[i])) && (|r| < |name| ==> !NameChar(name[|r|]))
  {
    if name == [] || !NameChar(name[0]) then [] else [name[0]] + Clean(name[1..])
  }

  /** The characters of a name, one by one. */
  lemma NameCharsAre(c: char)
    ensures NameChar(c) <==>
              c in "ABCDEFGHIJKLMNOPQRSTUVWXYZ" || c in "abcdefghijklmnopqrstuvwxyz" || c in "0123456789" || c in "_-"
  {
    LetterIn("ABCDEFGHIJKLMNOPQRSTUVWXYZ", 'A', c);
    LetterIn("abcdefghijklmnopqrstuvwxyz", 'a', c);
    LetterIn("0123456789", '0', c);
    assert "_-"[0] == '_' && "_-"[1] == '-';
  }

  lemma LetterIn(s: string, first: char, c: char)
    requires |s| <= 26 && forall i :: 0 <= i < |s| ==> s[i] as int == first as int + i
    ensures c in s <==> first as int <= c as int < first as int + |s|
  {
    if first as int <= c as int < first as int + |s| {
      assert s[c as int - first as int] == c;
    }
  }

  /** Everything up to the first other character is kept. */
  lemma {:induction false} CleanKeeps(name: string, rest: string)
    requires forall i :: 0 <= i < |name| ==> NameChar(name[i])
    requires rest == [] || !NameChar(rest[0])
    ensures Clean(name + rest) == name
  {
    if name == [] {
      assert name + rest == rest;
    } else {
      assert (name + rest)[1..] == name[1..] + rest;
      CleanKeeps(name[1..], rest);
    }
  }

  /** How many of the first `n` ranks run on `host`. */
  function Count(names: seq<string>, n: nat, host: string): nat
    requires n <= |names|
  {
    if n == 0 then 0 else Count(names, n - 1, host) + if names[n - 1] == host then 1 else 0
  }

  datatype Master =
    | Receiving(rank: nat)
    | Sending(rank: nat, hostname: string, hostrank: int)
    | Done

  datatype Worker = AtSend | AtReceive | Finished(hostRank: int)

  /** `inbox[w]` and `outbox[w]` hold a message under way between worker `w` and the master. */
  datatype State = State(master: Master, hosts: map<string, int>, workers: seq<Worker>,
                         inbox: seq<Option<string>>, outbox: seq<Option<int>>)

  datatype Action =
    | EagerSend(w: nat)        // a worker's send returns before the master receives
    | JointSend(w: nat)        // a worker's send meets the master's receive
    | MasterReceive(w: nat)    // the master receives a message under way
    | EagerReply(w: nat)       // the master's send returns before the worker receives
    | JointReply(w: nat)       // the master's send meets the worker's receive
    | WorkerReceive(w: nat)    // a worker receives a message under way

  function Start(names: seq<string>): State
    requires |names| > 0
  {
    State(if |names| == 1 then Done else Receiving(1), map[names[0] := 0], seq(|names|, w => AtSend),
          seq(|names|, w => None), seq(|names|, w => None))
  }

  /** The master's work on a received hostname. */
  function Answer(hosts: map<string, int>, rank: nat, hostname: string): Master {
    Sending(rank, hostname, if hostname in hosts then hosts[hostname] + 1 else 0)
  }

  function NextRank(names: seq<string>, rank: nat): Master {
    if rank + 1 < |names| then Receiving(rank + 1) else Done
  }

  predicate WellFormed(names: seq<string>, s: State) {
    |names| == |s.workers| == |s.inbox| == |s.outbox| && |names| > 0
  }

  predicate Enabled(names: seq<string>, s: State, a: Action)
    requires WellFormed(names, s)
  {
    && 0 < a.w < |names|
    && match a
       case EagerSend(w) => s.workers[w] == AtSend
       case JointSend(w) => s.workers[w] == AtSend && s.master == Receiving(w)
       case MasterReceive(w) => s.master == Receiving(w) && s.inbox[w].Some?
       case EagerReply(w) => s.master.Sending? && s.master.rank == w
       case JointReply(w) => s.master.Sending? && s.master.rank == w && s.workers[w] == AtReceive
       case WorkerReceive(w) => s.workers[w] == AtReceive && s.outbox[w].Some?
  }

  function Apply(names: seq<string>, s: State, a: Action): State
    requires WellFormed(names, s) && Enabled(names, s, a)
  {
    var w := a.w;
    match a
    case EagerSend(_) => s.(workers := s.workers[w := AtReceive], inbox := s.inbox[w := Some(names[w])])
    case JointSend(_) => s.(workers := s.workers[w := AtReceive], master := Answer(s.hosts, w, names[w]))
    case MasterReceive(_) => s.(inbox := s.inbox[w := None], master := Answer(s.hosts, w, s.inbox[w].value))
    case EagerReply(_) =>
      s.(outbox := s.outbox[w := Some(s.master.hostrank)],
         hosts := s.hosts[s.master.hostname := s.master.hostrank], master := NextRank(names, w))
    case JointReply(_) =>
      s.(workers := s.workers[w := Finished(s.master.hostrank)],
         hosts := s.hosts[s.master.hostname := s.master.hostrank], master := NextRank(names, w))
    case WorkerReceive(_) => s.(workers := s.workers[w := Finished(s.outbox[w].value)], outbox := s.outbox[w := None])
  }

  // ----- invariant

  /** The ranks below this one have been served. */
  function Served(names: seq<string>, m: Master): nat {
    match m
    case Receiving(r) => r
    case Sending(r, _, _) => r
    case Done => |names|
  }

  ghost predicate HostsRight(names: seq<string>, hosts: map<string, int>, served: nat)
    requires served <= |names|
  {
    forall h ::
      && (h in hosts <==> Count(names, served, h) > 0)
      && (h in hosts ==> hosts[h] == Count(names, served, h) - 1)
  }

  ghost predicate WorkerRight(names: seq<string>, s: State, w: nat)
    requires WellFormed(names, s) && w < |names|
  {
    var mine := Count(names, w, names[w]);
    var served := Served(names, s.master);
    if w < served then
      s.inbox[w] == None
      && (|| (s.workers[w] == AtReceive && s.outbox[w] == Some(mine))
          || (s.workers[w] == Finished(mine) && s.outbox[w] == None))
    else
      s.outbox[w] == None
      && if w == served && s.master.Sending? then s.workers[w] == AtReceive && s.inbox[w] == None
         else
           || (s.workers[w] == AtSend && s.inbox[w] == None)
           || (s.workers[w] == AtReceive && s.inbox[w] == Some(names[w]))
  }

  ghost predicate Inv(names: seq<string>, s: State) {
    && WellFormed(names, s)
    && 1 <= Served(names, s.master) <= |names| && (!s.master.Done? ==> s.master.rank < |names|)
    && HostsRight(names, s.hosts, Served(names, s.master))
    && (s.master.Sending? ==> s.master.hostname == names[s.master.rank]
                              && s.master.hostrank == Count(names, s.master.rank, names[s.master.rank]))
    && forall w :: 0 < w < |names| ==> WorkerRight(names, s, w)
  }

  lemma StartHasInv(names: seq<string>)
    requires |names| > 0
    ensures Inv(names, Start(names))
  {
    assert forall h :: Count(names, 1, h) == if names[0] == h then 1 else 0;
  }

  lemma ReplyKeepsHosts(names: seq<string>, hosts: map<string, int>, rank: nat)
    requires rank < |names| && HostsRight(names, hosts, rank)
    ensures HostsRight(names, hosts[names[rank] := Count(names, rank, names[rank])], rank + 1)
  {
  }

  lemma StepKeepsInv(names: seq<string>, s: State, a: Action)
    requires Inv(names, s) && Enabled(names, s, a)
    ensures Inv(names, Apply(names, s, a))
  {
    var s' := Apply(names, s, a);
    assert WorkerRight(names, s, a.w);
    if a.EagerReply? || a.JointReply? {
      ReplyKeepsHosts(names, s.hosts, a.w);
    }
    forall w | 0 < w < |names|
      ensures WorkerRight(names, s', w)
    {
      assert WorkerRight(names, s, w);
    }
  }

  // ----- runs

  /** A run: the actions in the order in which they happen. */
  ghost predicate IsRun(names: seq<string>, states: seq<State>, actions: seq<Action>)
    requires |names| > 0
  {
    && |states| == |actions| + 1 && states[0] == Start(names)
    && forall j :: 0 <= j < |actions| ==>
         && WellFormed(names, states[j]) && Enabled(names, states[j], actions[j])
         && states[j + 1] == Apply(names, states[j], actions[j])
  }

  lemma {:induction false} RunKeepsInv(names: seq<string>, states: seq<State>, actions: seq<Action>, j: nat)
    requires |names| > 0 && IsRun(names, states, actions) && j < |states|
    ensures Inv(names, states[j])
  {
    if j == 0 {
      StartHasInv(names);
    } else {
      RunKeepsInv(names, states, actions, j - 1);
      StepKeepsInv(names, states[j - 1], actions[j - 1]);
    }
  }

  predicate Complete(names: seq<string>, s: State)
    requires WellFormed(names, s)
  {
    s.master.Done? && forall w :: 0 < w < |names| ==> s.workers[w].Finished?
  }

  /** An action that needs no buffering by the MPI library. */
  predicate Unbuffered(a: Action) {
    !a.EagerSend? && !a.EagerReply?
  }

  /** No deadlock, even if no send ever returns early. */
  lemma NoDeadlock(names: seq<string>, s: State)
    requires Inv(names, s) && !Complete(names, s)
    ensures exists a :: Unbuffered(a) && !a.EagerSend? && !a.EagerReply? && Enabled(names, s, a)
  {
    match s.master
    case Receiving(r) =>
      assert WorkerRight(names, s, r);
      assert Enabled(names, s, JointSend(r)) || Enabled(names, s, MasterReceive(r));
    case Sending(r, _, _) =>
      assert WorkerRight(names, s, r);
      assert Enabled(names, s, JointReply(r));
    case Done =>
      var w :| 0 < w < |names| && !s.workers[w].Finished?;
      assert WorkerRight(names, s, w);
      assert Enabled(names, s, WorkerReceive(w));
  }

  function WorkerWork(w: Worker): nat {
    match w
    case AtSend => 2
    case AtReceive => 1
    case Finished(_) => 0
  }

  function WorkersWork(workers: seq<Worker>): nat {
    if workers == [] then 0 else WorkersWork(workers[..|workers| - 1]) + WorkerWork(workers[|workers| - 1])
  }

  function RemainingWork(names: seq<string>, s: State): int {
    WorkersWork(s.workers) + 2 * (|names| - Served(names, s.master)) - if s.master.Sending? then 1 else 0
  }

  lemma {:induction false} WorkersWorkUpdate(workers: seq<Worker>, w: nat, worker: Worker)
    requires w < |workers|
    ensures WorkersWork(workers[w := worker]) == WorkersWork(workers) - WorkerWork(workers[w]) + WorkerWork(worker)
  {
    var last := |workers| - 1;
    if w < last {
      assert workers[w := worker][..last] == workers[..last][w := worker];
      WorkersWorkUpdate(workers[..last], w, worker);
    } else {
      assert workers[w := worker][..last] == workers[..last];
    }
  }

  lemma StepUsesWork(names: seq<string>, s: State, a: Action)
    requires Inv(names, s) && Enabled(names, s, a)
    ensures 0 <= RemainingWork(names, Apply(names, s, a)) < RemainingWork(names, s)
  {
    StepKeepsInv(names, s, a);
    assert WorkerRight(names, s, a.w);
    WorkersWorkUpdate(s.workers, a.w, Apply(names, s, a).workers[a.w]);
    if a.EagerReply? || a.MasterReceive? {
      assert Apply(names, s, a).workers == s.workers;
    }
  }

  lemma {:induction false} RunIsBounded(names: seq<string>, states: seq<State>, actions: seq<Action>, j: nat)
    requires |names| > 0 && IsRun(names, states, actions) && j < |states|
    ensures 0 <= RemainingWork(names, states[j]) <= RemainingWork(names, Start(names)) - j
  {
    if j > 0 {
      RunIsBounded(names, states, actions, j - 1);
      RunKeepsInv(names, states, actions, j - 1);
      StepUsesWork(names, states[j - 1], actions[j - 1]);
    } else {
      StartHasInv(names);
    }
  }

  /** Every interleaving ends, never blocks, and gives every rank the number of lower ranks on its host. */
  lemma HostRanksAreRight(names: seq<string>, states: seq<State>, actions: seq<Action>)
    requires |names| > 0 && IsRun(names, states, actions)
    ensures var s := states[|actions|];
            && WellFormed(names, s)
            && |actions| <= RemainingWork(names, Start(names))
            && (Complete(names, s) <==> !exists a :: Unbuffered(a) && Enabled(names, s, a))
            && (Complete(names, s) ==>
                  forall w :: 0 < w < |names| ==> s.workers[w] == Finished(Count(names, w, names[w])))
  {
    RunKeepsInv(names, states, actions, |actions|);
    RunIsBounded(names, states, actions, |actions|);
    var s := states[|actions|];
    if !Complete(names, s) {
      NoDeadlock(names, s);
    } else {
      forall w | 0 < w < |names|
        ensures s.workers[w] == Finished(Count(names, w, names[w]))
      {
        assert WorkerRight(names, s, w);
      }
      forall a | Unbuffered(a)
        ensures !Enabled(names, s, a)
      {
        if 0 < a.w < |names| {
          assert WorkerRight(names, s, a.w);
        }
      }
    }
  }

  // ----- processor names

  function Hostnames(processors: seq<string>): (names: seq<string>)
    ensures |names| == |processors| && forall r :: 0 <= r < |names| ==> names[r] == Clean(processors[r])
  {
    seq(|processors|, r requires 0 <= r < |processors| => Clean(processors[r]))
  }

  lemma {:induction false} CountIsNumber(names: seq<string>, n: nat, host: string)
    requires n <= |names|
    ensures Count(names, n, host) == |set r: nat | r < n && names[r] == host|
  {
    if n > 0 {
      CountIsNumber(names, n - 1, host);
      var before := set r: nat | r < n - 1 && names[r] == host;
      var all := set r: nat | r < n && names[r] == host;
      assert all == if names[n - 1] == host then before + {n - 1} else before;
    }
  }

  /** A completed run gives every rank the number of lower ranks whose cleaned processor names equal its own. */
  lemma HostRanksOfProcessors(processors: seq<string>, states: seq<State>, actions: seq<Action>, w: nat)
    requires 0 < w < |processors| && IsRun(Hostnames(processors), states, actions)
    requires WellFormed(Hostnames(processors), states[|actions|])
    requires Complete(Hostnames(processors), states[|actions|])
    ensures states[|actions|].workers[w]
         == Finished(|set r: nat | r < w && Clean(processors[r]) == Clean(processors[w])|)
  {
    var names := Hostnames(processors);
    HostRanksAreRight(names, states, actions);
    CountIsNumber(names, w, names[w]);
    assert (set r: nat | r < w && names[r] == names[w])
        == (set r: nat | r < w && Clean(processors[r]) == Clean(processors[w]));
  }

  // ----- devices

  /** The device probed in round `k`. */
  function Probed(index: nat, k: nat, devices: nat): nat
    requires devices > 0
  {
    (index + k) % devices
  }

  /** `DeviceManager::init`: probe the devices cyclically from the given index; `usable[d]` says whether opening
      device `d` succeeds. `None` is the exception at the end. */
  method SelectDevice(index: nat, usable: seq<bool>) returns (device: Option<nat>)
    ensures device.Some? ==> device.value < |usable| && usable[device.value]
    ensures device.Some? ==>
              forall d: nat :: d < |usable| && Passed(index % |usable|, d, device.value) ==> !usable[d]
    ensures device.Some? ==> exists k :: FirstUsable(index, usable, k) && device.value == Probed(index, k, |usable|)
    ensures device.None? <==> forall d :: 0 <= d < |usable| ==> !usable[d]
  {
    var offset := 0;
    while offset < |usable|
      invariant 0 <= offset <= |usable|
      invariant forall j :: 0 <= j < offset ==> !usable[Probed(index, j, |usable|)]
    {
      var device' := Probed(index, offset, |usable|);
      if usable[device'] {
        assert FirstUsable(index, usable, offset);
        FirstInOrder(index, usable, offset);
        return Some(device');
      }
      offset := offset + 1;
    }
    forall d | 0 <= d < |usable|
      ensures !usable[d]
    {
      var j := CyclicPosition(index, d, |usable|);
      assert !usable[Probed(index, j, |usable|)];
    }
    return None;
  }

  /** Counting upwards from `start` and around, `d` comes before `stop`. */
  ghost predicate Passed(start: nat, d: nat, stop: nat) {
    if start <= stop then start <= d < stop else start <= d || d < stop
  }

  lemma ProbedInOrder(index: nat, k: nat, n: nat)
    requires k < n
    ensures Probed(index, k, n) == if index % n + k < n then index % n + k else index % n + k - n
  {
    ModOfSum(index, k, n);
    if index % n + k < n {
      ModSmall(index % n + k, n);
    } else {
      DivModUnique(index % n + k, 1, index % n + k - n, n);
    }
  }

  lemma FirstInOrder(index: nat, usable: seq<bool>, k: nat)
    requires FirstUsable(index, usable, k)
    ensures forall d: nat ::
              d < |usable| && Passed(index % |usable|, d, Probed(index, k, |usable|)) ==> !usable[d]
  {
    var n := |usable|;
    var start := index % n;
    ProbedInOrder(index, k, n);
    forall d: nat | d < n && Passed(start, d, Probed(index, k, n))
      ensures !usable[d]
    {
      var j: nat := if start <= d then d - start else d - start + n;
      ProbedInOrder(index, j, n);
      assert !usable[Probed(index, j, n)];
    }
  }

  ghost predicate FirstUsable(index: nat, usable: seq<bool>, k: nat) {
    && k < |usable| && usable[Probed(index, k, |usable|)]
    && forall j :: 0 <= j < k ==> !usable[Probed(index, j, |usable|)]
  }

  lemma CyclicPosition(index: nat, d: nat, n: nat) returns (j: nat)
    requires d < n
    ensures j < n && Probed(index, j, n) == d
  {
    j := (d - index) % n;
    ModOfSum(d - index, index, n);
    ModSmall(d, n);
  }

  lemma {:induction false} CountGrows(names: seq<string>, m: nat, n: nat, host: string)
    requires m <= n <= |names|
    ensures Count(names, m, host) <= Count(names, n, host)
  {
    if m < n {
      CountGrows(names, m, n - 1, host);
    }
  }

  /** Ranks of one host get different devices, if all devices work and there are enough of them. */
  lemma DistinctDevices(names: seq<string>, r: nat, s: nat, usable: seq<bool>, k: nat, l: nat)
    requires r < s < |names| && names[r] == names[s]
    requires forall d :: 0 <= d < |usable| ==> usable[d]
    requires Count(names, |names|, names[r]) <= |usable|
    requires FirstUsable(Count(names, r, names[r]), usable, k) && FirstUsable(Count(names, s, names[s]), usable, l)
    ensures Probed(Count(names, r, names[r]), k, |usable|) != Probed(Count(names, s, names[s]), l, |usable|)
  {
    CountGrows(names, r + 1, s, names[r]);
    CountGrows(names, s + 1, |names|, names[r]);
    ModSmall(Count(names, r, names[r]), |usable|);
    ModSmall(Count(names, s, names[s]), |usable|);
    assert usable[Probed(Count(names, r, names[r]), 0, |usable|)];
    assert usable[Probed(Count(names, s, names[s]), 0, |usable|)];
    assert k == 0 && l == 0;
  }
}
