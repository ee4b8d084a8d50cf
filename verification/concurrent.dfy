/** All channels served at once: deliveries whose calls on the kv table interleave. */
module Concurrent {
  import opened Core
  import opened Lifecycle
  import opened State
  import opened Notify
  import opened Delivery

  /** Where one delivery stands: the call it makes next, and what it holds in memory. */
  datatype Stage =
    | Reading
    | Asking(pending: seq<Change>)        // nothing to say: is a heartbeat due?
    | Sending(pending: seq<Change>, changes: seq<Change>, event: Event)
    | Keeping(changes: seq<Change>)
    | Clearing(message: Message)
    | Stamping(message: Message)
    | Ended(sent: Option<Message>, failed: bool)

  /** One call: on the table, or on the notifier. */
  function StepOf(kv: KV, ch: Channel, diff: Diff, e: Env, st: Stage): (KV, Stage) {
    match st
    case Reading =>
      if !e.readPending then (kv, Ended(None, true))
      else
        var pending := Backlog(kv, ch);
        var changes := Merged(pending, Filter(ch.rule, diff.changes));
        (kv, if changes == [] then Asking(pending) else Sending(pending, changes, Digest))
    case Asking(pending) =>
      (kv, match HeartbeatDue(kv, ch, e)
           case Err(_) => Ended(None, true)
           case Ok(due) => if due then Sending(pending, [], Heartbeat) else Ended(None, false))
    case Sending(pending, changes, event) =>
      (kv, if !e.sendOK then (if changes != [] then Keeping(changes) else Ended(None, true))
           else if pending != [] then Clearing(Message(event, diff, changes, ch.name))
           else Stamping(Message(event, diff, changes, ch.name)))
    case Keeping(changes) =>
      (if e.write then kv[PendingKey(ch) := Undelivered(Capped(changes))] else kv, Ended(None, true))
    case Clearing(m) =>
      if e.remove then (kv - {PendingKey(ch)}, Stamping(m)) else (kv, Ended(Some(m), true))
    case Stamping(m) =>
      (if e.stamp then kv[SentKey(ch) := Stamp(Seconds(e.now))] else kv, Ended(Some(m), !e.stamp))
    case Ended(_, _) => (kv, st)
  }

  /** No delivery makes more calls than this from here. */
  function Left(st: Stage): nat {
    match st
    case Reading => 5 case Asking(_) => 4 case Sending(_, _, _) => 3 case Keeping(_) => 1
    case Clearing(_) => 2 case Stamping(_) => 1 case Ended(_, _) => 0
  }

  /** How the delivery ends if nobody interferes. */
  function Finish(kv: KV, ch: Channel, diff: Diff, e: Env, st: Stage): Outcome
    decreases Left(st)
  {
    if st.Ended? then Outcome(kv, st.sent, st.failed)
    else
      var (kv', st') := StepOf(kv, ch, diff, e, st);
      Finish(kv', ch, diff, e, st')
  }

  /** Left alone, the calls make up the delivery. */
  lemma FinishIsAttempted(kv: KV, ch: Channel, diff: Diff, e: Env)
    ensures Finish(kv, ch, diff, e, Reading) == Attempted(kv, ch, diff, e)
  {
    hide Merged, Filter;
    var pending := Backlog(kv, ch);
    var changes := Merged(pending, Filter(ch.rule, diff.changes));
    if e.readPending {
      if changes == [] {
        assert StepOf(kv, ch, diff, e, Reading) == (kv, Asking(pending));
        if HeartbeatDue(kv, ch, e) == Ok(true) { FinishSending(kv, ch, diff, e, pending, [], Heartbeat); }
      } else {
        FinishSending(kv, ch, diff, e, pending, changes, Digest);
      }
    }
  }

  lemma FinishSending(
    kv: KV, ch: Channel, diff: Diff, e: Env, pending: seq<Change>, changes: seq<Change>, event: Event)
    ensures Finish(kv, ch, diff, e, Sending(pending, changes, event)) ==
      if !e.sendOK then
        Outcome(if changes != [] && e.write then kv[PendingKey(ch) := Undelivered(Capped(changes))] else kv, None, true)
      else
        var m := Message(event, diff, changes, ch.name);
        if pending != [] && !e.remove then Outcome(kv, Some(m), true)
        else
          var kv1 := if pending != [] then kv - {PendingKey(ch)} else kv;
          Outcome(if e.stamp then kv1[SentKey(ch) := Stamp(Seconds(e.now))] else kv1, Some(m), !e.stamp)
  {
    var m := Message(event, diff, changes, ch.name);
    if !e.sendOK {
      var (kv1, st1) := StepOf(kv, ch, diff, e, Keeping(changes));
      assert Finish(kv, ch, diff, e, Keeping(changes)) == Finish(kv1, ch, diff, e, st1) == Outcome(kv1, None, true);
    } else {
      FinishStamping(kv, ch, diff, e, m);
      FinishClearing(kv, ch, diff, e, m);
    }
    var (kv', st') := StepOf(kv, ch, diff, e, Sending(pending, changes, event));
    assert Finish(kv, ch, diff, e, Sending(pending, changes, event)) == Finish(kv', ch, diff, e, st');
    hide StepOf;
  }

  lemma FinishClearing(kv: KV, ch: Channel, diff: Diff, e: Env, m: Message)
    ensures Finish(kv, ch, diff, e, Clearing(m)) ==
      if !e.remove then Outcome(kv, Some(m), true) else Finish(kv - {PendingKey(ch)}, ch, diff, e, Stamping(m))
    ensures
      var kv1 := kv - {PendingKey(ch)};
      Finish(kv1, ch, diff, e, Stamping(m)) ==
        Outcome(if e.stamp then kv1[SentKey(ch) := Stamp(Seconds(e.now))] else kv1, Some(m), !e.stamp)
  {
    FinishStamping(kv - {PendingKey(ch)}, ch, diff, e, m);
  }

  lemma FinishStamping(kv: KV, ch: Channel, diff: Diff, e: Env, m: Message)
    ensures Finish(kv, ch, diff, e, Stamping(m)) ==
      Outcome(if e.stamp then kv[SentKey(ch) := Stamp(Seconds(e.now))] else kv, Some(m), !e.stamp)
  {
  }

  /** A call reads and writes nothing but the channel's own keys. */
  lemma StepIsOwn(kv: KV, other: KV, ch: Channel, diff: Diff, e: Env, st: Stage)
    requires Own(kv, ch) == Own(other, ch)
    ensures
      var (a, b) := (StepOf(kv, ch, diff, e, st), StepOf(other, ch, diff, e, st));
      && a.1 == b.1 && Own(a.0, ch) == Own(b.0, ch)
      && forall k :: k != PendingKey(ch) && k != SentKey(ch) ==> Get(a.0, k) == Get(kv, k)
  {
    hide Merged, Filter;
    KeysDiffer(ch, ch);
  }

  lemma {:induction false} FinishIsOwn(kv: KV, other: KV, ch: Channel, diff: Diff, e: Env, st: Stage)
    requires Own(kv, ch) == Own(other, ch)
    ensures
      var (a, b) := (Finish(kv, ch, diff, e, st), Finish(other, ch, diff, e, st));
      a.sent == b.sent && a.failed == b.failed && Own(a.kv, ch) == Own(b.kv, ch)
    decreases Left(st)
  {
    hide StepOf, Own;
    if !st.Ended? {
      StepIsOwn(kv, other, ch, diff, e, st);
      StepComesCloser(kv, ch, diff, e, st);
      var (a, b) := (StepOf(kv, ch, diff, e, st), StepOf(other, ch, diff, e, st));
      FinishIsOwn(a.0, b.0, ch, diff, e, a.1);
    }
  }

  lemma StepComesCloser(kv: KV, ch: Channel, diff: Diff, e: Env, st: Stage)
    ensures !st.Ended? ==> Left(StepOf(kv, ch, diff, e, st).1) < Left(st)
  {
  }

  // ----- the interleavings --------------------------------------------------------------------------

  /** One dispatch: differently named channels, one diff, and how the world answers each. */
  datatype Job = Job(channels: seq<Channel>, diff: Diff, envs: seq<Env>)

  ghost predicate Fair(j: Job) {
    && |j.envs| == |j.channels|
    && forall a, b :: 0 <= a < b < |j.channels| ==> j.channels[a].name != j.channels[b].name
  }

  datatype Snapshot = Snapshot(kv: KV, stages: seq<Stage>)

  ghost predicate Moves(j: Job, s: Snapshot, i: int, s': Snapshot)
    requires Fair(j)
  {
    && |s.stages| == |j.channels| && 0 <= i < |s.stages| && !s.stages[i].Ended?
    && var (kv, st) := StepOf(s.kv, j.channels[i], j.diff, j.envs[i], s.stages[i]);
       s' == Snapshot(kv, s.stages[i := st])
  }

  /** Any interleaving of the deliveries' calls; whose says whose turn it was. */
  ghost predicate Behaviour(j: Job, kv: KV, ss: seq<Snapshot>, whose: seq<int>) {
    && Fair(j) && |ss| == |whose| + 1
    && ss[0] == Snapshot(kv, seq(|j.channels|, i => Reading))
    && forall n :: 0 <= n < |whose| ==> Moves(j, ss[n], whose[n], ss[n + 1])
  }

  ghost predicate AllEnded(s: Snapshot) { forall i :: 0 <= i < |s.stages| ==> s.stages[i].Ended? }

  /** Channel c will end as if it had been alone. */
  ghost predicate OnTrack(j: Job, kv: KV, s: Snapshot, c: int)
    requires Fair(j) && |s.stages| == |j.channels| && 0 <= c < |j.channels|
  {
    var (o, alone) := (Finish(s.kv, j.channels[c], j.diff, j.envs[c], s.stages[c]),
                       Attempted(kv, j.channels[c], j.diff, j.envs[c]));
    o.sent == alone.sent && o.failed == alone.failed && Own(o.kv, j.channels[c]) == Own(alone.kv, j.channels[c])
  }

  predicate NobodysKey(j: Job, k: string) {
    forall i :: 0 <= i < |j.channels| ==> k != PendingKey(j.channels[i]) && k != SentKey(j.channels[i])
  }

  lemma OwnMove(j: Job, kv: KV, s: Snapshot, i: int, s': Snapshot)
    requires Fair(j) && Moves(j, s, i, s') && OnTrack(j, kv, s, i)
    ensures OnTrack(j, kv, s', i)
  {
    hide StepOf, Attempted, Own;
  }

  lemma OthersMove(j: Job, kv: KV, s: Snapshot, i: int, s': Snapshot, c: int)
    requires Fair(j) && Moves(j, s, i, s') && 0 <= c < |j.channels| && c != i && OnTrack(j, kv, s, c)
    ensures OnTrack(j, kv, s', c)
  {
    var a, b := j.channels[i], j.channels[c];
    StepIsOwn(s.kv, s.kv, a, j.diff, j.envs[i], s.stages[i]);
    KeysDiffer(a, b);
    KeysDiffer(b, a);
    assert a.name != b.name;
    hide StepOf, Attempted, PendingKey, SentKey;
    assert Own(s'.kv, b) == Own(s.kv, b);
    FinishIsOwn(s.kv, s'.kv, b, j.diff, j.envs[c], s.stages[c]);
  }

  lemma {:induction false} AlwaysOnTrack(j: Job, kv: KV, ss: seq<Snapshot>, whose: seq<int>, n: int)
    requires Behaviour(j, kv, ss, whose) && 0 <= n < |ss|
    ensures |ss[n].stages| == |j.channels|
    ensures forall c :: 0 <= c < |j.channels| ==> OnTrack(j, kv, ss[n], c)
    ensures forall k :: NobodysKey(j, k) ==> Get(ss[n].kv, k) == Get(kv, k)
  {
    hide StepOf, Attempted, OnTrack;
    if n == 0 {
      forall c | 0 <= c < |j.channels| ensures OnTrack(j, kv, ss[0], c) { StartsOnTrack(j, kv, ss[0], c); }
    } else {
      AlwaysOnTrack(j, kv, ss, whose, n - 1);
      var s, i := ss[n - 1], whose[n - 1];
      assert Moves(j, s, i, ss[n]);
      forall c | 0 <= c < |j.channels| ensures OnTrack(j, kv, ss[n], c) {
        if c == i { OwnMove(j, kv, s, i, ss[n]); } else { OthersMove(j, kv, s, i, ss[n], c); }
      }
      StepIsOwn(s.kv, s.kv, j.channels[i], j.diff, j.envs[i], s.stages[i]);
    }
  }

  lemma StartsOnTrack(j: Job, kv: KV, s: Snapshot, c: int)
    requires Fair(j) && s == Snapshot(kv, seq(|j.channels|, i => Reading)) && 0 <= c < |j.channels|
    ensures OnTrack(j, kv, s, c)
  {
    FinishIsAttempted(kv, j.channels[c], j.diff, j.envs[c]);
  }

  /**
   * However the calls of all deliveries interleave, each channel ends exactly as
   * if it had been the only one, and nobody else's keys change.
   */
  lemma EachAsIfAlone(j: Job, kv: KV, ss: seq<Snapshot>, whose: seq<int>, c: int)
    requires Behaviour(j, kv, ss, whose) && AllEnded(ss[|whose|]) && 0 <= c < |j.channels|
    ensures |ss[|whose|].stages| == |j.channels|
    ensures
      var (end, alone) := (ss[|whose|], Attempted(kv, j.channels[c], j.diff, j.envs[c]));
      && end.stages[c] == Ended(alone.sent, alone.failed)
      && Own(end.kv, j.channels[c]) == Own(alone.kv, j.channels[c])
    ensures forall k :: NobodysKey(j, k) ==> Get(ss[|whose|].kv, k) == Get(kv, k)
  {
    hide Attempted;
    AlwaysOnTrack(j, kv, ss, whose, |whose|);
    assert OnTrack(j, kv, ss[|whose|], c);
  }

  /** What Dispatch promises determines the table: all interleavings end with the one it leaves. */
  lemma EveryOrderAgrees(j: Job, kv: KV, ss: seq<Snapshot>, whose: seq<int>, after: KV)
    requires Behaviour(j, kv, ss, whose) && AllEnded(ss[|whose|])
    requires forall c :: 0 <= c < |j.channels| ==>
      Own(after, j.channels[c]) == Own(Attempted(kv, j.channels[c], j.diff, j.envs[c]).kv, j.channels[c])
    requires forall k :: NobodysKey(j, k) ==> Get(after, k) == Get(kv, k)
    ensures ss[|whose|].kv == after
  {
    hide Attempted, PendingKey, SentKey;
    var end := ss[|whose|].kv;
    forall c | 0 <= c < |j.channels| ensures Own(end, j.channels[c]) == Own(after, j.channels[c]) {
      EachAsIfAlone(j, kv, ss, whose, c);
    }
    AlwaysOnTrack(j, kv, ss, whose, |whose|);
    forall k ensures Get(end, k) == Get(after, k) {
      if !NobodysKey(j, k) {
        var c :| 0 <= c < |j.channels| && (k == PendingKey(j.channels[c]) || k == SentKey(j.channels[c]));
        assert Own(end, j.channels[c]) == Own(after, j.channels[c]);
      }
    }
    SameMap(end, after);
  }

  /** All the calls still to come. */
  function TotalLeft(stages: seq<Stage>): nat {
    if stages == [] then 0 else TotalLeft(stages[..|stages| - 1]) + Left(stages[|stages| - 1])
  }

  lemma {:induction false} OneCloser(stages: seq<Stage>, i: int, st: Stage)
    requires 0 <= i < |stages| && Left(st) < Left(stages[i])
    ensures TotalLeft(stages[i := st]) < TotalLeft(stages)
  {
    hide Left;
    var n := |stages| - 1;
    if i < n {
      assert stages[i := st][..n] == stages[..n][i := st];
      OneCloser(stages[..n], i, st);
    } else {
      assert stages[i := st][..n] == stages[..n];
    }
  }

  lemma {:induction false} AllReading(n: nat)
    ensures TotalLeft(seq(n, i => Reading)) == 5 * n
  {
    if n > 0 {
      assert seq(n, i => Reading)[..n - 1] == seq(n - 1, i => Reading);
      AllReading(n - 1);
    }
  }

  /** Every dispatch ends, after at most five calls per channel. */
  lemma {:induction false} DispatchEnds(j: Job, kv: KV, ss: seq<Snapshot>, whose: seq<int>, n: int)
    requires Behaviour(j, kv, ss, whose) && 0 <= n < |ss|
    ensures n + TotalLeft(ss[n].stages) <= 5 * |j.channels|
  {
    hide StepOf;
    if n == 0 {
      AllReading(|j.channels|);
    } else {
      DispatchEnds(j, kv, ss, whose, n - 1);
      var s, i := ss[n - 1], whose[n - 1];
      assert Moves(j, s, i, ss[n]);
      StepComesCloser(s.kv, j.channels[i], j.diff, j.envs[i], s.stages[i]);
      OneCloser(s.stages, i, ss[n].stages[i]);
    }
  }

  /** And never before all have: a delivery that has not ended can always make its next call. */
  lemma Goes(j: Job, kv: KV, ss: seq<Snapshot>, whose: seq<int>, c: int) returns (next: Snapshot)
    requires Behaviour(j, kv, ss, whose) && 0 <= c < |ss[|whose|].stages| && !ss[|whose|].stages[c].Ended?
    ensures Behaviour(j, kv, ss + [next], whose + [c])
    ensures TotalLeft(next.stages) < TotalLeft(ss[|whose|].stages)
  {
    hide StepOf;
    AlwaysOnTrack(j, kv, ss, whose, |whose|);
    var s := ss[|whose|];
    var (kv', st) := StepOf(s.kv, j.channels[c], j.diff, j.envs[c], s.stages[c]);
    next := Snapshot(kv', s.stages[c := st]);
    StepComesCloser(s.kv, j.channels[c], j.diff, j.envs[c], s.stages[c]);
    OneCloser(s.stages, c, st);
  }

  /** However far a dispatch has come, it can be finished, whatever the outside world answers. */
  lemma {:induction false} CanFinish(j: Job, kv: KV, ss: seq<Snapshot>, whose: seq<int>)
    returns (ss': seq<Snapshot>, whose': seq<int>)
    requires Behaviour(j, kv, ss, whose)
    ensures Behaviour(j, kv, ss', whose') && AllEnded(ss'[|whose'|])
    ensures |ss| <= |ss'| && ss'[..|ss|] == ss
    decreases TotalLeft(ss[|whose|].stages)
  {
    AlwaysOnTrack(j, kv, ss, whose, |whose|);
    ss', whose' := ss, whose;
    if !AllEnded(ss[|whose|]) {
      var c :| 0 <= c < |ss[|whose|].stages| && !ss[|whose|].stages[c].Ended?;
      var next := Goes(j, kv, ss, whose, c);
      hide Behaviour;
      ss', whose' := CanFinish(j, kv, ss + [next], whose + [c]);
      assert ss'[..|ss|] == (ss + [next])[..|ss|];
    }
  }

  /** So any differently named channels can all be served. */
  lemma DispatchHappens(channels: seq<Channel>, diff: Diff, envs: seq<Env>, kv: KV)
    returns (ss: seq<Snapshot>, whose: seq<int>)
    requires |envs| == |channels|
    requires forall a, b :: 0 <= a < b < |channels| ==> channels[a].name != channels[b].name
    ensures Behaviour(Job(channels, diff, envs), kv, ss, whose) && AllEnded(ss[|whose|])
    ensures |whose| <= 5 * |channels|
  {
    var j := Job(channels, diff, envs);
    ss, whose := CanFinish(j, kv, [Snapshot(kv, seq(|channels|, i => Reading))], []);
    DispatchEnds(j, kv, ss, whose, |whose|);
  }
}
