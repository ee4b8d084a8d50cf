/**
 * The single-flight protocol shared by the per-run memo and the DNS cache:
 * any number of concurrent calls, each a small state machine, over one table
 * of entries. Every interleaving of the steps is a behaviour.
 */
module SingleFlight {
  import opened Core

  /** What the memo and the DNS cache key their entries by. */
  datatype Key = MemoKey(name: string) | DNSKey(domain: string, qtype: int, dnssec: bool)

  /** What a computation returns: a value, or an error. */
  datatype Outcome = Value(value: int) | Failure(error: int)

  /** key never changes; done says the channel is closed. */
  datatype Entry = Entry(key: Key, done: bool, outcome: Option<Outcome>, retry: bool)

  datatype Reply = Got(outcome: Outcome) | Cancelled | Panicked

  /** Where a call stands; e is the entry it leads or waits for. */
  datatype PC =
    | Begin                               // about to lock and look
    | Filling(e: nat)                     // has inserted its entry
    | Computing(e: nat)                   // retry set; the computation is running
    | Computed(e: nat, panicked: bool)    // about to delete the entry if it is to be retried
    | Closing(e: nat, panicked: bool)     // about to release the waiters
    | Waiting(e: nat)
    | Finished(reply: Reply)

  datatype Call = Call(key: Key, ended: bool, pc: PC)

  /** ended says the call's own context is over. */
  datatype State = State(heap: seq<Entry>, entries: map<Key, nat>, calls: map<int, Call>)

  datatype Step =
    | Start(c: int, key: Key)
    | Enter(c: int)
    | Arm(c: int)
    | Return(c: int, outcome: Outcome)
    | Panic(c: int)
    | Delete(c: int)
    | Close(c: int)
    | Wake(c: int)
    | GiveUp(c: int)
    | EndContext(c: int)

  predicate Enabled(s: State, t: Step) {
    if t.Start? then t.c !in s.calls
    else
      && t.c in s.calls
      && var pc := s.calls[t.c].pc;
         match t
         case Enter(_) => pc.Begin?
         case Arm(_) => pc.Filling? && pc.e < |s.heap|
         case Return(_, _) => pc.Computing? && pc.e < |s.heap|
         case Panic(_) => pc.Computing?
         case Delete(_) => pc.Computed? && pc.e < |s.heap|
         case Close(_) => pc.Closing? && pc.e < |s.heap| && (!pc.panicked ==> s.heap[pc.e].outcome.Some?)
         case Wake(_) => pc.Waiting? && pc.e < |s.heap| && s.heap[pc.e].done &&
                         (!s.heap[pc.e].retry ==> s.heap[pc.e].outcome.Some?)
         case GiveUp(_) => pc.Waiting? && s.calls[t.c].ended
         case EndContext(_) => true
  }

  function At(s: State, c: int, pc: PC): State
    requires c in s.calls
  {
    s.(calls := s.calls[c := s.calls[c].(pc := pc)])
  }

  function Put(s: State, e: nat, x: Entry): State
    requires e < |s.heap|
  {
    s.(heap := s.heap[e := x])
  }

  function Apply(s: State, t: Step): State
    requires Enabled(s, t)
  {
    match t
    case Start(c, key) => s.(calls := s.calls[c := Call(key, false, Begin)])
    case Enter(c) =>
      var key := s.calls[c].key;
      if key in s.entries then At(s, c, Waiting(s.entries[key]))
      else
        var e := |s.heap|;
        At(s.(heap := s.heap + [Entry(key, false, None, false)], entries := s.entries[key := e]), c, Filling(e))
    case Arm(c) =>
      var e := s.calls[c].pc.e;
      At(Put(s, e, s.heap[e].(retry := true)), c, Computing(e))
    case Return(c, outcome) =>
      var e := s.calls[c].pc.e;
      var x := s.heap[e].(outcome := Some(outcome), retry := outcome.Failure? && s.calls[c].ended);
      At(Put(s, e, x), c, Computed(e, false))
    case Panic(c) => At(s, c, Computed(s.calls[c].pc.e, true))
    case Delete(c) =>
      var pc := s.calls[c].pc;
      At(if s.heap[pc.e].retry then s.(entries := s.entries - {s.calls[c].key}) else s, c, Closing(pc.e, pc.panicked))
    case Close(c) =>
      var pc := s.calls[c].pc;
      At(Put(s, pc.e, s.heap[pc.e].(done := true)), c,
         Finished(if pc.panicked then Panicked else Got(s.heap[pc.e].outcome.value)))
    case Wake(c) =>
      var x := s.heap[s.calls[c].pc.e];
      At(s, c, if x.retry then Begin else Finished(Got(x.outcome.value)))
    case GiveUp(c) => At(s, c, Finished(Cancelled))
    case EndContext(c) => s.(calls := s.calls[c := s.calls[c].(ended := true)])
  }

  const EMPTY: State := State([], map[], map[])

  // ----- the invariant ------------------------------------------------------------------------

  predicate Leads(pc: PC, e: nat) {
    (pc.Filling? || pc.Computing? || pc.Computed? || pc.Closing?) && pc.e == e
  }

  /** The call's computation has not been followed by the deletion check yet. */
  predicate InFlight(pc: PC) { pc.Filling? || pc.Computing? || pc.Computed? }

  predicate Leading(pc: PC) { InFlight(pc) || pc.Closing? }

  ghost predicate CallOK(s: State, c: int)
    requires c in s.calls
  {
    var call := s.calls[c];
    && (Leading(call.pc) || call.pc.Waiting? ==> call.pc.e < |s.heap| && s.heap[call.pc.e].key == call.key)
    && (Leading(call.pc) ==> !s.heap[call.pc.e].done)
    // In flight, the table holds the call's own entry; a retried entry is gone before it is released.
    && (InFlight(call.pc) ==> Get(s.entries, call.key) == Some(call.pc.e))
    && (call.pc.Closing? ==> (Get(s.entries, call.key) == Some(call.pc.e) <==> !s.heap[call.pc.e].retry))
    && (call.pc.Computing? ==> s.heap[call.pc.e].retry)
    && (call.pc.Filling? || call.pc.Computing? ==> s.heap[call.pc.e].outcome.None?)
    && (call.pc.Computed? || call.pc.Closing? ==>
          if call.pc.panicked then s.heap[call.pc.e].retry else s.heap[call.pc.e].outcome.Some?)
  }

  ghost predicate EntryOK(s: State, e: nat)
    requires e < |s.heap|
  {
    && (s.heap[e].done ==> (Get(s.entries, s.heap[e].key) == Some(e) <==> !s.heap[e].retry))
    && (s.heap[e].done && !s.heap[e].retry ==> s.heap[e].outcome.Some?)
    && (!s.heap[e].done ==> exists c :: c in s.calls && Leads(s.calls[c].pc, e))
  }

  ghost predicate Inv(s: State) {
    && (forall c :: c in s.calls ==> CallOK(s, c))
    && (forall e :: 0 <= e < |s.heap| ==> EntryOK(s, e))
    && (forall k :: k in s.entries ==> s.entries[k] < |s.heap| && s.heap[s.entries[k]].key == k)
    && OneLeader(s)
  }

  ghost predicate OneLeader(s: State) {
    forall c, d :: c in s.calls && d in s.calls && Leading(s.calls[c].pc) && Leading(s.calls[d].pc) && c != d ==>
      s.calls[c].pc.e != s.calls[d].pc.e
  }

  lemma OtherCall(s: State, t: Step, c: int)
    requires Inv(s) && Enabled(s, t) && c in s.calls && c != t.c
    ensures CallOK(Apply(s, t), c)
  {
  }

  lemma OwnCall(s: State, t: Step)
    requires Inv(s) && Enabled(s, t)
    ensures CallOK(Apply(s, t), t.c)
  {
  }

  lemma EntryStays(s: State, t: Step, e: nat)
    requires Inv(s) && Enabled(s, t) && e < |s.heap|
    ensures EntryOK(Apply(s, t), e)
  {
    assert EntryOK(s, e);
    var s' := Apply(s, t);
    if t.c in s.calls { assert CallOK(s, t.c); }
    if s.heap[e].done {
      assert s'.heap[e] == s.heap[e];
      if Get(s.entries, s.heap[e].key) == Some(e) && t.Delete? {
        assert s.calls[t.c].pc.e != e;
      }
    } else {
      var c :| c in s.calls && Leads(s.calls[c].pc, e);
      assert CallOK(s, c);
      if c == t.c && t.Close? {
        assert s'.heap[e].done;
      } else {
        assert c in s'.calls && Leads(s'.calls[c].pc, e);
        assert !s'.heap[e].done;
      }
    }
  }

  lemma NewEntry(s: State, t: Step)
    requires Inv(s) && Enabled(s, t) && |Apply(s, t).heap| > |s.heap|
    ensures EntryOK(Apply(s, t), |s.heap|) && |Apply(s, t).heap| == |s.heap| + 1
  {
    assert Leads(Apply(s, t).calls[t.c].pc, |s.heap|);
  }

  lemma OneLeaderStays(s: State, t: Step)
    requires Inv(s) && Enabled(s, t)
    ensures OneLeader(Apply(s, t))
  {
    hide EntryOK;
  }

  lemma TableStays(s: State, t: Step)
    requires Inv(s) && Enabled(s, t)
    ensures
      var s' := Apply(s, t);
      forall k :: k in s'.entries ==> s'.entries[k] < |s'.heap| && s'.heap[s'.entries[k]].key == k
  {
    hide EntryOK, OneLeader;
  }

  lemma InvStep(s: State, t: Step)
    requires Inv(s) && Enabled(s, t)
    ensures Inv(Apply(s, t))
  {
    hide CallOK, EntryOK, OneLeader;
    var s' := Apply(s, t);
    forall c | c in s'.calls ensures CallOK(s', c) {
      if c == t.c { OwnCall(s, t); } else { OtherCall(s, t, c); }
    }
    forall e | 0 <= e < |s'.heap| ensures EntryOK(s', e) {
      if e < |s.heap| { EntryStays(s, t, e); } else { NewEntry(s, t); }
    }
    OneLeaderStays(s, t);
    TableStays(s, t);
  }

  // ----- behaviours ------------------------------------------------------------------------------

  /** Any interleaving, from an empty table. */
  ghost predicate Behaviour(ss: seq<State>, ts: seq<Step>) {
    && |ss| == |ts| + 1 && ss[0] == EMPTY
    && forall i :: 0 <= i < |ts| ==> Enabled(ss[i], ts[i]) && ss[i + 1] == Apply(ss[i], ts[i])
  }

  lemma {:induction false} AlwaysInv(ss: seq<State>, ts: seq<Step>, i: int)
    requires Behaviour(ss, ts) && 0 <= i < |ss|
    ensures Inv(ss[i])
  {
    if i > 0 {
      AlwaysInv(ss, ts, i - 1);
      InvStep(ss[i - 1], ts[i - 1]);
    }
  }

  /** At most one computation per key is in progress. */
  lemma OneComputation(ss: seq<State>, ts: seq<Step>, i: int, c: int, d: int)
    requires Behaviour(ss, ts) && 0 <= i < |ss|
    requires c in ss[i].calls && d in ss[i].calls && InFlight(ss[i].calls[c].pc) && InFlight(ss[i].calls[d].pc)
    requires ss[i].calls[c].key == ss[i].calls[d].key
    ensures c == d
  {
    AlwaysInv(ss, ts, i);
    assert CallOK(ss[i], c) && CallOK(ss[i], d);
  }

  /**
   * A call deletes nothing but its own entry, and does so before its waiters
   * are released; when they are, an entry to be retried is gone.
   */
  lemma DeletesOwnBeforeRelease(ss: seq<State>, ts: seq<Step>, i: int)
    requires Behaviour(ss, ts) && 0 <= i < |ts|
    ensures ts[i].Delete? ==>
      var s, call := ss[i], ss[i].calls[ts[i].c];
      && Get(s.entries, call.key) == Some(call.pc.e) && !s.heap[call.pc.e].done
    ensures forall k :: k in ss[i].entries && k !in ss[i + 1].entries ==> ts[i].Delete? && ss[i].calls[ts[i].c].key == k
    ensures ts[i].Close? ==>
      var s, call := ss[i], ss[i].calls[ts[i].c];
      s.heap[call.pc.e].retry ==> Get(s.entries, call.key) != Some(call.pc.e)
  {
    AlwaysInv(ss, ts, i);
    if ts[i].Delete? || ts[i].Close? { assert CallOK(ss[i], ts[i].c); }
  }

  // ----- publication -------------------------------------------------------------------------------

  /** The key has a released result that is not to be retried. */
  predicate Published(s: State, k: Key) {
    k in s.entries && s.entries[k] < |s.heap| && s.heap[s.entries[k]].done && s.heap[s.entries[k]].outcome.Some?
  }

  function Result(s: State, k: Key): Outcome
    requires Published(s, k)
  {
    s.heap[s.entries[k]].outcome.value
  }

  lemma PublishedStep(s: State, t: Step, k: Key)
    requires Inv(s) && Enabled(s, t) && Published(s, k)
    ensures Published(Apply(s, t), k) && Result(Apply(s, t), k) == Result(s, k)
    ensures t.Return? || t.Arm? || t.Panic? ==> s.calls[t.c].key != k
  {
  }

  lemma {:induction false} PublishedForever(ss: seq<State>, ts: seq<Step>, i: int, j: int, k: Key)
    requires Behaviour(ss, ts) && 0 <= i <= j < |ss| && Published(ss[i], k)
    ensures Published(ss[j], k) && Result(ss[j], k) == Result(ss[i], k)
    decreases j
  {
    if i < j {
      PublishedForever(ss, ts, i, j - 1, k);
      AlwaysInv(ss, ts, j - 1);
      PublishedStep(ss[j - 1], ts[j - 1], k);
    }
  }

  /** Once published, no computation for the key runs or starts again. */
  lemma NeverComputedAgain(ss: seq<State>, ts: seq<Step>, i: int, j: int, k: Key, c: int)
    requires Behaviour(ss, ts) && 0 <= i <= j < |ss| && Published(ss[i], k)
    requires c in ss[j].calls && ss[j].calls[c].key == k
    ensures !InFlight(ss[j].calls[c].pc)
  {
    PublishedForever(ss, ts, i, j, k);
    AlwaysInv(ss, ts, j);
    assert CallOK(ss[j], c);
  }

  /**
   * Every call that ends after the publication replies with the published
   * result, or with its own context's end while waiting. The one exception is
   * a call whose own computation was over before, cut short by its context or
   * a panic, and which only had its waiters left to release.
   */
  lemma LaterReplies(ss: seq<State>, ts: seq<Step>, i: int, j: int, k: Key, c: int)
    requires Behaviour(ss, ts) && 0 <= i <= j < |ts| && Published(ss[i], k)
    requires c in ss[j].calls && ss[j].calls[c].key == k
    requires !ss[j].calls[c].pc.Finished? && ss[j + 1].calls[c].pc.Finished?
    ensures
      var reply := ss[j + 1].calls[c].pc.reply;
      || reply == Got(Result(ss[i], k))
      || (reply == Cancelled && ss[j].calls[c].ended)
      || (ss[j].calls[c].pc.Closing? && ss[j].heap[ss[j].calls[c].pc.e].retry)
  {
    PublishedForever(ss, ts, i, j, k);
    AlwaysInv(ss, ts, j);
    assert CallOK(ss[j], c);
    if ss[j].calls[c].pc.Waiting? { assert EntryOK(ss[j], ss[j].calls[c].pc.e); }
  }

  /** A waiter never replies with a result marked for retry: it only ever replies with a published one. */
  lemma WaitersReplyPublished(ss: seq<State>, ts: seq<Step>, j: int, c: int)
    requires Behaviour(ss, ts) && 0 <= j < |ts|
    requires c in ss[j].calls && ss[j].calls[c].pc.Waiting? && ss[j + 1].calls[c].pc.Finished?
    ensures
      var call, reply := ss[j].calls[c], ss[j + 1].calls[c].pc.reply;
      || (reply == Cancelled && call.ended)
      || (Published(ss[j], call.key) && reply == Got(Result(ss[j], call.key)) && !ss[j].heap[call.pc.e].retry)
  {
    AlwaysInv(ss, ts, j);
    assert CallOK(ss[j], c);
    assert EntryOK(ss[j], ss[j].calls[c].pc.e);
  }

  // ----- which results are published -----------------------------------------------------------------

  /** Step j: a computation for entry e returned the outcome. */
  ghost predicate Returned(ss: seq<State>, ts: seq<Step>, j: int, e: nat, outcome: Outcome) {
    && 0 <= j < |ts| && j < |ss| && ts[j].Return? && ts[j].outcome == outcome
    && ts[j].c in ss[j].calls && ss[j].calls[ts[j].c].pc == Computing(e)
  }

  /** The outcome may be shared: it is a value, or its caller's context had not ended when it came. */
  ghost predicate Shareable(ss: seq<State>, ts: seq<Step>, j: int)
    requires 0 <= j < |ts| && j < |ss| && ts[j].Return? && ts[j].c in ss[j].calls
  {
    ts[j].outcome.Value? || !ss[j].calls[ts[j].c].ended
  }

  lemma OutcomeStays(s: State, t: Step, e: nat)
    requires Inv(s) && Enabled(s, t) && e < |s.heap|
    requires !(t.Return? && s.calls[t.c].pc.e == e)
    ensures e < |Apply(s, t).heap| && Apply(s, t).heap[e].outcome == s.heap[e].outcome
    ensures s.heap[e].outcome.Some? ==> Apply(s, t).heap[e].retry == s.heap[e].retry
  {
    if t.Arm? { assert CallOK(s, t.c); }
  }

  /** Every outcome was returned by a computation, and is marked for retry iff it may not be shared. */
  lemma {:induction false} OutcomeWasReturned(ss: seq<State>, ts: seq<Step>, i: int, e: nat)
    requires Behaviour(ss, ts) && 0 <= i < |ss| && e < |ss[i].heap| && ss[i].heap[e].outcome.Some?
    ensures exists j ::
      && j < i && Returned(ss, ts, j, e, ss[i].heap[e].outcome.value)
      && (ss[i].heap[e].retry <==> !Shareable(ss, ts, j))
  {
    hide Inv;
    if i > 0 {
      var s, t := ss[i - 1], ts[i - 1];
      AlwaysInv(ss, ts, i - 1);
      assert Enabled(s, t) && ss[i] == Apply(s, t);
      if t.Return? && s.calls[t.c].pc.e == e {
        assert Returned(ss, ts, i - 1, e, t.outcome);
      } else {
        NewIsBlank(s, t, e);
        OutcomeStays(s, t, e);
        OutcomeWasReturned(ss, ts, i - 1, e);
      }
    }
  }

  lemma NewIsBlank(s: State, t: Step, e: nat)
    requires Enabled(s, t) && e < |Apply(s, t).heap| && Apply(s, t).heap[e].outcome.Some?
    requires !(t.Return? && s.calls[t.c].pc.e == e)
    ensures e < |s.heap|
  {
  }

  /**
   * What is published some computation returned, and if it is a failure, then
   * under a context that had not ended: nobody is ever given another caller's
   * cancellation.
   */
  lemma PublishedWasReturned(ss: seq<State>, ts: seq<Step>, i: int, k: Key)
    requires Behaviour(ss, ts) && 0 <= i < |ss| && Published(ss[i], k)
    ensures ss[i].heap[ss[i].entries[k]].key == k
    ensures exists j ::
      && j < i && Returned(ss, ts, j, ss[i].entries[k], Result(ss[i], k))
      && (Result(ss[i], k).Failure? ==> !ss[j].calls[ts[j].c].ended)
  {
    AlwaysInv(ss, ts, i);
    var e := ss[i].entries[k];
    assert EntryOK(ss[i], e);
    OutcomeWasReturned(ss, ts, i, e);
    hide Inv, Behaviour;
  }

  /** Where a call stands after its computation returned an outcome that may be shared. */
  ghost predicate Delivering(s: State, c: int, e: nat, k: Key, outcome: Outcome) {
    && c in s.calls && s.calls[c].key == k && e < |s.heap| && s.heap[e].key == k
    && s.heap[e].outcome == Some(outcome) && !s.heap[e].retry
    && (s.calls[c].pc == Computed(e, false) || s.calls[c].pc == Closing(e, false) ||
        (s.calls[c].pc.Finished? && s.heap[e].done))
  }

  lemma DeliveringStep(s: State, t: Step, c: int, e: nat, k: Key, outcome: Outcome)
    requires Inv(s) && Enabled(s, t) && Delivering(s, c, e, k, outcome)
    ensures Delivering(Apply(s, t), c, e, k, outcome)
  {
    assert CallOK(s, c) && EntryOK(s, e);
    if t.c in s.calls { assert CallOK(s, t.c); }
  }

  lemma StartsDelivering(s: State, t: Step)
    requires Inv(s) && Enabled(s, t) && t.Return? && (t.outcome.Value? || !s.calls[t.c].ended)
    ensures s.calls[t.c].pc.Computing?
    ensures Delivering(Apply(s, t), t.c, s.calls[t.c].pc.e, s.calls[t.c].key, t.outcome)
  {
    assert CallOK(s, t.c);
  }

  lemma {:induction false} KeepsDelivering(ss: seq<State>, ts: seq<Step>, i: int, m: int)
    requires Behaviour(ss, ts) && 0 <= i < |ts| && ts[i].Return? && i < m < |ss| && Shareable(ss, ts, i)
    ensures
      var call := ss[i].calls[ts[i].c];
      call.pc.Computing? && Delivering(ss[m], ts[i].c, call.pc.e, call.key, ts[i].outcome)
  {
    assert Enabled(ss[i], ts[i]) && ss[i + 1] == Apply(ss[i], ts[i]);
    if m == i + 1 {
      AlwaysInv(ss, ts, i);
      StartsDelivering(ss[i], ts[i]);
    } else {
      KeepsDelivering(ss, ts, i, m - 1);
      AlwaysInv(ss, ts, m - 1);
      var call := ss[i].calls[ts[i].c];
      assert Enabled(ss[m - 1], ts[m - 1]) && ss[m] == Apply(ss[m - 1], ts[m - 1]);
      hide Inv, Behaviour, Enabled, Apply, Delivering, Shareable;
      DeliveringStep(ss[m - 1], ts[m - 1], ts[i].c, call.pc.e, call.key, ts[i].outcome);
    }
  }

  /**
   * The other way round: a value, or a failure that came under a live context,
   * is what the key's callers find published from the moment its leader
   * releases the waiters.
   */
  lemma ReturnIsPublished(ss: seq<State>, ts: seq<Step>, i: int, j: int, m: int)
    requires Behaviour(ss, ts) && 0 <= i < j < |ts| && ts[i].Return? && ts[j] == Close(ts[i].c) && j < m < |ss|
    requires ts[i].outcome.Value? || !ss[i].calls[ts[i].c].ended
    ensures
      var k := ss[i].calls[ts[i].c].key;
      Published(ss[m], k) && Result(ss[m], k) == ts[i].outcome
  {
    var c := ts[i].c;
    KeepsDelivering(ss, ts, i, j);
    assert Enabled(ss[j], ts[j]) && ss[j + 1] == Apply(ss[j], ts[j]);
    KeepsDelivering(ss, ts, i, j + 1);
    AlwaysInv(ss, ts, j + 1);
    var e := ss[i].calls[c].pc.e;
    assert EntryOK(ss[j + 1], e);
    PublishedForever(ss, ts, j + 1, m, ss[i].calls[c].key);
  }

  // ----- contexts that end ----------------------------------------------------------------------------

  /** A call's context has ended exactly if it was ended. */
  lemma {:induction false} EndedExactlyWhen(ss: seq<State>, ts: seq<Step>, i: int, c: int)
    requires Behaviour(ss, ts) && 0 <= i < |ss|
    ensures (exists j :: 0 <= j < i && ts[j] == EndContext(c)) <==> c in ss[i].calls && ss[i].calls[c].ended
  {
    if i > 0 {
      EndedExactlyWhen(ss, ts, i - 1, c);
      assert Enabled(ss[i - 1], ts[i - 1]) && ss[i] == Apply(ss[i - 1], ts[i - 1]);
      assert ts[i - 1] == EndContext(c) ==> exists j :: 0 <= j < i && ts[j] == EndContext(c);
    }
  }

  lemma Then(ss: seq<State>, ts: seq<Step>, t: Step) returns (ss': seq<State>, ts': seq<Step>)
    requires Behaviour(ss, ts) && Enabled(ss[|ts|], t)
    ensures Behaviour(ss', ts') && |ts'| == |ts| + 1 && ss'[|ts'|] == Apply(ss[|ts|], t)
  {
    ss', ts' := ss + [Apply(ss[|ts|], t)], ts + [t];
  }

  /** One call computes, another waits for it. */
  lemma OneWaits(k: Key) returns (ss: seq<State>, ts: seq<Step>)
    ensures Behaviour(ss, ts)
    ensures ss[|ts|] == State([Entry(k, false, None, true)], map[k := 0],
                              map[1 := Call(k, false, Computing(0)), 2 := Call(k, false, Waiting(0))])
  {
    ss, ts := [EMPTY], [];
    assert Behaviour(ss, ts);
    hide Behaviour;
    ss, ts := Then(ss, ts, Start(1, k));
    ss, ts := Then(ss, ts, Start(2, k));
    ss, ts := Then(ss, ts, Enter(1));
    ss, ts := Then(ss, ts, Enter(2));
    ss, ts := Then(ss, ts, Arm(1));
  }

  /** Its context ends and its computation fails. */
  lemma CutShort(k: Key, error: int) returns (ss: seq<State>, ts: seq<Step>)
    ensures Behaviour(ss, ts)
    ensures ss[|ts|] == State([Entry(k, true, Some(Failure(error)), true)], map[], map[
                                1 := Call(k, true, Finished(Got(Failure(error)))),
                                2 := Call(k, false, Waiting(0))])
  {
    ss, ts := OneWaits(k);
    hide Behaviour;
    ss, ts := Then(ss, ts, EndContext(1));
    ss, ts := Then(ss, ts, Return(1, Failure(error)));
    ss, ts := Then(ss, ts, Delete(1));
    ss, ts := Then(ss, ts, Close(1));
  }

  /**
   * A caller that was waiting when the leader was cut short computes afresh and
   * gets its own value, and the leader its own failure.
   */
  lemma TakingOverHappens(k: Key, error: int, value: int) returns (ss: seq<State>, ts: seq<Step>)
    ensures Behaviour(ss, ts)
    ensures
      var last := ss[|ts|];
      && last.calls == map[
           1 := Call(k, true, Finished(Got(Failure(error)))),
           2 := Call(k, false, Finished(Got(Value(value))))]
      && Published(last, k) && Result(last, k) == Value(value)
  {
    ss, ts := CutShort(k, error);
    hide Behaviour;
    ss, ts := Then(ss, ts, Wake(2));
    ss, ts := Then(ss, ts, Enter(2));
    ss, ts := Then(ss, ts, Arm(2));
    ss, ts := Then(ss, ts, Return(2, Value(value)));
    ss, ts := Then(ss, ts, Delete(2));
    ss, ts := Then(ss, ts, Close(2));
  }

  // ----- nobody is stuck ------------------------------------------------------------------------------

  ghost predicate CanMove(s: State, c: int) {
    exists t: Step :: t.c == c && !t.EndContext? && !t.Start? && Enabled(s, t)
  }

  /**
   * Every unfinished call can move, or waits for an entry whose leader can:
   * no waiter is left behind, whatever panics or is cancelled. (The
   * computation itself is taken to end.)
   */
  lemma NobodyIsStuck(ss: seq<State>, ts: seq<Step>, i: int, c: int)
    requires Behaviour(ss, ts) && 0 <= i < |ss|
    requires c in ss[i].calls && !ss[i].calls[c].pc.Finished?
    ensures CanMove(ss[i], c) ||
      exists d :: d in ss[i].calls && ss[i].calls[c].pc.Waiting? && Leads(ss[i].calls[d].pc, ss[i].calls[c].pc.e) &&
        CanMove(ss[i], d)
  {
    var s := ss[i];
    AlwaysInv(ss, ts, i);
    assert CallOK(s, c);
    var pc := s.calls[c].pc;
    if pc.Waiting? && !s.heap[pc.e].done {
      assert EntryOK(s, pc.e);
      var d :| d in s.calls && Leads(s.calls[d].pc, pc.e);
      assert CallOK(s, d);
      LeaderMoves(s, d);
    } else if pc.Waiting? {
      assert EntryOK(s, pc.e);
      assert Enabled(s, Wake(c));
    } else if pc.Begin? {
      assert Enabled(s, Enter(c));
    } else {
      LeaderMoves(s, c);
    }
  }

  lemma LeaderMoves(s: State, d: int)
    requires d in s.calls && CallOK(s, d) && Leading(s.calls[d].pc)
    ensures CanMove(s, d)
  {
    match s.calls[d].pc
    case Filling(_) => assert Enabled(s, Arm(d));
    case Computing(_) => assert Enabled(s, Return(d, Value(0)));
    case Computed(_, _) => assert Enabled(s, Delete(d));
    case Closing(_, _) => assert Enabled(s, Close(d));
  }
}
