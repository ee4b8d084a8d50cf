/** Delivering one run's digest to every channel, over the store's kv table. */
module Delivery {
  import opened Core
  import opened Ordering
  import opened Lifecycle
  import opened State
  import opened Notify

  /** How the outside world answers during one delivery, and what the clock says. */
  datatype Env = Env(
    readPending: bool,
    readSent: bool,
    sendOK: bool,
    write: bool,
    remove: bool,
    stamp: bool,
    now: int)

  /** The database answers every call; sending may still fail. */
  predicate Reliable(e: Env) { e.readPending && e.readSent && e.write && e.remove && e.stamp }

  function PendingKey(ch: Channel): string { "notify.pending." + ch.name }

  function SentKey(ch: Channel): string { "notify.last_sent." + ch.name }

  type KV = map<string, Value>

  /** What decoding the stored backlog gives; unreadable text is dropped. */
  function Backlog(kv: KV, ch: Channel): seq<Change> {
    var v: Option<Value> := Get(kv, PendingKey(ch));
    match v
    case Some(Undelivered(cs)) => cs
    case _ => []
  }

  /** Beyond the cap, the changes that sort first are dropped. */
  function Capped(cs: seq<Change>): seq<Change> {
    if |cs| > MAX_PENDING then cs[|cs| - MAX_PENDING..] else cs
  }

  /** RFC 3339 times have whole seconds. */
  function Seconds(ms: int): int { ms - ms % 1000 }

  function HeartbeatDue(kv: KV, ch: Channel, e: Env): Result<bool, ()> {
    if ch.rule.heartbeat <= 0 then Ok(false)
    else if !e.readSent then Err(())
    else
      var v: Option<Value> := Get(kv, SentKey(ch));
      match v
      case None => Ok(true)
      case Some(Stamp(last)) => Ok(e.now - last >= ch.rule.heartbeat)
      case Some(_) => Ok(true)
  }

  /** When the channel last heard anything, as far as can be read back. */
  function LastHeard(kv: KV, ch: Channel): Option<int> {
    var v: Option<Value> := Get(kv, SentKey(ch));
    match v
    case Some(Stamp(last)) => Some(last)
    case _ => None
  }

  /**
   * Due unless the channel wants none or heard something less than an interval
   * ago; an error only when that cannot be read.
   */
  method CheckHeartbeat(store: Store, ch: Channel, e: Env) returns (r: Result<bool, ()>)
    ensures r.Err? <==> ch.rule.heartbeat > 0 && !e.readSent
    ensures r == Ok(true) <==>
      && ch.rule.heartbeat > 0 && e.readSent
      && !(LastHeard(store.kv, ch).Some? && e.now - LastHeard(store.kv, ch).value < ch.rule.heartbeat)
    ensures r == HeartbeatDue(store.kv, ch, e)
  {
    if ch.rule.heartbeat <= 0 { return Ok(false); }
    var v := store.Read(SentKey(ch), e.readSent);
    match v
    case Err(_) => r := Err(());
    case Ok(None) => r := Ok(true);
    case Ok(Some(Stamp(last))) => r := Ok(e.now - last >= ch.rule.heartbeat);
    case Ok(Some(_)) => r := Ok(true);
  }

  /** The outcome of a delivery: the kv table, the message sent if any, and whether it failed. */
  datatype Outcome = Outcome(kv: KV, sent: Option<Message>, failed: bool)

  function Attempted(kv: KV, ch: Channel, diff: Diff, e: Env): Outcome {
    var pending := Backlog(kv, ch);
    var changes := Merged(pending, Filter(ch.rule, diff.changes));
    if !e.readPending then Outcome(kv, None, true)
    else if changes == [] && HeartbeatDue(kv, ch, e) != Ok(true) then
      Outcome(kv, None, HeartbeatDue(kv, ch, e).Err?)
    else if !e.sendOK then
      Outcome(if changes != [] && e.write then kv[PendingKey(ch) := Undelivered(Capped(changes))] else kv, None, true)
    else
      var m := Message(if changes == [] then Heartbeat else Digest, diff, changes, ch.name);
      if pending != [] && !e.remove then Outcome(kv, Some(m), true)
      else
        var kv1 := if pending != [] then kv - {PendingKey(ch)} else kv;
        Outcome(if e.stamp then kv1[SentKey(ch) := Stamp(Seconds(e.now))] else kv1, Some(m), !e.stamp)
  }

  lemma KeysDiffer(a: Channel, b: Channel)
    ensures PendingKey(a) != SentKey(b)
    ensures a.name != b.name ==> PendingKey(a) != PendingKey(b) && SentKey(a) != SentKey(b)
  {
    assert PendingKey(a)[7] == 'p' && SentKey(b)[7] == 'l';
    assert PendingKey(a)[15..] == a.name && PendingKey(b)[15..] == b.name;
    assert SentKey(a)[17..] == a.name && SentKey(b)[17..] == b.name;
  }

  /** Sends what has piled up; keeps it for the next digest when sending fails. */
  method Deliver(store: Store, ch: Channel, diff: Diff, e: Env) returns (sent: Option<Message>, failed: bool)
    requires store.Valid()
    modifies store`kv
    ensures store.Valid()
    ensures Distinct(Backlog(old(store.kv), ch)) ==>
      Outcome(store.kv, sent, failed) == Attempted(old(store.kv), ch, diff, e)
  {
    hide Merged, Filter, Distinct;
    sent, failed := None, true;
    var v := store.Read(PendingKey(ch), e.readPending);
    if v.Err? { return; }
    var pending := match v.value case Some(Undelivered(cs)) => cs case _ => [];
    var wanted := FilterChanges(ch.rule, diff.changes);
    var changes := Merge(pending, wanted);
    var event := Digest;
    if |changes| == 0 {
      var due := CheckHeartbeat(store, ch, e);
      if due != Ok(true) { return None, due.Err?; }
      event := Heartbeat;
    }
    if !e.sendOK {
      if |changes| > 0 {
        if |changes| > MAX_PENDING { changes := changes[|changes| - MAX_PENDING..]; }
        var ok := store.Write(PendingKey(ch), Undelivered(changes), e.write);
      }
      return;
    }
    sent := Some(Message(event, diff, changes, ch.name));
    if |pending| > 0 {
      var ok := store.Delete(PendingKey(ch), e.remove);
      if !ok { return; }
    }
    var ok := store.Write(SentKey(ch), Stamp(Seconds(e.now)), e.stamp);
    failed := !ok;
  }

  /** A delivery reads and writes no key but its channel's own two. */
  lemma OwnKeysOnly(kv: KV, other: KV, ch: Channel, diff: Diff, e: Env)
    requires Get(kv, PendingKey(ch)) == Get(other, PendingKey(ch))
    requires Get(kv, SentKey(ch)) == Get(other, SentKey(ch))
    ensures
      var o, p := Attempted(kv, ch, diff, e), Attempted(other, ch, diff, e);
      && o.sent == p.sent && o.failed == p.failed
      && Get(o.kv, PendingKey(ch)) == Get(p.kv, PendingKey(ch))
      && Get(o.kv, SentKey(ch)) == Get(p.kv, SentKey(ch))
      && forall k :: k != PendingKey(ch) && k != SentKey(ch) ==> Get(o.kv, k) == Get(kv, k)
  {
    hide Merged, Filter;
    KeysDiffer(ch, ch);
  }

  /** What one channel's keys hold. */
  function Own(kv: KV, ch: Channel): (Option<Value>, Option<Value>) {
    (Get(kv, PendingKey(ch)), Get(kv, SentKey(ch)))
  }

  /**
   * Whatever order the channels are served in, each ends up exactly as if it
   * had been the only one: a failing channel never affects another.
   */
  method Dispatch(store: Store, channels: seq<Channel>, diff: Diff, envs: seq<Env>)
    returns (sent: seq<Option<Message>>, failed: set<string>)
    requires store.Valid()
    requires |envs| == |channels|
    requires forall i, j :: 0 <= i < j < |channels| ==> channels[i].name != channels[j].name
    requires forall i :: 0 <= i < |channels| ==> Distinct(Backlog(store.kv, channels[i]))
    modifies store`kv
    ensures store.Valid()
    ensures |sent| == |channels|
    ensures forall i :: 0 <= i < |channels| ==>
      var alone := Attempted(old(store.kv), channels[i], diff, envs[i]);
      && sent[i] == alone.sent
      && (channels[i].name in failed <==> alone.failed)
      && Own(store.kv, channels[i]) == Own(alone.kv, channels[i])
    ensures forall k ::
      (forall i :: 0 <= i < |channels| ==> k != PendingKey(channels[i]) && k != SentKey(channels[i])) ==>
      Get(store.kv, k) == Get(old(store.kv), k)
    ensures forall name :: name in failed ==> exists i :: 0 <= i < |channels| && channels[i].name == name
  {
    hide Attempted, Distinct, PendingKey, SentKey;
    sent, failed := [], {};
    ghost var kv0 := store.kv;
    for n := 0 to |channels|
      invariant store.Valid()
      invariant |sent| == n
      invariant forall i :: 0 <= i < n ==>
        var alone := Attempted(kv0, channels[i], diff, envs[i]);
        && sent[i] == alone.sent
        && (channels[i].name in failed <==> alone.failed)
        && Own(store.kv, channels[i]) == Own(alone.kv, channels[i])
      invariant forall i :: n <= i < |channels| ==> Own(store.kv, channels[i]) == Own(kv0, channels[i])
      invariant forall k :: (forall i :: 0 <= i < n ==> k != PendingKey(channels[i]) && k != SentKey(channels[i])) ==>
        Get(store.kv, k) == Get(kv0, k)
      invariant forall name :: name in failed ==> exists i :: 0 <= i < n && channels[i].name == name
    {
      ghost var before := store.kv;
      var ch := channels[n];
      assert Backlog(before, ch) == Backlog(kv0, ch);
      var s, f := Deliver(store, ch, diff, envs[n]);
      OwnKeysOnly(before, kv0, ch, diff, envs[n]);
      forall i | 0 <= i < |channels| && i != n ensures Own(store.kv, channels[i]) == Own(before, channels[i]) {
        KeysDiffer(ch, channels[i]);
        KeysDiffer(channels[i], ch);
      }
      sent := sent + [s];
      if f { failed := failed + {ch.name}; }
    }
  }

  // ----- what is left in the table -----------------------------------------------------------------

  /** After a message got through: its time to the second, and no backlog left that it cleared. */
  lemma SentLeaves(kv: KV, ch: Channel, diff: Diff, e: Env)
    requires Attempted(kv, ch, diff, e).sent.Some? && !Attempted(kv, ch, diff, e).failed
    ensures
      var after := Attempted(kv, ch, diff, e).kv;
      && (exists t :: t % 1000 == 0 && t <= e.now < t + 1000 &&
                      Get(after, "notify.last_sent." + ch.name) == Some(Stamp(t)))
      && (Backlog(kv, ch) != [] ==> "notify.pending." + ch.name !in after)
  {
    hide Merged, Filter;
    KeysDiffer(ch, ch);
    var t := Seconds(e.now);
    assert t % 1000 == 0 && t <= e.now < t + 1000;
  }

  /** After a send failed with something to say: a backlog of at most 500 changes, under the channel's own key. */
  lemma FailedLeaves(kv: KV, ch: Channel, diff: Diff, e: Env)
    requires e.readPending && !e.sendOK && e.write && Merged(Backlog(kv, ch), Filter(ch.rule, diff.changes)) != []
    ensures
      var (after, merged) := (Attempted(kv, ch, diff, e).kv, Merged(Backlog(kv, ch), Filter(ch.rule, diff.changes)));
      Get(after, "notify.pending." + ch.name) ==
        Some(Undelivered(if |merged| <= 500 then merged else merged[|merged| - 500..]))
  {
    hide Merged, Filter;
  }

  // ----- the heartbeat's promise ----------------------------------------------------------------

  /** Consecutive deliveries to one channel, over tables only they change. */
  ghost predicate Deliveries(kvs: seq<KV>, ch: Channel, diffs: seq<Diff>, es: seq<Env>) {
    && |kvs| == |es| + 1 && |diffs| == |es|
    && LastHeard(kvs[0], ch).None?
    && forall i :: 0 <= i < |es| ==> Own(kvs[i + 1], ch) == Own(Attempted(kvs[i], ch, diffs[i], es[i]).kv, ch)
  }

  ghost predicate Heard(kvs: seq<KV>, ch: Channel, diffs: seq<Diff>, es: seq<Env>, i: int)
    requires |kvs| == |es| + 1 && |diffs| == |es| && 0 <= i < |es|
  {
    Attempted(kvs[i], ch, diffs[i], es[i]).sent.Some?
  }

  /** The stamp is that of the last delivery heard. */
  lemma {:induction false} StampTells(kvs: seq<KV>, ch: Channel, diffs: seq<Diff>, es: seq<Env>, n: int)
    requires Deliveries(kvs, ch, diffs, es) && 0 <= n <= |es|
    requires forall i :: 0 <= i < n ==> Reliable(es[i])
    ensures LastHeard(kvs[n], ch).Some? ==>
      exists j :: 0 <= j < n && Heard(kvs, ch, diffs, es, j) && LastHeard(kvs[n], ch) == Some(Seconds(es[j].now))
  {
    if n > 0 {
      StampTells(kvs, ch, diffs, es, n - 1);
      StampAfter(kvs[n - 1], ch, diffs[n - 1], es[n - 1]);
      assert LastHeard(kvs[n], ch) == LastHeard(Attempted(kvs[n - 1], ch, diffs[n - 1], es[n - 1]).kv, ch);
      hide Attempted;
    }
  }

  lemma StampAfter(kv: KV, ch: Channel, diff: Diff, e: Env)
    requires Reliable(e)
    ensures
      var o := Attempted(kv, ch, diff, e);
      LastHeard(o.kv, ch) == if o.sent.Some? then Some(Seconds(e.now)) else LastHeard(kv, ch)
  {
    hide Merged, Filter;
    KeysDiffer(ch, ch);
  }

  /**
   * What a heartbeat is for: with a database that answers, whenever a delivery
   * ends without an error the channel heard something less than an interval ago.
   */
  lemma NeverSilentLonger(kvs: seq<KV>, ch: Channel, diffs: seq<Diff>, es: seq<Env>, n: int)
    requires Deliveries(kvs, ch, diffs, es) && 0 <= n < |es|
    requires forall i :: 0 <= i <= n ==> Reliable(es[i])
    requires ch.rule.heartbeat > 0 && !Attempted(kvs[n], ch, diffs[n], es[n]).failed
    ensures exists j :: 0 <= j <= n && Heard(kvs, ch, diffs, es, j) && es[n].now - es[j].now < ch.rule.heartbeat
  {
    hide Merged, Filter;
    if Heard(kvs, ch, diffs, es, n) {
      assert es[n].now - es[n].now < ch.rule.heartbeat;
    } else {
      StampTells(kvs, ch, diffs, es, n);
      var j :| 0 <= j < n && Heard(kvs, ch, diffs, es, j) && LastHeard(kvs[n], ch) == Some(Seconds(es[j].now));
    }
  }

  /** And it does not chatter: a heartbeat only ever comes an interval after what was heard last. */
  lemma HeartbeatWaits(kv: KV, ch: Channel, diff: Diff, e: Env)
    requires LastHeard(kv, ch).Some?
    ensures
      var o := Attempted(kv, ch, diff, e);
      o.sent.Some? && o.sent.value.event == Heartbeat ==> e.now - LastHeard(kv, ch).value >= ch.rule.heartbeat > 0
  {
    hide Merged, Filter;
  }
}
