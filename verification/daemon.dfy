/** The daemon: one round of recording, telling and pruning, and any number of them. */
module Daemon {
  import opened Core
  import opened Lifecycle
  import opened State
  import opened Notify
  import opened Delivery
  import opened Pending
  import opened Sync

  /** Whether each channel holds at most one undelivered change per finding. */
  ghost predicate TidyBacklogs(kv: KV, channels: seq<Channel>) {
    forall i :: 0 <= i < |channels| ==> Distinct(Backlog(kv, channels[i]))
  }

  /** The run names no finding twice and only current check IDs, and stored rows can be renamed without meeting. */
  ghost predicate Recordable(t: Table, res: RunResult, canon: string -> string) {
    NoRepeats(res) && CurrentIDs(Current(res), canon) && Renameable(t, canon)
  }

  /** Every stored row is filed under a current check ID. */
  ghost predicate UpToDate(t: Table, canon: string -> string) {
    forall k :: k in t ==> canon(k.checkID) == k.checkID
  }

  function ToldBy(sent: Option<Message>): seq<Change> {
    if sent.Some? then sent.value.changes else []
  }

  /** Recording, this channel's delivery and pruning make a round, whatever happens to other channels' keys. */
  lemma RoundOfChannel(t: Table, mid: Table, turn: Turn, diff: Diff, kv: KV, kv': KV, ch: Channel, told: seq<Change>)
    requires Renameable(t, turn.canon) && CurrentIDs(Current(turn.res), turn.canon) && turn.changes == diff.changes
    requires DiffTells(Renamed(t, turn.canon), turn.res, turn.resolveAfter, diff.changes)
    requires TableSteps(Renamed(t, turn.canon), turn.res, turn.resolveAfter, mid)
    requires Own(kv', ch) == Own(Attempted(kv, ch, diff, turn.e).kv, ch)
    ensures
      var sent := Attempted(kv, ch, diff, turn.e).sent;
      Round(World(t, Backlog(kv, ch), told), turn, ch.rule,
            World(KeptFindings(mid, turn.cutoff), Backlog(kv', ch), told + ToldBy(sent)))
  {
    DeliveryIsAttempt(kv, ch, diff, turn.e);
    hide Attempted, Digested, NextBacklog, Renamed, Renameable, DiffTells, TableSteps, KeptFindings;
    hide CurrentIDs, Current;
    assert Backlog(kv', ch) == Backlog(Attempted(kv, ch, diff, turn.e).kv, ch);
  }

  lemma BacklogStaysTidy(kv: KV, kv': KV, ch: Channel, diff: Diff, e: Env)
    requires Distinct(Backlog(kv, ch)) && Distinct(diff.changes)
    requires Own(kv', ch) == Own(Attempted(kv, ch, diff, e).kv, ch)
    ensures Distinct(Backlog(kv', ch))
  {
    hide Attempted, NextBacklog, Filter, Distinct;
    DeliveryIsAttempt(kv, ch, diff, e);
    FilterKeeps(ch.rule, diff.changes);
    StepStaysDistinct(Backlog(kv, ch), Attempt(Filter(ch.rule, diff.changes), e));
    assert Backlog(kv', ch) == Backlog(Attempted(kv, ch, diff, e).kv, ch);
  }

  lemma StaysUpToDate(t: Table, mid: Table, res: RunResult, resolveAfter: int, canon: string -> string, cutoff: int)
    requires WellKeyed(t) && Renameable(t, canon) && CurrentIDs(Current(res), canon)
    requires TableSteps(Renamed(t, canon), res, resolveAfter, mid)
    ensures UpToDate(KeptFindings(mid, cutoff), canon)
  {
    hide Renamed, Renameable, WellKeyed, Current;
    forall k | k in mid ensures canon(k.checkID) == k.checkID {
      RenamedAlerts(t, canon, k);
      OccurrenceMember(Current(res), k);
      assert Get(mid, k) ==
        Next(Get(Renamed(t, canon), k), Observe(res, k), Max(resolveAfter, 1), res.started + res.duration);
    }
  }

  /**
   * Records the run, tells every channel, prunes. If the run can be recorded
   * this is a round of the model for every channel, whatever fails for it; and
   * the store is left fit for the next one.
   */
  method RunOnce(
    store: Store, channels: seq<Channel>, res: RunResult, resolveAfter: int, canon: string -> string,
    envs: seq<Env>, cutoff: int)
    returns (diff: Diff, sent: seq<Option<Message>>, failed: set<string>)
    requires store.Valid()
    requires |envs| == |channels|
    requires forall i, j :: 0 <= i < j < |channels| ==> channels[i].name != channels[j].name
    requires TidyBacklogs(store.kv, channels)
    modifies store
    ensures store.Valid() && |sent| == |channels|
    ensures Recordable(old(store.findings), res, canon) ==>
      && TidyBacklogs(store.kv, channels) && UpToDate(store.findings, canon)
      && forall i, told: seq<Change> :: 0 <= i < |channels| ==>
        Round(World(old(store.findings), Backlog(old(store.kv), channels[i]), told),
              Turn(res, resolveAfter, canon, diff.changes, envs[i], cutoff), channels[i].rule,
              World(store.findings, Backlog(store.kv, channels[i]), told + ToldBy(sent[i])))
  {
    hide Round, TableSteps, DiffTells, Distinct, Attempted, KeptFindings, Backlog, NoRepeats, CurrentIDs, Current;
    hide Renameable, Renamed, Own, UpToDate, WellKeyed;
    ghost var t, kv := store.findings, store.kv;
    diff := store.Record(res, resolveAfter, canon);
    ghost var mid := store.findings;
    sent, failed := Dispatch(store, channels, diff, envs);
    ghost var kv' := store.kv;
    var removed := store.Prune(cutoff);
    if Recordable(t, res, canon) {
      StaysUpToDate(t, mid, res, resolveAfter, canon, cutoff);
      ReportsOnce(Renamed(t, canon), Turn(res, resolveAfter, canon, diff.changes, FINE, cutoff));
      forall i | 0 <= i < |channels| ensures Distinct(Backlog(kv', channels[i])) {
        BacklogStaysTidy(kv, kv', channels[i], diff, envs[i]);
      }
      forall i, told: seq<Change> | 0 <= i < |channels|
        ensures
          Round(World(t, Backlog(kv, channels[i]), told),
                Turn(res, resolveAfter, canon, diff.changes, envs[i], cutoff), channels[i].rule,
                World(KeptFindings(mid, cutoff), Backlog(kv', channels[i]), told + ToldBy(sent[i])))
      {
        var turn := Turn(res, resolveAfter, canon, diff.changes, envs[i], cutoff);
        RoundOfChannel(t, mid, turn, diff, kv, kv', channels[i], told);
      }
    }
  }

  // ----- the service ------------------------------------------------------------------------------

  /** What one scheduled run is given: the engine's result, the settings, and the world's answer to each channel. */
  datatype Input = Input(res: RunResult, resolveAfter: int, envs: seq<Env>, cutoff: int)

  ghost predicate Fit(input: Input, channels: seq<Channel>, canon: string -> string) {
    |input.envs| == |channels| && NoRepeats(input.res) && CurrentIDs(Current(input.res), canon)
  }

  ghost predicate TurnOf(t: Turn, input: Input, canon: string -> string, which: nat) {
    && which < |input.envs|
    && t.res == input.res && t.resolveAfter == input.resolveAfter && t.canon == canon
    && t.e == input.envs[which] && t.cutoff == input.cutoff
  }

  lemma {:induction false} OneMoreRun(ws: seq<World>, turns: seq<Turn>, rule: Rule, t: Turn, w: World)
    requires Runs(ws, turns, rule) && Round(ws[|turns|], t, rule, w)
    ensures Runs(ws + [w], turns + [t], rule)
  {
    hide Round;
  }

  /**
   * Run after run from an empty database: for any of the channels this is a
   * history of rounds, so the theorems about them are about the service.
   */
  method Serve(channels: seq<Channel>, inputs: seq<Input>, canon: string -> string, ghost which: nat)
    returns (store: Store, ghost ws: seq<World>, ghost turns: seq<Turn>)
    requires forall i, j :: 0 <= i < j < |channels| ==> channels[i].name != channels[j].name
    requires forall i :: 0 <= i < |inputs| ==> Fit(inputs[i], channels, canon)
    requires which < |channels|
    ensures fresh(store) && store.Valid()
    ensures |turns| == |inputs| && forall i :: 0 <= i < |inputs| ==> TurnOf(turns[i], inputs[i], canon, which)
    ensures Runs(ws, turns, channels[which].rule)
    ensures ws[|inputs|].table == store.findings && ws[|inputs|].pending == Backlog(store.kv, channels[which])
  {
    hide Round, Distinct, NoRepeats, CurrentIDs, Current, WellKeyed, Renameable, Renamed;
    store := new Store();
    ws, turns := [NOTHING], [];
    NothingStoredYet(store.kv, channels, store.findings, canon);
    for n := 0 to |inputs|
      invariant fresh(store) && store.Valid()
      invariant TidyBacklogs(store.kv, channels) && UpToDate(store.findings, canon)
      invariant |turns| == n && forall i :: 0 <= i < n ==> TurnOf(turns[i], inputs[i], canon, which)
      invariant Runs(ws, turns, channels[which].rule)
      invariant ws[n].table == store.findings && ws[n].pending == Backlog(store.kv, channels[which])
    {
      var input := inputs[n];
      ghost var told := ws[n].told;
      NothingRenamed(store.findings, canon);
      var diff, sent, failed :=
        RunOnce(store, channels, input.res, input.resolveAfter, canon, input.envs, input.cutoff);
      ghost var t := Turn(input.res, input.resolveAfter, canon, diff.changes, input.envs[which], input.cutoff);
      ghost var w := World(store.findings, Backlog(store.kv, channels[which]), told + ToldBy(sent[which]));
      OneMoreRun(ws, turns, channels[which].rule, t, w);
      ws, turns := ws + [w], turns + [t];
    }
  }

  lemma NothingStoredYet(kv: KV, channels: seq<Channel>, t: Table, canon: string -> string)
    requires kv == map[] && t == map[]
    ensures TidyBacklogs(kv, channels) && UpToDate(t, canon)
    ensures forall ch :: Backlog(kv, ch) == []
  {
  }
}
