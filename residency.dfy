/**
 * The residency controller: what `_get_loaded_models`, `_do_unload_request`,
 * `_force_unload_all`, `_poll_loading`, `_load_model` and `_unload_model` do,
 * as functions from the state before the call to the result and the state after.
 * The methods of `Runner.BatchRunner` are proved to compute exactly these; the
 * lemmas below state what the source promises about them.
 */
module Residency {
  import opened Wrappers
  import opened Backend

  /** Rounds of `_force_unload_all`. */
  const ForceRounds: nat := 3
  /** Attempts of `_unload_model`. */
  const UnloadAttempts: nat := 3
  /** Listings `_poll_loading` makes within its 120-second timeout, one every 2 seconds. */
  const MaxPolls: nat := 60

  /** `_get_loaded_models`: one listing request. */
  function GetLoaded(env: Env, w: World): Step<seq<Residency>> {
    Step(LoadedAt(env, |w.trace|), Emit(w, ListModels))
  }

  /** The unload bodies, in the order they are tried. */
  function Payloads(id: string, inst: Option<string>): (r: seq<UnloadPayload>)
    ensures |r| == 4
  {
    [ByModel(id), ByIdentifier(id), ByInstance(inst), ByModelAndInstance(id, inst)]
  }

  // ---------------------------------------------------------------------------
  //  _do_unload_request
  // ---------------------------------------------------------------------------

  /** The payloads from the `k`-th on, each posted in turn until one is accepted. */
  function DoUnloadFrom(env: Env, w: World, id: string, inst: Option<string>, k: nat): Step<bool>
    requires k <= 4
    decreases 4 - k
  {
    if k == 4 then Step(false, w)
    else
      var w1 := Emit(w, Unload(Payloads(id, inst)[k]));
      if env.accepts(|w.trace|) then Step(true, w1)
      else DoUnloadFrom(env, w1, id, inst, k + 1)
  }

  /** `_do_unload_request`. */
  function DoUnloadRequest(env: Env, w: World, id: string, inst: Option<string>): Step<bool> {
    DoUnloadFrom(env, w, id, inst, 0)
  }

  /**
   * From `w` to `w'`, unload requests carrying the payloads from the `k`-th on were
   * made, one per payload in order; every one but the last was refused, and
   * `accepted` is whether the last was accepted. Unless accepted, every payload
   * was tried.
   */
  predicate PayloadsTried(env: Env, w: World, w': World, id: string, inst: Option<string>, k: nat, accepted: bool) {
    && w.trace <= w'.trace && w' == w.(trace := w'.trace)
    && k + (|w'.trace| - |w.trace|) <= 4
    && (k < 4 ==> |w'.trace| > |w.trace|)
    && (forall i :: |w.trace| <= i < |w'.trace| ==>
          k + i - |w.trace| < 4 && w'.trace[i] == Unload(Payloads(id, inst)[k + i - |w.trace|]))
    && (forall i :: |w.trace| <= i < |w'.trace| - 1 ==> !env.accepts(i))
    && (accepted <==> |w'.trace| > |w.trace| && env.accepts(|w'.trace| - 1))
    && (!accepted ==> k + (|w'.trace| - |w.trace|) == 4)
  }

  /**
   * `_do_unload_request` tries the payloads `model`, `identifier`, `instance_id`,
   * `model` with `instance_id`, in that order, stops at the first accepted one, and
   * reports whether one was accepted; so it sends between one and four requests.
   */
  lemma {:induction false} DoUnloadTries(env: Env, w: World, id: string, inst: Option<string>, k: nat)
    requires k <= 4
    decreases 4 - k
    ensures PayloadsTried(env, w, DoUnloadFrom(env, w, id, inst, k).world, id, inst, k, DoUnloadFrom(env, w, id, inst, k).value)
  {
    if k < 4 && !env.accepts(|w.trace|) {
      var w1 := Emit(w, Unload(Payloads(id, inst)[k]));
      DoUnloadTries(env, w1, id, inst, k + 1);
      var r := DoUnloadFrom(env, w1, id, inst, k + 1);
      RefusedThenTried(env, w, r.world, id, inst, k, r.value);
    }
  }

  /** A refused request with the `k`-th payload, then the rest tried from the next one. */
  lemma RefusedThenTried(env: Env, w: World, w': World, id: string, inst: Option<string>, k: nat, accepted: bool)
    requires k < 4 && !env.accepts(|w.trace|)
    requires PayloadsTried(env, Emit(w, Unload(Payloads(id, inst)[k])), w', id, inst, k + 1, accepted)
    ensures PayloadsTried(env, w, w', id, inst, k, accepted)
  {
    var w1 := Emit(w, Unload(Payloads(id, inst)[k]));
    forall i | |w.trace| <= i < |w'.trace|
      ensures k + i - |w.trace| < 4 && w'.trace[i] == Unload(Payloads(id, inst)[k + i - |w.trace|])
    {
      if i == |w.trace| {
        assert w'.trace[i] == w1.trace[i];
      }
    }
  }

  /** Unload requests only: the trace grows by `Unload` events and nothing else changes. */
  predicate UnloadsOnly(w: World, w': World) {
    && w.trace <= w'.trace && w' == w.(trace := w'.trace)
    && forall i :: |w.trace| <= i < |w'.trace| ==> w'.trace[i].Unload?
  }

  /** One `_do_unload_request` per resident model, in listing order; the results are ignored. */
  function UnloadEach(env: Env, w: World, rs: seq<Residency>): World
    decreases |rs|
  {
    if rs == [] then w
    else UnloadEach(env, DoUnloadRequest(env, w, rs[0].id, rs[0].instanceId).world, rs[1..])
  }

  /**
   * `run`, made from trace position `p` on, is one `_do_unload_request` for `r`: its
   * payloads in order, every request but the last refused, and all four of them
   * unless the last was accepted.
   */
  predicate UnloadRun(env: Env, p: nat, run: seq<Event>, r: Residency) {
    && 1 <= |run| <= 4
    && (forall j :: 0 <= j < |run| ==> run[j] == Unload(Payloads(r.id, r.instanceId)[j]))
    && (forall i :: p <= i < p + |run| - 1 ==> !env.accepts(i))
    && (env.accepts(p + |run| - 1) || |run| == 4)
  }

  /** `t`, made from trace position `p` on, is one unload run per entry of `rs`, in listing order. */
  ghost predicate UnloadRuns(env: Env, p: nat, t: seq<Event>, rs: seq<Residency>)
    decreases |rs|
  {
    if rs == [] then t == []
    else exists n :: 1 <= n <= |t| && UnloadRun(env, p, t[..n], rs[0]) && UnloadRuns(env, p + n, t[n..], rs[1..])
  }

  /** One `_do_unload_request` is an unload run. */
  lemma RequestIsRun(env: Env, w: World, r: Residency)
    ensures var d := DoUnloadRequest(env, w, r.id, r.instanceId).world;
      w.trace <= d.trace && UnloadRun(env, |w.trace|, Added(w, d), r)
  {
    var d := DoUnloadRequest(env, w, r.id, r.instanceId);
    DoUnloadTries(env, w, r.id, r.instanceId, 0);
    var run := Added(w, d.world);
    forall j | 0 <= j < |run|
      ensures run[j] == Unload(Payloads(r.id, r.instanceId)[j])
    {
      assert run[j] == d.world.trace[|w.trace| + j];
    }
  }

  /**
   * Every resident gets one `_do_unload_request`, in listing order, so at least one
   * and at most four unload requests, and nothing else happens.
   */
  lemma {:induction false} UnloadEachSpec(env: Env, w: World, rs: seq<Residency>)
    decreases |rs|
    ensures UnloadsOnly(w, UnloadEach(env, w, rs))
    ensures |rs| <= |UnloadEach(env, w, rs).trace| - |w.trace| <= 4 * |rs|
    ensures UnloadRuns(env, |w.trace|, Added(w, UnloadEach(env, w, rs)), rs)
  {
    if rs == [] {
      assert Added(w, w) == [];
    } else {
      var d := DoUnloadRequest(env, w, rs[0].id, rs[0].instanceId);
      DoUnloadTries(env, w, rs[0].id, rs[0].instanceId, 0);
      RequestIsRun(env, w, rs[0]);
      UnloadEachSpec(env, d.world, rs[1..]);
      var r := UnloadEach(env, d.world, rs[1..]);
      forall i | |w.trace| <= i < |r.trace|
        ensures r.trace[i].Unload?
      {
        if i < |d.world.trace| {
          assert r.trace[i] == d.world.trace[i];
        }
      }
      RunThenRuns(env, w, d.world, r, rs);
    }
  }

  /** The run for the first resident, then the runs for the others. */
  lemma RunThenRuns(env: Env, w: World, d: World, r: World, rs: seq<Residency>)
    requires rs != [] && w.trace <= d.trace <= r.trace
    requires UnloadRun(env, |w.trace|, Added(w, d), rs[0])
    requires UnloadRuns(env, |d.trace|, Added(d, r), rs[1..])
    ensures UnloadRuns(env, |w.trace|, Added(w, r), rs)
  {
    var t := Added(w, r);
    var n := |d.trace| - |w.trace|;
    assert t[..n] == Added(w, d);
    assert t[n..] == Added(d, r);
  }

  lemma UnloadsOnlyAdmin(w: World, w': World)
    requires UnloadsOnly(w, w')
    ensures AdminStep(w, w')
  {
  }

  // ---------------------------------------------------------------------------
  //  _force_unload_all
  // ---------------------------------------------------------------------------

  /**
   * One round of `_force_unload_all` that found residents: unload each of them (the
   * listing at `w`), wait 3 seconds, list again.
   */
  function Round(env: Env, w: World): Step<seq<Residency>> {
    var listed := GetLoaded(env, w);
    GetLoaded(env, Emit(UnloadEach(env, listed.world, listed.value), Sleep(3)))
  }

  /**
   * The rounds of `_force_unload_all` from `round` on: list; stop if nothing is
   * resident; otherwise unload every resident model, wait 3 seconds and list again;
   * stop if nothing is resident now. After the third round, give up.
   */
  function ForceFrom(env: Env, w: World, round: nat): Step<bool>
    requires 1 <= round <= ForceRounds + 1
    decreases ForceRounds + 1 - round
  {
    if round > ForceRounds then Step(false, w)
    else if LoadedAt(env, |w.trace|) == [] then Step(true, Emit(w, ListModels))
    else
      var relisted := Round(env, w);
      if relisted.value == [] then Step(true, relisted.world)
      else ForceFrom(env, relisted.world, round + 1)
  }

  /** `_force_unload_all`. */
  function ForceUnloadAll(env: Env, w: World): Step<bool> {
    ForceFrom(env, w, 1)
  }

  /**
   * Residency requests only, nothing but the trace changes, the last request is a
   * listing, and the result says whether that listing was empty.
   */
  predicate ForceOutcome(env: Env, w: World, r: Step<bool>) {
    && AdminStep(w, r.world) && r.world == w.(trace := r.world.trace)
    && |r.world.trace| > |w.trace|
    && r.world.trace[|r.world.trace| - 1] == ListModels
    && (r.value <==> LoadedAt(env, |r.world.trace| - 1) == [])
  }

  /**
   * A round makes residency requests only: a listing, one unload run per resident
   * it showed, in listing order, the 3-second wait, and a listing whose answer it
   * returns.
   */
  ghost predicate RoundOutcome(env: Env, w: World, r: Step<seq<Residency>>) {
    && AdminStep(w, r.world) && r.world == w.(trace := r.world.trace)
    && |r.world.trace| >= |w.trace| + |LoadedAt(env, |w.trace|)| + 3
    && r.world.trace[|w.trace|] == ListModels
    && UnloadRuns(env, |w.trace| + 1, r.world.trace[|w.trace| + 1..|r.world.trace| - 2], LoadedAt(env, |w.trace|))
    && r.world.trace[|r.world.trace| - 2] == Sleep(3)
    && r.world.trace[|r.world.trace| - 1] == ListModels
    && r.value == LoadedAt(env, |r.world.trace| - 1)
  }

  /** Every round has that outcome. */
  lemma RoundSpec(env: Env, w: World)
    ensures RoundOutcome(env, w, Round(env, w))
  {
    var listed := GetLoaded(env, w);
    var u := UnloadEach(env, listed.world, listed.value);
    UnloadEachSpec(env, listed.world, listed.value);
    RoundParts(env, w, listed.world, u, GetLoaded(env, Emit(u, Sleep(3))));
  }

  /** A listing, unload runs for what it showed, the wait and a second listing make a round. */
  lemma RoundParts(env: Env, w: World, listed: World, u: World, relisted: Step<seq<Residency>>)
    requires listed == Emit(w, ListModels)
    requires UnloadsOnly(listed, u) && |u.trace| - |listed.trace| >= |LoadedAt(env, |w.trace|)|
    requires UnloadRuns(env, |listed.trace|, Added(listed, u), LoadedAt(env, |w.trace|))
    requires relisted == Step(LoadedAt(env, |u.trace| + 1), Emit(Emit(u, Sleep(3)), ListModels))
    ensures RoundOutcome(env, w, relisted)
  {
    assert relisted.world.trace[|w.trace| + 1..|relisted.world.trace| - 2] == Added(listed, u);
    UnloadsOnlyAdmin(listed, u);
    assert AdminStep(u, relisted.world);
    AdminStepTrans(listed, u, relisted.world);
    AdminStepTrans(w, listed, relisted.world);
  }

  /** A round waits 3 seconds exactly once. */
  lemma RoundSettlesOnce(env: Env, w: World)
    ensures w.trace <= Round(env, w).world.trace
    ensures Count(Added(w, Round(env, w).world), IsRoundSettle) == 1
  {
    var listed := GetLoaded(env, w);
    var u := UnloadEach(env, listed.world, listed.value);
    UnloadEachSpec(env, listed.world, listed.value);
    var unloads := Added(listed.world, u);
    assert Added(w, Round(env, w).world) == [ListModels] + unloads + [Sleep(3), ListModels];
    assert forall i :: 0 <= i < |unloads| ==> unloads[i] == u.trace[|listed.world.trace| + i];
    CountZero(unloads, IsRoundSettle);
    CountAppend([ListModels], unloads, IsRoundSettle);
    CountAppend([ListModels] + unloads, [Sleep(3), ListModels], IsRoundSettle);
    assert [ListModels][1..] == [];
    assert [Sleep(3), ListModels][1..] == [ListModels];
  }

  /** Residency requests before an outcome keep it an outcome. */
  lemma ForceOutcomeAfter(env: Env, w: World, m: World, r: Step<bool>)
    requires AdminStep(w, m) && m == w.(trace := m.trace)
    requires ForceOutcome(env, m, r)
    ensures ForceOutcome(env, w, r)
  {
    AdminStepTrans(w, m, r.world);
  }

  lemma {:induction false} ForceFromSpec(env: Env, w: World, round: nat)
    requires 1 <= round <= ForceRounds
    decreases ForceRounds + 1 - round
    ensures ForceOutcome(env, w, ForceFrom(env, w, round))
  {
    if LoadedAt(env, |w.trace|) != [] {
      var relisted := Round(env, w);
      RoundSpec(env, w);
      if relisted.value != [] && round < ForceRounds {
        ForceFromSpec(env, relisted.world, round + 1);
        ForceOutcomeAfter(env, w, relisted.world, ForceFrom(env, relisted.world, round + 1));
      } else {
        RoundEnds(env, w, relisted);
      }
    }
  }

  /** A round that ends the rounds leaves an outcome: success exactly when its listing is empty. */
  lemma RoundEnds(env: Env, w: World, relisted: Step<seq<Residency>>)
    requires RoundOutcome(env, w, relisted)
    ensures ForceOutcome(env, w, Step(relisted.value == [], relisted.world))
  {
  }

  /**
   * `_force_unload_all` makes only residency requests, ends with a listing, and
   * reports success exactly when that last listing is empty.
   */
  lemma ForceUnloadAllSpec(env: Env, w: World)
    ensures ForceOutcome(env, w, ForceUnloadAll(env, w))
  {
    ForceFromSpec(env, w, 1);
  }

  /** With nothing resident, `_force_unload_all` succeeds after one listing and no unload request. */
  lemma ForceUnloadNothingResident(env: Env, w: World)
    requires LoadedAt(env, |w.trace|) == []
    ensures ForceUnloadAll(env, w) == Step(true, Emit(w, ListModels))
  {
  }

  /**
   * A failed listing (an error, an unusable body, a loaded entry without an id)
   * reads as nothing resident, so `_force_unload_all` then reports success.
   */
  lemma ForceUnloadTrustsFailedListing(env: Env, w: World)
    requires env.listing(|w.trace|).ListingFailed?
    ensures ForceUnloadAll(env, w).value
  {
  }

  /**
   * From `w` to the end of `r`, at most `k` events satisfy `p`, and exactly `k` when
   * the result is false.
   */
  predicate UsesAtMost(w: World, r: Step<bool>, p: Event -> bool, k: nat) {
    && w.trace <= r.world.trace
    && Count(Added(w, r.world), p) <= k
    && (!r.value ==> Count(Added(w, r.world), p) == k)
  }

  /** One event satisfying `p`, then at most `k` more: at most `k + 1` in all. */
  lemma UsesOneMore(w: World, m: World, r: Step<bool>, p: Event -> bool, k: nat)
    requires w.trace <= m.trace && Count(Added(w, m), p) == 1
    requires UsesAtMost(m, r, p, k)
    ensures UsesAtMost(w, r, p, k + 1)
  {
    CountAdded(w, m, r.world, p);
  }

  /**
   * At most three rounds, one 3-second wait each; a failure means all three rounds
   * were used.
   */
  lemma {:induction false} ForceFromRounds(env: Env, w: World, round: nat)
    requires 1 <= round <= ForceRounds + 1
    decreases ForceRounds + 1 - round
    ensures UsesAtMost(w, ForceFrom(env, w, round), IsRoundSettle, ForceRounds + 1 - round)
  {
    var r := ForceFrom(env, w, round);
    if round > ForceRounds {
      assert Added(w, r.world) == [];
    } else if LoadedAt(env, |w.trace|) == [] {
      assert Added(w, r.world) == [ListModels];
      assert [ListModels][1..] == [];
    } else {
      var relisted := Round(env, w);
      RoundSettlesOnce(env, w);
      if relisted.value != [] {
        ForceFromRounds(env, relisted.world, round + 1);
        UsesOneMore(w, relisted.world, r, IsRoundSettle, ForceRounds + 1 - (round + 1));
      }
    }
  }

  /** `_force_unload_all` waits out at most three rounds, and all three when it fails. */
  lemma ForceUnloadAllRounds(env: Env, w: World)
    ensures UsesAtMost(w, ForceUnloadAll(env, w), IsRoundSettle, ForceRounds)
  {
    ForceFromRounds(env, w, 1);
  }

  // ---------------------------------------------------------------------------
  //  _poll_loading
  // ---------------------------------------------------------------------------

  /**
   * The polls of `_poll_loading` from the `k`-th on: read the stop flag (give up if
   * set), list (succeed if the model is there), wait 2 seconds.
   */
  function PollFrom(env: Env, w: World, id: string, k: nat): Step<bool>
    requires k <= MaxPolls
    decreases MaxPolls - k
  {
    if k == MaxPolls then Step(false, w)
    else
      var checked := Sample(env, w);
      if checked.stop then Step(false, checked)
      else
        var listed := GetLoaded(env, checked);
        if id in Ids(listed.value) then Step(true, listed.world)
        else PollFrom(env, Emit(listed.world, Sleep(2)), id, k + 1)
  }

  /** `_poll_loading`. */
  function PollLoading(env: Env, w: World, id: string): Step<bool> {
    PollFrom(env, w, id, 0)
  }

  /** No listing in `t` from position `from` on shows the model. */
  predicate NeverShown(env: Env, t: seq<Event>, from: nat, id: string) {
    forall i :: from <= i < |t| && t[i] == ListModels ==> id !in Ids(LoadedAt(env, i))
  }

  /**
   * Residency requests only; the stop flag may become set and nothing else changes;
   * a success comes from a last listing that shows the model, with stop clear; a
   * failure means that no listing made showed the model.
   */
  predicate PollOutcome(env: Env, w: World, r: Step<bool>, id: string) {
    && AdminStep(w, r.world) && r.world == w.(trace := r.world.trace, stop := r.world.stop)
    && (w.stop ==> r.world.stop)
    && (r.value ==>
          && |r.world.trace| > |w.trace|
          && r.world.trace[|r.world.trace| - 1] == ListModels
          && id in Ids(LoadedAt(env, |r.world.trace| - 1))
          && !r.world.stop)
    && (!r.value ==> NeverShown(env, r.world.trace, |w.trace|, id))
  }

  lemma {:induction false} PollFromSpec(env: Env, w: World, id: string, k: nat)
    requires k <= MaxPolls
    decreases MaxPolls - k
    ensures PollOutcome(env, w, PollFrom(env, w, id, k), id)
  {
    if k < MaxPolls {
      var checked := Sample(env, w);
      if !checked.stop {
        var listed := GetLoaded(env, checked);
        if id !in Ids(listed.value) {
          var next := Emit(listed.world, Sleep(2));
          PollFromSpec(env, next, id, k + 1);
          var r := PollFrom(env, next, id, k + 1);
          AdminStepTrans(w, next, r.world);
          if !r.value {
            NotShownThenNever(env, w, next, r.world.trace, id);
          }
        }
      }
    }
  }

  /** A listing that did not show the model and a sleep, then no listing showing it. */
  lemma NotShownThenNever(env: Env, w: World, next: World, t: seq<Event>, id: string)
    requires next.trace == w.trace + [ListModels, Sleep(2)]
    requires id !in Ids(LoadedAt(env, |w.trace|))
    requires next.trace <= t && NeverShown(env, t, |next.trace|, id)
    ensures NeverShown(env, t, |w.trace|, id)
  {
    assert t[|w.trace|] == next.trace[|w.trace|] && t[|w.trace| + 1] == next.trace[|w.trace| + 1];
  }

  /**
   * `_poll_loading` lists at most 60 times, and when it gives up without the stop
   * flag set it has used all 60 listings.
   */
  lemma {:induction false} PollFromBounded(env: Env, w: World, id: string, k: nat)
    requires k <= MaxPolls
    decreases MaxPolls - k
    ensures var r := PollFrom(env, w, id, k);
      && w.trace <= r.world.trace
      && Count(Added(w, r.world), IsListing) <= MaxPolls - k
      && (!r.value && !r.world.stop ==> Count(Added(w, r.world), IsListing) == MaxPolls - k)
  {
    var r := PollFrom(env, w, id, k);
    if k == MaxPolls {
      assert Added(w, r.world) == [];
    } else {
      var checked := Sample(env, w);
      if checked.stop {
        assert Added(w, r.world) == [];
      } else {
        var listed := GetLoaded(env, checked);
        assert Count([ListModels], IsListing) == 1 by {
          assert [ListModels][1..] == [];
        }
        if id in Ids(listed.value) {
          assert Added(w, r.world) == [ListModels];
        } else {
          var next := Emit(listed.world, Sleep(2));
          PollFromBounded(env, next, id, k + 1);
          assert r == PollFrom(env, next, id, k + 1);
          assert Added(w, r.world) == [ListModels, Sleep(2)] + Added(next, r.world);
          CountAppend([ListModels, Sleep(2)], Added(next, r.world), IsListing);
          assert Count([ListModels, Sleep(2)], IsListing) == 1 by {
            assert [ListModels, Sleep(2)][1..] == [Sleep(2)];
            assert [Sleep(2)][1..] == [];
          }
        }
      }
    }
  }

  // ---------------------------------------------------------------------------
  //  _load_model
  // ---------------------------------------------------------------------------

  /**
   * `_load_model`: clear memory, then load. The result of clearing is not looked at:
   * the load goes ahead whether or not memory was cleared.
   */
  function LoadModel(env: Env, w: World, id: string): Step<bool> {
    LoadCleared(env, ForceUnloadAll(env, w).world, id)
  }

  /**
   * `_load_model` once memory has been cleared: wait 2 seconds, give up if stop is
   * set, post the load; once accepted the model is recorded as current and the load
   * is confirmed by polling.
   */
  function LoadCleared(env: Env, w: World, id: string): Step<bool> {
    var checked := Sample(env, Emit(w, Sleep(2)));
    if checked.stop then Step(false, checked)
    else if !env.accepts(|checked.trace|) then Step(false, Emit(checked, Load(id)))
    else PollLoading(env, Emit(checked, Load(id)).(current := Some(id)), id)
  }

  /**
   * Residency requests only; a set stop flag stays set; the current model is left
   * alone or becomes `id`; a success means `id` is current, stop is clear and the
   * last listing shows `id`.
   */
  predicate LoadOutcome(env: Env, w: World, r: Step<bool>, id: string) {
    && AdminStep(w, r.world) && |r.world.trace| > |w.trace|
    && r.world == w.(trace := r.world.trace, stop := r.world.stop, current := r.world.current)
    && (w.stop ==> r.world.stop)
    && (r.world.current == w.current || r.world.current == Some(id))
    && (r.value ==>
          && r.world.current == Some(id) && !r.world.stop
          && r.world.trace[|r.world.trace| - 1] == ListModels
          && id in Ids(LoadedAt(env, |r.world.trace| - 1)))
  }

  /**
   * A load that failed although its request, at trace position `p`, was accepted
   * saw no listing after that request showing the model.
   */
  predicate FailedUnseen(env: Env, r: Step<bool>, p: nat, id: string) {
    !r.value && p < |r.world.trace| && r.world.trace[p] == Load(id) && env.accepts(p) ==>
      NeverShown(env, r.world.trace, p + 1, id)
  }

  /**
   * Once memory is cleared, the load has the outcome above, and when the load
   * request (made right after the 2-second wait) was accepted, it fails only if no
   * listing after it showed the model.
   */
  lemma LoadClearedSpec(env: Env, w: World, id: string)
    ensures LoadOutcome(env, w, LoadCleared(env, w, id), id)
    ensures FailedUnseen(env, LoadCleared(env, w, id), |w.trace| + 1, id)
  {
    var checked := Sample(env, Emit(w, Sleep(2)));
    if !checked.stop && env.accepts(|checked.trace|) {
      var loading := Emit(checked, Load(id)).(current := Some(id));
      PollFromSpec(env, loading, id, 0);
      AdminStepTrans(w, loading, PollLoading(env, loading, id).world);
    }
  }

  /**
   * `_load_model` makes residency requests only, keeps a set stop flag set, and
   * either leaves the current model alone or records `id`; a success means `id` is
   * recorded, stop is clear and the last listing shows `id`.
   */
  lemma LoadModelSpec(env: Env, w: World, id: string)
    ensures LoadOutcome(env, w, LoadModel(env, w, id), id)
  {
    var cleared := ForceUnloadAll(env, w);
    ForceUnloadAllSpec(env, w);
    var r := LoadCleared(env, cleared.world, id);
    LoadClearedSpec(env, cleared.world, id);
    assert LoadModel(env, w, id) == r;
    ClearedThenLoaded(env, w, cleared, r, id);
  }

  /**
   * `_load_model` fails after an accepted load request (the one right after the
   * clearing and the 2-second wait) only if no listing after it showed `id`.
   */
  lemma LoadModelFailsUnseen(env: Env, w: World, id: string)
    ensures FailedUnseen(env, LoadModel(env, w, id), |ForceUnloadAll(env, w).world.trace| + 1, id)
  {
    LoadClearedSpec(env, ForceUnloadAll(env, w).world, id);
  }

  /** Clearing memory, then a load with its outcome: the whole has that outcome too. */
  lemma ClearedThenLoaded(env: Env, w: World, cleared: Step<bool>, r: Step<bool>, id: string)
    requires ForceOutcome(env, w, cleared) && LoadOutcome(env, cleared.world, r, id)
    ensures LoadOutcome(env, w, r, id)
  {
    AdminStepTrans(w, cleared.world, r.world);
  }

  /** A successful load ends with a listing that shows the model resident, after residency requests only. */
  lemma ReadyAfterLoad(env: Env, w: World, loaded: Step<bool>, id: string)
    requires LoadOutcome(env, w, loaded, id) && loaded.value
    ensures var m := Sample(env, loaded.world);
      && AdminStep(w, m) && |w.trace| < |m.trace|
      && m.trace[|m.trace| - 1] == ListModels && id in Ids(LoadedAt(env, |m.trace| - 1))
  {
  }

  /**
   * After clearing, `_load_model` waits 2 seconds; the load request follows unless
   * stop was set by then, in which case nothing else happens.
   */
  lemma LoadClearedOrder(env: Env, w: World, id: string)
    ensures var r := LoadCleared(env, w, id);
      && w.trace + [Sleep(2)] <= r.world.trace
      && (Sample(env, Emit(w, Sleep(2))).stop ==> !r.value && r.world.trace == w.trace + [Sleep(2)])
      && (!Sample(env, Emit(w, Sleep(2))).stop ==> w.trace + [Sleep(2), Load(id)] <= r.world.trace)
  {
    var checked := Sample(env, Emit(w, Sleep(2)));
    if !checked.stop && env.accepts(|checked.trace|) {
      var loading := Emit(checked, Load(id)).(current := Some(id));
      PollFromSpec(env, loading, id, 0);
      assert w.trace + [Sleep(2), Load(id)] == loading.trace;
    }
  }

  /**
   * `_load_model` always clears memory first and then waits; the load request
   * follows whether or not clearing succeeded, and is not made when stop was set
   * by then.
   */
  lemma LoadModelOrder(env: Env, w: World, id: string)
    ensures var cleared := ForceUnloadAll(env, w).world;
      var r := LoadModel(env, w, id);
      && cleared.trace + [Sleep(2)] <= r.world.trace
      && (Sample(env, Emit(cleared, Sleep(2))).stop ==> !r.value && r.world.trace == cleared.trace + [Sleep(2)])
      && (!Sample(env, Emit(cleared, Sleep(2))).stop ==> cleared.trace + [Sleep(2), Load(id)] <= r.world.trace)
  {
    LoadClearedOrder(env, ForceUnloadAll(env, w).world, id);
  }

  // ---------------------------------------------------------------------------
  //  _unload_model
  // ---------------------------------------------------------------------------

  /**
   * The instance `_unload_model` targets: that of the first listed entry with the
   * id, `None` when there is no such entry or its instance is `null`.
   */
  function TargetInstance(rs: seq<Residency>, id: string): Option<string> {
    if rs == [] then None
    else if rs[0].id == id then rs[0].instanceId
    else TargetInstance(rs[1..], id)
  }

  /** `rs[i]` is the first entry with the id. */
  predicate FirstWith(rs: seq<Residency>, id: string, i: nat) {
    i < |rs| && rs[i].id == id && forall j :: 0 <= j < i ==> rs[j].id != id
  }

  /** A target is always the instance of the first entry with the id, and a missing id has none. */
  lemma {:induction false} TargetInstanceSpec(rs: seq<Residency>, id: string)
    ensures id !in Ids(rs) ==> TargetInstance(rs, id).None?
    ensures TargetInstance(rs, id).Some? ==>
      exists i: nat :: FirstWith(rs, id, i) && rs[i].instanceId == TargetInstance(rs, id)
  {
    if rs != [] {
      if rs[0].id == id {
        assert FirstWith(rs, id, 0);
        assert Ids(rs)[0] == id;
      } else {
        TargetInstanceSpec(rs[1..], id);
        assert Ids(rs[1..]) == Ids(rs)[1..];
        if TargetInstance(rs, id).Some? {
          var i: nat :| FirstWith(rs[1..], id, i) && rs[1..][i].instanceId == TargetInstance(rs, id);
          FirstWithCons(rs, id, i);
        }
      }
    }
  }

  /** The first entry with the id after a head without it is the first in the whole listing. */
  lemma FirstWithCons(rs: seq<Residency>, id: string, i: nat)
    requires rs != [] && rs[0].id != id && FirstWith(rs[1..], id, i)
    ensures FirstWith(rs, id, i + 1) && rs[i + 1] == rs[1..][i]
  {
    forall j | 0 <= j < i + 1
      ensures rs[j].id != id
    {
      if j > 0 {
        assert rs[j] == rs[1..][j - 1];
      }
    }
  }

  /** `if not target_instance`: no instance, or an empty one, means there is nothing to unload. */
  predicate Resolved(target: Option<string>) {
    target.Some? && target.value != ""
  }

  /** One attempt of `_unload_model`: the unload request, a 2-second wait, a listing. */
  function Attempt(env: Env, w: World, id: string, inst: string): Step<seq<Residency>> {
    GetLoaded(env, Emit(DoUnloadRequest(env, w, id, Some(inst)).world, Sleep(2)))
  }

  /**
   * The attempts of `_unload_model` from `attempt` on; once the id is gone the
   * current model is cleared and the result is true. After the third attempt, give
   * up. Whether the unload request itself was accepted is not looked at.
   */
  function UnloadFrom(env: Env, w: World, id: string, inst: string, attempt: nat): Step<bool>
    requires 1 <= attempt <= UnloadAttempts + 1
    decreases UnloadAttempts + 1 - attempt
  {
    if attempt > UnloadAttempts then Step(false, w)
    else
      var listed := Attempt(env, w, id, inst);
      if id !in Ids(listed.value) then Step(true, listed.world.(current := None))
      else UnloadFrom(env, listed.world, id, inst, attempt + 1)
  }

  /** `_unload_model`. */
  function UnloadModel(env: Env, w: World, id: string): Step<bool> {
    var listed := GetLoaded(env, w);
    var target := TargetInstance(listed.value, id);
    if !Resolved(target) then Step(true, listed.world)
    else UnloadFrom(env, listed.world, id, target.value, 1)
  }

  /**
   * Residency requests only; only the trace and the current model change; the last
   * request is a listing and the result says whether it no longer shows the id;
   * the current model is cleared exactly on success.
   */
  predicate UnloadOutcome(env: Env, w: World, r: Step<bool>, id: string) {
    && AdminStep(w, r.world) && r.world == w.(trace := r.world.trace, current := r.world.current)
    && |r.world.trace| > |w.trace|
    && r.world.trace[|r.world.trace| - 1] == ListModels
    && (r.value <==> id !in Ids(LoadedAt(env, |r.world.trace| - 1)))
    && r.world.current == (if r.value then None else w.current)
  }

  /** Residency requests only, ending with the listing whose answer is `r.value`. */
  predicate AttemptOutcome(env: Env, w: World, r: Step<seq<Residency>>) {
    && AdminStep(w, r.world) && r.world == w.(trace := r.world.trace)
    && |r.world.trace| > |w.trace|
    && r.world.trace[|r.world.trace| - 1] == ListModels
    && r.value == LoadedAt(env, |r.world.trace| - 1)
  }

  /** An attempt makes residency requests only and returns the answer of the listing it ends with. */
  lemma AttemptSpec(env: Env, w: World, id: string, inst: string)
    ensures AttemptOutcome(env, w, Attempt(env, w, id, inst))
  {
    var requested := DoUnloadRequest(env, w, id, Some(inst));
    DoUnloadTries(env, w, id, Some(inst), 0);
    UnloadsOnlyAdmin(w, requested.world);
    AdminStepTrans(w, requested.world, Attempt(env, w, id, inst).world);
  }

  /** An attempt waits 2 seconds exactly once. */
  lemma AttemptWaitsOnce(env: Env, w: World, id: string, inst: string)
    ensures w.trace <= Attempt(env, w, id, inst).world.trace
    ensures Count(Added(w, Attempt(env, w, id, inst).world), IsRecheckWait) == 1
  {
    var requested := DoUnloadRequest(env, w, id, Some(inst));
    DoUnloadTries(env, w, id, Some(inst), 0);
    var unloads := Added(w, requested.world);
    assert Added(w, Attempt(env, w, id, inst).world) == unloads + [Sleep(2), ListModels];
    assert forall i :: 0 <= i < |unloads| ==> unloads[i] == requested.world.trace[|w.trace| + i];
    CountZero(unloads, IsRecheckWait);
    CountAppend(unloads, [Sleep(2), ListModels], IsRecheckWait);
    assert [Sleep(2), ListModels][1..] == [ListModels];
    assert [ListModels][1..] == [];
  }

  lemma {:induction false} UnloadFromSpec(env: Env, w: World, id: string, inst: string, attempt: nat)
    requires 1 <= attempt <= UnloadAttempts
    decreases UnloadAttempts + 1 - attempt
    ensures UnloadOutcome(env, w, UnloadFrom(env, w, id, inst, attempt), id)
  {
    var listed := Attempt(env, w, id, inst);
    AttemptSpec(env, w, id, inst);
    if id !in Ids(listed.value) {
      AttemptSucceeds(env, w, listed, id);
    } else if attempt < UnloadAttempts {
      UnloadFromSpec(env, listed.world, id, inst, attempt + 1);
      AttemptThenOutcome(env, w, listed, UnloadFrom(env, listed.world, id, inst, attempt + 1), id);
    } else {
      AttemptFails(env, w, listed, id);
    }
  }

  lemma AttemptSucceeds(env: Env, w: World, listed: Step<seq<Residency>>, id: string)
    requires AttemptOutcome(env, w, listed) && id !in Ids(listed.value)
    ensures UnloadOutcome(env, w, Step(true, listed.world.(current := None)), id)
  {
  }

  lemma AttemptFails(env: Env, w: World, listed: Step<seq<Residency>>, id: string)
    requires AttemptOutcome(env, w, listed) && id in Ids(listed.value)
    ensures UnloadOutcome(env, w, Step(false, listed.world), id)
  {
  }

  lemma AttemptThenOutcome(env: Env, w: World, listed: Step<seq<Residency>>, r: Step<bool>, id: string)
    requires AttemptOutcome(env, w, listed) && UnloadOutcome(env, listed.world, r, id)
    ensures UnloadOutcome(env, w, r, id)
  {
    AdminStepTrans(w, listed.world, r.world);
  }

  /**
   * `_unload_model` makes residency requests only and ends with a listing. It
   * succeeds when there is no instance to target, and otherwise exactly when the
   * last listing no longer shows the id; only that second kind of success clears
   * the current model.
   */
  lemma UnloadModelSpec(env: Env, w: World, id: string)
    ensures var r := UnloadModel(env, w, id);
      var target := TargetInstance(LoadedAt(env, |w.trace|), id);
      && AdminStep(w, r.world) && r.world == w.(trace := r.world.trace, current := r.world.current)
      && |r.world.trace| > |w.trace|
      && r.world.trace[|r.world.trace| - 1] == ListModels
      && (r.value <==> !Resolved(target) || id !in Ids(LoadedAt(env, |r.world.trace| - 1)))
      && r.world.current == (if r.value && Resolved(target) then None else w.current)
  {
    var listed := GetLoaded(env, w);
    var target := TargetInstance(listed.value, id);
    if Resolved(target) {
      UnloadFromSpec(env, listed.world, id, target.value, 1);
      AdminStepTrans(w, listed.world, UnloadFrom(env, listed.world, id, target.value, 1).world);
    }
  }

  /** A model the listing does not show is reported unloaded after that one listing. */
  lemma UnloadModelNotListed(env: Env, w: World, id: string)
    requires id !in Ids(LoadedAt(env, |w.trace|))
    ensures UnloadModel(env, w, id) == Step(true, Emit(w, ListModels))
  {
    TargetInstanceSpec(LoadedAt(env, |w.trace|), id);
  }

  /** At most three attempts, one 2-second wait each; a failure means all three were made. */
  lemma {:induction false} UnloadFromAttempts(env: Env, w: World, id: string, inst: string, attempt: nat)
    requires 1 <= attempt <= UnloadAttempts + 1
    decreases UnloadAttempts + 1 - attempt
    ensures UsesAtMost(w, UnloadFrom(env, w, id, inst, attempt), IsRecheckWait, UnloadAttempts + 1 - attempt)
  {
    var r := UnloadFrom(env, w, id, inst, attempt);
    if attempt > UnloadAttempts {
      assert Added(w, r.world) == [];
    } else {
      var listed := Attempt(env, w, id, inst);
      AttemptWaitsOnce(env, w, id, inst);
      if id !in Ids(listed.value) {
        assert Added(w, r.world) == Added(w, listed.world);
      } else {
        UnloadFromAttempts(env, listed.world, id, inst, attempt + 1);
        UsesOneMore(w, listed.world, r, IsRecheckWait, UnloadAttempts + 1 - (attempt + 1));
      }
    }
  }

  /** `_unload_model` makes at most three attempts, and all three when it reports failure. */
  lemma UnloadModelAttempts(env: Env, w: World, id: string)
    ensures UsesAtMost(w, UnloadModel(env, w, id), IsRecheckWait, UnloadAttempts)
  {
    var listed := GetLoaded(env, w);
    var target := TargetInstance(listed.value, id);
    var r := UnloadModel(env, w, id);
    if !Resolved(target) {
      assert Added(w, r.world) == [ListModels];
      assert [ListModels][1..] == [];
    } else {
      UnloadFromAttempts(env, listed.world, id, target.value, 1);
      assert Added(w, r.world) == [ListModels] + Added(listed.world, r.world);
      CountAppend([ListModels], Added(listed.world, r.world), IsRecheckWait);
      assert [ListModels][1..] == [];
    }
  }
}
