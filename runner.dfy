/**
 * The application object as the batch worker uses it: the requests made so far,
 * `_stop_flag`, `_currently_loaded_model` and the files written are fields that
 * the methods update in place. Every method with a loop is proved to compute
 * exactly the function of the same name in `Residency` or `Batch`, where the
 * properties of that function are proved.
 */
module Runner {
  import opened Wrappers
  import opened Backend
  import opened Residency
  import Batch
  import Validation

  class BatchRunner {
    /** The server and the user, as oracles indexed by trace position. */
    const env: Env
    var trace: seq<Event>
    var stopFlag: bool
    var currentlyLoaded: Option<string>
    var files: map<string, string>

    function State(): World
      reads this
    {
      World(trace, stopFlag, currentlyLoaded, files)
    }

    constructor(env: Env, files: map<string, string>)
      ensures this.env == env && State() == World([], false, None, files)
    {
      this.env := env;
      trace := [];
      stopFlag := false;
      currentlyLoaded := None;
      this.files := files;
    }

    /** Make a request, or sleep. */
    method Send(e: Event)
      modifies this
      ensures State() == Emit(old(State()), e)
    {
      trace := trace + [e];
    }

    /** Read `_stop_flag`, which the user may have set by now. */
    method StopSet() returns (stop: bool)
      modifies this
      ensures State() == Sample(env, old(State())) && stop == State().stop
    {
      stopFlag := stopFlag || env.stopRequested(|trace|);
      stop := stopFlag;
    }

    /**
     * `_get_loaded_models`: list, then keep the loaded entries in order; a loaded
     * entry without an id, like a failed request, gives an empty answer.
     */
    method GetLoadedModels() returns (loaded: seq<Backend.Residency>)
      modifies this
      ensures Step(loaded, State()) == GetLoaded(env, old(State()))
    {
      var listing := env.listing(|trace|);
      Send(ListModels);
      loaded := [];
      if listing.ListingOk? {
        var data := listing.data;
        var i := 0;
        while i < |data|
          invariant 0 <= i <= |data|
          invariant LoadedFrom(data[..i]) == Some(loaded)
          invariant State() == Emit(old(State()), ListModels)
        {
          var m := data[i];
          assert data[..i + 1] == data[..i] + [m];
          LoadedFromSnoc(data[..i], m);
          if IsLoaded(m) {
            if m.id.None? {
              assert data[..i + 1] + data[i + 1..] == data;
              LoadedFromAppend(data[..i + 1], data[i + 1..]);
              return [];
            }
            loaded := loaded + [Resident(m)];
          }
          i := i + 1;
        }
        assert data[..i] == data;
      }
    }

    /** `_do_unload_request`: post the payloads in order until one is accepted. */
    method DoUnloadRequest(id: string, inst: Option<string>) returns (ok: bool)
      modifies this
      ensures Step(ok, State()) == Residency.DoUnloadRequest(env, old(State()), id, inst)
    {
      var payloads := Payloads(id, inst);
      var k := 0;
      while k < 4
        invariant 0 <= k <= 4
        invariant DoUnloadFrom(env, State(), id, inst, k) == Residency.DoUnloadRequest(env, old(State()), id, inst)
      {
        var accepted := env.accepts(|trace|);
        Send(Unload(payloads[k]));
        if accepted {
          return true;
        }
        k := k + 1;
      }
      return false;
    }

    /** The inner loop of a round of `_force_unload_all`: one unload request per resident. */
    method UnloadEach(rs: seq<Backend.Residency>)
      modifies this
      ensures State() == Residency.UnloadEach(env, old(State()), rs)
    {
      var j := 0;
      while j < |rs|
        invariant 0 <= j <= |rs|
        invariant Residency.UnloadEach(env, State(), rs[j..]) == Residency.UnloadEach(env, old(State()), rs)
      {
        assert rs[j..][1..] == rs[j + 1..];
        var accepted := DoUnloadRequest(rs[j].id, rs[j].instanceId);
        j := j + 1;
      }
    }

    /** The rest of a round that found residents: unload each, wait 3 seconds, list again. */
    method Settle(loaded: seq<Backend.Residency>) returns (relisted: seq<Backend.Residency>)
      modifies this
      ensures Step(relisted, State()) == GetLoaded(env, Emit(Residency.UnloadEach(env, old(State()), loaded), Sleep(3)))
    {
      UnloadEach(loaded);
      Send(Sleep(3));
      relisted := GetLoadedModels();
    }

    /**
     * One round of `_force_unload_all`: `settled` when the first listing or the
     * listing after the unloads shows nothing resident.
     */
    method ForceRound(ghost round: nat) returns (settled: bool)
      requires 1 <= round <= ForceRounds
      modifies this
      ensures settled ==> ForceFrom(env, old(State()), round) == Step(true, State())
      ensures !settled ==> ForceFrom(env, old(State()), round) == ForceFrom(env, State(), round + 1)
    {
      ghost var start := State();
      var loaded := GetLoadedModels();
      if loaded == [] {
        return true;
      }
      var relisted := Settle(loaded);
      assert Step(relisted, State()) == Round(env, start);
      settled := relisted == [];
    }

    /** `_force_unload_all`: up to three rounds of unloading every resident. */
    method ForceUnloadAll() returns (ok: bool)
      modifies this
      ensures Step(ok, State()) == Residency.ForceUnloadAll(env, old(State()))
    {
      ghost var target := ForceFrom(env, State(), 1);
      var round := 1;
      ok := false;
      while round <= ForceRounds && !ok
        invariant 1 <= round <= ForceRounds + 1
        invariant if ok then Step(true, State()) == target else ForceFrom(env, State(), round) == target
      {
        ok := ForceRound(round);
        round := round + 1;
      }
    }

    /** `_poll_loading`: list until the model shows, stop is set, or the polls run out. */
    method PollLoading(id: string) returns (ok: bool)
      modifies this
      ensures Step(ok, State()) == Residency.PollLoading(env, old(State()), id)
    {
      var k := 0;
      while k < MaxPolls
        invariant 0 <= k <= MaxPolls
        invariant PollFrom(env, State(), id, k) == Residency.PollLoading(env, old(State()), id)
      {
        var stop := StopSet();
        if stop {
          return false;
        }
        var loaded := GetLoadedModels();
        if id in Ids(loaded) {
          return true;
        }
        Send(Sleep(2));
        k := k + 1;
      }
      return false;
    }

    /** `_load_model`: clear memory, wait, load unless stopped, confirm by polling. */
    method LoadModel(id: string) returns (ok: bool)
      modifies this
      ensures Step(ok, State()) == Residency.LoadModel(env, old(State()), id)
    {
      var cleared := ForceUnloadAll();
      ghost var afterClearing := State();
      Send(Sleep(2));
      var stop := StopSet();
      if stop {
        return false;
      }
      var accepted := env.accepts(|trace|);
      Send(Load(id));
      if !accepted {
        return false;
      }
      currentlyLoaded := Some(id);
      ok := PollLoading(id);
    }

    /** The instance of the first listed entry with the id, as `_unload_model` looks it up. */
    method FindTarget(loaded: seq<Backend.Residency>, id: string) returns (target: Option<string>)
      ensures target == TargetInstance(loaded, id)
    {
      target := None;
      var j := 0;
      while j < |loaded|
        invariant 0 <= j <= |loaded|
        invariant TargetInstance(loaded[j..], id) == TargetInstance(loaded, id)
      {
        assert loaded[j..][1..] == loaded[j + 1..];
        if loaded[j].id == id {
          return loaded[j].instanceId;
        }
        j := j + 1;
      }
    }

    /** `_unload_model`: find the instance, then up to three attempts, each checked by a listing. */
    method UnloadModel(id: string) returns (ok: bool)
      modifies this
      ensures Step(ok, State()) == Residency.UnloadModel(env, old(State()), id)
    {
      var loaded := GetLoadedModels();
      var target := FindTarget(loaded, id);
      if !Resolved(target) {
        return true;
      }
      ok := UnloadAttempts(id, target.value);
    }

    /** One attempt of `_unload_model`: request the unload, wait 2 seconds, list again. */
    method AttemptOnce(id: string, inst: string) returns (after: seq<Backend.Residency>)
      modifies this
      ensures Step(after, State()) == Attempt(env, old(State()), id, inst)
    {
      var accepted := DoUnloadRequest(id, Some(inst));
      Send(Sleep(2));
      after := GetLoadedModels();
    }

    /** One attempt of `_unload_model` that ends it exactly when the listing no longer shows the id. */
    method UnloadStep(id: string, inst: string, ghost attempt: nat) returns (done: bool)
      requires 1 <= attempt <= Residency.UnloadAttempts
      modifies this
      ensures done ==> UnloadFrom(env, old(State()), id, inst, attempt) == Step(true, State())
      ensures !done ==> UnloadFrom(env, old(State()), id, inst, attempt) == UnloadFrom(env, State(), id, inst, attempt + 1)
    {
      var after := AttemptOnce(id, inst);
      done := id !in Ids(after);
      if done {
        currentlyLoaded := None;
      }
    }

    /** The attempts of `_unload_model` on a resolved instance; success clears the current model. */
    method UnloadAttempts(id: string, inst: string) returns (ok: bool)
      modifies this
      ensures Step(ok, State()) == UnloadFrom(env, old(State()), id, inst, 1)
    {
      ghost var target := UnloadFrom(env, State(), id, inst, 1);
      var attempt := 1;
      ok := false;
      while attempt <= Residency.UnloadAttempts && !ok
        invariant 1 <= attempt <= Residency.UnloadAttempts + 1
        invariant if ok then Step(true, State()) == target else UnloadFrom(env, State(), id, inst, attempt) == target
      {
        ok := UnloadStep(id, inst, attempt);
        attempt := attempt + 1;
      }
    }

    /** Write the file; `ok` is false when writing raised. */
    method SaveFile(name: string, text: string) returns (ok: bool)
      modifies this
      ensures Step(ok, State()) == Batch.SaveFile(env, old(State()), name, text)
    {
      ok := env.writeOk(|trace|);
      Send(Save(name, text));
      if ok {
        files := files[name := text];
      }
    }

    /** Unload the model just used; when that fails, unload everything. */
    method TidyUp(id: string)
      modifies this
      ensures State() == Batch.TidyUp(env, old(State()), id)
    {
      var unloaded := UnloadModel(id);
      if !unloaded {
        var cleared := ForceUnloadAll();
      }
    }

    /** The delay between models: `delay` one-second sleeps, each after checking the stop flag. */
    method Delay(delay: nat)
      modifies this
      ensures State() == Batch.DelayFrom(env, old(State()), 0, delay)
    {
      var k := 0;
      while k < delay
        invariant 0 <= k <= delay
        invariant Batch.DelayFrom(env, State(), k, delay) == Batch.DelayFrom(env, old(State()), 0, delay)
      {
        var stop := StopSet();
        if stop {
          return;
        }
        Send(Sleep(1));
        k := k + 1;
      }
    }

    /** Save, tidy up, check the stop flag, and wait before the next model. */
    method Finish(id: string, name: string, text: string, wait: nat) returns (t: Batch.TurnEnd)
      modifies this
      ensures Step(t, State()) == Batch.Finish(env, old(State()), id, name, text, wait)
    {
      var saved := SaveFile(name, text);
      TidyUp(id);
      var stop := StopSet();
      if stop {
        return Batch.Counted(Batch.Generated(saved), true);
      }
      Delay(wait);
      t := Batch.Counted(Batch.Generated(saved), false);
    }

    /** Ask for the completion; a stop during generation aborts before anything is saved. */
    method Generate(cfg: Batch.Config, id: string, wait: nat) returns (t: Batch.TurnEnd)
      modifies this
      ensures Step(t, State()) == Batch.Generate(env, cfg, id, wait, old(State()))
    {
      var g := env.generation(|trace|);
      Send(Complete(Batch.RequestFor(cfg, id), cfg.job.maxWait));
      var stop := StopSet();
      if stop {
        return Batch.Aborted;
      }
      t := Finish(id, Batch.FileName(cfg, id), Batch.FileBody(cfg, id, g), wait);
    }

    /** One model's turn in `_run_batch`: load it, then generate unless loading failed or stop was set. */
    method TakeTurn(cfg: Batch.Config, id: string, wait: nat) returns (t: Batch.TurnEnd)
      modifies this
      ensures Step(t, State()) == Batch.Turn(env, cfg, id, wait, old(State()))
    {
      var loaded := LoadModel(id);
      if !loaded {
        return Batch.Counted(Batch.LoadFailed, false);
      }
      var stop := StopSet();
      if stop {
        return Batch.Counted(Batch.LoadFailed, false);
      }
      t := Generate(cfg, id, wait);
    }

    /**
     * `_run_batch`: with nothing selected it stops at once; otherwise the selected
     * models in order, ending at the first stop seen at the top of the loop, during
     * generation, or after tidying up; `outcomes` holds the counted turns.
     */
    method RunBatch(cfg: Batch.Config, sel: seq<string>) returns (outcomes: seq<Batch.Outcome>)
      modifies this
      ensures Step(outcomes, State()) == Batch.RunBatch(env, cfg, sel, old(State()))
    {
      if sel == [] {
        return [];
      }
      Batch.TurnOfIsTurn(env, cfg);
      outcomes := RunTurns(cfg, sel, Batch.TurnOf(env, cfg));
    }

    /** The loop of `_run_batch`, where `turn` stands for `Batch.Turn`. */
    method RunTurns(cfg: Batch.Config, sel: seq<string>, ghost turn: (string, nat, World) -> Step<Batch.TurnEnd>)
      returns (outcomes: seq<Batch.Outcome>)
      requires Batch.IsTurn(env, cfg, turn)
      modifies this
      ensures Step(outcomes, State()) == Batch.RunFrom(env, cfg, turn, sel, 0, old(State()))
    {
      outcomes := [];
      ghost var all := Batch.RunFrom(env, cfg, turn, sel, 0, State());
      assert [] + all.value == all.value;
      var i := 0;
      while i < |sel|
        invariant 0 <= i <= |sel|
        invariant var rest := Batch.RunFrom(env, cfg, turn, sel, i, State());
          all == Step(outcomes + rest.value, rest.world)
      {
        var stop := StopSet();
        if stop {
          assert outcomes + [] == outcomes;
          return;
        }
        ghost var top := State();
        var t := TakeTurn(cfg, sel[i], Batch.WaitAfter(cfg, sel, i));
        assert Step(t, State()) == turn(sel[i], Batch.WaitAfter(cfg, sel, i), top);
        match t
        case Aborted =>
          assert outcomes + [] == outcomes;
          return;
        case Counted(o, breakAfter) =>
          if breakAfter {
            outcomes := outcomes + [o];
            return;
          }
          ghost var rest := Batch.RunFrom(env, cfg, turn, sel, i + 1, State());
          assert outcomes + ([o] + rest.value) == (outcomes + [o]) + rest.value;
          outcomes := outcomes + [o];
          i := i + 1;
      }
      assert outcomes + [] == outcomes;
    }

    /** `_stop_batch`: set the stop flag. */
    method StopBatch()
      modifies this
      ensures State() == old(State()).(stop := true)
    {
      stopFlag := true;
    }

    /**
     * `_start_batch`: check the form; when the batch may start, clear the stop flag
     * and run the selected models with the checked job and the other settings;
     * otherwise change nothing.
     */
    method StartBatch(form: Validation.Form, parse: string -> Option<real>, isDir: string -> bool,
                      confirm: bool, settings: Batch.Config, sel: seq<string>)
      returns (d: Validation.Decision, outcomes: seq<Batch.Outcome>)
      modifies this
      ensures d == Validation.Decide(form, parse, isDir, confirm, |sel|)
      ensures d.Start? ==>
        Step(outcomes, State()) == Batch.RunBatch(env, settings.(job := d.job), sel, old(State()).(stop := false))
      ensures !d.Start? ==> outcomes == [] && State() == old(State())
    {
      d := Validation.Decide(form, parse, isDir, confirm, |sel|);
      outcomes := [];
      if d.Start? {
        outcomes := Begin(settings.(job := d.job), sel);
      }
    }

    /** The start of a checked batch: clear the stop flag, then run it. */
    method Begin(cfg: Batch.Config, sel: seq<string>) returns (outcomes: seq<Batch.Outcome>)
      modifies this
      ensures Step(outcomes, State()) == Batch.RunBatch(env, cfg, sel, old(State()).(stop := false))
    {
      stopFlag := false;
      outcomes := RunBatch(cfg, sel);
    }
  }
}
