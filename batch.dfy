/**
 * The batch worker `_run_batch`: for each selected model in turn, load it, ask it
 * for one completion, save the answer to a file, unload it, and wait the
 * configured delay before the next model, honouring the stop flag in between.
 */
module Batch {
  import opened Wrappers
  import opened Backend
  import opened Residency
  import Request
  import Naming
  import Thinking
  import Layout
  import Validation

  /**
   * What one batch works with: the job `_start_batch` hands over, and the settings
   * read from the widgets (the file extension, whether to drop thinking blocks, the
   * session id, the delay between models, the token limit and the temperature).
   */
  datatype Config = Config(
    job: Validation.Job,
    ext: string,
    skipThinking: bool,
    session: string,
    delay: int,
    tokens: int,
    useDefaultTemp: bool,
    temperature: real)

  /** How a counted model's turn ended: loading failed, or a response was generated and saving it succeeded or not. */
  datatype Outcome = LoadFailed | Generated(saved: bool)

  /** A turn either aborts the batch uncounted, or is counted and may end the batch. */
  datatype TurnEnd = Aborted | Counted(outcome: Outcome, breakAfter: bool)

  /** The completion request for model `id`. */
  function RequestFor(cfg: Config, id: string): Request.ChatRequest {
    Request.BuildRequest(id, cfg.job.sysPrompt, cfg.job.prompt, cfg.tokens, cfg.useDefaultTemp, cfg.temperature)
  }

  /** The file model `id` writes to, in the output folder. */
  function FileName(cfg: Config, id: string): string {
    Naming.Filename(cfg.job.template, id, cfg.session, cfg.ext)
  }

  /** The text of that file for generation `g`. */
  function FileBody(cfg: Config, id: string, g: Generation): string {
    Layout.FileText(cfg.ext, id, cfg.session, Thinking.SavedContent(g.content, cfg.skipThinking), g.time, g.tps)
  }

  /** Open the file and write it; when opening or writing fails, nothing is stored. */
  function SaveFile(env: Env, w: World, name: string, text: string): Step<bool> {
    var attempted := Emit(w, Save(name, text));
    if env.writeOk(|w.trace|) then Step(true, attempted.(files := attempted.files[name := text]))
    else Step(false, attempted)
  }

  /** A save adds one `Save` event and, exactly when it succeeds, stores the text under the name. */
  lemma SaveFileSpec(env: Env, w: World, name: string, text: string)
    ensures var r := SaveFile(env, w, name, text);
      && r.world.trace == w.trace + [Save(name, text)]
      && r.world == w.(trace := r.world.trace, files := r.world.files)
      && r.world.files == (if r.value then w.files[name := text] else w.files)
      && (r.value ==> name in r.world.files && r.world.files[name] == text)
  {
  }

  /** After saving: unload the model, and clear memory entirely if that fails. */
  function TidyUp(env: Env, w: World, id: string): World {
    var unloaded := UnloadModel(env, w, id);
    if unloaded.value then unloaded.world else ForceUnloadAll(env, unloaded.world).world
  }

  /** Residency requests only, ending with a listing; only the trace and the current model change. */
  predicate Tidied(w: World, r: World) {
    && AdminStep(w, r) && r == w.(trace := r.trace, current := r.current)
    && |r.trace| > |w.trace| && r.trace[|r.trace| - 1] == ListModels
  }

  lemma ForcedTidied(env: Env, w: World, r: Step<bool>)
    requires ForceOutcome(env, w, r)
    ensures Tidied(w, r.world)
  {
  }

  lemma TidiedTrans(w: World, m: World, r: World)
    requires Tidied(w, m) && Tidied(m, r)
    ensures Tidied(w, r)
  {
    AdminStepTrans(w, m, r);
  }

  /** Tidying up makes residency requests only, ends with a listing, and keeps the stop flag. */
  lemma TidyUpSpec(env: Env, w: World, id: string)
    ensures Tidied(w, TidyUp(env, w, id))
  {
    var unloaded := UnloadModel(env, w, id);
    UnloadModelSpec(env, w, id);
    assert Tidied(w, unloaded.world);
    if !unloaded.value {
      ForceUnloadAllSpec(env, unloaded.world);
      ForcedTidied(env, unloaded.world, ForceUnloadAll(env, unloaded.world));
      TidiedTrans(w, unloaded.world, TidyUp(env, w, id));
    }
  }

  /**
   * From `w`, with `unloaded` the result of `_unload_model` and `r` the state after
   * tidying up: the last listing still shows the model only when the first listing
   * gave it no instance to target, or when `_unload_model` used all three attempts
   * and the fallback `_force_unload_all` then used all three rounds without
   * emptying memory.
   */
  predicate ShownOnlyIfExhausted(env: Env, w: World, id: string, unloaded: Step<bool>, r: World) {
    && w.trace <= unloaded.world.trace <= r.trace && |r.trace| > 0
    && (id in Ids(LoadedAt(env, |r.trace| - 1)) ==>
          || !Resolved(TargetInstance(LoadedAt(env, |w.trace|), id))
          || (&& Count(Added(w, unloaded.world), IsRecheckWait) == UnloadAttempts
              && Count(Added(unloaded.world, r), IsRoundSettle) == ForceRounds
              && LoadedAt(env, |r.trace| - 1) != []))
  }

  /** Tidying up leaves the model listed only after every attempt and every round failed. */
  lemma TidyUpOutcome(env: Env, w: World, id: string)
    ensures ShownOnlyIfExhausted(env, w, id, UnloadModel(env, w, id), TidyUp(env, w, id))
  {
    var unloaded := UnloadModel(env, w, id);
    var forced := ForceUnloadAll(env, unloaded.world);
    var r := TidyUp(env, w, id);
    assert w.trace <= unloaded.world.trace && |unloaded.world.trace| > |w.trace|
      && (unloaded.value <==>
            !Resolved(TargetInstance(LoadedAt(env, |w.trace|), id)) || id !in Ids(LoadedAt(env, |unloaded.world.trace| - 1)))
    by {
      UnloadModelSpec(env, w, id);
    }
    assert UsesAtMost(w, unloaded, IsRecheckWait, UnloadAttempts) by {
      UnloadModelAttempts(env, w, id);
    }
    assert !unloaded.value ==>
      && ForceOutcome(env, unloaded.world, forced)
      && UsesAtMost(unloaded.world, forced, IsRoundSettle, ForceRounds)
    by {
      ForceUnloadAllSpec(env, unloaded.world);
      ForceUnloadAllRounds(env, unloaded.world);
    }
    ExhaustedBeforeShown(env, w, id, unloaded, forced, r);
  }

  /** The outcomes of `_unload_model` and of the fallback put together. */
  lemma ExhaustedBeforeShown(env: Env, w: World, id: string, unloaded: Step<bool>, forced: Step<bool>, r: World)
    requires w.trace <= unloaded.world.trace && |unloaded.world.trace| > |w.trace|
    requires unloaded.value <==>
      !Resolved(TargetInstance(LoadedAt(env, |w.trace|), id)) || id !in Ids(LoadedAt(env, |unloaded.world.trace| - 1))
    requires UsesAtMost(w, unloaded, IsRecheckWait, UnloadAttempts)
    requires unloaded.value ==> r == unloaded.world
    requires !unloaded.value ==>
      && ForceOutcome(env, unloaded.world, forced)
      && UsesAtMost(unloaded.world, forced, IsRoundSettle, ForceRounds)
      && r == forced.world
    ensures ShownOnlyIfExhausted(env, w, id, unloaded, r)
  {
  }

  /** The delay loop from second `k` on: stop early if the flag is set, else sleep one second. */
  function DelayFrom(env: Env, w: World, k: nat, delay: nat): World
    requires k <= delay
    decreases delay - k
  {
    if k == delay then w
    else
      var checked := Sample(env, w);
      if checked.stop then checked
      else DelayFrom(env, Emit(checked, Sleep(1)), k + 1, delay)
  }

  /** Only one-second sleeps, at most the remaining count of them, and all of them unless stopped. */
  predicate Waited(w: World, r: World, n: nat) {
    && w.trace <= r.trace && r == w.(trace := r.trace, stop := r.stop)
    && (w.stop ==> r.stop)
    && (forall i :: |w.trace| <= i < |r.trace| ==> IsDelayTick(r.trace[i]))
    && |r.trace| - |w.trace| <= n
    && (!r.stop ==> |r.trace| - |w.trace| == n)
  }

  lemma {:induction false} DelayFromSpec(env: Env, w: World, k: nat, delay: nat)
    requires k <= delay
    decreases delay - k
    ensures Waited(w, DelayFrom(env, w, k, delay), delay - k)
  {
    if k < delay {
      var checked := Sample(env, w);
      if !checked.stop {
        var next := Emit(checked, Sleep(1));
        DelayFromSpec(env, next, k + 1, delay);
        var r := DelayFrom(env, next, k + 1, delay);
        forall i | |w.trace| <= i < |r.trace|
          ensures IsDelayTick(r.trace[i])
        {
          if i == |w.trace| {
            assert r.trace[i] == next.trace[i];
          }
        }
      }
    }
  }

  /** The delay adds only one-second sleeps, so residency requests only. */
  lemma WaitedAdmin(w: World, r: World, n: nat)
    requires Waited(w, r, n)
    ensures AdminStep(w, r)
  {
  }

  /**
   * The rest of a turn once the response is in: save `text` under `name`, tidy up
   * model `id`, read the stop flag (the batch ends if it is set), then sleep `wait`
   * seconds, checking the flag before each.
   */
  function Finish(env: Env, w: World, id: string, name: string, text: string, wait: nat): Step<TurnEnd> {
    var saved := SaveFile(env, w, name, text);
    var last := Sample(env, TidyUp(env, saved.world, id));
    if last.stop then Step(Counted(Generated(saved.value), true), last)
    else Step(Counted(Generated(saved.value), false), DelayFrom(env, last, 0, wait))
  }

  /** The delay after model `sel[i]`: the configured one, except after the last model. */
  function WaitAfter(cfg: Config, sel: seq<string>, i: nat): nat {
    if cfg.delay > 0 && i < |sel| - 1 then cfg.delay else 0
  }

  /**
   * Finishing adds the `Save` first and residency requests after it; the file is
   * stored exactly when the save succeeded; a counted turn that ends the batch has
   * seen the stop flag set.
   */
  lemma FinishSpec(env: Env, w: World, id: string, name: string, text: string, wait: nat)
    ensures var r := Finish(env, w, id, name, text, wait);
      var saved := SaveFile(env, w, name, text);
      && r.value.Counted? && r.value.outcome == Generated(saved.value)
      && saved.world.trace == w.trace + [Save(name, text)]
      && AdminStep(saved.world, r.world)
      && r.world.files == (if saved.value then w.files[name := text] else w.files)
      && (r.value.breakAfter ==> r.world.stop)
  {
    var saved := SaveFile(env, w, name, text);
    var tidied := TidyUp(env, saved.world, id);
    TidyUpSpec(env, saved.world, id);
    var last := Sample(env, tidied);
    AdminStepTrans(saved.world, tidied, last);
    if !last.stop {
      DelayFromSpec(env, last, 0, wait);
      WaitedAdmin(last, DelayFrom(env, last, 0, wait), wait);
      AdminStepTrans(saved.world, last, DelayFrom(env, last, 0, wait));
    }
  }

  /**
   * A turn ends with the listing that closes the tidy-up, followed by at most
   * `wait` one-second sleeps, and by exactly `wait` of them unless stop was set.
   */
  lemma FinishWaits(env: Env, w: World, id: string, name: string, text: string, wait: nat)
    ensures var r := Finish(env, w, id, name, text, wait).world;
      exists n: nat :: n <= wait && (!r.stop ==> n == wait) && EndsWithSleeps(r.trace, n)
  {
    var saved := SaveFile(env, w, name, text);
    TidyUpSpec(env, saved.world, id);
    SleepsAfterTidy(env, saved.world, TidyUp(env, saved.world, id), Finish(env, w, id, name, text, wait).world, wait);
  }

  /** The flag read after tidying up, then the delay unless it was set. */
  lemma SleepsAfterTidy(env: Env, s: World, t: World, r: World, wait: nat)
    requires Tidied(s, t)
    requires r == (if Sample(env, t).stop then Sample(env, t) else DelayFrom(env, Sample(env, t), 0, wait))
    ensures exists n: nat :: n <= wait && (!r.stop ==> n == wait) && EndsWithSleeps(r.trace, n)
  {
    var last := Sample(env, t);
    if !last.stop {
      DelayFromSpec(env, last, 0, wait);
    }
    SleepsAfterListing(last, r, wait);
  }

  /** Stopping, or waiting right after a listing, leaves the trace ending with that listing and the sleeps. */
  lemma SleepsAfterListing(w: World, r: World, wait: nat)
    requires |w.trace| > 0 && w.trace[|w.trace| - 1] == ListModels
    requires w.stop ==> r == w
    requires !w.stop ==> Waited(w, r, wait)
    ensures exists n: nat :: n <= wait && (!r.stop ==> n == wait) && EndsWithSleeps(r.trace, n)
  {
    if w.stop {
      assert EndsWithSleeps(r.trace, 0);
    } else {
      assert r.trace[|w.trace| - 1] == w.trace[|w.trace| - 1];
      assert EndsWithSleeps(r.trace, |r.trace| - |w.trace|);
    }
  }

  /** The trace ends with a listing followed by `n` one-second sleeps. */
  predicate EndsWithSleeps(t: seq<Event>, n: nat) {
    && |t| > n
    && t[|t| - n - 1] == ListModels
    && forall j :: |t| - n <= j < |t| ==> t[j] == Sleep(1)
  }

  /**
   * One model's turn, once the top-of-loop stop check has passed: load it; a failed
   * load (or a stop during loading) counts the model and moves on; otherwise go on
   * to generate.
   */
  function Turn(env: Env, cfg: Config, id: string, wait: nat, w: World): Step<TurnEnd> {
    var loaded := LoadModel(env, w, id);
    if !loaded.value then Step(Counted(LoadFailed, false), loaded.world)
    else
      var ready := Sample(env, loaded.world);
      if ready.stop then Step(Counted(LoadFailed, false), ready)
      else Generate(env, cfg, id, wait, ready)
  }

  /**
   * The rest of a turn with the model loaded: ask for the completion; a stop during
   * generation aborts the batch before anything is saved; otherwise finish.
   */
  function Generate(env: Env, cfg: Config, id: string, wait: nat, w: World): Step<TurnEnd> {
    var checked := Sample(env, Emit(w, Complete(RequestFor(cfg, id), cfg.job.maxWait)));
    if checked.stop then Step(Aborted, checked)
    else Finish(env, checked, id, FileName(cfg, id), FileBody(cfg, id, env.generation(|w.trace|)), wait)
  }

  /**
   * From `w` to `r`: the completion request for model `id`, then the save of its
   * file holding the response to that request, then residency requests only; the
   * file is stored exactly when the save succeeded.
   */
  predicate Responded(env: Env, cfg: Config, id: string, w: World, r: World, saved: bool) {
    var p := |w.trace|;
    && w.trace <= r.trace && p + 1 < |r.trace|
    && r.trace[p] == Complete(RequestFor(cfg, id), cfg.job.maxWait)
    && r.trace[p + 1] == Save(FileName(cfg, id), FileBody(cfg, id, env.generation(p)))
    && (forall q :: p + 2 <= q < |r.trace| ==> AdminEvent(r.trace[q]))
    && r.files == (if saved then w.files[FileName(cfg, id) := FileBody(cfg, id, env.generation(p))] else w.files)
  }

  /**
   * Generating either aborts, with the stop flag set and nothing saved, or is
   * counted as generated and responded; a counted turn that ends the batch has seen
   * the stop flag set.
   */
  lemma GenerateSpec(env: Env, cfg: Config, id: string, wait: nat, w: World)
    ensures var r := Generate(env, cfg, id, wait, w);
      && w.trace <= r.world.trace
      && (r.value.Aborted? ==> r.world.stop && r.world.files == w.files && Count(Added(w, r.world), IsSave) == 0)
      && (r.value.Counted? ==>
            && r.value.outcome.Generated?
            && Responded(env, cfg, id, w, r.world, r.value.outcome.saved)
            && (r.value.breakAfter ==> r.world.stop))
  {
    var asked := Emit(w, Complete(RequestFor(cfg, id), cfg.job.maxWait));
    var checked := Sample(env, asked);
    if checked.stop {
      assert Added(w, checked) == [Complete(RequestFor(cfg, id), cfg.job.maxWait)];
      assert [Complete(RequestFor(cfg, id), cfg.job.maxWait)][1..] == [];
    } else {
      var name := FileName(cfg, id);
      var text := FileBody(cfg, id, env.generation(|w.trace|));
      FinishSpec(env, checked, id, name, text, wait);
      var saved := SaveFile(env, checked, name, text);
      var r := Finish(env, checked, id, name, text, wait);
      assert r.world.trace[|w.trace|] == saved.world.trace[|w.trace|] == checked.trace[|w.trace|];
      assert r.world.trace[|w.trace| + 1] == saved.world.trace[|w.trace| + 1];
    }
  }

  /**
   * Every turn only adds to the trace; a turn that aborts the batch, or is counted
   * and ends it, has seen the stop flag set; an aborted turn saves nothing; a
   * failed load makes residency requests only, so it neither generates nor saves.
   */
  lemma TurnSpec(env: Env, cfg: Config, id: string, wait: nat, w: World)
    ensures var r := Turn(env, cfg, id, wait, w);
      && w.trace <= r.world.trace
      && (r.value.Aborted? ==> r.world.stop && r.world.files == w.files && Count(Added(w, r.world), IsSave) == 0)
      && (r.value.Counted? && r.value.breakAfter ==> r.world.stop)
      && (r.value.Counted? && r.value.outcome == LoadFailed ==> !r.value.breakAfter && AdminStep(w, r.world))
  {
    var loaded := LoadModel(env, w, id);
    LoadModelSpec(env, w, id);
    if loaded.value {
      var ready := Sample(env, loaded.world);
      if !ready.stop {
        GenerateSpec(env, cfg, id, wait, ready);
        AdminStepCounts(w, ready);
        CountAdded(w, ready, Generate(env, cfg, id, wait, ready).world, IsSave);
      }
    }
  }

  /**
   * A turn that generated: one completion request for the model, made right after
   * a listing that showed the model resident, then the save of its file, holding
   * the response of that request; every other request of the turn is a residency
   * request; the file is stored exactly when the save succeeded.
   */
  predicate GeneratedAt(env: Env, cfg: Config, id: string, w: World, m: World, r: World, saved: bool) {
    && AdminStep(w, m) && |w.trace| < |m.trace|
    && m.trace[|m.trace| - 1] == ListModels && id in Ids(LoadedAt(env, |m.trace| - 1))
    && Responded(env, cfg, id, m, r, saved)
  }

  lemma TurnGenerated(env: Env, cfg: Config, id: string, wait: nat, w: World)
    requires Turn(env, cfg, id, wait, w).value.Counted? && Turn(env, cfg, id, wait, w).value.outcome.Generated?
    ensures GeneratedAt(env, cfg, id, w, Sample(env, LoadModel(env, w, id).world), Turn(env, cfg, id, wait, w).world,
                        Turn(env, cfg, id, wait, w).value.outcome.saved)
  {
    var t := Turn(env, cfg, id, wait, w);
    var ready := Sample(env, LoadModel(env, w, id).world);
    assert LoadModel(env, w, id).value && !ready.stop;
    assert t == Generate(env, cfg, id, wait, ready);
    LoadModelSpec(env, w, id);
    ReadyAfterLoad(env, w, LoadModel(env, w, id), id);
    GenerateSpec(env, cfg, id, wait, ready);
    GeneratedAfterLoading(env, cfg, id, w, ready, t.world, t.value.outcome.saved);
  }


  /** The two halves of a generated turn put together. */
  lemma GeneratedAfterLoading(env: Env, cfg: Config, id: string, w: World, m: World, r: World, saved: bool)
    requires AdminStep(w, m) && |w.trace| < |m.trace|
    requires m.trace[|m.trace| - 1] == ListModels && id in Ids(LoadedAt(env, |m.trace| - 1))
    requires Responded(env, cfg, id, m, r, saved)
    ensures GeneratedAt(env, cfg, id, w, m, r, saved)
  {
  }

  /**
   * A counted turn writes at most one file, named for the model and holding a
   * response the server gave it: one `Save` when it generated, none when loading
   * failed.
   */
  lemma TurnSaves(env: Env, cfg: Config, id: string, wait: nat, w: World)
    requires Turn(env, cfg, id, wait, w).value.Counted?
    ensures var t := Turn(env, cfg, id, wait, w);
      && w.trace <= t.world.trace
      && Count(Added(w, t.world), IsSave) == (if t.value.outcome.Generated? then 1 else 0)
      && (t.world.files == w.files
          || t.world.files == w.files[FileName(cfg, id) :=
               FileBody(cfg, id, env.generation(|Sample(env, LoadModel(env, w, id).world).trace|))])
  {
    var t := Turn(env, cfg, id, wait, w);
    TurnSpec(env, cfg, id, wait, w);
    if t.value.outcome.Generated? {
      TurnGenerated(env, cfg, id, wait, w);
      GeneratedSaves(env, cfg, id, w, Sample(env, LoadModel(env, w, id).world), t.world, t.value.outcome.saved);
    } else {
      AdminStepCounts(w, t.world);
    }
  }

  /** A generated turn holds exactly one `Save`, and stores at most the file it names. */
  lemma GeneratedSaves(env: Env, cfg: Config, id: string, w: World, m: World, r: World, saved: bool)
    requires GeneratedAt(env, cfg, id, w, m, r, saved)
    ensures w.trace <= r.trace && Count(Added(w, r), IsSave) == 1
    ensures r.files == w.files || r.files == w.files[FileName(cfg, id) := FileBody(cfg, id, env.generation(|m.trace|))]
  {
    var p := |m.trace|;
    var m2 := r.(trace := r.trace[..p + 2]);
    var mid := r.trace[p..p + 2];
    assert m2.trace == m.trace + mid;
    assert AdminStep(m2, r);
    CountAround(w, m, mid, m2, r, IsSave);
    AdminStepCounts(w, m);
    AdminStepCounts(m2, r);
    assert mid[1..][1..] == [];
  }

  /**
   * The completion requests of one turn of model `id` from `w`: one, for that
   * model, when it generated or aborted; none when loading failed.
   */
  predicate AsksForOwn(id: string, w: World, t: Step<TurnEnd>) {
    && w.trace <= t.world.trace
    && Asked(Added(w, t.world)) == (if t.value.Aborted? || t.value.outcome.Generated? then [id] else [])
  }

  /**
   * A turn asks for one completion, for its own model, when it generated or was
   * aborted while generating, and for none when loading failed.
   */
  lemma TurnAsks(env: Env, cfg: Config, id: string, wait: nat, w: World)
    ensures AsksForOwn(id, w, Turn(env, cfg, id, wait, w))
  {
    var t := Turn(env, cfg, id, wait, w);
    TurnSpec(env, cfg, id, wait, w);
    if t.value.Counted? && t.value.outcome.Generated? {
      TurnGenerated(env, cfg, id, wait, w);
      GeneratedAsks(env, cfg, id, w, Sample(env, LoadModel(env, w, id).world), t.world, t.value.outcome.saved);
    } else if t.value.Counted? {
      AdminStepAsksNothing(w, t.world);
    } else {
      var loaded := LoadModel(env, w, id);
      var ready := Sample(env, loaded.world);
      assert loaded.value && !ready.stop;
      LoadModelSpec(env, w, id);
      AbortedAsks(cfg, id, w, ready, t.world);
    }
  }

  /** Residency requests, then the completion request for model `id`. */
  lemma AbortedAsks(cfg: Config, id: string, w: World, m: World, r: World)
    requires AdminStep(w, m) && r.trace == m.trace + [Complete(RequestFor(cfg, id), cfg.job.maxWait)]
    ensures w.trace <= r.trace && Asked(Added(w, r)) == [id]
  {
    var asked := [Complete(RequestFor(cfg, id), cfg.job.maxWait)];
    assert Added(w, r) == Added(w, m) + asked;
    AdminStepAsksNothing(w, m);
    AskedAppend(Added(w, m), asked);
    assert asked[1..] == [];
  }

  /** A generated turn asks for exactly one completion, for its own model. */
  lemma GeneratedAsks(env: Env, cfg: Config, id: string, w: World, m: World, r: World, saved: bool)
    requires GeneratedAt(env, cfg, id, w, m, r, saved)
    ensures w.trace <= r.trace && Asked(Added(w, r)) == [id]
  {
    AskedOnce(w, m, r);
  }

  /** The number of models counted as generated. */
  function GeneratedCount(os: seq<Outcome>): (n: nat)
    ensures n <= |os|
  {
    if os == [] then 0 else (if os[0].Generated? then 1 else 0) + GeneratedCount(os[1..])
  }

  /**
   * From `w`, with `n` models left: at most one outcome per model, one for each of
   * them unless the batch was stopped, and one `Save` per generated model.
   */
  predicate Progress(w: World, r: Step<seq<Outcome>>, n: nat) {
    && w.trace <= r.world.trace
    && |r.value| <= n
    && (!r.world.stop ==> |r.value| == n)
    && Count(Added(w, r.world), IsSave) == GeneratedCount(r.value)
  }

  /**
   * `after` is `before` with the file of model `id` holding the response to a
   * completion request for that model, made in `t` at position `from` or later.
   */
  ghost predicate SavedResponse(env: Env, cfg: Config, id: string, before: map<string, string>, after: map<string, string>,
                                t: seq<Event>, from: nat) {
    exists p: nat :: from <= p < |t| && t[p] == Complete(RequestFor(cfg, id), cfg.job.maxWait)
                     && after == before[FileName(cfg, id) := FileBody(cfg, id, env.generation(p))]
  }

  /**
   * From `w` to `r`, files change only by turns of the models from `sel[i]` on:
   * every stored file is one that was there before, untouched, or is named for one
   * of those models and holds the response to a completion request for that model
   * made between `w` and `r`. No file is removed.
   */
  ghost predicate WrittenBy(env: Env, cfg: Config, sel: seq<string>, i: nat, w: World, r: World) {
    && (forall name :: name in w.files ==> name in r.files)
    && forall name :: name in r.files ==>
         (name in w.files && r.files[name] == w.files[name])
         || exists j: nat, p: nat :: i <= j < |sel| && name == FileName(cfg, sel[j])
                                      && |w.trace| <= p < |r.trace|
                                      && r.trace[p] == Complete(RequestFor(cfg, sel[j]), cfg.job.maxWait)
                                      && r.files[name] == FileBody(cfg, sel[j], env.generation(p))
  }

  /** A model's turn, for the loop below. */
  function TurnOf(env: Env, cfg: Config): (string, nat, World) -> Step<TurnEnd> {
    (id: string, wait: nat, w: World) => Turn(env, cfg, id, wait, w)
  }

  /**
   * The loop of `_run_batch` from the `i`-th selected model on: read the stop flag
   * (pause is not modelled), then take the model's turn. The result lists the
   * outcomes of the counted turns; their number is `done`. The loop is written
   * for any `turn`; `_run_batch` uses `TurnOf(env, cfg)`.
   */
  function RunFrom(env: Env, cfg: Config, turn: (string, nat, World) -> Step<TurnEnd>, sel: seq<string>, i: nat, w: World)
    : Step<seq<Outcome>>
    requires i <= |sel|
    decreases |sel| - i
  {
    if i == |sel| then Step([], w)
    else
      var top := Sample(env, w);
      if top.stop then Step([], top)
      else
        var t := turn(sel[i], WaitAfter(cfg, sel, i), top);
        match t.value
        case Aborted => Step([], t.world)
        case Counted(o, true) => Step([o], t.world)
        case Counted(o, false) =>
          var rest := RunFrom(env, cfg, turn, sel, i + 1, t.world);
          Step([o] + rest.value, rest.world)
  }

  /** `_run_batch`: with nothing selected it stops at once; otherwise it runs the loop. */
  function RunBatch(env: Env, cfg: Config, sel: seq<string>, w: World): Step<seq<Outcome>> {
    if sel == [] then Step([], w) else RunFrom(env, cfg, TurnOf(env, cfg), sel, 0, w)
  }


  /**
   * What the loop needs to know of one turn from `w`: it only adds to the trace;
   * an aborted turn has seen stop and saves nothing; a counted turn saves once if
   * it generated and not at all otherwise, and stores at most the model's file,
   * holding the response to the turn's own completion request; a counted turn
   * that ends the batch has seen stop.
   */
  ghost predicate TurnFacts(env: Env, cfg: Config, id: string, w: World, t: Step<TurnEnd>) {
    && w.trace <= t.world.trace
    && (t.value.Aborted? ==> t.world.stop && t.world.files == w.files && Count(Added(w, t.world), IsSave) == 0)
    && (t.value.Counted? ==>
          && Count(Added(w, t.world), IsSave) == (if t.value.outcome.Generated? then 1 else 0)
          && (t.world.files == w.files
              || SavedResponse(env, cfg, id, w.files, t.world.files, t.world.trace, |w.trace|))
          && (t.value.breakAfter ==> t.world.stop))
  }

  lemma TurnFactsHold(env: Env, cfg: Config, id: string, wait: nat, w: World)
    ensures TurnFacts(env, cfg, id, w, Turn(env, cfg, id, wait, w))
  {
    var t := Turn(env, cfg, id, wait, w);
    TurnSpec(env, cfg, id, wait, w);
    if t.value.Counted? {
      TurnSaves(env, cfg, id, wait, w);
      if t.value.outcome.Generated? {
        TurnGenerated(env, cfg, id, wait, w);
        GeneratedResponse(env, cfg, id, w, Sample(env, LoadModel(env, w, id).world), t.world, t.value.outcome.saved);
      }
    }
  }

  /** A generated turn stores nothing, or its model's file holding the response to its own request. */
  lemma GeneratedResponse(env: Env, cfg: Config, id: string, w: World, m: World, r: World, saved: bool)
    requires GeneratedAt(env, cfg, id, w, m, r, saved)
    ensures r.files == w.files || SavedResponse(env, cfg, id, w.files, r.files, r.trace, |w.trace|)
  {
    var p := |m.trace|;
    assert |w.trace| <= p < |r.trace| && r.trace[p] == Complete(RequestFor(cfg, id), cfg.job.maxWait);
  }

  /**
   * The turn `turn` takes for model `id` from `w`. The facts below are stated on
   * this term, so that they are brought in only where a proof names it.
   */
  ghost function TurnAt(turn: (string, nat, World) -> Step<TurnEnd>, id: string, wait: nat, w: World): Step<TurnEnd> {
    turn(id, wait, w)
  }

  /** Every turn `turn` takes has those facts. */
  ghost predicate TurnsBehave(env: Env, cfg: Config, turn: (string, nat, World) -> Step<TurnEnd>) {
    forall id, wait, w {:trigger TurnAt(turn, id, wait, w)} ::
      TurnFacts(env, cfg, id, w, TurnAt(turn, id, wait, w)) && AsksForOwn(id, w, TurnAt(turn, id, wait, w))
  }

  /** `turn` agrees with `Turn` wherever `Turn` is mentioned. */
  ghost predicate IsTurn(env: Env, cfg: Config, turn: (string, nat, World) -> Step<TurnEnd>) {
    forall id, wait, w {:trigger Turn(env, cfg, id, wait, w)} :: turn(id, wait, w) == Turn(env, cfg, id, wait, w)
  }

  lemma TurnOfIsTurn(env: Env, cfg: Config)
    ensures IsTurn(env, cfg, TurnOf(env, cfg))
  {
  }

  /** `Turn` is such a turn. */
  lemma TurnOfBehaves(env: Env, cfg: Config)
    ensures TurnsBehave(env, cfg, TurnOf(env, cfg))
  {
    forall id, wait, w
      ensures TurnFacts(env, cfg, id, w, TurnAt(TurnOf(env, cfg), id, wait, w))
      ensures AsksForOwn(id, w, TurnAt(TurnOf(env, cfg), id, wait, w))
    {
      TurnFactsHold(env, cfg, id, wait, w);
      TurnAsks(env, cfg, id, wait, w);
    }
  }

  /**
   * The loop visits each model at most once, and every one of them unless the
   * batch is stopped; each generated model gets exactly one save; files change
   * only by saving the responses of the models visited.
   */
  lemma {:induction false} RunFromSpec(env: Env, cfg: Config, turn: (string, nat, World) -> Step<TurnEnd>,
                                       sel: seq<string>, i: nat, w: World)
    requires i <= |sel| && TurnsBehave(env, cfg, turn)
    decreases |sel| - i
    ensures Progress(w, RunFrom(env, cfg, turn, sel, i, w), |sel| - i)
    ensures WrittenBy(env, cfg, sel, i, w, RunFrom(env, cfg, turn, sel, i, w).world)
  {
    var r := RunFrom(env, cfg, turn, sel, i, w);
    if i == |sel| {
      StopsHere(env, cfg, sel, i, w, r, 0);
    } else {
      var top := Sample(env, w);
      if top.stop {
        StopsHere(env, cfg, sel, i, w, r, |sel| - i);
      } else {
        var t := turn(sel[i], WaitAfter(cfg, sel, i), top);
        assert TurnFacts(env, cfg, sel[i], top, TurnAt(turn, sel[i], WaitAfter(cfg, sel, i), top));
        if t.value.Counted? && !t.value.breakAfter {
          var rest := RunFrom(env, cfg, turn, sel, i + 1, t.world);
          RunFromSpec(env, cfg, turn, sel, i + 1, t.world);
          TurnThenRest(env, cfg, sel, i, w, top, t, rest, r);
        } else {
          LastTurn(env, cfg, sel, i, w, top, t, r);
        }
      }
    }
  }

  /** The models of `ids` counted as generated by outcomes `os`, in order. */
  function GeneratedIds(ids: seq<string>, os: seq<Outcome>): (gs: seq<string>)
    requires |os| <= |ids|
    ensures |gs| == GeneratedCount(os)
  {
    if os == [] then [] else (if os[0].Generated? then [ids[0]] else []) + GeneratedIds(ids[1..], os[1..])
  }

  /**
   * The completion requests of a loop over `ids` that counted outcomes `os`, in
   * the order they were made: one for each model counted as generated, in
   * selection order, and possibly one more for the model after the last one
   * counted, whose generation was aborted.
   */
  predicate AskedInOrder(ids: seq<string>, os: seq<Outcome>, asked: seq<string>)
    requires |os| <= |ids|
  {
    || asked == GeneratedIds(ids, os)
    || (|os| < |ids| && asked == GeneratedIds(ids, os) + [ids[|os|]])
  }

  /**
   * The loop asks for completions in selection order: the generated models, each
   * once, then at most the one model whose generation was aborted.
   */
  lemma {:induction false} RunFromAsks(env: Env, cfg: Config, turn: (string, nat, World) -> Step<TurnEnd>,
                                       sel: seq<string>, i: nat, w: World)
    requires i <= |sel| && TurnsBehave(env, cfg, turn)
    decreases |sel| - i
    ensures var r := RunFrom(env, cfg, turn, sel, i, w);
      && w.trace <= r.world.trace && |r.value| <= |sel| - i
      && AskedInOrder(sel[i..], r.value, Asked(Added(w, r.world)))
  {
    var r := RunFrom(env, cfg, turn, sel, i, w);
    if i == |sel| {
      assert Added(w, r.world) == [];
    } else {
      var top := Sample(env, w);
      if top.stop {
        assert Added(w, r.world) == [];
      } else {
        var t := turn(sel[i], WaitAfter(cfg, sel, i), top);
        assert AsksForOwn(sel[i], top, TurnAt(turn, sel[i], WaitAfter(cfg, sel, i), top));
        assert Added(w, t.world) == Added(top, t.world);
        if t.value.Counted? && !t.value.breakAfter {
          var rest := RunFrom(env, cfg, turn, sel, i + 1, t.world);
          RunFromAsks(env, cfg, turn, sel, i + 1, t.world);
          AskedAdded(w, t.world, rest.world);
          AskedThenRest(sel, i, t.value.outcome, Asked(Added(w, t.world)), rest.value, Asked(Added(t.world, rest.world)));
        } else {
          AskedLast(sel, i, t.value, r.value, Asked(Added(w, r.world)));
        }
      }
    }
  }

  /** The requests of the turn that ends the loop: it aborted, or was counted and found stop set. */
  lemma AskedLast(sel: seq<string>, i: nat, e: TurnEnd, os: seq<Outcome>, asked: seq<string>)
    requires i < |sel| && !(e.Counted? && !e.breakAfter)
    requires os == (if e.Aborted? then [] else [e.outcome])
    requires asked == (if e.Aborted? || e.outcome.Generated? then [sel[i]] else [])
    ensures |os| <= |sel| - i && AskedInOrder(sel[i..], os, asked)
  {
    assert sel[i..][0] == sel[i];
    if e.Counted? {
      assert os[1..] == [];
    }
  }

  /** The requests of a turn that lets the loop go on, then those of the rest of the loop. */
  lemma AskedThenRest(sel: seq<string>, i: nat, o: Outcome, first: seq<string>, os: seq<Outcome>, later: seq<string>)
    requires i < |sel| && |os| <= |sel| - (i + 1)
    requires first == (if o.Generated? then [sel[i]] else [])
    requires AskedInOrder(sel[i + 1..], os, later)
    ensures AskedInOrder(sel[i..], [o] + os, first + later)
  {
    var ids := sel[i..];
    assert ids[0] == sel[i] && ids[1..] == sel[i + 1..];
    assert ([o] + os)[0] == o && ([o] + os)[1..] == os;
    assert GeneratedIds(ids, [o] + os) == first + GeneratedIds(sel[i + 1..], os);
    if |os| < |sel| - (i + 1) {
      assert ids[|[o] + os|] == sel[i + 1..][|os|];
    }
  }

  /** Nothing done beyond reading the flag: the loop had no model left, or found stop set. */
  lemma StopsHere(env: Env, cfg: Config, sel: seq<string>, i: nat, w: World, r: Step<seq<Outcome>>, n: nat)
    requires r.value == [] && r.world.trace == w.trace && r.world.files == w.files && (r.world.stop || n == 0)
    ensures Progress(w, r, n) && WrittenBy(env, cfg, sel, i, w, r.world)
  {
    assert Added(w, r.world) == [];
  }

  /** The turn of `sel[i]`, taken from `top`, which is `w` with the flag read. */
  lemma TurnFiles(env: Env, cfg: Config, sel: seq<string>, i: nat, w: World, top: World, t: Step<TurnEnd>)
    requires i < |sel| && top.trace == w.trace && top.files == w.files
    requires TurnFacts(env, cfg, sel[i], top, t)
    ensures w.trace <= t.world.trace
    ensures WrittenBy(env, cfg, sel, i, w, t.world)
    ensures Count(Added(w, t.world), IsSave) == (if t.value.Counted? && t.value.outcome.Generated? then 1 else 0)
  {
    assert Added(w, t.world) == Added(top, t.world);
    WrittenByTurn(env, cfg, sel, i, w, t.world);
  }

  /** A turn that ends the loop: it aborted, or was counted and found stop set. */
  lemma LastTurn(env: Env, cfg: Config, sel: seq<string>, i: nat, w: World, top: World, t: Step<TurnEnd>,
                 r: Step<seq<Outcome>>)
    requires i < |sel| && top.trace == w.trace && top.files == w.files
    requires TurnFacts(env, cfg, sel[i], top, t)
    requires !(t.value.Counted? && !t.value.breakAfter)
    requires r == (if t.value.Aborted? then Step([], t.world) else Step([t.value.outcome], t.world))
    ensures Progress(w, r, |sel| - i) && WrittenBy(env, cfg, sel, i, w, r.world)
  {
    TurnFiles(env, cfg, sel, i, w, top, t);
    if t.value.Counted? {
      assert [t.value.outcome][1..] == [];
    }
  }

  /** A turn that lets the loop go on, then the rest of the loop. */
  lemma TurnThenRest(env: Env, cfg: Config, sel: seq<string>, i: nat, w: World, top: World, t: Step<TurnEnd>,
                     rest: Step<seq<Outcome>>, r: Step<seq<Outcome>>)
    requires i < |sel| && top.trace == w.trace && top.files == w.files
    requires TurnFacts(env, cfg, sel[i], top, t)
    requires t.value.Counted? && !t.value.breakAfter
    requires Progress(t.world, rest, |sel| - (i + 1))
    requires WrittenBy(env, cfg, sel, i + 1, t.world, rest.world)
    requires r == Step([t.value.outcome] + rest.value, rest.world)
    ensures Progress(w, r, |sel| - i) && WrittenBy(env, cfg, sel, i, w, r.world)
  {
    TurnFiles(env, cfg, sel, i, w, top, t);
    CountAdded(w, t.world, rest.world, IsSave);
    assert ([t.value.outcome] + rest.value)[1..] == rest.value;
    WrittenByTrans(env, cfg, sel, i, w, t.world, rest.world);
  }

  /** A turn of `sel[i]` that saved nothing, or saved the response to its own request. */
  lemma WrittenByTurn(env: Env, cfg: Config, sel: seq<string>, i: nat, w: World, r: World)
    requires i < |sel| && w.trace <= r.trace
    requires r.files == w.files || SavedResponse(env, cfg, sel[i], w.files, r.files, r.trace, |w.trace|)
    ensures WrittenBy(env, cfg, sel, i, w, r)
  {
    if r.files != w.files {
      var p: nat :| |w.trace| <= p < |r.trace| && r.trace[p] == Complete(RequestFor(cfg, sel[i]), cfg.job.maxWait)
                    && r.files == w.files[FileName(cfg, sel[i]) := FileBody(cfg, sel[i], env.generation(p))];
      forall name | name in r.files && !(name in w.files && r.files[name] == w.files[name])
        ensures exists j: nat, q: nat :: i <= j < |sel| && name == FileName(cfg, sel[j])
                                         && |w.trace| <= q < |r.trace|
                                         && r.trace[q] == Complete(RequestFor(cfg, sel[j]), cfg.job.maxWait)
                                         && r.files[name] == FileBody(cfg, sel[j], env.generation(q))
      {
        assert name == FileName(cfg, sel[i]) && r.files[name] == FileBody(cfg, sel[i], env.generation(p));
      }
    }
  }

  /** The turn of `sel[i]`, then the turns from `sel[i + 1]` on. */
  lemma WrittenByTrans(env: Env, cfg: Config, sel: seq<string>, i: nat, a: World, b: World, c: World)
    requires a.trace <= b.trace <= c.trace
    requires WrittenBy(env, cfg, sel, i, a, b) && WrittenBy(env, cfg, sel, i + 1, b, c)
    ensures WrittenBy(env, cfg, sel, i, a, c)
  {
    forall name | name in c.files && !(name in a.files && c.files[name] == a.files[name])
      ensures exists j: nat, q: nat :: i <= j < |sel| && name == FileName(cfg, sel[j])
                                       && |a.trace| <= q < |c.trace|
                                       && c.trace[q] == Complete(RequestFor(cfg, sel[j]), cfg.job.maxWait)
                                       && c.files[name] == FileBody(cfg, sel[j], env.generation(q))
    {
      if !(name in b.files && c.files[name] == b.files[name]) {
        var j: nat, q: nat :| i + 1 <= j < |sel| && name == FileName(cfg, sel[j]) && |b.trace| <= q < |c.trace|
                              && c.trace[q] == Complete(RequestFor(cfg, sel[j]), cfg.job.maxWait)
                              && c.files[name] == FileBody(cfg, sel[j], env.generation(q));
      } else {
        var j: nat, q: nat :| i <= j < |sel| && name == FileName(cfg, sel[j]) && |a.trace| <= q < |b.trace|
                              && b.trace[q] == Complete(RequestFor(cfg, sel[j]), cfg.job.maxWait)
                              && b.files[name] == FileBody(cfg, sel[j], env.generation(q));
        assert c.trace[q] == b.trace[q];
      }
    }
  }

  /** With nothing selected the batch makes no request and writes nothing. */
  lemma RunBatchNothingSelected(env: Env, cfg: Config, w: World)
    ensures RunBatch(env, cfg, [], w) == Step([], w)
  {
  }

  /**
   * The whole batch: at most one outcome per selected model, one for each unless
   * it was stopped, one save per generated model, and only the selected models'
   * files written.
   */
  lemma RunBatchSpec(env: Env, cfg: Config, sel: seq<string>, w: World)
    ensures Progress(w, RunBatch(env, cfg, sel, w), |sel|)
    ensures WrittenBy(env, cfg, sel, 0, w, RunBatch(env, cfg, sel, w).world)
  {
    if sel == [] {
      StopsHere(env, cfg, sel, 0, w, RunBatch(env, cfg, sel, w), 0);
    } else {
      TurnOfBehaves(env, cfg);
      RunFromSpec(env, cfg, TurnOf(env, cfg), sel, 0, w);
    }
  }
  /**
   * The whole batch asks for completions in selection order: the generated models,
   * each once, then at most the one model whose generation was aborted.
   */
  lemma RunBatchAsks(env: Env, cfg: Config, sel: seq<string>, w: World)
    ensures var r := RunBatch(env, cfg, sel, w);
      && w.trace <= r.world.trace && |r.value| <= |sel|
      && AskedInOrder(sel, r.value, Asked(Added(w, r.world)))
  {
    if sel == [] {
      assert Added(w, w) == [];
    } else {
      TurnOfBehaves(env, cfg);
      RunFromAsks(env, cfg, TurnOf(env, cfg), sel, 0, w);
      assert sel[0..] == sel;
    }
  }
}
