/**
 * The LM Studio server as the runner sees it. Every request the runner makes is an
 * event appended to a trace; what the server answers to the request at trace
 * position `n` is given by the oracle functions of `Env`, so any server behaviour
 * (models that load or unload late, calls that fail, a stop pressed at any moment)
 * is one choice of `Env`.
 */
module Backend {
  import opened Wrappers
  import Request

  /** A JSON member that may be absent, `null`, or a string. */
  datatype Field = Missing | Null | Str(s: string)

  /** One entry of the `/api/v0/models` listing: `id` (possibly absent), `state`, `instance_id`. */
  datatype RawModel = RawModel(id: Option<string>, state: string, instanceId: Field)

  /** The listing request failed (or its body was unusable), or gave its `data` list. */
  datatype Listing = ListingFailed | ListingOk(data: seq<RawModel>)

  /** A model resident in memory, as `_get_loaded_models` reports it. */
  datatype Residency = Residency(id: string, instanceId: Option<string>)

  /** The four bodies an unload request can carry. */
  datatype UnloadPayload =
    | ByModel(model: string)
    | ByIdentifier(identifier: string)
    | ByInstance(instanceId: Option<string>)
    | ByModelAndInstance(model: string, instanceId: Option<string>)

  /** What `_generate` returns: the content (or an error text), the rate and the time, preformatted. */
  datatype Generation = Generation(content: string, tps: string, time: string)

  /** A request to the server, a file write, or a sleep. */
  datatype Event =
    | ListModels
    | Unload(payload: UnloadPayload)
    | Load(model: string)
    | Complete(request: Request.ChatRequest, maxWait: Option<real>)
    | Save(file: string, text: string)
    | Sleep(seconds: nat)

  /**
   * The answers, by trace position: the listing a `ListModels` gets, whether an
   * `Unload` or `Load` is accepted (a 2xx status; an exception counts as refusal),
   * the generation a `Complete` returns, whether a `Save` succeeds, and whether the
   * user has pressed Stop by the time the flag is read at that position.
   */
  datatype Env = Env(
    listing: nat -> Listing,
    accepts: nat -> bool,
    generation: nat -> Generation,
    writeOk: nat -> bool,
    stopRequested: nat -> bool)

  /**
   * The runner's state: the requests made so far, `_stop_flag`,
   * `_currently_loaded_model`, and the files written (name to text).
   */
  datatype World = World(trace: seq<Event>, stop: bool, current: Option<string>, files: map<string, string>)

  /** A result together with the state it leaves. */
  datatype Step<T> = Step(value: T, world: World)

  /** Make a request, or sleep: the event is appended. */
  function Emit(w: World, e: Event): World {
    w.(trace := w.trace + [e])
  }

  /**
   * Read `_stop_flag`. Stop is pressed asynchronously; once pressed it stays
   * pressed until the next batch starts.
   */
  function Sample(env: Env, w: World): World {
    w.(stop := w.stop || env.stopRequested(|w.trace|))
  }

  /** The events added since `w`. */
  function Added(w: World, w': World): seq<Event>
    requires w.trace <= w'.trace
  {
    w'.trace[|w.trace|..]
  }

  /** The resident entry for a listed model with an id; a missing `instance_id` defaults to the id. */
  function Resident(m: RawModel): (r: Residency)
    requires m.id.Some?
    ensures r.id == m.id.value
    ensures m.instanceId.Missing? ==> r.instanceId == Some(m.id.value)
    ensures m.instanceId.Null? ==> r.instanceId == None
    ensures m.instanceId.Str? ==> r.instanceId == Some(m.instanceId.s)
  {
    match m.instanceId
    case Missing => Residency(m.id.value, Some(m.id.value))
    case Null => Residency(m.id.value, None)
    case Str(s) => Residency(m.id.value, Some(s))
  }

  predicate IsLoaded(m: RawModel) {
    m.state == "loaded"
  }

  /**
   * The loaded entries of a listing, in order; `None` when a loaded entry has no
   * `id` (the `KeyError` that makes `_get_loaded_models` give up).
   */
  function LoadedFrom(data: seq<RawModel>): Option<seq<Residency>> {
    if data == [] then Some([])
    else
      var rest := LoadedFrom(data[1..]);
      if !IsLoaded(data[0]) then rest
      else if data[0].id.None? then None
      else if rest.None? then None
      else Some([Resident(data[0])] + rest.value)
  }

  /**
   * `LoadedFrom` fails exactly when some loaded entry lacks an id; otherwise it
   * lists every loaded entry and nothing else.
   */
  lemma {:induction false} LoadedFromSpec(data: seq<RawModel>)
    ensures LoadedFrom(data).None? <==> exists i :: 0 <= i < |data| && IsLoaded(data[i]) && data[i].id.None?
    ensures LoadedFrom(data).Some? ==> |LoadedFrom(data).value| <= |data|
    ensures LoadedFrom(data).Some? ==>
      forall i :: 0 <= i < |data| && IsLoaded(data[i]) ==> Resident(data[i]) in LoadedFrom(data).value
    ensures LoadedFrom(data).Some? ==> forall x :: x in LoadedFrom(data).value ==>
      exists i :: 0 <= i < |data| && IsLoaded(data[i]) && data[i].id.Some? && Resident(data[i]) == x
  {
    if data != [] {
      LoadedFromSpec(data[1..]);
      assert forall i :: 1 <= i < |data| ==> data[i] == data[1..][i - 1];
      var r := LoadedFrom(data);
      if r.Some? && IsLoaded(data[0]) {
        forall x | x in r.value
          ensures exists i :: 0 <= i < |data| && IsLoaded(data[i]) && data[i].id.Some? && Resident(data[i]) == x
        {
          if x != Resident(data[0]) {
            var i :| 0 <= i < |data[1..]| && IsLoaded(data[1..][i]) && data[1..][i].id.Some? && Resident(data[1..][i]) == x;
            assert data[i + 1] == data[1..][i];
          }
        }
      }
    }
  }

  /** The listing read in two parts: it fails if either part fails, else the residents are those of both. */
  lemma {:induction false} LoadedFromAppend(a: seq<RawModel>, b: seq<RawModel>)
    ensures LoadedFrom(a + b) ==
      if LoadedFrom(a).Some? && LoadedFrom(b).Some? then Some(LoadedFrom(a).value + LoadedFrom(b).value) else None
  {
    if a == [] {
      assert a + b == b;
      if LoadedFrom(b).Some? {
        assert [] + LoadedFrom(b).value == LoadedFrom(b).value;
      }
    } else {
      var ab := a + b;
      assert ab != [] && ab[0] == a[0] && ab[1..] == a[1..] + b;
      LoadedFromAppend(a[1..], b);
      assert LoadedFrom(ab) ==
        if !IsLoaded(a[0]) then LoadedFrom(a[1..] + b)
        else if a[0].id.None? || LoadedFrom(a[1..] + b).None? then None
        else Some([Resident(a[0])] + LoadedFrom(a[1..] + b).value);
      if LoadedFrom(a).Some? && LoadedFrom(b).Some? && IsLoaded(a[0]) {
        assert [Resident(a[0])] + (LoadedFrom(a[1..]).value + LoadedFrom(b).value)
            == [Resident(a[0])] + LoadedFrom(a[1..]).value + LoadedFrom(b).value;
      }
    }
  }

  /** One more entry read: it fails the listing, adds a resident, or is skipped. */
  lemma LoadedFromSnoc(a: seq<RawModel>, m: RawModel)
    ensures LoadedFrom(a + [m]) ==
      if LoadedFrom(a).None? || (IsLoaded(m) && m.id.None?) then None
      else if IsLoaded(m) then Some(LoadedFrom(a).value + [Resident(m)])
      else LoadedFrom(a)
  {
    assert [m][0] == m && [m][1..] == [];
    if m.id.Some? {
      assert [Resident(m)] + [] == [Resident(m)];
    }
    assert LoadedFrom([m]) == if !IsLoaded(m) then Some([]) else if m.id.None? then None else Some([Resident(m)]);
    LoadedFromAppend(a, [m]);
    if LoadedFrom(a).Some? && !IsLoaded(m) {
      assert LoadedFrom(a).value + [] == LoadedFrom(a).value;
    }
  }

  /** What `_get_loaded_models` returns for a listing: any failure reads as nothing loaded. */
  function LoadedIn(listing: Listing): seq<Residency> {
    if listing.ListingFailed? then []
    else LoadedFrom(listing.data).GetOr([])
  }

  /** The resident models the listing at trace position `n` reports. */
  function LoadedAt(env: Env, n: nat): seq<Residency> {
    LoadedIn(env.listing(n))
  }

  /** The ids of resident models. */
  function Ids(rs: seq<Residency>): (r: seq<string>)
    ensures |r| == |rs|
    ensures forall i :: 0 <= i < |rs| ==> r[i] == rs[i].id
  {
    seq(|rs|, i requires 0 <= i < |rs| => rs[i].id)
  }

  /** The number of events of a trace that satisfy `p`. */
  function Count(t: seq<Event>, p: Event -> bool): (n: nat)
    ensures n <= |t|
  {
    if t == [] then 0 else (if p(t[0]) then 1 else 0) + Count(t[1..], p)
  }

  lemma {:induction false} CountAppend(a: seq<Event>, b: seq<Event>, p: Event -> bool)
    ensures Count(a + b, p) == Count(a, p) + Count(b, p)
  {
    if a != [] {
      assert (a + b)[1..] == a[1..] + b;
      CountAppend(a[1..], b, p);
    } else {
      assert a + b == b;
    }
  }

  /** Counting over two successive stretches of a trace. */
  lemma CountAdded(w1: World, w2: World, w3: World, p: Event -> bool)
    requires w1.trace <= w2.trace <= w3.trace
    ensures Count(Added(w1, w3), p) == Count(Added(w1, w2), p) + Count(Added(w2, w3), p)
  {
    assert Added(w1, w3) == Added(w1, w2) + Added(w2, w3);
    CountAppend(Added(w1, w2), Added(w2, w3), p);
  }

  /** No event of the trace satisfies `p` exactly when the count is zero. */
  lemma {:induction false} CountZero(t: seq<Event>, p: Event -> bool)
    ensures Count(t, p) == 0 <==> forall i :: 0 <= i < |t| ==> !p(t[i])
  {
    if t != [] {
      CountZero(t[1..], p);
      assert forall i :: 1 <= i < |t| ==> t[i] == t[1..][i - 1];
    }
  }

  predicate IsListing(e: Event) { e.ListModels? }
  predicate IsComplete(e: Event) { e.Complete? }
  predicate IsSave(e: Event) { e.Save? }
  /** The one-second sleeps of the inter-model delay (the settling sleeps last 2 or 3 seconds). */
  predicate IsDelayTick(e: Event) { e == Sleep(1) }
  /** The 2-second wait of an `_unload_model` attempt. */
  predicate IsRecheckWait(e: Event) { e == Sleep(2) }
  /** The 3-second sleep of a `_force_unload_all` round. */
  predicate IsRoundSettle(e: Event) { e == Sleep(3) }

  /** Events of the residency controller: neither a generation nor a file write. */
  predicate AdminEvent(e: Event) {
    !e.Complete? && !e.Save?
  }

  /**
   * `w'` follows `w` through residency requests only: the trace grows by admin
   * events, and no file is written.
   */
  predicate AdminStep(w: World, w': World) {
    && w.trace <= w'.trace
    && w'.files == w.files
    && forall i :: |w.trace| <= i < |w'.trace| ==> AdminEvent(w'.trace[i])
  }

  lemma AdminStepTrans(w1: World, w2: World, w3: World)
    requires AdminStep(w1, w2) && AdminStep(w2, w3)
    ensures AdminStep(w1, w3)
  {
    forall i | |w1.trace| <= i < |w3.trace|
      ensures AdminEvent(w3.trace[i])
    {
      if i < |w2.trace| {
        assert w3.trace[i] == w2.trace[i];
      }
    }
  }

  /**
   * Residency requests, then the events `mid`, then residency requests again: the
   * events counted are those of `mid` and of the two admin stretches.
   */
  lemma CountAround(w: World, m: World, mid: seq<Event>, m2: World, r: World, p: Event -> bool)
    requires w.trace <= m.trace && m2.trace == m.trace + mid && m2.trace <= r.trace
    ensures w.trace <= r.trace
    ensures Count(Added(w, r), p) == Count(Added(w, m), p) + Count(mid, p) + Count(Added(m2, r), p)
  {
    assert Added(w, r) == Added(w, m) + mid + Added(m2, r);
    CountAppend(Added(w, m), mid, p);
    CountAppend(Added(w, m) + mid, Added(m2, r), p);
  }

  /** An admin step adds no generation and no write. */
  lemma AdminStepCounts(w: World, w': World)
    requires AdminStep(w, w')
    ensures Count(Added(w, w'), IsComplete) == 0 && Count(Added(w, w'), IsSave) == 0
  {
    var t := Added(w, w');
    assert forall i :: 0 <= i < |t| ==> t[i] == w'.trace[|w.trace| + i];
    CountZero(t, IsComplete);
    CountZero(t, IsSave);
  }
  /** The models named by the completion requests of a trace, in the order they were asked. */
  function Asked(t: seq<Event>): (ids: seq<string>)
    ensures |ids| == Count(t, IsComplete)
  {
    if t == [] then [] else (if t[0].Complete? then [t[0].request.model] else []) + Asked(t[1..])
  }

  lemma {:induction false} AskedAppend(a: seq<Event>, b: seq<Event>)
    ensures Asked(a + b) == Asked(a) + Asked(b)
  {
    if a != [] {
      assert (a + b)[1..] == a[1..] + b;
      AskedAppend(a[1..], b);
    } else {
      assert a + b == b;
    }
  }

  /** Asking over two successive stretches of a trace. */
  lemma AskedAdded(w1: World, w2: World, w3: World)
    requires w1.trace <= w2.trace <= w3.trace
    ensures Asked(Added(w1, w3)) == Asked(Added(w1, w2)) + Asked(Added(w2, w3))
  {
    assert Added(w1, w3) == Added(w1, w2) + Added(w2, w3);
    AskedAppend(Added(w1, w2), Added(w2, w3));
  }

  /** Asking around a stretch `mid`, as `CountAround` counts around it. */
  lemma AskedAround(w: World, m: World, mid: seq<Event>, m2: World, r: World)
    requires w.trace <= m.trace && m2.trace == m.trace + mid && m2.trace <= r.trace
    ensures w.trace <= r.trace
    ensures Asked(Added(w, r)) == Asked(Added(w, m)) + Asked(mid) + Asked(Added(m2, r))
  {
    assert Added(w, r) == Added(w, m) + mid + Added(m2, r);
    AskedAppend(Added(w, m), mid);
    AskedAppend(Added(w, m) + mid, Added(m2, r));
  }

  /**
   * Residency requests, then one completion request and one other event, then
   * residency requests again: the one completion is all that was asked.
   */
  lemma AskedOnce(w: World, m: World, r: World)
    requires AdminStep(w, m) && m.trace <= r.trace && |m.trace| + 1 < |r.trace|
    requires r.trace[|m.trace|].Complete? && !r.trace[|m.trace| + 1].Complete?
    requires forall q :: |m.trace| + 2 <= q < |r.trace| ==> AdminEvent(r.trace[q])
    ensures w.trace <= r.trace && Asked(Added(w, r)) == [r.trace[|m.trace|].request.model]
  {
    var p := |m.trace|;
    var m2 := r.(trace := r.trace[..p + 2]);
    var mid := r.trace[p..p + 2];
    assert m2.trace == m.trace + mid;
    AskedAround(w, m, mid, m2, r);
    assert AdminStep(m2, r);
    AdminStepAsksNothing(w, m);
    AdminStepAsksNothing(m2, r);
    assert mid[1..][1..] == [];
  }

  /** An admin step asks for no completion. */
  lemma AdminStepAsksNothing(w: World, w': World)
    requires AdminStep(w, w')
    ensures Asked(Added(w, w')) == []
  {
    AdminStepCounts(w, w');
  }
}
