/** The embedding model behind smart search (`src/utils/smart-search.ts`): a
    module-level cache holding the loaded model, filled by the first load that
    succeeds on the devices tried in order WebGPU, WASM, CPU.

    Loading is the parameter `load`, from a device to the loaded model or the
    failure to load it; running the model on a text is the parameter `run`.
    The model type `M` is left abstract. The cache is passed in and the
    updated cache handed back, since the source keeps it in a module
    variable. */
module EmbeddingProvider {
  import opened Outcomes
  import opened Vectors

  datatype Device = WebGpu | Wasm | Cpu

  /** The devices in the order they are tried. */
  const Devices: seq<Device> := [WebGpu, Wasm, Cpu]

  /** What a call to `initializeEmbeddingModel` yields: the model or the
      exception it throws, the cache afterwards, and the devices whose load
      was attempted, in order. */
  datatype Init<M> = Init(model: Result<M>, cache: Option<M>, attempts: seq<Device>)

  /** The loads of the devices `ds`, in order, stopping at the first
      success; the last failure propagates. */
  function TryFrom<M>(load: Device -> Result<M>, ds: seq<Device>): (r: Init<M>)
    requires ds != []
    ensures 0 < |r.attempts| <= |ds| && r.attempts == ds[..|r.attempts|]
    ensures r.model.Ok? <==> r.cache.Some?
    ensures r.model.Ok? ==> r.cache == Some(r.model.value)
  {
    match load(ds[0])
    case Ok(m) => Init(Ok(m), Some(m), [ds[0]])
    case Err(e) =>
      if |ds| == 1 then Init(Err(e), None, [ds[0]])
      else
        var rest := TryFrom(load, ds[1..]);
        Init(rest.model, rest.cache, [ds[0]] + rest.attempts)
  }

  /** `initializeEmbeddingModel()`: the cached model without any load, or
      the loads in order until one succeeds. A CPU failure is not caught, so
      the exception escapes and the cache stays empty. */
  function Initialize<M>(cache: Option<M>, load: Device -> Result<M>): (r: Init<M>)
    ensures cache.Some? ==> r == Init(Ok(cache.value), cache, [])
    ensures cache.None? ==> 0 < |r.attempts| <= |Devices| && r.attempts == Devices[..|r.attempts|]
    ensures r.model.Ok? <==> r.cache.Some?
    ensures r.model.Ok? ==> r.cache == Some(r.model.value)
  {
    if cache.Some? then Init(Ok(cache.value), cache, [])
    else TryFrom(load, Devices)
  }

  /** The first device whose load succeeds, if any: an independent
      statement of the fallback order. */
  function FirstWorking<M>(load: Device -> Result<M>, ds: seq<Device>): (r: Option<Device>)
    ensures r.Some? ==> r.value in ds && load(r.value).Ok?
    ensures r.None? <==> forall j :: 0 <= j < |ds| ==> load(ds[j]).Err?
  {
    if ds == [] then None
    else if load(ds[0]).Ok? then Some(ds[0])
    else FirstWorking(load, ds[1..])
  }

  /** When some device of `ds` loads, the chain returns the first such
      model, having tried only devices that failed before it. */
  lemma {:induction false} TryFromFound<M>(load: Device -> Result<M>, ds: seq<Device>, d: Device)
    requires ds != [] && FirstWorking(load, ds) == Some(d)
    ensures var r := TryFrom(load, ds);
      r.model == load(d) && r.attempts[|r.attempts| - 1] == d
      && forall j :: 0 <= j < |r.attempts| - 1 ==> load(r.attempts[j]).Err?
  {
    if load(ds[0]).Err? {
      assert FirstWorking(load, ds[1..]) == Some(d);
      assert ds[1..] != [];
      TryFromFound(load, ds[1..], d);
      var rest := TryFrom(load, ds[1..]);
      var r := TryFrom(load, ds);
      assert r == Init(rest.model, rest.cache, [ds[0]] + rest.attempts);
      assert r.attempts[|r.attempts| - 1] == rest.attempts[|rest.attempts| - 1];
      forall j | 0 <= j < |r.attempts| - 1
        ensures load(r.attempts[j]).Err?
      {
        if j > 0 {
          assert r.attempts[j] == rest.attempts[j - 1];
        }
      }
    }
  }

  /** When no device of `ds` loads, every one is tried and the last failure
      is reported. */
  lemma {:induction false} TryFromNone<M>(load: Device -> Result<M>, ds: seq<Device>)
    requires ds != [] && FirstWorking(load, ds) == None
    ensures var r := TryFrom(load, ds);
      r.attempts == ds && r.model == load(ds[|ds| - 1])
  {
    if |ds| > 1 {
      TryFromNone(load, ds[1..]);
      assert ds == [ds[0]] + ds[1..];
    }
  }

  lemma TryFromFirstWorking<M>(load: Device -> Result<M>, ds: seq<Device>)
    requires ds != []
    ensures var r := TryFrom(load, ds);
      match FirstWorking(load, ds)
      case Some(d) =>
        r.model == load(d) && r.cache == Some(load(d).value)
        && r.attempts[|r.attempts| - 1] == d
        && forall j :: 0 <= j < |r.attempts| - 1 ==> load(r.attempts[j]).Err?
      case None =>
        r.model.Err? && r.cache == None && r.attempts == ds
        && r.model == load(ds[|ds| - 1])
        && forall j :: 0 <= j < |r.attempts| ==> load(r.attempts[j]).Err?
  {
    match FirstWorking(load, ds)
    case Some(d) => TryFromFound(load, ds, d);
    case None => TryFromNone(load, ds);
  }

  /** With an empty cache, the model comes from the first device in the
      order WebGPU, WASM, CPU whose load succeeds; every device tried before
      it failed, and the model is cached. When all three fail, the CPU
      failure is reported and the cache stays empty. */
  lemma InitializeFallsBack<M>(load: Device -> Result<M>)
    ensures var r := Initialize(None, load);
      match FirstWorking(load, Devices)
      case Some(d) =>
        r.model == load(d) && r.cache == Some(load(d).value)
        && 0 < |r.attempts| <= |Devices| && r.attempts == Devices[..|r.attempts|]
        && r.attempts[|r.attempts| - 1] == d
        && forall j :: 0 <= j < |r.attempts| - 1 ==> load(r.attempts[j]).Err?
      case None =>
        r.model == load(Cpu) && r.cache == None && r.attempts == Devices
  {
    TryFromFirstWorking(load, Devices);
  }

  /** A failed initialisation leaves nothing behind: the next call, with
      whatever loads then succeed, tries the whole chain again from WebGPU. */
  lemma FailureIsNotRemembered<M>(load: Device -> Result<M>, later: Device -> Result<M>)
    requires Initialize(None, load).model.Err?
    ensures Initialize(Initialize(None, load).cache, later) == Initialize(None, later)
    ensures Initialize(Initialize(None, load).cache, later).attempts[0] == WebGpu
  {
  }

  /** Once a model is loaded, later calls return it and load nothing. */
  lemma SuccessIsCached<M>(cache: Option<M>, load: Device -> Result<M>, later: Device -> Result<M>)
    requires Initialize(cache, load).model.Ok?
    ensures var first := Initialize(cache, load);
      Initialize(first.cache, later) == Init(first.model, first.cache, [])
  {
  }

  /** The outcome of a step that may load the model, with the cache
      afterwards. */
  datatype Run<M, T> = Run(outcome: Result<T>, cache: Option<M>)

  /** `getEmbeddings(text)`: initialise, then run the model on `text`
      (mean pooling, normalised, first row), either step possibly throwing. */
  function GetEmbeddings<M>(text: string, cache: Option<M>, load: Device -> Result<M>,
                            run: (M, string) -> Result<Point>): (r: Run<M, Point>)
    ensures cache.Some? ==> r == Run(run(cache.value, text), cache)
    ensures r.cache == Initialize(cache, load).cache
    ensures r.outcome.Ok? ==> r.cache.Some? && r.outcome == run(r.cache.value, text)
  {
    var init := Initialize(cache, load);
    match init.model
    case Err(e) => Run(Err(e), init.cache)
    case Ok(m) => Run(run(m, text), init.cache)
  }
}
