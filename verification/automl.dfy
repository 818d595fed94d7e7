/** The `AutoML` step's fit, transform and fit-transform: the controller loop
    runs a round, the best trial is refitted when `refit_best_trial` is set,
    and transforming needs that refitted pipeline. The loop, the refit and
    the pipeline's transform are opaque and come in as functions. */
module AutoMLStep {
  import opened Errors

  /** The step's state: the pipeline it holds and its refit flag. */
  datatype AutoML<P> = AutoML(pipeline: P, refitBestTrial: bool)

  /** The step after a fit, and the id of the round the loop ran. */
  datatype Fitted<P> = Fitted(step: AutoML<P>, roundId: nat)

  /** Python's arity check on a call: a method with `expected` parameters
      (besides `self`) called with `given` arguments raises `TypeError`. */
  function Call(expected: nat, given: nat): (r: Result<()>)
    ensures r.Ok? <==> given == expected
    ensures r.Err? ==> r.error == TypeError
  {
    if given == expected then Ok(()) else Err(TypeError)
  }

  /** `BaseControllerLoop.refit_best_trial(pipeline, dact, client_scope)`. */
  const RefitBestTrialParams: nat := 3
  /** `AutoML._transform_data_container(data_container, context)`. */
  const TransformParams: nat := 2

  /** `_transform_data_container`: refused unless the step refits, else the
      refitted pipeline's transform. */
  function Transform<P, D>(a: AutoML<P>, d: D, transform: (P, D) -> D): (r: Result<D>)
    ensures r.Err? <==> !a.refitBestTrial
    ensures r.Err? ==> r.error == ValueError(RefitDisabled)
    ensures r.Ok? ==> r.value == transform(a.pipeline, d)
  {
    if !a.refitBestTrial then Err(ValueError(RefitDisabled))
    else Ok(transform(a.pipeline, d))
  }

  /** `_fit_data_container` as written: the refit call passes the round id
      as a fourth argument to a method that takes three, so every fit that
      refits raises `TypeError` once the round has run. */
  function FitAsWritten<P>(a: AutoML<P>, run: P -> nat, refit: P -> P): (r: Outcome<Fitted<P>>)
    ensures r.state == Fitted(a, run(a.pipeline))
    ensures r.Raised? <==> a.refitBestTrial
    ensures r.Raised? ==> r.error == TypeError
  {
    var roundId := run(a.pipeline);
    if a.refitBestTrial then
      match Call(RefitBestTrialParams, 4)
      case Ok(_) => Done(Fitted(a.(pipeline := refit(a.pipeline)), roundId))
      case Err(e) => Raised(Fitted(a, roundId), e)
    else Done(Fitted(a, roundId))
  }

  /** `_fit_data_container` with the refit called as declared: the step then
      holds the refitted pipeline. */
  function Fit<P>(a: AutoML<P>, run: P -> nat, refit: P -> P): (r: Outcome<Fitted<P>>)
    ensures r.Done?
    ensures r.state.roundId == run(a.pipeline)
    ensures r.state.step.refitBestTrial == a.refitBestTrial
    ensures r.state.step.pipeline == if a.refitBestTrial then refit(a.pipeline) else a.pipeline
  {
    var roundId := run(a.pipeline);
    if a.refitBestTrial then
      match Call(RefitBestTrialParams, 3)
      case Ok(_) => Done(Fitted(a.(pipeline := refit(a.pipeline)), roundId))
      case Err(e) => Raised(Fitted(a, roundId), e)
    else Done(Fitted(a, roundId))
  }

  /** `_fit_transform_data_container` given the outcome of its fit and the
      number of arguments its transform call passes: the flag guard, the
      fit's error if it raised, the call's arity check, then the transform
      of the data with the fitted step. */
  function FitTransformWith<P, D>(a: AutoML<P>, fitted: Outcome<Fitted<P>>, transformArgs: nat, d: D,
                                  transform: (P, D) -> D): (r: Result<(AutoML<P>, D)>)
    ensures !a.refitBestTrial ==> r == Err(ValueError(RefitDisabled))
    ensures a.refitBestTrial && fitted.Raised? ==> r == Err(fitted.error)
    ensures a.refitBestTrial && fitted.Done? && transformArgs != TransformParams ==> r == Err(TypeError)
    ensures r.Ok? ==> fitted.Done? && fitted.state.step.refitBestTrial
                      && r.value == (fitted.state.step, transform(fitted.state.step.pipeline, d))
  {
    if !a.refitBestTrial then Err(ValueError(RefitDisabled))
    else
      match fitted
      case Raised(_, e) => Err(e)
      case Done(f) =>
        match Call(TransformParams, transformArgs)
        case Err(e) => Err(e)
        case Ok(_) =>
          match Transform(f.step, d, transform)
          case Err(e) => Err(e)
          case Ok(out) => Ok((f.step, out))
  }

  /** `_fit_transform_data_container` as written: the fit as written, then
      `_transform_data_container()` with no arguments. */
  function FitTransformAsWritten<P, D>(a: AutoML<P>, d: D, run: P -> nat, refit: P -> P,
                                       transform: (P, D) -> D): (r: Result<(AutoML<P>, D)>)
    ensures !a.refitBestTrial ==> r == Err(ValueError(RefitDisabled))
    ensures a.refitBestTrial ==> r == Err(TypeError)
  {
    FitTransformWith(a, FitAsWritten(a, run, refit), 0, d, transform)
  }

  /** Line 452 on its own: with the refit call of line 441 corrected, the
      argument-less transform call still raises `TypeError` whenever the
      flag lets the fit run, and the guard's `ValueError` otherwise. */
  function FitTransformCallAsWritten<P, D>(a: AutoML<P>, d: D, run: P -> nat, refit: P -> P,
                                           transform: (P, D) -> D): (r: Result<(AutoML<P>, D)>)
    ensures !a.refitBestTrial ==> r == Err(ValueError(RefitDisabled))
    ensures a.refitBestTrial ==> r == Err(TypeError)
  {
    FitTransformWith(a, Fit(a, run, refit), 0, d, transform)
  }

  /** `_fit_transform_data_container` with both calls made as declared. */
  function FitTransform<P, D>(a: AutoML<P>, d: D, run: P -> nat, refit: P -> P,
                              transform: (P, D) -> D): (r: Result<(AutoML<P>, D)>)
    ensures r.Err? <==> !a.refitBestTrial
    ensures r.Err? ==> r.error == ValueError(RefitDisabled)
  {
    FitTransformWith(a, Fit(a, run, refit), TransformParams, d, transform)
  }

  /** As written, fit-transform never returns: without the flag it is
      refused, with it the fit's refit call raises. */
  lemma FitTransformAsWrittenNeverReturns<P, D>(a: AutoML<P>, d: D, run: P -> nat, refit: P -> P,
                                                transform: (P, D) -> D)
    ensures FitTransformAsWritten(a, d, run, refit, transform).Err?
  {
  }

  /** Corrected fit-transform is the corrected fit followed by a transform of
      the data with the refitted pipeline. */
  lemma FitTransformIsFitThenTransform<P, D>(a: AutoML<P>, d: D, run: P -> nat, refit: P -> P,
                                             transform: (P, D) -> D)
    requires a.refitBestTrial
    ensures var f := Fit(a, run, refit).state.step;
            FitTransform(a, d, run, refit, transform) == Ok((f, transform(refit(a.pipeline), d)))
            && Transform(f, d, transform) == Ok(transform(refit(a.pipeline), d))
  {
  }
}
