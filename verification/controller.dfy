/** The controller loop of AutoML: `BaseControllerLoop.loop`/`run`, the
    outcome classification of `DefaultLoop._attempt_trial`, the `n_jobs`
    normalisation and the failure description. The trainer, the optimizer and
    the round and trial aggregates are opaque: the model records the calls
    made on them as events. */
module Controller {
  import opened Errors
  import opened Numerals

  /** What the loop does to the round and trial aggregates, in order. */
  datatype Event =
    | EnterRound                 // `with client.optim_round(...)`
    | RoundContinueOnError       // `optim_round.continue_loop_on_error()`
    | EnterTrial(k: nat)         // `with round_scope.new_rvs_trial()`, iteration k
    | TrialContinueOnError(k: nat)
    | Train(k: nat)              // the trial is yielded and `trainer.train` runs on it
    | ExitTrial(k: nat)
    | ExitRound

  /** How often `x` occurs in `s`. */
  function Count<T(==)>(s: seq<T>, x: T): nat
  {
    if |s| == 0 then 0 else (if s[0] == x then 1 else 0) + Count(s[1..], x)
  }

  lemma {:induction false} CountConcat<T>(a: seq<T>, b: seq<T>, x: T)
    ensures Count(a + b, x) == Count(a, x) + Count(b, x)
    decreases |a|
  {
    if |a| == 0 {
      assert a + b == b;
    } else {
      assert (a + b)[0] == a[0];
      assert (a + b)[1..] == a[1..] + b;
      CountConcat(a[1..], b, x);
    }
  }

  lemma CountSingle<T>(y: T, x: T)
    ensures Count([y], x) == (if y == x then 1 else 0)
  {
    assert [y][1..] == [];
  }

  /** `range(n)` is empty for a negative `n`. */
  function Trials(n: int): nat {
    if n < 0 then 0 else n
  }

  /** One iteration of `loop`: open the trial, mark it when the flag is set,
      yield it to `run`, which trains it, then close it. */
  function Iteration(k: nat, continueOnError: bool): (r: seq<Event>)
    ensures |r| == (if continueOnError then 4 else 3)
    ensures r[0] == EnterTrial(k) && r[|r| - 2] == Train(k) && r[|r| - 1] == ExitTrial(k)
    ensures continueOnError ==> r[1] == TrialContinueOnError(k)
  {
    [EnterTrial(k)] + (if continueOnError then [TrialContinueOnError(k)] else []) + [Train(k), ExitTrial(k)]
  }

  /** `loop(round_scope)` over the first `n` iterations, as consumed by `run`:
      three events an iteration, four when trials continue on error; the
      first opens trial 0 and the last closes trial `n - 1`. */
  function LoopTrace(n: nat, continueOnError: bool): (r: seq<Event>)
    ensures |r| == if continueOnError then 4 * n else 3 * n
    ensures n > 0 ==> r[0] == EnterTrial(0) && r[|r| - 1] == ExitTrial(n - 1)
    decreases n
  {
    if n == 0 then [] else LoopTrace(n - 1, continueOnError) + Iteration(n - 1, continueOnError)
  }

  /** The trial numbers of the trials opened, in order. */
  function Opened(s: seq<Event>): seq<nat> {
    if |s| == 0 then [] else (if s[0].EnterTrial? then [s[0].k] else []) + Opened(s[1..])
  }

  lemma {:induction false} OpenedConcat(a: seq<Event>, b: seq<Event>)
    ensures Opened(a + b) == Opened(a) + Opened(b)
    decreases |a|
  {
    if |a| == 0 {
      assert a + b == b;
    } else {
      assert (a + b)[0] == a[0];
      assert (a + b)[1..] == a[1..] + b;
      OpenedConcat(a[1..], b);
    }
  }

  function Range(n: nat): (r: seq<nat>)
    ensures |r| == n && forall i | 0 <= i < n :: r[i] == i
  {
    seq(n, i requires 0 <= i < n => i)
  }

  /** `loop` opens the trial scopes numbered 0 to `n_trials - 1`, in that
      order. */
  lemma {:induction false} LoopOpensInOrder(n: nat, continueOnError: bool)
    ensures Opened(LoopTrace(n, continueOnError)) == Range(n)
    decreases n
  {
    if n > 0 {
      LoopOpensInOrder(n - 1, continueOnError);
      OpenedConcat(LoopTrace(n - 1, continueOnError), Iteration(n - 1, continueOnError));
      IterationOpens(n - 1, continueOnError);
      assert Range(n - 1) + [n - 1] == Range(n);
    }
  }

  lemma IterationOpens(j: nat, continueOnError: bool)
    ensures Opened(Iteration(j, continueOnError)) == [j]
  {
    var mark: seq<Event> := if continueOnError then [TrialContinueOnError(j)] else [];
    assert Iteration(j, continueOnError) == [EnterTrial(j)] + (mark + ([Train(j)] + [ExitTrial(j)]));
    OpenedConcat([EnterTrial(j)], mark + ([Train(j)] + [ExitTrial(j)]));
    OpenedConcat(mark, [Train(j)] + [ExitTrial(j)]);
    OpenedConcat([Train(j)], [ExitTrial(j)]);
    assert [EnterTrial(j)][1..] == [] && [Train(j)][1..] == [] && [ExitTrial(j)][1..] == [];
    if continueOnError {
      assert mark[1..] == [];
    }
  }

  /** How often `x` occurs in one iteration. */
  lemma IterationCount(j: nat, continueOnError: bool, x: Event)
    ensures Count(Iteration(j, continueOnError), x) ==
              (if x == EnterTrial(j) || x == Train(j) || x == ExitTrial(j) then 1 else 0)
              + (if continueOnError && x == TrialContinueOnError(j) then 1 else 0)
  {
    var mark: seq<Event> := if continueOnError then [TrialContinueOnError(j)] else [];
    assert Iteration(j, continueOnError) == [EnterTrial(j)] + (mark + ([Train(j)] + [ExitTrial(j)]));
    CountConcat([EnterTrial(j)], mark + ([Train(j)] + [ExitTrial(j)]), x);
    CountConcat(mark, [Train(j)] + [ExitTrial(j)], x);
    CountConcat([Train(j)], [ExitTrial(j)], x);
    CountSingle(EnterTrial(j), x);
    CountSingle(Train(j), x);
    CountSingle(ExitTrial(j), x);
    if continueOnError {
      CountSingle(TrialContinueOnError(j), x);
    }
  }

  lemma LoopCountStep(n: nat, continueOnError: bool, x: Event)
    requires n > 0
    ensures Count(LoopTrace(n, continueOnError), x) ==
              Count(LoopTrace(n - 1, continueOnError), x) + Count(Iteration(n - 1, continueOnError), x)
  {
    CountConcat(LoopTrace(n - 1, continueOnError), Iteration(n - 1, continueOnError), x);
  }

  /** How often `x` occurs in the first `n` iterations: once for each trial
      event of a trial below `n`, and once for its mark when flagged. */
  lemma {:induction false} LoopCount(n: nat, continueOnError: bool, x: Event)
    ensures Count(LoopTrace(n, continueOnError), x) ==
              (if (x.EnterTrial? || x.Train? || x.ExitTrial?) && x.k < n then 1 else 0)
              + (if continueOnError && x.TrialContinueOnError? && x.k < n then 1 else 0)
    decreases n
  {
    if n > 0 {
      LoopCount(n - 1, continueOnError, x);
      LoopCountStep(n, continueOnError, x);
      IterationCount(n - 1, continueOnError, x);
    }
  }

  /** `loop` opens, trains and closes each of the `n_trials` trials exactly
      once, and no other. */
  lemma LoopOpensEachTrialOnce(n: nat, continueOnError: bool, k: nat)
    ensures Count(LoopTrace(n, continueOnError), EnterTrial(k)) == (if k < n then 1 else 0)
    ensures Count(LoopTrace(n, continueOnError), Train(k)) == (if k < n then 1 else 0)
    ensures Count(LoopTrace(n, continueOnError), ExitTrial(k)) == (if k < n then 1 else 0)
  {
    LoopCount(n, continueOnError, EnterTrial(k));
    LoopCount(n, continueOnError, Train(k));
    LoopCount(n, continueOnError, ExitTrial(k));
  }

  /** `continue_loop_on_error` is applied to each trial scope exactly when the
      flag is set, and to no trial otherwise. */
  lemma LoopMarksTrialsWhenFlagged(n: nat, continueOnError: bool, k: nat)
    ensures Count(LoopTrace(n, continueOnError), TrialContinueOnError(k)) == (if continueOnError && k < n then 1 else 0)
  {
    LoopCount(n, continueOnError, TrialContinueOnError(k));
  }

  /** `run`: open the round, mark it when the flag is set, train every trial
      the loop yields, close the round and return its id. Every train call
      returns; how the aggregates' exit handlers treat a raising one is not
      part of this model. */
  method Run(nTrials: int, continueOnError: bool, roundId: nat) returns (trace: seq<Event>, id: nat)
    ensures id == roundId
    ensures trace == [EnterRound] + (if continueOnError then [RoundContinueOnError] else [])
                     + LoopTrace(Trials(nTrials), continueOnError) + [ExitRound]
  {
    trace := [EnterRound];
    if continueOnError {
      trace := trace + [RoundContinueOnError];
    }
    var prefix := trace;
    var i := 0;
    while i < nTrials
      invariant 0 <= i <= Trials(nTrials)
      invariant trace == prefix + LoopTrace(i, continueOnError)
    {
      ExtendTrace(prefix, i, continueOnError);
      trace := trace + Iteration(i, continueOnError);
      i := i + 1;
    }
    trace := trace + [ExitRound];
    id := roundId;
  }

  /** One more iteration extends the loop's trace by that iteration. */
  lemma ExtendTrace(prefix: seq<Event>, i: nat, continueOnError: bool)
    ensures prefix + LoopTrace(i, continueOnError) + Iteration(i, continueOnError)
            == prefix + LoopTrace(i + 1, continueOnError)
  {
    var loop, step := LoopTrace(i, continueOnError), Iteration(i, continueOnError);
    assert LoopTrace(i + 1, continueOnError) == loop + step;
    assert prefix + loop + step == prefix + (loop + step);
  }

  /** A run trains each of the `n_trials` trials once, marks the round once
      when flagged, and opens and closes the round once. */
  lemma RunTrainsEveryTrial(nTrials: int, continueOnError: bool, k: nat)
    ensures var trace := [EnterRound] + (if continueOnError then [RoundContinueOnError] else [])
                         + LoopTrace(Trials(nTrials), continueOnError) + [ExitRound];
            && Count(trace, Train(k)) == (if k < Trials(nTrials) then 1 else 0)
            && Count(trace, RoundContinueOnError) == (if continueOnError then 1 else 0)
            && trace[0] == EnterRound && trace[|trace| - 1] == ExitRound
  {
    var mark := if continueOnError then [RoundContinueOnError] else [];
    var loop := LoopTrace(Trials(nTrials), continueOnError);
    LoopOpensEachTrialOnce(Trials(nTrials), continueOnError, k);
    LoopCount(Trials(nTrials), continueOnError, RoundContinueOnError);
    FramedCount(mark, loop, Train(k));
    FramedCount(mark, loop, RoundContinueOnError);
    if continueOnError {
      CountSingle(RoundContinueOnError, Train(k));
      CountSingle(RoundContinueOnError, RoundContinueOnError);
    }
  }

  /** Counting through the round's opening and closing events. */
  lemma FramedCount(mark: seq<Event>, loop: seq<Event>, x: Event)
    ensures Count([EnterRound] + mark + loop + [ExitRound], x)
            == (if x == EnterRound then 1 else 0) + Count(mark, x) + Count(loop, x)
               + (if x == ExitRound then 1 else 0)
  {
    CountConcat([EnterRound] + mark + loop, [ExitRound], x);
    CountConcat([EnterRound] + mark, loop, x);
    CountConcat([EnterRound], mark, x);
    CountSingle(EnterRound, x);
    CountSingle(ExitRound, x);
  }

  // ------------------------------------------------------------ one attempt

  /** An exception class: its name and the names of all its ancestor classes. */
  datatype ExceptionClass = ExceptionClass(name: string, bases: set<string>)

  /** `isinstance(error, types)` for a tuple of class names. */
  predicate IsInstanceOfAny(e: ExceptionClass, types: seq<string>) {
    exists i | 0 <= i < |types| :: types[i] == e.name || types[i] in e.bases
  }

  /** `except Exception:` catches the error: it is `Exception` or derives from
      it, rather than only from `BaseException`. */
  predicate IsException(e: ExceptionClass) {
    IsInstanceOfAny(e, ["Exception"])
  }

  /** How the attempt's body ends. A failure happens once the trial is
      bound; `lastSplit` is the split the trainer returned when the failure
      came after it, none when it came before. */
  datatype Attempt = Succeeds | Fails(error: ExceptionClass, lastSplit: Option<nat>)

  /** The failure description: 1-based trial and split numbers out of their
      totals, then the trial's hyperparameters. */
  datatype Description = Description(trialShown: int, trials: int, splitShown: int, splits: nat, hyperparams: string)

  /** `_get_trial_split_description`: the trial and the split are shown
      counting from one, out of the number of trials and of splits; a trial
      and split inside those ranges show a position within them, and the
      description determines which trial and split it was written for. */
  function TrialSplitDescription(trialNumber: int, nTrial: int, splitNumber: int, nSplits: nat, hyperparams: string)
    : (r: Description)
    ensures 0 <= trialNumber < nTrial ==> 1 <= r.trialShown <= r.trials == nTrial
    ensures 0 <= splitNumber < nSplits ==> 1 <= r.splitShown <= r.splits == nSplits
    ensures r.hyperparams == hyperparams
  {
    Description(trialNumber + 1, nTrial, splitNumber + 1, nSplits, hyperparams)
  }

  /** The text `'{}/{} split {}/{}\nhyperparams: {}'` makes of a
      description, the hyperparameters being their JSON text. It ends with
      that JSON text. */
  function DescriptionText(d: Description): (s: string)
    ensures |s| > |d.hyperparams| && s[|s| - |d.hyperparams|..] == d.hyperparams
  {
    IntToString(d.trialShown) + ("/" + (IntToString(d.trials) + (" split " + (IntToString(d.splitShown) + ("/"
    + (IntToString(d.splits) + ("\nhyperparams: " + d.hyperparams)))))))
  }

  /** Two logged failure texts are equal only when they were written for the
      same trial out of the same total, the same split out of the same total,
      and the same hyperparameters. */
  lemma DescriptionTextIdentifiesSplit(t1: int, n1: int, s1: int, m1: nat, hp1: string,
                                       t2: int, n2: int, s2: int, m2: nat, hp2: string)
    requires DescriptionText(TrialSplitDescription(t1, n1, s1, m1, hp1))
          == DescriptionText(TrialSplitDescription(t2, n2, s2, m2, hp2))
    ensures t1 == t2 && n1 == n2 && s1 == s2 && m1 == m2 && hp1 == hp2
  {
    DescriptionTextInjective(TrialSplitDescription(t1, n1, s1, m1, hp1), TrialSplitDescription(t2, n2, s2, m2, hp2));
  }

  /** The description text can be read back: it determines the description. */
  lemma DescriptionTextInjective(d1: Description, d2: Description)
    requires DescriptionText(d1) == DescriptionText(d2)
    ensures d1 == d2
  {
    var t1 := "\nhyperparams: " + d1.hyperparams;
    var t2 := "\nhyperparams: " + d2.hyperparams;
    var r1 := "/" + (IntToString(d1.splits) + t1);
    var r2 := "/" + (IntToString(d2.splits) + t2);
    var q1 := " split " + (IntToString(d1.splitShown) + r1);
    var q2 := " split " + (IntToString(d2.splitShown) + r2);
    var p1 := "/" + (IntToString(d1.trials) + q1);
    var p2 := "/" + (IntToString(d2.trials) + q2);
    NumberThenSeparator(d1.trialShown, p1, d2.trialShown, p2);
    DropPrefix("/", IntToString(d1.trials) + q1, IntToString(d2.trials) + q2);
    NumberThenSeparator(d1.trials, q1, d2.trials, q2);
    DropPrefix(" split ", IntToString(d1.splitShown) + r1, IntToString(d2.splitShown) + r2);
    NumberThenSeparator(d1.splitShown, r1, d2.splitShown, r2);
    DropPrefix("/", IntToString(d1.splits) + t1, IntToString(d2.splits) + t2);
    NumberThenSeparator(d1.splits, t1, d2.splits, t2);
    DropPrefix("\nhyperparams: ", d1.hyperparams, d2.hyperparams);
  }

  /** A decimal number followed by text starting with '/', ' ' or a line
      break: equal texts hold equal numbers and equal rests. */
  lemma NumberThenSeparator(i: int, y: string, j: int, y': string)
    requires |y| > 0 && (y[0] == '/' || y[0] == ' ' || y[0] == '\n')
    requires IntToString(i) + y == IntToString(j) + y'
    requires |y'| > 0 && y'[0] == y[0]
    ensures i == j && y == y'
  {
    NotInDecimal(i, y[0]);
    NotInDecimal(j, y[0]);
    assert y == [y[0]] + y[1..] && y' == [y[0]] + y'[1..];
    CutAt(y[0], IntToString(i), y[1..], IntToString(j), y'[1..]);
    IntToStringInjective(i, j);
  }

  /** `str` of an integer holds only digits and a leading minus sign. */
  lemma NotInDecimal(i: int, c: char)
    requires !IsDigit(c) && c != '-'
    ensures c !in IntToString(i)
  {
    var s := IntToString(i);
    forall k | 0 <= k < |s| ensures s[k] != c {
      if k > 0 && i < 0 {
        assert s[k] == s[1..][k - 1];
      }
    }
  }

  /** How many elements come before the first `c` (all of them when there
      is none). */
  function LeadingWithout<T(==)>(c: T, s: seq<T>): (n: nat)
    ensures n <= |s| && (n < |s| ==> s[n] == c)
    ensures forall k | 0 <= k < n :: s[k] != c
  {
    if |s| == 0 || s[0] == c then 0 else 1 + LeadingWithout(c, s[1..])
  }

  /** The first separator of `x + [c] + y` is the one after `x` when `x` has
      none of its own. */
  lemma {:induction false} LeadingWithoutHead<T>(c: T, x: seq<T>, y: seq<T>)
    requires c !in x
    ensures LeadingWithout(c, x + ([c] + y)) == |x|
  {
    if |x| > 0 {
      assert (x + ([c] + y))[1..] == x[1..] + ([c] + y);
      LeadingWithoutHead(c, x[1..], y);
    }
  }

  /** Splitting at the first occurrence of a separator that neither head
      contains: equal texts have equal heads and equal tails. */
  lemma CutAt<T>(c: T, x: seq<T>, y: seq<T>, x': seq<T>, y': seq<T>)
    requires c !in x && c !in x' && x + ([c] + y) == x' + ([c] + y')
    ensures x == x' && y == y'
  {
    var s := x + ([c] + y);
    LeadingWithoutHead(c, x, y);
    LeadingWithoutHead(c, x', y');
    assert x == s[..|x|] && x' == s[..|x'|];
    assert y == s[|x| + 1..] && y' == s[|x'| + 1..];
  }

  /** Equal texts with the same fixed start agree after it. */
  lemma DropPrefix<T>(p: seq<T>, y: seq<T>, y': seq<T>)
    requires p + y == p + y'
    ensures y == y'
  {
    assert y == (p + y)[|p|..] && y' == (p + y')[|p|..];
  }

  /** What the attempt does to the trial and the logger, in order. */
  datatype Step =
    | SetFailed                  // `repo_trial.set_failed(error)`
    | LogCritical                // the traceback, at critical level
    | LogFailure(d: Description) // `failed trial ...`
    | LogTrace                   // the traceback, at error level
    | UpdateFinalStatus          // `repo_trial.update_final_trial_status()`
    | CollectGarbage

  datatype Verdict = Completed | Swallowed | Reraised(error: ExceptionClass)

  datatype AttemptResult = AttemptResult(verdict: Verdict, steps: seq<Step>)

  /** `_attempt_trial`: an error of one of the types to raise marks the trial
      failed and is raised again; any other `Exception` is logged with its
      description and swallowed; an error that is no `Exception` passes
      through. The final status update runs on every path. */
  function AttemptTrial(trialNumber: int, nTrial: int, nSplits: nat, hyperparams: string,
                        typesToRaise: seq<string>, attempt: Attempt): (r: AttemptResult)
    ensures attempt.Succeeds? <==> r.verdict == Completed
    ensures r.verdict.Reraised? <==> attempt.Fails? && (IsInstanceOfAny(attempt.error, typesToRaise) || !IsException(attempt.error))
    ensures r.verdict.Reraised? ==> r.verdict.error == attempt.error
    ensures r.verdict == Swallowed <==>
              attempt.Fails? && !IsInstanceOfAny(attempt.error, typesToRaise) && IsException(attempt.error)
    ensures (SetFailed in r.steps) <==> attempt.Fails? && IsInstanceOfAny(attempt.error, typesToRaise)
    ensures |r.steps| >= 2 && r.steps[|r.steps| - 2] == UpdateFinalStatus && r.steps[|r.steps| - 1] == CollectGarbage
  {
    var final := [UpdateFinalStatus, CollectGarbage];
    match attempt
    case Succeeds => AttemptResult(Completed, final)
    case Fails(e, last) =>
      if IsInstanceOfAny(e, typesToRaise) then
        AttemptResult(Reraised(e), [SetFailed, LogCritical] + final)
      else if IsException(e) then
        var splitNumber := if last.None? then 0 else last.value + 1;
        var d := TrialSplitDescription(trialNumber, nTrial, splitNumber, nSplits, hyperparams);
        AttemptResult(Swallowed, [LogFailure(d), LogTrace] + final)
      else
        AttemptResult(Reraised(e), final)
  }

  /** The final status is updated exactly once on every exit path. */
  lemma FinalStatusOnce(trialNumber: int, nTrial: int, nSplits: nat, hyperparams: string,
                        typesToRaise: seq<string>, attempt: Attempt)
    ensures Count(AttemptTrial(trialNumber, nTrial, nSplits, hyperparams, typesToRaise, attempt).steps,
                  UpdateFinalStatus) == 1
  {
    var r := AttemptTrial(trialNumber, nTrial, nSplits, hyperparams, typesToRaise, attempt);
    var final := [UpdateFinalStatus, CollectGarbage];
    assert final[1..] == [CollectGarbage];
    assert Count(final, UpdateFinalStatus) == 1;
    if r.steps != final {
      var head := r.steps[..|r.steps| - 2];
      assert r.steps == head + final;
      assert |head| == 2 && UpdateFinalStatus !in head;
      CountConcat(head, final, UpdateFinalStatus);
    }
  }

  /** A swallowed failure is logged once, with the 1-based trial number and
      split number 1 when no split was reached, the last split's number plus
      2 otherwise. */
  lemma SwallowedFailureDescribed(trialNumber: int, nTrial: int, nSplits: nat, hyperparams: string,
                                  typesToRaise: seq<string>, e: ExceptionClass, last: Option<nat>)
    requires IsException(e) && !IsInstanceOfAny(e, typesToRaise)
    ensures var r := AttemptTrial(trialNumber, nTrial, nSplits, hyperparams, typesToRaise, Fails(e, last));
            r.steps[0].LogFailure? && r.steps[1] == LogTrace
            && r.steps[0].d.trialShown == trialNumber + 1 && r.steps[0].d.trials == nTrial
            && r.steps[0].d.splitShown == (if last.None? then 1 else last.value + 2)
            && r.steps[0].d.splits == nSplits && r.steps[0].d.hyperparams == hyperparams
  {
  }

  /** The single-process branch: `_attempt_trial` for each trial number in
      `range(n_trial)`, one attempt each. A re-raised error stops the
      sequence; a swallowed one does not. */
  function AttemptAll(nTrial: int, nSplits: nat, hyperparams: seq<string>, typesToRaise: seq<string>,
                      attempts: seq<Attempt>, from: nat): (r: (nat, seq<Step>, Option<ExceptionClass>))
    requires |attempts| == Trials(nTrial) && |hyperparams| == |attempts| && from <= |attempts|
    ensures from <= r.0 <= Trials(nTrial)
    ensures r.2.None? ==> r.0 == Trials(nTrial)
    ensures r.2.Some? ==>
              (from < r.0 &&
               var last := AttemptTrial(r.0 - 1, nTrial, nSplits, hyperparams[r.0 - 1], typesToRaise, attempts[r.0 - 1]);
               last.verdict.Reraised? && r.2.value == last.verdict.error)
    decreases |attempts| - from
  {
    if from == |attempts| then (from, [], None)
    else
      var one := AttemptTrial(from, nTrial, nSplits, hyperparams[from], typesToRaise, attempts[from]);
      if one.verdict.Reraised? then (from + 1, one.steps, Some(one.verdict.error))
      else
        var rest := AttemptAll(nTrial, nSplits, hyperparams, typesToRaise, attempts, from + 1);
        (rest.0, one.steps + rest.1, rest.2)
  }

  /** Errors that are swallowed do not stop the loop: when no attempt raises
      again, every trial is attempted and each gets its final status update
      exactly once. */
  lemma {:induction false} SwallowedErrorsContinue(nTrial: int, nSplits: nat, hyperparams: seq<string>,
                                                   typesToRaise: seq<string>, attempts: seq<Attempt>, from: nat)
    requires |attempts| == Trials(nTrial) && |hyperparams| == |attempts| && from <= |attempts|
    requires forall i | from <= i < |attempts| ::
               !AttemptTrial(i, nTrial, nSplits, hyperparams[i], typesToRaise, attempts[i]).verdict.Reraised?
    ensures var r := AttemptAll(nTrial, nSplits, hyperparams, typesToRaise, attempts, from);
            r.0 == Trials(nTrial) && r.2.None? && Count(r.1, UpdateFinalStatus) == Trials(nTrial) - from
    decreases |attempts| - from
  {
    if from < |attempts| {
      var one := AttemptTrial(from, nTrial, nSplits, hyperparams[from], typesToRaise, attempts[from]);
      SwallowedErrorsContinue(nTrial, nSplits, hyperparams, typesToRaise, attempts, from + 1);
      var rest := AttemptAll(nTrial, nSplits, hyperparams, typesToRaise, attempts, from + 1);
      FinalStatusOnce(from, nTrial, nSplits, hyperparams[from], typesToRaise, attempts[from]);
      CountConcat(one.steps, rest.1, UpdateFinalStatus);
    }
  }

  /** The first error raised again ends the sequence at that trial, and it is
      the error the caller sees. */
  lemma {:induction false} ReraisedErrorStops(nTrial: int, nSplits: nat, hyperparams: seq<string>,
                                              typesToRaise: seq<string>, attempts: seq<Attempt>, from: nat, j: nat)
    requires |attempts| == Trials(nTrial) && |hyperparams| == |attempts| && from <= j < |attempts|
    requires forall i | from <= i < j ::
               !AttemptTrial(i, nTrial, nSplits, hyperparams[i], typesToRaise, attempts[i]).verdict.Reraised?
    requires AttemptTrial(j, nTrial, nSplits, hyperparams[j], typesToRaise, attempts[j]).verdict.Reraised?
    ensures var r := AttemptAll(nTrial, nSplits, hyperparams, typesToRaise, attempts, from);
            r.0 == j + 1 && r.2 == Some(attempts[j].error)
    decreases j - from
  {
    if from < j {
      ReraisedErrorStops(nTrial, nSplits, hyperparams, typesToRaise, attempts, from + 1, j);
      SwallowedAttemptPasses(nTrial, nSplits, hyperparams, typesToRaise, attempts, from);
    } else {
      ReraisedAttemptEnds(nTrial, nSplits, hyperparams, typesToRaise, attempts, from);
    }
  }

  /** An attempt that is not raised again hands over to the next trial. */
  lemma SwallowedAttemptPasses(nTrial: int, nSplits: nat, hyperparams: seq<string>,
                               typesToRaise: seq<string>, attempts: seq<Attempt>, from: nat)
    requires |attempts| == Trials(nTrial) && |hyperparams| == |attempts| && from < |attempts|
    requires !AttemptTrial(from, nTrial, nSplits, hyperparams[from], typesToRaise, attempts[from]).verdict.Reraised?
    ensures var r := AttemptAll(nTrial, nSplits, hyperparams, typesToRaise, attempts, from);
            var rest := AttemptAll(nTrial, nSplits, hyperparams, typesToRaise, attempts, from + 1);
            r.0 == rest.0 && r.2 == rest.2
  {
  }

  /** An attempt raised again ends the trials with its error. */
  lemma ReraisedAttemptEnds(nTrial: int, nSplits: nat, hyperparams: seq<string>,
                            typesToRaise: seq<string>, attempts: seq<Attempt>, from: nat)
    requires |attempts| == Trials(nTrial) && |hyperparams| == |attempts| && from < |attempts|
    requires AttemptTrial(from, nTrial, nSplits, hyperparams[from], typesToRaise, attempts[from]).verdict.Reraised?
    ensures var r := AttemptAll(nTrial, nSplits, hyperparams, typesToRaise, attempts, from);
            r.0 == from + 1 && r.2 == Some(attempts[from].error)
  {
  }

  // ------------------------------------------------------------ n_jobs

  datatype Workers = SingleProcess | Pool(processes: nat)

  /** The worker plan of the multiprocessing branch. `None` or 1 runs in
      this process; any other value is refused for the legacy in-memory
      repository; a value of -1 or below counts back from `cpu_count() + 1`.
      The process pool refuses fewer than one process. */
  function PlanWorkers(nJobs: Option<int>, cpuCount: nat, legacyInMemoryRepo: bool): (r: Result<Workers>)
    ensures nJobs == None || nJobs == Some(1) ==> r == Ok(SingleProcess)
    ensures nJobs.Some? && nJobs.value != 1 && legacyInMemoryRepo ==> r == Err(ValueError(InMemoryWithWorkers))
    ensures r.Ok? && r.value.Pool? ==> r.value.processes >= 1 && nJobs.Some? && !legacyInMemoryRepo
    ensures nJobs.Some? && nJobs.value <= -1 && !legacyInMemoryRepo ==>
              if cpuCount + 1 + nJobs.value >= 1 then r == Ok(Pool(cpuCount + 1 + nJobs.value))
              else r == Err(ValueError(NoWorkers))
    ensures nJobs.Some? && nJobs.value >= 2 && !legacyInMemoryRepo ==> r == Ok(Pool(nJobs.value))
    ensures nJobs == Some(0) && !legacyInMemoryRepo ==> r == Err(ValueError(NoWorkers))
  {
    match nJobs
    case None => Ok(SingleProcess)
    case Some(j) =>
      if j == 1 then Ok(SingleProcess)
      else if legacyInMemoryRepo then Err(ValueError(InMemoryWithWorkers))
      else
        var n := if j <= -1 then cpuCount + 1 + j else j;
        if n < 1 then Err(ValueError(NoWorkers)) else Ok(Pool(n))
  }

  /** A negative count between `-cpu_count()` and -1 asks for that many
      processors fewer than all, plus one: -1 uses every processor. */
  lemma NegativeJobsCountBack(j: int, cpuCount: nat)
    requires -(cpuCount as int) <= j <= -1
    ensures PlanWorkers(Some(j), cpuCount, false) == Ok(Pool(cpuCount + 1 + j))
    ensures 1 <= cpuCount + 1 + j <= cpuCount
    ensures j == -1 ==> PlanWorkers(Some(j), cpuCount, false) == Ok(Pool(cpuCount))
  {
  }
}
