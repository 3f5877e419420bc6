/**
 * `runScenario`: one scenario against one target. The target is a deterministic state machine whose
 * state the runner threads but never looks into.
 */
module Runner {
  import opened Text
  import opened Assoc
  import opened Json
  import opened Matching
  import opened Iteration

  datatype Ctx = Ctx(tenant: string, actor: string, idempotencyKey: Option<string>)

  datatype CtxPatch = CtxPatch(tenant: Option<string>, actor: Option<string>, idempotencyKey: Option<string>)

  datatype Request = Request(op: string, input: Value)

  datatype Reply = Reply(status: nat, text: string)

  /**
   * A target. A race is one transition: `race` gives the state once every call has settled and
   * `outcome(_, _, _, i)` what call `i` answered, so any interleaving of the calls is allowed.
   */
  datatype Target<!S> = Target(
    name: string,
    reset: S -> S,
    call: (S, string, Value, Ctx) -> (S, CallResult),
    race: (S, seq<Request>, Ctx) -> S,
    outcome: (S, seq<Request>, Ctx, nat) -> CallResult,
    transfer: Option<(S, Value, Option<string>) -> (S, Reply)>)

  datatype Expect = ExpectOk(ok: Value) | ExpectError(error: string)

  datatype Count = Exactly(n: int) | Between(min: int, max: int)

  datatype Racers = Inputs(op: string, inputs: seq<Value>) | Calls(calls: seq<Request>)

  datatype Status = StatusNumber(number: int) | StatusClass(class_: string)

  datatype Step =
    | CallStep(name: string, op: string, input: Value, ctx: CtxPatch, want: Expect, eventually: Option<int>)
    | RaceStep(name: string, racers: Racers, successes: Count, failureCodes: seq<string>)
    | TransferStep(name: string, from: string, text: Option<string>, status: Status, expectText: Option<string>)

  datatype Scenario = Scenario(id: string, steps: seq<Step>)

  datatype Report = Report(scenario: string, target: string, steps: nat, failures: seq<Failure>,
                           results: seq<Entry<CallResult>>)

  /** The four stores of a run, and the target's own state. */
  datatype World<S> = World(state: S, results: seq<Entry<CallResult>>, raw: Raw, ids: seq<string>,
                            failures: seq<Failure>)

  function OrElse<T>(o: Option<T>, d: T): T {
    match o case Some(v) => v case None => d
  }

  function Overlay(base: Ctx, p: CtxPatch): Ctx {
    Ctx(OrElse(p.tenant, base.tenant), OrElse(p.actor, base.actor),
        if p.idempotencyKey.Some? then p.idempotencyKey else base.idempotencyKey)
  }

  function BaseCtx(tenant: Option<string>): Ctx {
    Ctx(match tenant case Some(t) => (if t == "" then "acme" else t) case None => "acme", "operator", None)
  }

  // ------------------------------------------------------------------- ids

  function FreshId(r: CallResult, ids: seq<string>): Option<string> {
    if r.Ok? && r.value.Obj? && Lookup(r.value.fields, "id").Str? && Lookup(r.value.fields, "id").s !in ids
    then Some(Lookup(r.value.fields, "id").s) else None
  }

  function CaptureId(r: CallResult, ids: seq<string>): seq<string> {
    match FreshId(r, ids) case Some(id) => ids + [id] case None => ids
  }

  // -------------------------------------------------------------- transfers

  function StatusMatches(want: Status, status: nat): bool {
    match want
    case StatusNumber(n) => status == n
    case StatusClass(c) => c != "" && Decimal(status)[0] == c[0]
  }

  function StatusValue(want: Status): Value {
    match want case StatusNumber(n) => Num(n as real) case StatusClass(c) => Str(c)
  }

  function TransferFailures(step: Step, r: Reply): seq<Failure>
    requires step.TransferStep?
  {
    (if StatusMatches(step.status, r.status) then []
     else [Failure(step.name, "status", StatusValue(step.status), Num(r.status as real))])
    + (match step.expectText
       case Some(t) => if r.text == t then [] else [Failure(step.name, "text", Str(t), Str(r.text))]
       case None => [])
  }

  function AfterTransfer<S>(w: World<S>, t: Target<S>, step: Step): World<S>
    requires step.TransferStep?
  {
    match t.transfer
    case None =>
      w.(failures := w.failures + [Failure(step.name, "", Str("target supports transfer"), Str("no transfer support"))])
    case Some(transfer) =>
      var (s, r) := transfer(w.state, Resolve(Str(step.from), w.raw, w.ids, true), step.text);
      w.(state := s,
         failures := w.failures + TransferFailures(step, r),
         results := Put(w.results, step.name, Ok(Obj([Field("status", Num(r.status as real))]))))
  }

  // ------------------------------------------------------------------ races

  function RequestsOf(racers: Racers): seq<Request> {
    match racers
    case Calls(calls) => calls
    case Inputs(op, inputs) => seq(|inputs|, i requires 0 <= i < |inputs| => Request(op, inputs[i]))
  }

  function Resolved(calls: seq<Request>, raw: Raw, ids: seq<string>): seq<Request> {
    seq(|calls|, i requires 0 <= i < |calls| => Request(calls[i].op, Resolve(calls[i].input, raw, ids, true)))
  }

  function Outcomes<S>(t: Target<S>, s: S, calls: seq<Request>, base: Ctx): seq<CallResult> {
    seq(|calls|, i requires 0 <= i < |calls| => t.outcome(s, calls, base, i))
  }

  function Successes(outcomes: seq<CallResult>): nat {
    if outcomes == [] then 0 else (if outcomes[0].Ok? then 1 else 0) + Successes(outcomes[1..])
  }

  function Codes(outcomes: seq<CallResult>): seq<string> {
    if outcomes == [] then [] else (if outcomes[0].Ok? then [] else [outcomes[0].code]) + Codes(outcomes[1..])
  }

  function Winner(outcomes: seq<CallResult>): Option<CallResult> {
    if outcomes == [] then None else if outcomes[0].Ok? then Some(outcomes[0]) else Winner(outcomes[1..])
  }

  function CountMatches(want: Count, n: nat): bool {
    match want case Exactly(k) => n == k case Between(lo, hi) => lo <= n <= hi
  }

  function CountValue(want: Count): Value {
    match want
    case Exactly(k) => Num(k as real)
    case Between(lo, hi) => Obj([Field("min", Num(lo as real)), Field("max", Num(hi as real))])
  }

  function Strings(xs: seq<string>): Value {
    Arr(seq(|xs|, i requires 0 <= i < |xs| => Str(xs[i])))
  }

  function CodeFailures(step: Step, outcomes: seq<CallResult>): seq<Failure>
    requires step.RaceStep?
  {
    if outcomes == [] then []
    else
      var o := outcomes[0];
      (if o.Err? && o.code !in step.failureCodes
       then [Failure(step.name, "failureCodes", Strings(step.failureCodes),
                     Obj([Field("code", Str(o.code)), Field("detail", o.detail)]))]
       else [])
      + CodeFailures(step, outcomes[1..])
  }

  function RaceRecord(outcomes: seq<CallResult>): CallResult {
    Ok(Obj([Field("successes", Num(Successes(outcomes) as real)),
            Field("failureCodes", Strings(Sort(Codes(outcomes))))]))
  }

  function SuccessFailures(step: Step, successes: nat): seq<Failure>
    requires step.RaceStep?
  {
    if CountMatches(step.successes, successes) then []
    else [Failure(step.name, "successes", CountValue(step.successes), Num(successes as real))]
  }

  function AfterRace<S>(w: World<S>, t: Target<S>, base: Ctx, step: Step): World<S>
    requires step.RaceStep?
  {
    var calls := Resolved(RequestsOf(step.racers), w.raw, w.ids);
    var outcomes := Outcomes(t, w.state, calls, base);
    var winner := Winner(outcomes);
    World(t.race(w.state, calls, base),
          Put(w.results, step.name, RaceRecord(outcomes)),
          match winner case Some(r) => w.raw[step.name := r] case None => w.raw,
          match winner case Some(r) => CaptureId(r, w.ids) case None => w.ids,
          w.failures + SuccessFailures(step, Successes(outcomes)) + CodeFailures(step, outcomes))
  }

  // ------------------------------------------------------------------ calls

  /** What an `ok` expectation finds wrong with a successful result, with the ids known so far. */
  function OkDiffs(step: Step, expected: Value, value: Value, raw: Raw, ids: seq<string>): seq<Failure> {
    Diffs(Normalize(Resolve(expected, raw, ids, false), ids), Normalize(value, ids), "", step.name)
  }

  /** `probe`. */
  function Accepts(step: Step, r: CallResult, raw: Raw, ids: seq<string>): bool
    requires step.CallStep?
  {
    match step.want
    case ExpectError(code) => r.Err? && r.code == code
    case ExpectOk(expected) => r.Ok? && OkDiffs(step, expected, r.value, raw, ids) == []
  }

  datatype Polled<S> = Polled(state: S, result: CallResult, calls: nat)

  /** The `eventually` loop, entered with the answer to call number `i`. */
  function Poll<S>(t: Target<S>, step: Step, input: Value, ctx: Ctx, raw: Raw, ids: seq<string>, attempts: int, s: S,
                   r: CallResult, i: nat): Polled<S>
    requires step.CallStep?
    decreases attempts - i
  {
    if i < attempts && !Accepts(step, r, raw, ids) then
      var (s', r') := t.call(s, step.op, input, ctx);
      Poll(t, step, input, ctx, raw, ids, attempts, s', r', i + 1)
    else Polled(s, r, i)
  }

  function Called<S>(w: World<S>, t: Target<S>, base: Ctx, step: Step): Polled<S>
    requires step.CallStep?
  {
    var input, ctx := Resolve(step.input, w.raw, w.ids, true), Overlay(base, step.ctx);
    var (s, r) := t.call(w.state, step.op, input, ctx);
    match step.eventually
    case None => Polled(s, r, 1)
    case Some(attempts) => Poll(t, step, input, ctx, w.raw, w.ids, attempts, s, r, 1)
  }

  /** The record kept of a call; an error is kept as it came. */
  function CallRecord(r: CallResult, ids: seq<string>): CallResult {
    if r.Ok? then Ok(Normalize(r.value, ids)) else r
  }

  /** A call result as the object it is in JavaScript. */
  function ResultValue(r: CallResult): Value {
    match r
    case Ok(v) => Obj([Field("ok", Bool(true)), Field("value", v)])
    case Err(code, detail) =>
      Obj([Field("ok", Bool(false)), Field("code", Str(code))] + if detail == Undefined then []
          else [Field("detail", detail)])
  }

  function Verdict(step: Step, r: CallResult, raw: Raw, ids: seq<string>): seq<Failure>
    requires step.CallStep?
  {
    match step.want
    case ExpectError(code) =>
      if r.Ok? then [Failure(step.name, "", Obj([Field("error", Str(code))]), ResultValue(CallRecord(r, ids)))]
      else if r.code != code then [Failure(step.name, "code", Str(code), Str(r.code))]
      else []
    case ExpectOk(expected) =>
      if r.Err? then [Failure(step.name, "", Obj([Field("ok", expected)]), ResultValue(r))]
      else OkDiffs(step, expected, r.value, raw, ids)
  }

  function AfterCall<S>(w: World<S>, t: Target<S>, base: Ctx, step: Step): World<S>
    requires step.CallStep?
  {
    var p := Called(w, t, base, step);
    var raw, ids := w.raw[step.name := p.result], CaptureId(p.result, w.ids);
    World(p.state, Put(w.results, step.name, CallRecord(p.result, ids)), raw, ids,
          w.failures + Verdict(step, p.result, raw, ids))
  }

  // ------------------------------------------------------------------- runs

  function AfterStep<S>(w: World<S>, t: Target<S>, base: Ctx, step: Step): World<S> {
    match step
    case TransferStep(_, _, _, _, _) => AfterTransfer(w, t, step)
    case RaceStep(_, _, _, _) => AfterRace(w, t, base, step)
    case CallStep(_, _, _, _, _, _) => AfterCall(w, t, base, step)
  }

  function Start<S>(t: Target<S>, s: S): World<S> {
    World(t.reset(s), [], map[], [], [])
  }

  function Stepper<S>(t: Target<S>, base: Ctx, steps: seq<Step>): (World<S>, nat) -> World<S> {
    (w: World<S>, i: nat) => if i < |steps| then AfterStep(w, t, base, steps[i]) else w
  }

  /** The world after the first `n` steps. */
  function RunTo<S>(t: Target<S>, base: Ctx, steps: seq<Step>, s: S, n: nat): World<S> {
    Iterate(Stepper(t, base, steps), Start(t, s), n)
  }

  function ReportOf<S>(sc: Scenario, t: Target<S>, w: World<S>): Report {
    Report(sc.id, t.name, |sc.steps|, w.failures, w.results)
  }

  function Run<S>(sc: Scenario, t: Target<S>, base: Ctx, s: S): World<S> {
    RunTo(t, base, sc.steps, s, |sc.steps|)
  }

  class Session<S> {
    const target: Target<S>
    const base: Ctx
    const log: FailureLog
    var state: S
    var results: seq<Entry<CallResult>>
    var raw: Raw
    var ids: seq<string>

    function View(): World<S>
      reads this, log
    {
      World(state, results, raw, ids, log.items)
    }

    constructor (target: Target<S>, base: Ctx, s: S)
      ensures View() == Start(target, s) && this.target == target && this.base == base
      ensures fresh(log)
    {
      this.target, this.base := target, base;
      log := new FailureLog();
      state := target.reset(s);
      results, raw, ids := [], map[], [];
    }

    method Capture(r: CallResult)
      modifies `ids
      ensures ids == CaptureId(r, old(ids))
    {
      if r.Ok? && r.value.Obj? {
        var id := Lookup(r.value.fields, "id");
        if id.Str? && id.s !in ids {
          ids := ids + [id.s];
        }
      }
    }

    method Transfer(step: Step)
      requires step.TransferStep?
      modifies this, log
      ensures View() == AfterTransfer(old(View()), target, step)
    {
      var signed := Resolve(Str(step.from), raw, ids, true);
      if target.transfer.None? {
        log.Push(Failure(step.name, "", Str("target supports transfer"), Str("no transfer support")));
        return;
      }
      var (s, r) := target.transfer.value(state, signed, step.text);
      state := s;
      if !StatusMatches(step.status, r.status) {
        log.Push(Failure(step.name, "status", StatusValue(step.status), Num(r.status as real)));
      }
      if step.expectText.Some? && r.text != step.expectText.value {
        log.Push(Failure(step.name, "text", Str(step.expectText.value), Str(r.text)));
      }
      results := Put(results, step.name, Ok(Obj([Field("status", Num(r.status as real))])));
    }

    lemma {:induction false} NextCodeFailures(step: Step, outcomes: seq<CallResult>, i: nat)
      requires step.RaceStep? && i < |outcomes|
      ensures CodeFailures(step, outcomes[i..])
              == CodeFailures(step, [outcomes[i]]) + CodeFailures(step, outcomes[i + 1..])
    {
      Uncons(outcomes, i);
    }

    method PushCodeFailures(step: Step, outcomes: seq<CallResult>)
      requires step.RaceStep?
      modifies log
      ensures log.items == old(log.items) + CodeFailures(step, outcomes)
    {
      assert outcomes[0..] == outcomes;
      for i := 0 to |outcomes|
        invariant log.items + CodeFailures(step, outcomes[i..]) == old(log.items) + CodeFailures(step, outcomes)
      {
        var o := outcomes[i];
        NextCodeFailures(step, outcomes, i);
        Concat(log.items, CodeFailures(step, [o]), CodeFailures(step, outcomes[i + 1..]));
        if o.Err? && o.code !in step.failureCodes {
          log.Push(Failure(step.name, "failureCodes", Strings(step.failureCodes),
                           Obj([Field("code", Str(o.code)), Field("detail", o.detail)])));
        }
      }
    }

    method PushSuccessFailures(step: Step, successes: nat)
      requires step.RaceStep?
      modifies log
      ensures log.items == old(log.items) + SuccessFailures(step, successes)
    {
      if !CountMatches(step.successes, successes) {
        log.Push(Failure(step.name, "successes", CountValue(step.successes), Num(successes as real)));
      }
    }

    method Race(step: Step)
      requires step.RaceStep?
      modifies this, log
      ensures View() == AfterRace(old(View()), target, base, step)
    {
      var calls := Resolved(RequestsOf(step.racers), raw, ids);
      var outcomes := Outcomes(target, state, calls, base);
      state := target.race(state, calls, base);
      PushSuccessFailures(step, Successes(outcomes));
      PushCodeFailures(step, outcomes);
      var winner := Winner(outcomes);
      if winner.Some? {
        raw := raw[step.name := winner.value];
        Capture(winner.value);
      }
      results := Put(results, step.name, RaceRecord(outcomes));
    }

    /** Call the target and, for an `eventually` step, poll until the expectation holds. */
    method CallAndPoll(step: Step) returns (result: CallResult, calls: nat)
      requires step.CallStep?
      modifies `state
      ensures Polled(state, result, calls) == Called(old(View()), target, base, step)
    {
      var input, ctx := Resolve(step.input, raw, ids, true), Overlay(base, step.ctx);
      var (s, r) := target.call(state, step.op, input, ctx);
      state, result, calls := s, r, 1;
      if step.eventually.Some? {
        var attempts := step.eventually.value;
        var i := 1;
        while i < attempts && !Accepts(step, result, raw, ids)
          invariant calls == i
          invariant Poll(target, step, input, ctx, raw, ids, attempts, state, result, i)
                 == Poll(target, step, input, ctx, raw, ids, attempts, s, r, 1)
        {
          var (s', r') := target.call(state, step.op, input, ctx);
          state, result, calls := s', r', calls + 1;
          i := i + 1;
        }
      }
    }

    method Call(step: Step)
      requires step.CallStep?
      modifies this, log
      ensures View() == AfterCall(old(View()), target, base, step)
    {
      var result, _ := CallAndPoll(step);
      raw := raw[step.name := result];
      Capture(result);
      var normalized := CallRecord(result, ids);
      results := Put(results, step.name, normalized);
      match step.want
      case ExpectError(code) =>
        if result.Ok? {
          log.Push(Failure(step.name, "", Obj([Field("error", Str(code))]), ResultValue(normalized)));
        } else if result.code != code {
          log.Push(Failure(step.name, "code", Str(code), Str(result.code)));
        }
      case ExpectOk(ok) =>
        if result.Err? {
          log.Push(Failure(step.name, "", Obj([Field("ok", ok)]), ResultValue(result)));
        } else {
          log.Diff(Normalize(Resolve(ok, raw, ids, false), ids), Normalize(result.value, ids), "", step.name);
        }
    }

    method Take(step: Step)
      modifies this, log
      ensures View() == AfterStep(old(View()), target, base, step)
    {
      match step
      case TransferStep(_, _, _, _, _) => Transfer(step);
      case RaceStep(_, _, _, _) => Race(step);
      case CallStep(_, _, _, _, _, _) => Call(step);
    }

    lemma {:induction false} StepperStep(steps: seq<Step>, n: nat, w: World<S>)
      requires n < |steps|
      ensures var f := Stepper(target, base, steps);
              Iterate(f, w, n + 1) == AfterStep(Iterate(f, w, n), target, base, steps[n])
    {
    }

    method TakeAll(steps: seq<Step>)
      modifies this, log
      ensures View() == Iterate(Stepper(target, base, steps), old(View()), |steps|)
    {
      ghost var f, w := Stepper(target, base, steps), View();
      for n := 0 to |steps|
        invariant View() == Iterate(f, w, n)
      {
        StepperStep(steps, n, w);
        Take(steps[n]);
      }
    }
  }

  method RunScenario<S>(sc: Scenario, target: Target<S>, tenant: Option<string>, s: S) returns (report: Report, s': S)
    ensures var w := Run(sc, target, BaseCtx(tenant), s); report == ReportOf(sc, target, w) && s' == w.state
  {
    var run := new Session(target, BaseCtx(tenant), s);
    run.TakeAll(sc.steps);
    report := Report(sc.id, target.name, |sc.steps|, run.log.items, run.results);
    s' := run.state;
  }
}
