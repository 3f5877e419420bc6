/** When a step of a scenario fails: what each kind of step asks of the target's answers, and whole runs. */
module Verdicts {
  import opened Text
  import opened Assoc
  import opened Json
  import opened Matching
  import opened Runner
  import opened RunLaws
  import opened Places

  // -------------------------------------------------------------- expectations

  /** The answer is what was expected: that very error, or a value that contains the expected one. */
  ghost predicate Expected(want: Expect, r: CallResult, raw: Raw, ids: seq<string>) {
    match want
    case ExpectError(code) => r.Err? && r.code == code
    case ExpectOk(e) => r.Ok? && Contained(Normalize(Resolve(e, raw, ids, false), ids), Normalize(r.value, ids))
  }

  lemma {:induction false} VerdictExact(step: Step, r: CallResult, raw: Raw, ids: seq<string>)
    requires step.CallStep?
    ensures Verdict(step, r, raw, ids) == [] <==> Expected(step.want, r, raw, ids)
    ensures Accepts(step, r, raw, ids) <==> Expected(step.want, r, raw, ids)
    ensures forall f :: f in Verdict(step, r, raw, ids) ==> f.step == step.name
  {
    if step.want.ExpectOk? && r.Ok? {
      var e, v := Normalize(Resolve(step.want.ok, raw, ids, false), ids), Normalize(r.value, ids);
      DiffDecides(e, v, "", step.name);
      forall f | f in Diffs(e, v, "", step.name) ensures f.step == step.name {
        DiffFinds(f, e, v, "", step.name);
      }
    }
  }

  // ---------------------------------------------------------------------- calls

  /** The `n`-th answer of a target that is asked the same again and again. */
  ghost function Nth<S>(t: Target<S>, op: string, input: Value, ctx: Ctx, s: S, n: nat): (S, CallResult)
    requires n >= 1
  {
    t.call(if n == 1 then s else Nth(t, op, input, ctx, s, n - 1).0, op, input, ctx)
  }

  /** How often a step may call. */
  ghost function Most(step: Step): nat
    requires step.CallStep?
  {
    if step.eventually.Some? && step.eventually.value > 1 then step.eventually.value else 1
  }

  /** The context of a call: what the step sets, and the run's own for the rest. */
  ghost predicate ContextOf(ctx: Ctx, base: Ctx, p: CtxPatch) {
    && ctx.tenant == (if p.tenant.Some? then p.tenant.value else base.tenant)
    && ctx.actor == (if p.actor.Some? then p.actor.value else base.actor)
    && ctx.idempotencyKey == if p.idempotencyKey.Some? then p.idempotencyKey else base.idempotencyKey
  }

  /** The answer to the `n`-th call of a step. */
  ghost function Answer<S>(w: World<S>, t: Target<S>, ctx: Ctx, step: Step, n: nat): (S, CallResult)
    requires step.CallStep? && n >= 1
  {
    Nth(t, step.op, Resolve(step.input, w.raw, w.ids, true), ctx, w.state, n)
  }

  /** The `n`-th call is the last: none before it brought what was expected, and it did, or no more may be made. */
  ghost predicate LastCall<S>(w: World<S>, t: Target<S>, ctx: Ctx, step: Step, n: nat)
    requires step.CallStep?
  {
    && 1 <= n <= Most(step)
    && (forall k: nat :: 1 <= k < n ==> !Expected(step.want, Answer(w, t, ctx, step, k).1, w.raw, w.ids))
    && (n < Most(step) ==> Expected(step.want, Answer(w, t, ctx, step, n).1, w.raw, w.ids))
  }

  lemma {:induction false} PollExact<S>(w: World<S>, t: Target<S>, ctx: Ctx, step: Step, attempts: int, i: nat)
    requires step.CallStep? && step.eventually == Some(attempts) && 1 <= i <= Most(step)
    requires forall k: nat :: 1 <= k < i ==> !Expected(step.want, Answer(w, t, ctx, step, k).1, w.raw, w.ids)
    ensures var (s, r) := Answer(w, t, ctx, step, i);
            var p := Poll(t, step, Resolve(step.input, w.raw, w.ids, true), ctx, w.raw, w.ids, attempts, s, r, i);
            && LastCall(w, t, ctx, step, p.calls)
            && (p.state, p.result) == Answer(w, t, ctx, step, p.calls)
    decreases attempts - i
  {
    var (s, r) := Answer(w, t, ctx, step, i);
    VerdictExact(step, r, w.raw, w.ids);
    if i < attempts && !Accepts(step, r, w.raw, w.ids) {
      assert Answer(w, t, ctx, step, i + 1) == t.call(s, step.op, Resolve(step.input, w.raw, w.ids, true), ctx);
      PollExact(w, t, ctx, step, attempts, i + 1);
    }
  }

  /** What a step ends with is the answer to its last call. */
  lemma {:induction false} CalledExact<S>(w: World<S>, t: Target<S>, base: Ctx, step: Step)
    requires step.CallStep?
    ensures ContextOf(Overlay(base, step.ctx), base, step.ctx)
    ensures var p, ctx := Called(w, t, base, step), Overlay(base, step.ctx);
            LastCall(w, t, ctx, step, p.calls) && (p.state, p.result) == Answer(w, t, ctx, step, p.calls)
  {
    if step.eventually.Some? {
      PollExact(w, t, Overlay(base, step.ctx), step, step.eventually.value, 1);
    }
  }

  lemma {:induction false} LastCallOne<S>(w: World<S>, t: Target<S>, ctx: Ctx, step: Step, m: nat, n: nat)
    requires step.CallStep? && LastCall(w, t, ctx, step, m) && LastCall(w, t, ctx, step, n)
    ensures m == n
  {
  }

  /** The ids after an answer: a new id under `id` of a successful object is appended. */
  ghost predicate Learns(r: CallResult, ids: seq<string>, ids': seq<string>) {
    if r.Ok? && r.value.Obj? && Lookup(r.value.fields, "id").Str? && Lookup(r.value.fields, "id").s !in ids
    then ids' == ids + [Lookup(r.value.fields, "id").s]
    else ids' == ids
  }

  /** The last answer is what was expected, judged with itself and the id it brings among the stores. */
  ghost predicate CallMet<S>(w: World<S>, t: Target<S>, base: Ctx, step: Step)
    requires step.CallStep?
  {
    forall ctx, n: nat, ids' :: ContextOf(ctx, base, step.ctx) && LastCall(w, t, ctx, step, n) ==>
      var r := Answer(w, t, ctx, step, n).1;
      Learns(r, w.ids, ids') ==> Expected(step.want, r, w.raw[step.name := r], ids')
  }

  // ---------------------------------------------------------------------- races

  /** The calls a race sends. */
  ghost predicate Sends(calls: seq<Request>, racers: Racers, raw: Raw, ids: seq<string>) {
    match racers
    case Inputs(op, inputs) =>
      && |calls| == |inputs|
      && forall i :: 0 <= i < |calls| ==> calls[i] == Request(op, Resolve(inputs[i], raw, ids, true))
    case Calls(cs) =>
      && |calls| == |cs|
      && forall i :: 0 <= i < |calls| ==> calls[i] == Request(cs[i].op, Resolve(cs[i].input, raw, ids, true))
  }

  ghost predicate Settles<S>(outs: seq<CallResult>, calls: seq<Request>, w: World<S>, t: Target<S>, base: Ctx) {
    |outs| == |calls| && forall i: nat :: i < |calls| ==> outs[i] == t.outcome(w.state, calls, base, i)
  }

  ghost function Winners(outs: seq<CallResult>): set<nat> {
    set i: nat | i < |outs| && outs[i].Ok?
  }

  ghost predicate Counts(want: Count, n: nat) {
    match want case Exactly(k) => n == k case Between(lo, hi) => lo <= n && n <= hi
  }

  /** These are the calls of the race, and what they were answered. */
  ghost predicate Raced<S>(calls: seq<Request>, outs: seq<CallResult>, w: World<S>, t: Target<S>, base: Ctx, step: Step)
    requires step.RaceStep?
  {
    Sends(calls, step.racers, w.raw, w.ids) && Settles(outs, calls, w, t, base)
  }

  /** As many successes as wanted, and no other error than the ones allowed. */
  ghost predicate RaceMet<S>(w: World<S>, t: Target<S>, base: Ctx, step: Step)
    requires step.RaceStep?
  {
    forall calls: seq<Request>, outs: seq<CallResult> :: Raced(calls, outs, w, t, base, step) ==>
      && Counts(step.successes, |Winners(outs)|)
      && forall i: nat :: i < |outs| && outs[i].Err? ==> outs[i].code in step.failureCodes
  }

  lemma {:induction false} SuccessesCount(outs: seq<CallResult>)
    ensures Successes(outs) == |Winners(outs)|
  {
    if outs == [] {
      assert Winners(outs) == {};
    } else {
      var n := |outs| - 1;
      assert outs == outs[..n] + [outs[n]];
      SuccessesCount(outs[..n]);
      SuccessesAppend(outs[..n], [outs[n]]);
      assert Winners(outs) == Winners(outs[..n]) + if outs[n].Ok? then {n} else {};
    }
  }

  lemma {:induction false} CodesAllowed(step: Step, outs: seq<CallResult>)
    requires step.RaceStep?
    ensures CodeFailures(step, outs) == [] <==>
            forall i: nat :: i < |outs| && outs[i].Err? ==> outs[i].code in step.failureCodes
    ensures forall f :: f in CodeFailures(step, outs) ==> f.step == step.name
  {
    if outs != [] {
      CodesAllowed(step, outs[1..]);
      assert forall i: nat :: 0 < i < |outs| ==> outs[i] == outs[1..][i - 1];
    }
  }

  /** There is one such list of calls, and of answers. */
  lemma {:induction false} RacedOne<S>(w: World<S>, t: Target<S>, base: Ctx, step: Step)
    requires step.RaceStep?
    ensures var calls := Resolved(RequestsOf(step.racers), w.raw, w.ids);
            var outs := Outcomes(t, w.state, calls, base);
            && Raced(calls, outs, w, t, base, step)
            && forall cs, os :: Raced(cs, os, w, t, base, step) ==> cs == calls && os == outs
  {
    var calls := Resolved(RequestsOf(step.racers), w.raw, w.ids);
    var outs := Outcomes(t, w.state, calls, base);
    forall cs, os | Raced(cs, os, w, t, base, step) ensures cs == calls && os == outs {
      assert cs == calls;
    }
  }

  lemma {:induction false} RaceVerdict<S>(w: World<S>, t: Target<S>, base: Ctx, step: Step)
    requires step.RaceStep?
    ensures Judged(w, AfterRace(w, t, base, step), step.name, RaceMet(w, t, base, step))
  {
    var calls := Resolved(RequestsOf(step.racers), w.raw, w.ids);
    var outs := Outcomes(t, w.state, calls, base);
    RacedOne(w, t, base, step);
    SuccessesCount(outs);
    CodesAllowed(step, outs);
    assert AfterRace(w, t, base, step).failures
        == w.failures + (SuccessFailures(step, Successes(outs)) + CodeFailures(step, outs));
  }

  // ------------------------------------------------------------------- transfers

  ghost function Power10(p: nat): nat {
    if p == 0 then 1 else 10 * Power10(p - 1)
  }

  /** `n` has `p` digits after a first digit `d`. */
  ghost predicate LeadsAt(n: nat, d: nat, p: nat) {
    d * Power10(p) <= n < (d + 1) * Power10(p) && (d > 0 || p == 0)
  }

  /** The numeral of `n` starts with the digit `d`: for `n` of three digits, `n` lies in the hundred of `d`. */
  ghost predicate Leads(n: nat, d: nat) {
    exists p: nat :: LeadsAt(n, d, p)
  }

  lemma {:induction false} TenTimes(n: nat, d: nat, p: nat)
    ensures LeadsAt(n / 10, d, p) && d > 0 ==> LeadsAt(n, d, p + 1)
    ensures LeadsAt(n, d, p + 1) ==> LeadsAt(n / 10, d, p)
  {
    var q := Power10(p);
    var x := d * q;
    assert d * Power10(p + 1) == 10 * x && (d + 1) * q == x + q;
    assert (d + 1) * Power10(p + 1) == 10 * (x + q);
  }

  lemma {:induction false} LeadingDigit(n: nat, d: nat)
    requires d < 10
    ensures Decimal(n)[0] == Digit(d) <==> Leads(n, d)
  {
    if n < 10 {
      OneDigit(n, d);
    } else {
      LeadingDigit(n / 10, d);
      NotZero(n, d);
      NotZero(n / 10, d);
      assert Decimal(n)[0] == Decimal(n / 10)[0];
      if p: nat :| LeadsAt(n / 10, d, p) {
        TenTimes(n, d, p);
        assert LeadsAt(n, d, p + 1);
      }
      if p: nat :| LeadsAt(n, d, p) {
        assert p > 0;
        TenTimes(n, d, p - 1);
      }
    }
  }

  lemma {:induction false} NotZero(n: nat, d: nat)
    requires n > 0
    ensures Leads(n, d) ==> d > 0
  {
    forall p: nat ensures !LeadsAt(n, 0, p) {
      assert p == 0 ==> Power10(p) == 1;
    }
  }

  lemma {:induction false} OneDigit(n: nat, d: nat)
    requires n < 10 && d < 10
    ensures Leads(n, d) <==> n == d
    ensures Decimal(n)[0] == Digit(d) <==> n == d
  {
    assert n == d ==> LeadsAt(n, d, 0);
    if p: nat :| LeadsAt(n, d, p) {
      PowerGrows(p);
      assert p > 0 ==> d * Power10(p) >= d * 10;
    }
  }

  lemma {:induction false} PowerGrows(p: nat)
    ensures p > 0 ==> Power10(p) >= 10
  {
    if p > 1 {
      PowerGrows(p - 1);
    }
  }

  /** The status asked for: a number, or a class, of which only the first character counts. */
  ghost predicate StatusMet(want: Status, status: nat) {
    match want
    case StatusNumber(n) => status == n
    case StatusClass(c) => c != "" && IsDigit(c[0]) && Leads(status, c[0] as int - '0' as int)
  }

  ghost predicate TransferMet<S>(w: World<S>, t: Target<S>, step: Step)
    requires step.TransferStep?
  {
    && t.transfer.Some?
    && var r := t.transfer.value(w.state, Resolve(Str(step.from), w.raw, w.ids, true), step.text).1;
       StatusMet(step.status, r.status) && (step.expectText.Some? ==> r.text == step.expectText.value)
  }

  lemma {:induction false} StatusExact(want: Status, status: nat)
    ensures StatusMatches(want, status) <==> StatusMet(want, status)
  {
    if want.StatusClass? && want.class_ != "" {
      var c := want.class_[0];
      DecimalRoundTrip(status);
      if IsDigit(c) {
        var d := c as int - '0' as int;
        assert Digit(d) == c;
        LeadingDigit(status, d);
      }
    }
  }

  lemma {:induction false} TransferVerdict<S>(w: World<S>, t: Target<S>, step: Step)
    requires step.TransferStep?
    ensures Judged(w, AfterTransfer(w, t, step), step.name, TransferMet(w, t, step))
  {
    if t.transfer.Some? {
      var (s, r) := t.transfer.value(w.state, Resolve(Str(step.from), w.raw, w.ids, true), step.text);
      StatusExact(step.status, r.status);
    }
  }

  // -------------------------------------------------------------------- any step

  /** From `w` to `w'` failures were added, all of the step of that name, and none if and only if it was met. */
  ghost predicate Judged<S>(w: World<S>, w': World<S>, name: string, met: bool) {
    && w.failures <= w'.failures
    && (w'.failures == w.failures <==> met)
    && forall i :: |w.failures| <= i < |w'.failures| ==> w'.failures[i].step == name
  }

  lemma {:induction false} CallVerdict<S>(w: World<S>, t: Target<S>, base: Ctx, step: Step)
    requires step.CallStep?
    ensures Judged(w, AfterCall(w, t, base, step), step.name, CallMet(w, t, base, step))
  {
    CalledExact(w, t, base, step);
    var p, c := Called(w, t, base, step), Overlay(base, step.ctx);
    var r, ids := p.result, CaptureId(p.result, w.ids);
    VerdictExact(step, r, w.raw[step.name := r], ids);
    assert Learns(r, w.ids, ids);
    forall ctx, n: nat, ids' | ContextOf(ctx, base, step.ctx) && LastCall(w, t, ctx, step, n)
      ensures Answer(w, t, ctx, step, n).1 == r && (Learns(r, w.ids, ids') ==> ids' == ids)
    {
      assert ctx == c;
      LastCallOne(w, t, ctx, step, n, p.calls);
    }
  }

  /** The step gets what it asks for. */
  ghost predicate Met<S>(w: World<S>, t: Target<S>, base: Ctx, step: Step) {
    match step
    case TransferStep(_, _, _, _, _) => TransferMet(w, t, step)
    case RaceStep(_, _, _, _) => RaceMet(w, t, base, step)
    case CallStep(_, _, _, _, _, _) => CallMet(w, t, base, step)
  }

  /** A step adds no failure if and only if it gets what it asks for; the failures it adds carry its name. */
  lemma {:induction false} StepVerdict<S>(w: World<S>, t: Target<S>, base: Ctx, step: Step)
    ensures Judged(w, AfterStep(w, t, base, step), step.name, Met(w, t, base, step))
  {
    match step
    case TransferStep(_, _, _, _, _) => TransferVerdict(w, t, step);
    case RaceStep(_, _, _, _) => RaceVerdict(w, t, base, step);
    case CallStep(_, _, _, _, _, _) => CallVerdict(w, t, base, step);
  }

  // ------------------------------------------------------------------ whole runs

  /** The `n`-th step of the run gets what it asks for. */
  ghost predicate MetAt<S>(t: Target<S>, base: Ctx, steps: seq<Step>, s: S, n: nat)
    requires n < |steps|
  {
    Met(RunTo(t, base, steps, s, n), t, base, steps[n])
  }

  /** The steps that do not, among the first `n`. */
  ghost function Unmet<S>(t: Target<S>, base: Ctx, steps: seq<Step>, s: S, n: nat): set<nat>
    requires n <= |steps|
  {
    set k: nat | k < n && !MetAt(t, base, steps, s, k)
  }

  ghost predicate Blamed(f: Failure, steps: seq<Step>, unmet: set<nat>) {
    exists k :: k in unmet && k < |steps| && steps[k].name == f.step
  }

  ghost predicate Noticed(fs: seq<Failure>, steps: seq<Step>, k: nat) {
    k < |steps| && exists f :: f in fs && f.step == steps[k].name
  }

  /** The failures name steps of this set, and every step of it. */
  ghost predicate NamesExactly(fs: seq<Failure>, steps: seq<Step>, unmet: set<nat>) {
    && (forall f :: f in fs ==> Blamed(f, steps, unmet))
    && (forall k :: k in unmet ==> Noticed(fs, steps, k))
  }

  lemma {:induction false} NamesNext(fs: seq<Failure>, more: seq<Failure>, steps: seq<Step>, unmet: set<nat>, k: nat)
    requires NamesExactly(fs, steps, unmet) && k < |steps|
    requires forall f :: f in more ==> f.step == steps[k].name
    ensures NamesExactly(fs + more, steps, if more == [] then unmet else unmet + {k})
  {
    var unmet' := if more == [] then unmet else unmet + {k};
    forall f | f in fs + more ensures Blamed(f, steps, unmet') {
      if f in fs {
        var j :| j in unmet && j < |steps| && steps[j].name == f.step;
        assert j in unmet';
      } else {
        assert k in unmet';
      }
    }
    forall j | j in unmet' ensures Noticed(fs + more, steps, j) {
      if j in unmet {
        var f :| f in fs && f.step == steps[j].name;
        assert f in fs + more;
      } else {
        assert more[0] in fs + more;
      }
    }
  }

  lemma {:induction false} RunVerdictTo<S>(t: Target<S>, base: Ctx, steps: seq<Step>, s: S, n: nat)
    requires n <= |steps|
    ensures NamesExactly(RunTo(t, base, steps, s, n).failures, steps, Unmet(t, base, steps, s, n))
  {
    if n > 0 {
      var k := n - 1;
      RunVerdictTo(t, base, steps, s, k);
      var w, w' := RunTo(t, base, steps, s, k), RunTo(t, base, steps, s, n);
      StepVerdict(w, t, base, steps[k]);
      var more := w'.failures[|w.failures|..];
      assert w'.failures == w.failures + more;
      NamesNext(w.failures, more, steps, Unmet(t, base, steps, s, k), k);
      assert more == [] <==> MetAt(t, base, steps, s, k);
      UnmetNext(t, base, steps, s, k);
    }
  }

  lemma {:induction false} UnmetNext<S>(t: Target<S>, base: Ctx, steps: seq<Step>, s: S, k: nat)
    requires k < |steps|
    ensures Unmet(t, base, steps, s, k + 1)
         == Unmet(t, base, steps, s, k) + if MetAt(t, base, steps, s, k) then {} else {k}
  {
  }

  /**
   * The steps that the failures of a report name are exactly those that did not get what they asked for; so it has
   * none if and only if every step did.
   */
  lemma {:induction false} RunVerdict<S>(sc: Scenario, t: Target<S>, base: Ctx, s: S)
    ensures var report := ReportOf(sc, t, Run(sc, t, base, s));
            && NamesExactly(report.failures, sc.steps, Unmet(t, base, sc.steps, s, |sc.steps|))
            && (report.failures == [] <==> forall k: nat :: k < |sc.steps| ==> MetAt(t, base, sc.steps, s, k))
  {
    RunVerdictTo(t, base, sc.steps, s, |sc.steps|);
    var fs, unmet := Run(sc, t, base, s).failures, Unmet(t, base, sc.steps, s, |sc.steps|);
    if fs != [] {
      assert fs[0] in fs;
    }
    assert forall k: nat :: k < |sc.steps| ==> (k in unmet <==> !MetAt(t, base, sc.steps, s, k));
  }
}
