/** Laws of one run: what polling promises, what a race record depends on, which steps leave a record. */
module RunLaws {
  import opened Text
  import opened Assoc
  import opened Json
  import opened Matching
  import opened Renaming
  import opened Runner
  import opened Iteration

  // ---------------------------------------------------------------- polling

  lemma {:induction false} PollBound<S>(t: Target<S>, step: Step, input: Value, ctx: Ctx, raw: Raw, ids: seq<string>,
                                        attempts: int, s: S, r: CallResult, i: nat)
    requires step.CallStep?
    ensures var p := Poll(t, step, input, ctx, raw, ids, attempts, s, r, i);
            && i <= p.calls && (p.calls <= i || p.calls <= attempts)
            && (Accepts(step, p.result, raw, ids) || attempts <= p.calls)
    decreases attempts - i
  {
    if i < attempts && !Accepts(step, r, raw, ids) {
      var (s', r') := t.call(s, step.op, input, ctx);
      PollBound(t, step, input, ctx, raw, ids, attempts, s', r', i + 1);
    }
  }

  /** The target is called at most `max(1, attempts)` times, and fewer only if the probe accepted. */
  lemma {:induction false} CallsBounded<S>(w: World<S>, t: Target<S>, base: Ctx, step: Step, attempts: int)
    requires step.CallStep? && step.eventually == Some(attempts)
    ensures var p := Called(w, t, base, step);
            && 1 <= p.calls <= (if attempts < 1 then 1 else attempts)
            && (p.calls < attempts ==> Accepts(step, p.result, w.raw, w.ids))
  {
    var input, ctx := Resolve(step.input, w.raw, w.ids, true), Overlay(base, step.ctx);
    var (s, r) := t.call(w.state, step.op, input, ctx);
    PollBound(t, step, input, ctx, w.raw, w.ids, attempts, s, r, 1);
  }

  /** `v` refers to step `name` somewhere. */
  predicate Mentions(v: Value, name: string)
    decreases v
  {
    match v
    case Str(s) => s != "" && s[0] == '$' && Split(s[1..], '.')[0] == name
    case Arr(xs) => exists i :: 0 <= i < |xs| && Mentions(xs[i], name)
    case Obj(fs) => exists i :: 0 <= i < |fs| && Mentions(fs[i].val, name)
    case _ => false
  }

  /** Without placeholders switched on, resolving reads only the steps a value names. */
  lemma {:induction false} ResolveFrame(v: Value, raw: Raw, ids: seq<string>, ids': seq<string>, name: string,
                                        r: CallResult)
    requires !Mentions(v, name)
    ensures Resolve(v, raw[name := r], ids', false) == Resolve(v, raw, ids, false)
    decreases v
  {
    match v
    case Arr(xs) =>
      var lhs, rhs := Resolve(v, raw[name := r], ids', false).items, Resolve(v, raw, ids, false).items;
      forall i | 0 <= i < |xs| ensures lhs[i] == rhs[i] { ResolveFrame(xs[i], raw, ids, ids', name, r); }
      assert lhs == rhs;
    case Obj(fs) =>
      var lhs, rhs := Resolve(v, raw[name := r], ids', false).fields, Resolve(v, raw, ids, false).fields;
      forall i | 0 <= i < |fs| ensures lhs[i] == rhs[i] { ResolveFrame(fs[i].val, raw, ids, ids', name, r); }
      assert lhs == rhs;
    case _ =>
  }

  /** The id a result brings is not spelled like the placeholder of an id already known. */
  ghost predicate NoShadow(r: CallResult, ids: seq<string>) {
    FreshId(r, ids).Some? ==> !Shadows(FreshId(r, ids).value, |ids|)
  }

  /**
   * Acceptance is final: a result the probe accepted adds no failure, although the run has one more
   * result and perhaps one more id when the verdict is given.
   */
  lemma {:induction false} AcceptanceIsFinal<S>(w: World<S>, t: Target<S>, base: Ctx, step: Step)
    requires step.CallStep?
    requires Accepts(step, Called(w, t, base, step).result, w.raw, w.ids)
    requires step.want.ExpectOk? ==> !Mentions(step.want.ok, step.name)
    requires NoShadow(Called(w, t, base, step).result, w.ids)
    ensures AfterCall(w, t, base, step).failures == w.failures
  {
    var r := Called(w, t, base, step).result;
    if step.want.ExpectOk? {
      var raw', ids' := w.raw[step.name := r], CaptureId(r, w.ids);
      var e, e' := Resolve(step.want.ok, w.raw, w.ids, false), Resolve(step.want.ok, raw', ids', false);
      ResolveFrame(step.want.ok, w.raw, w.ids, ids', step.name, r);
      assert e == e';
      DiffDecides(Normalize(e, w.ids), Normalize(r.value, w.ids), "", step.name);
      if FreshId(r, w.ids).Some? {
        var x := FreshId(r, w.ids).value;
        MatchSurvivesCapture(e, r.value, w.ids, x);
      }
      DiffDecides(Normalize(e, ids'), Normalize(r.value, ids'), "", step.name);
    }
  }

  ghost predicate Matches(e: Value, v: Value, ids: seq<string>) {
    Contained(Normalize(e, ids), Normalize(v, ids))
  }

  lemma {:induction false} MatchSurvivesCapture(e: Value, v: Value, ids: seq<string>, x: string)
    requires x !in ids && !Shadows(x, |ids|) && Matches(e, v, ids)
    ensures Matches(e, v, ids + [x])
  {
    NormalizeCaptured(e, ids, x);
    NormalizeCaptured(v, ids, x);
    ContainedMap(Normalize(e, ids), Normalize(v, ids), Capture(x, |ids| + 1));
  }

  /** Every record with id `x` that matched before `x` is captured still matches afterwards. */
  ghost predicate KeepsMatches(ids: seq<string>, x: string) {
    forall e: Value, v: Value :: v.Obj? && Lookup(v.fields, "id") == Str(x) && Matches(e, v, ids) ==>
      Matches(e, v, ids + [x])
  }

  /** The condition on the id is exact: an id that shadows a placeholder un-matches some expectation. */
  lemma {:induction false} CaptureExact(ids: seq<string>, x: string)
    requires x !in ids && Distinct(ids)
    ensures KeepsMatches(ids, x) <==> !Shadows(x, |ids|)
  {
    if Shadows(x, |ids|) {
      var k :| 1 <= k <= |ids| && Placeholder(k) == x;
      ShadowBreaks(ids, x, k);
    } else {
      forall e: Value, v: Value | v.Obj? && Lookup(v.fields, "id") == Str(x) && Matches(e, v, ids)
        ensures Matches(e, v, ids + [x])
      {
        MatchSurvivesCapture(e, v, ids, x);
      }
    }
  }

  lemma {:induction false} IdOf(v: Value, x: string, y: string)
    requires v == Obj([Field("id", Str(x)), Field("ref", Str(y))])
    ensures Lookup(v.fields, "id") == Str(x)
  {
    assert v.fields[..1][..0] == [];
    assert v.fields[..1][0] == Field("id", Str(x));
  }

  /** Placeholder and id normalize alike until the shadowing id is captured, and then no more. */
  lemma {:induction false} ShadowedStrings(ids: seq<string>, x: string, k: nat)
    requires x !in ids && Distinct(ids) && 1 <= k <= |ids| && Placeholder(k) == x
    ensures NormalString(x, ids) == NormalString(ids[k - 1], ids)
    ensures NormalString(x, ids + [x]) != NormalString(ids[k - 1], ids + [x])
  {
    assert IdIndex(ids, ids[k - 1]) == k - 1;
    IdIndexAppend(ids, x, ids[k - 1]);
    IdIndexAppend(ids, x, x);
    if Placeholder(|ids| + 1) == Placeholder(k) {
      assert Placeholder(|ids| + 1)[4..] == Decimal(|ids| + 1) && Placeholder(k)[4..] == Decimal(k);
      DecimalInjective(|ids| + 1, k);
    }
  }

  /** The expectation `{ref: "$id:k"}` against `{id: "$id:k", ref: ids[k - 1]}`. */
  lemma {:induction false} ShadowBreaks(ids: seq<string>, x: string, k: nat)
    requires x !in ids && Distinct(ids) && 1 <= k <= |ids| && Placeholder(k) == x
    ensures !KeepsMatches(ids, x)
  {
    var e := Obj([Field("ref", Str(x))]);
    var v := Obj([Field("id", Str(x)), Field("ref", Str(ids[k - 1]))]);
    IdOf(v, x, ids[k - 1]);
    ShadowedStrings(ids, x, k);
    RefNormal(e, v, ids, x, ids[k - 1]);
    RefNormal(e, v, ids + [x], x, ids[k - 1]);
  }

  lemma {:induction false} StableAll(fs: seq<Field>)
    requires forall i :: 0 <= i < |fs| ==> fs[i].key !in VOLATILE
    ensures Stable(fs) == fs
  {
    if fs != [] {
      assert forall i :: 0 <= i < |fs[1..]| ==> fs[1..][i] == fs[i + 1];
      StableAll(fs[1..]);
    }
  }

  lemma {:induction false} LastField(fs: seq<Field>, f: Field)
    ensures Lookup(fs + [f], f.key) == f.val
  {
  }

  lemma {:induction false} RefContained(f: Field, i: Field, g: Field)
    requires f.key == g.key && f.val.Str? && g.val.Str?
    ensures Contained(Obj([f]), Obj([i] + [g])) <==> f.val == g.val
  {
    LastField([i], g);
    assert [f][0] == f;
    assert Contained(f.val, Get(Obj([i] + [g]), f.key)) <==> f.val == g.val;
  }

  lemma {:induction false} RefNormal(e: Value, v: Value, ids: seq<string>, x: string, y: string)
    requires e == Obj([Field("ref", Str(x))]) && v == Obj([Field("id", Str(x)), Field("ref", Str(y))])
    ensures Matches(e, v, ids) <==> NormalString(x, ids) == NormalString(y, ids)
  {
    var i, f, g := Field("id", Normalize(Str(x), ids)), Field("ref", Normalize(Str(x), ids)),
      Field("ref", Normalize(Str(y), ids));
    StableAll(e.fields);
    assert Normalize(e, ids).fields == [f];
    StableAll(v.fields);
    assert Normalize(v, ids).fields == [i] + [g];
    RefContained(f, i, g);
  }

  /** `{ref: "$id:k"}` and `{id: "$id:k", ref: ids[k - 1]}`: what a step may expect, and what it may get. */
  function ShadowWant(k: nat): Value {
    Obj([Field("ref", Str(Placeholder(k)))])
  }

  function ShadowResult(ids: seq<string>, k: nat): Value
    requires 1 <= k <= |ids|
  {
    Obj([Field("id", Str(Placeholder(k))), Field("ref", Str(ids[k - 1]))])
  }

  /** A placeholder stays as it is in an expectation. */
  lemma {:induction false} WantResolved(k: nat, raw: Raw, ids: seq<string>)
    ensures Resolve(ShadowWant(k), raw, ids, false) == ShadowWant(k)
  {
    PlaceholderShape(k);
    assert Placeholder(k)[0] == '$';
    assert Resolve(ShadowWant(k), raw, ids, false).fields == ShadowWant(k).fields;
  }

  lemma {:induction false} WantMatches(step: Step, k: nat, v: Value, raw: Raw, ids: seq<string>)
    ensures OkDiffs(step, ShadowWant(k), v, raw, ids) == [] <==> Matches(ShadowWant(k), v, ids)
  {
    WantResolved(k, raw, ids);
    DiffDecides(Normalize(ShadowWant(k), ids), Normalize(v, ids), "", step.name);
  }

  /**
   * Acceptance is not final for an id spelled like the placeholder of a known one: whatever the target and
   * the rest of the world, the step is accepted by the probe and then fails.
   */
  lemma {:induction false} ShadowFailsStep<S>(w: World<S>, t: Target<S>, base: Ctx, step: Step, k: nat)
    requires Distinct(w.ids) && 1 <= k <= |w.ids| && Placeholder(k) !in w.ids
    requires step.CallStep? && step.want == ExpectOk(ShadowWant(k))
    requires Called(w, t, base, step).result == Ok(ShadowResult(w.ids, k))
    ensures Accepts(step, Called(w, t, base, step).result, w.raw, w.ids)
    ensures |AfterCall(w, t, base, step).failures| > |w.failures|
  {
    var x, v, r := Placeholder(k), ShadowResult(w.ids, k), Called(w, t, base, step).result;
    IdOf(v, x, w.ids[k - 1]);
    assert CaptureId(r, w.ids) == w.ids + [x];
    ShadowedStrings(w.ids, x, k);
    RefNormal(ShadowWant(k), v, w.ids, x, w.ids[k - 1]);
    RefNormal(ShadowWant(k), v, w.ids + [x], x, w.ids[k - 1]);
    WantMatches(step, k, v, w.raw, w.ids);
    WantMatches(step, k, v, w.raw[step.name := r], w.ids + [x]);
  }

  /** `$name.x`, as an expectation of the step `name` itself. */
  function SelfReference(name: string): string {
    "$" + (name + ['.'] + "x")
  }

  /** Before the step has answered it is text, and afterwards a property of the answer. */
  lemma {:induction false} SelfResolved(name: string, raw: Raw, ids: seq<string>)
    requires name != "" && '.' !in name
    ensures name !in raw ==> Resolve(Str(SelfReference(name)), raw, ids, false) == Str(SelfReference(name))
    ensures name in raw && raw[name].Ok? && raw[name].value.Str? ==>
            Resolve(Str(SelfReference(name)), raw, ids, false) == Undefined
  {
    var s, rest := SelfReference(name), name + ['.'] + "x";
    assert s[0] == '$' && s[1..] == rest;
    assert |s| > 4 ==> s[4..][|s| - 5] == 'x';
    SplitOnce(name, '.', "x");
    assert [name, "x"][1..] == ["x"] && ["x"][1..] == [];
  }

  /**
   * Nor is it final when the expectation names the step itself: such a step is accepted while it has not been
   * recorded, and fails once its own answer is what the expectation is resolved against.
   */
  lemma {:induction false} SelfReferenceFailsStep<S>(w: World<S>, t: Target<S>, base: Ctx, step: Step)
    requires step.CallStep? && step.name != "" && '.' !in step.name && step.name !in w.raw
    requires step.want == ExpectOk(Str(SelfReference(step.name)))
    requires Called(w, t, base, step).result == Ok(Str(SelfReference(step.name)))
    ensures Accepts(step, Called(w, t, base, step).result, w.raw, w.ids)
    ensures NoShadow(Called(w, t, base, step).result, w.ids)
    ensures |AfterCall(w, t, base, step).failures| > |w.failures|
  {
    var r := Called(w, t, base, step).result;
    SelfResolved(step.name, w.raw, w.ids);
    SelfResolved(step.name, w.raw[step.name := r], w.ids);
    assert CaptureId(r, w.ids) == w.ids;
  }

  // ------------------------------------------------------------------ races

  lemma {:induction false} SuccessesAppend(xs: seq<CallResult>, ys: seq<CallResult>)
    ensures Successes(xs + ys) == Successes(xs) + Successes(ys)
    ensures Codes(xs + ys) == Codes(xs) + Codes(ys)
  {
    if xs == [] {
      assert xs + ys == ys;
    } else {
      assert (xs + ys)[1..] == xs[1..] + ys;
      SuccessesAppend(xs[1..], ys);
    }
  }

  lemma {:induction false} WithoutOne<T>(s: seq<T>, i: nat)
    requires i < |s|
    ensures multiset(s[..i] + s[i + 1..]) == multiset(s) - multiset{s[i]}
  {
    assert s == s[..i] + [s[i]] + s[i + 1..];
  }

  function CodeOf(r: CallResult): multiset<string> {
    if r.Ok? then multiset{} else multiset{r.code}
  }

  /** Take one outcome out of the tally. */
  lemma {:induction false} TallyWithout(ys: seq<CallResult>, x: CallResult) returns (rest: seq<CallResult>)
    requires x in ys
    ensures |rest| == |ys| - 1 && multiset(rest) == multiset(ys) - multiset{x}
    ensures Successes(ys) == Successes(rest) + (if x.Ok? then 1 else 0)
    ensures multiset(Codes(ys)) == multiset(Codes(rest)) + CodeOf(x)
  {
    var i :| 0 <= i < |ys| && ys[i] == x;
    rest := ys[..i] + ys[i + 1..];
    WithoutOne(ys, i);
    assert ys == ys[..i] + ([x] + ys[i + 1..]);
    SuccessesAppend(ys[..i], [x] + ys[i + 1..]);
    SuccessesAppend([x], ys[i + 1..]);
    SuccessesAppend(ys[..i], ys[i + 1..]);
  }

  lemma {:induction false} TallyOrderFree(xs: seq<CallResult>, ys: seq<CallResult>)
    requires multiset(xs) == multiset(ys)
    ensures Successes(xs) == Successes(ys) && multiset(Codes(xs)) == multiset(Codes(ys))
    decreases |xs|
  {
    assert |xs| == |multiset(xs)| == |ys|;
    if xs != [] {
      var x := xs[0];
      assert x in multiset(ys);
      var xs' := TallyWithout(xs, x);
      var ys' := TallyWithout(ys, x);
      TallyOrderFree(xs', ys');
    }
  }

  /** Who wins a race does not show in its record: it depends only on the multiset of outcomes. */
  lemma {:induction false} RaceRecordOrderFree(xs: seq<CallResult>, ys: seq<CallResult>)
    requires multiset(xs) == multiset(ys)
    ensures RaceRecord(xs) == RaceRecord(ys)
  {
    TallyOrderFree(xs, ys);
    SortPermutation(Codes(xs), Codes(ys));
  }

  // ---------------------------------------------------------------- records

  function StepNames(steps: seq<Step>): (r: seq<string>)
    ensures |r| == |steps|
    ensures forall i :: 0 <= i < |steps| ==> r[i] == steps[i].name
  {
    seq(|steps|, i requires 0 <= i < |steps| => steps[i].name)
  }

  /** A step that adds no failure leaves exactly its own record. */
  lemma {:induction false} StepRecords<S>(w: World<S>, t: Target<S>, base: Ctx, step: Step)
    ensures var w' := AfterStep(w, t, base, step);
            && (w'.failures == [] ==> w.failures == [])
            && (w'.failures == [] && step.name !in Keys(w.results) ==>
                Keys(w'.results) == Keys(w.results) + [step.name])
  {
    match step
    case TransferStep(_, _, _, _, _) =>
      if t.transfer.Some? {
        var (s, r) := t.transfer.value(w.state, Resolve(Str(step.from), w.raw, w.ids, true), step.text);
        PutKeys(w.results, step.name, Ok(Obj([Field("status", Num(r.status as real))])));
      }
    case RaceStep(_, _, _, _) =>
      PutKeys(w.results, step.name,
              RaceRecord(Outcomes(t, w.state, Resolved(RequestsOf(step.racers), w.raw, w.ids), base)));
    case CallStep(_, _, _, _, _, _) =>
      var p := Called(w, t, base, step);
      PutKeys(w.results, step.name, CallRecord(p.result, CaptureId(p.result, w.ids)));
  }

  predicate RecordsUpTo<S>(w: World<S>, names: seq<string>, n: nat) {
    n <= |names| && (w.failures == [] ==> Keys(w.results) == names[..n])
  }

  lemma {:induction false} StepExtends<S>(w: World<S>, t: Target<S>, base: Ctx, step: Step, names: seq<string>, n: nat)
    requires n < |names| && Distinct(names) && names[n] == step.name && RecordsUpTo(w, names, n)
    ensures RecordsUpTo(AfterStep(w, t, base, step), names, n + 1)
  {
    StepRecords(w, t, base, step);
    NextKey(names, n);
  }

  /** A run without failures has exactly one record for every step, in step order. */
  lemma {:induction false} CleanRunRecordsAll<S(!new)>(t: Target<S>, base: Ctx, steps: seq<Step>, s: S, n: nat)
    requires n <= |steps| && Distinct(StepNames(steps))
    requires RunTo(t, base, steps, s, n).failures == []
    ensures Keys(RunTo(t, base, steps, s, n).results) == StepNames(steps)[..n]
  {
    var names := StepNames(steps);
    var inv := (w: World<S>, i: nat) => RecordsUpTo(w, names, i);
    forall w: World<S>, i: nat | i < |steps| && inv(w, i) ensures inv(AfterStep(w, t, base, steps[i]), i + 1) {
      StepExtends(w, t, base, steps[i], names, i);
    }
    Induction(Stepper(t, base, steps), Start(t, s), inv, n);
  }

  lemma {:induction false} NextKey(names: seq<string>, n: nat)
    requires n < |names| && Distinct(names)
    ensures names[n] !in names[..n] && names[..n + 1] == names[..n] + [names[n]]
  {
  }
}
