/** What a call or a race leaves in the stores of a run. */
module Records {
  import opened Text
  import opened Assoc
  import opened Json
  import opened Matching
  import opened Runner
  import opened RunLaws
  import opened Verdicts

  // ---------------------------------------------------------------------- calls

  /** Only the record of this step is new. */
  ghost predicate OthersKept(m: seq<Entry<CallResult>>, m': seq<Entry<CallResult>>, name: string) {
    forall k :: k != name ==> Find(m', k) == Find(m, k)
  }

  lemma {:induction false} PutRecord(m: seq<Entry<CallResult>>, name: string, r: CallResult)
    ensures Find(Put(m, name, r), name) == Some(r) && OthersKept(m, Put(m, name, r), name)
  {
    forall k ensures Find(Put(m, name, r), k) == if k == name then Some(r) else Find(m, k) {
      FindPut(m, name, r, k);
    }
  }

  /**
   * A call leaves the answer to its last call, the id it brings, and a record: the value normalized with that id
   * among the known ones, or the error as it came.
   */
  lemma {:induction false} CallLeaves<S>(w: World<S>, t: Target<S>, base: Ctx, step: Step, ctx: Ctx, n: nat)
    requires step.CallStep? && ContextOf(ctx, base, step.ctx) && LastCall(w, t, ctx, step, n)
    ensures var w', (s, r) := AfterCall(w, t, base, step), Answer(w, t, ctx, step, n);
            && w'.state == s && w'.raw == w.raw[step.name := r] && Learns(r, w.ids, w'.ids)
            && Find(w'.results, step.name) == Some(if r.Ok? then Ok(Normalize(r.value, w'.ids)) else r)
            && OthersKept(w.results, w'.results, step.name)
  {
    CalledExact(w, t, base, step);
    var p := Called(w, t, base, step);
    assert ctx == Overlay(base, step.ctx);
    LastCallOne(w, t, ctx, step, n, p.calls);
    PutRecord(w.results, step.name, CallRecord(p.result, CaptureId(p.result, w.ids)));
  }

  // ---------------------------------------------------------------------- races

  ghost function CodedAt(outs: seq<CallResult>, c: string): set<nat> {
    set i: nat | i < |outs| && outs[i].Err? && outs[i].code == c
  }

  lemma {:induction false} CodesSnoc(outs: seq<CallResult>, last: CallResult, c: string)
    ensures multiset(Codes(outs + [last]))[c]
         == multiset(Codes(outs))[c] + if last.Err? && last.code == c then 1 else 0
  {
    SuccessesAppend(outs, [last]);
    assert Codes([last]) == if last.Ok? then [] else [last.code];
  }

  lemma {:induction false} CodedSnoc(outs: seq<CallResult>, last: CallResult, c: string)
    ensures |CodedAt(outs + [last], c)| == |CodedAt(outs, c)| + if last.Err? && last.code == c then 1 else 0
  {
    var n := |outs|;
    assert CodedAt(outs + [last], c) == CodedAt(outs, c) + if last.Err? && last.code == c then {n} else {};
  }

  lemma {:induction false} CodesCount(outs: seq<CallResult>, c: string)
    ensures multiset(Codes(outs))[c] == |CodedAt(outs, c)|
  {
    if outs == [] {
      assert CodedAt(outs, c) == {};
    } else {
      var n := |outs| - 1;
      var front, last := outs[..n], outs[n];
      CodesCount(front, c);
      CodesSnoc(front, last, c);
      CodedSnoc(front, last, c);
      assert outs == front + [last];
    }
  }

  /** The `i`-th answer is the first success. */
  ghost predicate FirstWin(outs: seq<CallResult>, i: nat) {
    i in Winners(outs) && forall j :: j in Winners(outs) ==> i <= j
  }

  lemma {:induction false} WinnerFirst(outs: seq<CallResult>)
    ensures Winner(outs).None? <==> Winners(outs) == {}
    ensures forall i: nat :: FirstWin(outs, i) ==> Winner(outs) == Some(outs[i])
  {
    if outs != [] && !outs[0].Ok? {
      var rest := outs[1..];
      WinnerFirst(rest);
      forall j: nat ensures j in Winners(rest) <==> j + 1 in Winners(outs) {
        assert j < |rest| ==> rest[j] == outs[j + 1];
      }
      assert forall i :: i in Winners(outs) ==> i > 0 && i - 1 in Winners(rest);
      forall i: nat | FirstWin(outs, i) ensures Winner(outs) == Some(outs[i]) {
        assert FirstWin(rest, i - 1);
      }
    } else if outs != [] {
      assert 0 in Winners(outs);
    }
  }

  /** How many answers succeeded, and the codes of the others: sorted, each as often as it came. */
  ghost predicate RecordOfRace(r: CallResult, outs: seq<CallResult>) {
    exists codes :: TellsRace(r, outs, codes)
  }

  ghost predicate TellsRace(r: CallResult, outs: seq<CallResult>, codes: seq<string>) {
    && IsSorted(codes) && (forall c :: multiset(codes)[c] == |CodedAt(outs, c)|)
    && r == Ok(Obj([Field("successes", Num(|Winners(outs)| as real)), Field("failureCodes", Strings(codes))]))
  }

  lemma {:induction false} RaceRecordTells(outs: seq<CallResult>)
    ensures RecordOfRace(RaceRecord(outs), outs)
  {
    var codes := Sort(Codes(outs));
    SortSorts(Codes(outs));
    SuccessesCount(outs);
    forall c ensures multiset(codes)[c] == |CodedAt(outs, c)| {
      CodesCount(outs, c);
    }
    assert TellsRace(RaceRecord(outs), outs, codes);
  }

  /** A race leaves the first success as its answer, the id it brings, and a record that does not say who won. */
  lemma {:induction false} RaceLeaves<S>(w: World<S>, t: Target<S>, base: Ctx, step: Step, calls: seq<Request>,
                                         outs: seq<CallResult>)
    requires step.RaceStep? && Raced(calls, outs, w, t, base, step)
    ensures var w' := AfterRace(w, t, base, step);
            && w'.state == t.race(w.state, calls, base)
            && (Winners(outs) == {} ==> w'.raw == w.raw && w'.ids == w.ids)
            && (forall i: nat :: FirstWin(outs, i) ==>
                  w'.raw == w.raw[step.name := outs[i]] && Learns(outs[i], w.ids, w'.ids))
            && Find(w'.results, step.name).Some? && RecordOfRace(Find(w'.results, step.name).value, outs)
            && OthersKept(w.results, w'.results, step.name)
  {
    RacedOne(w, t, base, step);
    WinnerFirst(outs);
    RaceRecordTells(outs);
    PutRecord(w.results, step.name, RaceRecord(outs));
  }
}
