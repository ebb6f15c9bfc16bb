/** One tunnel record under all its users at once, one atomic read or write at a time: the
    transfer workers, the connections that report a tunnel closed or established, and the
    dispatcher.  What the bound on attempts comes to then, exactly. */
module TunnelRace {
  import opened Bytes
  import opened Tunnel

  /** How far a worker is in `ifEstablish`: it has seen the status failed, or it has seen the
      counter below the limit as well and is about to write the status. */
  datatype Phase = Idle | Saw | Through

  /** `tests[w]` counts the attempts worker `w` was let through with.  Connections in `reporting`
      have written the failed status and not yet counted; those in `confirming` have seen the
      initial status and not yet written the connected one. */
  datatype Shared = Shared(
    status: Status, retry: nat, closes: nat, handled: nat,
    tests: seq<nat>, phase: seq<Phase>, reporting: set<nat>, confirming: set<nat>)

  datatype Event =
    | Look(w: nat)          // `ifEstablish` reads the status
    | Check(w: nat)         // then the counter, and decides
    | Write(w: nat)         // then writes the status
    | Report(r: nat)        // `handleP2PClosed` writes the status
    | Tally(r: nat)         // then counts
    | Notice(r: nat)        // `handleP2PEstablished` reads the status
    | Confirm(r: nat)       // then writes it
    | Dispatch              // `handleP2PTask` counts

  predicate Is(s: Shared, w: nat, p: Phase) {
    w < |s.phase| == |s.tests| && s.phase[w] == p
  }

  function Next(s: Shared, e: Event): Shared {
    match e
    case Look(w) => if Is(s, w, Idle) && s.status == Failed then s.(phase := s.phase[w := Saw]) else s
    case Check(w) =>
      if !Is(s, w, Saw) then s
      else if s.retry < MAX_RETRY then s.(phase := s.phase[w := Through], tests := s.tests[w := s.tests[w] + 1])
      else s.(phase := s.phase[w := Idle])
    case Write(w) => if Is(s, w, Through) then s.(phase := s.phase[w := Idle], status := Init) else s
    case Report(r) => if r in s.reporting then s else s.(status := Failed, reporting := s.reporting + {r})
    case Tally(r) =>
      if r !in s.reporting then s
      else s.(retry := (s.retry + 1) % WORD32, closes := s.closes + 1, reporting := s.reporting - {r})
    case Notice(r) => if s.status == Init then s.(confirming := s.confirming + {r}) else s
    case Confirm(r) => if r in s.confirming then s.(status := Connected, confirming := s.confirming - {r}) else s
    case Dispatch => s.(retry := (s.retry + 1) % WORD32, handled := s.handled + 1)
  }

  function Run(s: Shared, es: seq<Event>): Shared
    decreases |es|
  {
    if es == [] then s else Run(Next(s, es[0]), es[1..])
  }

  /** `j` times `a`, then `b`, in all `m`. */
  function Mixed<T>(m: nat, j: nat, a: T, b: T): (q: seq<T>)
    ensures |q| == m && forall i :: 0 <= i < m ==> q[i] == if i < j then a else b
  {
    seq(m, i requires 0 <= i < m => if i < j then a else b)
  }

  function Below(n: nat): (q: set<nat>)
    ensures forall i :: i in q <==> 0 <= i < n
  {
    if n == 0 then {} else Below(n - 1) + {n - 1}
  }

  /** A record just added, by a dispatch, a success report or the workers in `finders`, all of
      whom found none. */
  function Created(m: nat, finders: set<nat>, status: Status): Shared {
    Shared(status, 0, 0, 0, seq(m, w requires 0 <= w < m => if w in finders then 1 else 0), Mixed(m, m, Idle, Idle), {}, {})
  }

  // ---------- the bound ----------

  /** A worker needs a failed status written after its own last write before it is let through
      again, and every one of those but the ones still in `reporting` is counted. */
  ghost predicate WorkerOk(s: Shared, n: nat, w: nat)
    requires w < |s.tests| == |s.phase|
  {
    && s.tests[w] <= s.closes + |s.reporting| +
         (if s.phase[w] == Through || (s.phase[w] == Idle && s.status != Failed) then 1 else 0)
    && (s.closes + s.handled < WORD32 ==> s.tests[w] <= MAX_RETRY + n)
  }

  ghost predicate RaceInv(s: Shared, n: nat) {
    && |s.tests| == |s.phase| && s.retry == (s.closes + s.handled) % WORD32 && s.reporting <= Below(n)
    && forall w :: 0 <= w < |s.tests| ==> WorkerOk(s, n, w)
  }

  lemma {:induction false} BelowSize(n: nat)
    ensures |Below(n)| == n
  {
    if n > 0 {
      BelowSize(n - 1);
    }
  }

  lemma FewReporting(s: Shared, n: nat)
    requires s.reporting <= Below(n)
    ensures |s.reporting| <= n
  {
    BelowSize(n);
    SubsetSize(s.reporting, Below(n));
  }

  /** The worker whose event it is. */
  lemma WorkerStep(s: Shared, n: nat, w: nat)
    requires RaceInv(s, n)
    ensures RaceInv(Next(s, Look(w)), n) && RaceInv(Next(s, Check(w)), n) && RaceInv(Next(s, Write(w)), n)
  {
    FewReporting(s, n);
    assert w < |s.tests| ==> WorkerOk(s, n, w);
    forall v, e | 0 <= v < |s.tests| && e in {Look(w), Check(w), Write(w)} ensures WorkerOk(Next(s, e), n, v) {
      assert WorkerOk(s, n, v);
    }
  }

  lemma ReportStep(s: Shared, n: nat, r: nat)
    requires RaceInv(s, n) && r < n
    ensures RaceInv(Next(s, Report(r)), n)
  {
    assert r !in s.reporting ==> |s.reporting + {r}| == |s.reporting| + 1;
    forall v | 0 <= v < |s.tests| ensures WorkerOk(Next(s, Report(r)), n, v) { assert WorkerOk(s, n, v); }
  }

  lemma CountStep(s: Shared, n: nat, e: Event)
    requires RaceInv(s, n) && (e.Tally? || e.Dispatch?)
    ensures RaceInv(Next(s, e), n)
  {
    var c := s.closes + s.handled;
    assert (c % WORD32 + 1) % WORD32 == (c + 1) % WORD32;
    assert e.Tally? && e.r in s.reporting ==> |s.reporting - {e.r}| == |s.reporting| - 1;
    forall v | 0 <= v < |s.tests| ensures WorkerOk(Next(s, e), n, v) { assert WorkerOk(s, n, v); }
  }

  lemma ConfirmStep(s: Shared, n: nat, r: nat)
    requires RaceInv(s, n)
    ensures RaceInv(Next(s, Notice(r)), n) && RaceInv(Next(s, Confirm(r)), n)
  {
    forall v, e | 0 <= v < |s.tests| && e in {Notice(r), Confirm(r)} ensures WorkerOk(Next(s, e), n, v) {
      assert WorkerOk(s, n, v);
    }
  }

  /** No more than `n` connections report. */
  predicate Reporters(es: seq<Event>, n: nat) {
    forall i :: 0 <= i < |es| && es[i].Report? ==> es[i].r < n
  }

  lemma RaceStep(s: Shared, n: nat, e: Event)
    requires RaceInv(s, n) && (e.Report? ==> e.r < n)
    ensures RaceInv(Next(s, e), n) && |Next(s, e).tests| == |s.tests|
  {
    match e
    case Look(w) => WorkerStep(s, n, w);
    case Check(w) => WorkerStep(s, n, w);
    case Write(w) => WorkerStep(s, n, w);
    case Report(r) => ReportStep(s, n, r);
    case Tally(r) => CountStep(s, n, e);
    case Dispatch => CountStep(s, n, e);
    case Notice(r) => ConfirmStep(s, n, r);
    case Confirm(r) => ConfirmStep(s, n, r);
  }

  lemma {:induction false} RaceRun(s: Shared, n: nat, es: seq<Event>)
    requires RaceInv(s, n) && Reporters(es, n)
    ensures RaceInv(Run(s, es), n) && |Run(s, es).tests| == |s.tests|
    decreases |es|
  {
    if es != [] {
      RaceStep(s, n, es[0]);
      RaceRun(Next(s, es[0]), n, es[1..]);
    }
  }

  function Sum(q: seq<nat>): nat {
    if q == [] then 0 else q[0] + Sum(q[1..])
  }

  lemma {:induction false} SumBound(q: seq<nat>, b: nat)
    requires forall i :: 0 <= i < |q| ==> q[i] <= b
    ensures Sum(q) <= b * |q|
  {
    if q != [] { SumBound(q[1..], b); }
  }

  /** In every interleaving of `m` workers and `n` reporting connections, however many of the
      workers raced to add the record: before the counter wraps each worker is let through at
      most 6 + n times, and all together at most (6 + n) m times. */
  lemma BoundedRace(m: nat, n: nat, finders: set<nat>, status: Status, es: seq<Event>)
    requires status != Failed && Reporters(es, n)
    ensures var s := Run(Created(m, finders, status), es);
      s.closes + s.handled < WORD32 ==>
        (forall w :: 0 <= w < |s.tests| ==> s.tests[w] <= 6 + n) && Sum(s.tests) <= (6 + n) * m
  {
    var s0 := Created(m, finders, status);
    forall w | 0 <= w < m ensures WorkerOk(s0, n, w) {}
    RaceRun(s0, n, es);
    var s := Run(s0, es);
    if s.closes + s.handled < WORD32 {
      forall w | 0 <= w < |s.tests| ensures s.tests[w] <= 6 + n { assert WorkerOk(s, n, w); }
      SumBound(s.tests, 6 + n);
    }
  }

  // ---------- the bound is reached ----------

  lemma {:induction false} RunAppend(s: Shared, x: seq<Event>, y: seq<Event>)
    ensures Run(s, x + y) == Run(Run(s, x), y)
    decreases |x|
  {
    if x == [] {
      assert x + y == y;
    } else {
      assert (x + y)[1..] == x[1..] + y;
      RunAppend(Next(s, x[0]), x[1..], y);
    }
  }

  lemma RunMore(s: Shared, x: seq<Event>, e: Event)
    ensures Run(s, x + [e]) == Next(Run(s, x), e)
  {
    RunAppend(s, x, [e]);
    assert [e][1..] == [];
    assert Run(Run(s, x), [e]) == Run(Next(Run(s, x), e), []);
  }

  function Looks(j: nat): seq<Event> { if j == 0 then [] else Looks(j - 1) + [Look(j - 1)] }

  function Checks(j: nat): seq<Event> { if j == 0 then [] else Checks(j - 1) + [Check(j - 1)] }

  function Writes(j: nat): seq<Event> { if j == 0 then [] else Writes(j - 1) + [Write(j - 1)] }

  /** `m` workers in one phase, each let through `t` times; `c` reports counted, none dispatched. */
  function Even(status: Status, m: nat, t: nat, p: Phase, c: nat, reporting: set<nat>): Shared {
    Shared(status, c, c, 0, Mixed(m, m, t, t), Mixed(m, m, p, p), reporting, {})
  }

  lemma {:induction false} LooksRun(m: nat, j: nat, t: nat, c: nat, rs: set<nat>)
    requires j <= m
    ensures Run(Even(Failed, m, t, Idle, c, rs), Looks(j))
      == Even(Failed, m, t, Idle, c, rs).(phase := Mixed(m, j, Saw, Idle))
  {
    var s := Even(Failed, m, t, Idle, c, rs);
    if j == 0 {
      assert s.phase == Mixed(m, 0, Saw, Idle);
    } else {
      LooksRun(m, j - 1, t, c, rs);
      RunMore(s, Looks(j - 1), Look(j - 1));
      assert Mixed(m, j - 1, Saw, Idle)[j - 1 := Saw] == Mixed(m, j, Saw, Idle);
    }
  }

  lemma {:induction false} ChecksRun(m: nat, j: nat, t: nat, c: nat, rs: set<nat>)
    requires j <= m && c < MAX_RETRY
    ensures Run(Even(Failed, m, t, Saw, c, rs), Checks(j))
      == Even(Failed, m, t, Saw, c, rs).(phase := Mixed(m, j, Through, Saw), tests := Mixed(m, j, t + 1, t))
  {
    var s := Even(Failed, m, t, Saw, c, rs);
    if j == 0 {
      assert s.phase == Mixed(m, 0, Through, Saw) && s.tests == Mixed(m, 0, t + 1, t);
    } else {
      ChecksRun(m, j - 1, t, c, rs);
      RunMore(s, Checks(j - 1), Check(j - 1));
      assert Mixed(m, j - 1, Through, Saw)[j - 1 := Through] == Mixed(m, j, Through, Saw);
      assert Mixed(m, j - 1, t + 1, t)[j - 1 := t + 1] == Mixed(m, j, t + 1, t);
    }
  }

  lemma {:induction false} WritesRun(m: nat, j: nat, t: nat, c: nat, rs: set<nat>)
    requires j <= m
    ensures Run(Even(Failed, m, t, Through, c, rs), Writes(j))
      == Even(if j == 0 then Failed else Init, m, t, Through, c, rs).(phase := Mixed(m, j, Idle, Through))
  {
    var s := Even(Failed, m, t, Through, c, rs);
    if j == 0 {
      assert s.phase == Mixed(m, 0, Idle, Through);
    } else {
      WritesRun(m, j - 1, t, c, rs);
      RunMore(s, Writes(j - 1), Write(j - 1));
      assert Mixed(m, j - 1, Idle, Through)[j - 1 := Idle] == Mixed(m, j, Idle, Through);
    }
  }

  /** All workers read the failed status, all find the counter low, all write. */
  lemma AllThrough(m: nat, t: nat, c: nat, rs: set<nat>)
    requires m >= 1 && c < MAX_RETRY
    ensures Run(Run(Run(Even(Failed, m, t, Idle, c, rs), Looks(m)), Checks(m)), Writes(m))
      == Even(Init, m, t + 1, Idle, c, rs)
  {
    LooksRun(m, m, t, c, rs);
    assert Mixed(m, m, Saw, Idle) == Mixed(m, m, Saw, Saw);
    assert Run(Even(Failed, m, t, Idle, c, rs), Looks(m)) == Even(Failed, m, t, Saw, c, rs);
    ChecksRun(m, m, t, c, rs);
    assert Mixed(m, m, Through, Saw) == Mixed(m, m, Through, Through) && Mixed(m, m, t + 1, t) == Mixed(m, m, t + 1, t + 1);
    assert Run(Even(Failed, m, t, Saw, c, rs), Checks(m)) == Even(Failed, m, t + 1, Through, c, rs);
    WritesRun(m, m, t + 1, c, rs);
    assert Mixed(m, m, Idle, Through) == Mixed(m, m, Idle, Idle);
  }

  /** A connection writes the failed status, and all workers go through before it counts. */
  function Round(m: nat, r: nat): seq<Event> {
    [Report(r)] + Looks(m) + Checks(m) + Writes(m)
  }

  lemma RoundRun(m: nat, t: nat, c: nat, rs: set<nat>, r: nat)
    requires m >= 1 && c < MAX_RETRY && r !in rs
    ensures Run(Even(Init, m, t, Idle, c, rs), Round(m, r)) == Even(Init, m, t + 1, Idle, c, rs + {r})
  {
    var s := Even(Init, m, t, Idle, c, rs);
    RunAppend(s, [Report(r)] + Looks(m) + Checks(m), Writes(m));
    RunAppend(s, [Report(r)] + Looks(m), Checks(m));
    RunAppend(s, [Report(r)], Looks(m));
    RunMore(s, [], Report(r));
    assert [] + [Report(r)] == [Report(r)];
    assert Run(s, [Report(r)]) == Even(Failed, m, t, Idle, c, rs + {r});
    AllThrough(m, t, c, rs + {r});
  }

  lemma ReportersAppend(x: seq<Event>, y: seq<Event>, n: nat)
    requires Reporters(x, n) && Reporters(y, n)
    ensures Reporters(x + y, n)
  {
  }

  lemma {:induction false} WorkersOnly(m: nat, n: nat)
    ensures Reporters(Looks(m), n) && Reporters(Checks(m), n) && Reporters(Writes(m), n)
  {
    if m > 0 { WorkersOnly(m - 1, n); }
  }

  lemma RoundReporters(m: nat, r: nat, n: nat)
    requires r < n
    ensures Reporters(Round(m, r), n)
  {
    WorkersOnly(m, n);
    ReportersAppend([Report(r)], Looks(m), n);
    ReportersAppend([Report(r)] + Looks(m), Checks(m), n);
    ReportersAppend([Report(r)] + Looks(m) + Checks(m), Writes(m), n);
  }

  /** First `k` connections that report and never come to count. */
  function Lag(m: nat, k: nat): seq<Event> {
    if k == 0 then [] else Lag(m, k - 1) + Round(m, k - 1)
  }

  lemma {:induction false} LagReporters(m: nat, k: nat, n: nat)
    requires k <= n
    ensures Reporters(Lag(m, k), n)
  {
    if k > 0 {
      LagReporters(m, k - 1, n);
      RoundReporters(m, k - 1, n);
      ReportersAppend(Lag(m, k - 1), Round(m, k - 1), n);
    }
  }

  lemma {:induction false} LagRun(m: nat, k: nat)
    requires m >= 1
    ensures Run(Even(Init, m, 1, Idle, 0, {}), Lag(m, k)) == Even(Init, m, 1 + k, Idle, 0, Below(k))
  {
    if k > 0 {
      LagRun(m, k - 1);
      RunAppend(Even(Init, m, 1, Idle, 0, {}), Lag(m, k - 1), Round(m, k - 1));
      RoundRun(m, k, 0, Below(k - 1), k - 1);
    }
  }

  /** Then one that does, late, `c` times over. */
  function Late(m: nat, r: nat, c: nat): seq<Event> {
    if c == 0 then [] else Late(m, r, c - 1) + (Round(m, r) + [Tally(r)])
  }

  /** One such round. */
  lemma LateRound(m: nat, r: nat, t: nat, c: nat)
    requires m >= 1 && c < MAX_RETRY
    ensures Run(Even(Init, m, t, Idle, c, Below(r)), Round(m, r) + [Tally(r)]) == Even(Init, m, t + 1, Idle, c + 1, Below(r))
  {
    RoundRun(m, t, c, Below(r), r);
    RunMore(Even(Init, m, t, Idle, c, Below(r)), Round(m, r), Tally(r));
    assert Below(r) + {r} - {r} == Below(r);
  }

  lemma {:induction false} LateReporters(m: nat, r: nat, c: nat)
    ensures Reporters(Late(m, r, c), r + 1)
  {
    if c > 0 {
      LateReporters(m, r, c - 1);
      RoundReporters(m, r, r + 1);
      ReportersAppend(Round(m, r), [Tally(r)], r + 1);
      ReportersAppend(Late(m, r, c - 1), Round(m, r) + [Tally(r)], r + 1);
    }
  }

  lemma {:induction false} LateRun(m: nat, r: nat, t: nat, c: nat)
    requires m >= 1 && c <= MAX_RETRY
    ensures Run(Even(Init, m, t, Idle, 0, Below(r)), Late(m, r, c)) == Even(Init, m, t + c, Idle, c, Below(r))
  {
    if c > 0 {
      LateRun(m, r, t, c - 1);
      RunAppend(Even(Init, m, t, Idle, 0, Below(r)), Late(m, r, c - 1), Round(m, r) + [Tally(r)]);
      LateRound(m, r, t + c - 1, c - 1);
    }
  }

  lemma CreatedEven(m: nat)
    ensures Created(m, Below(m), Init) == Even(Init, m, 1, Idle, 0, {})
  {
    assert Created(m, Below(m), Init).tests == Mixed(m, m, 1, 1);
  }

  lemma LagThenLate(m: nat, n: nat, c: nat)
    requires m >= 1 && n >= 1 && c <= MAX_RETRY
    ensures Run(Created(m, Below(m), Init), Lag(m, n - 1) + Late(m, n - 1, c)) == Even(Init, m, n + c, Idle, c, Below(n - 1))
  {
    CreatedEven(m);
    LagRun(m, n - 1);
    LateRun(m, n - 1, n, c);
    RunAppend(Even(Init, m, 1, Idle, 0, {}), Lag(m, n - 1), Late(m, n - 1, c));
  }

  lemma LagLateReporters(m: nat, n: nat, c: nat)
    requires n >= 1
    ensures Reporters(Lag(m, n - 1) + Late(m, n - 1, c), n)
  {
    LagReporters(m, n - 1, n);
    LateReporters(m, n - 1, c);
    ReportersAppend(Lag(m, n - 1), Late(m, n - 1, c), n);
  }

  /** For any number of workers and reporting connections some run reaches the bound, with six
      reports counted and nothing dispatched: every worker is let through 6 + n times.  With one
      worker and one endpoint that is 7; with the program's two workers and a pair's two
      endpoints it is 8 each. */
  lemma BoundReached(m: nat, n: nat) returns (es: seq<Event>)
    requires m >= 1 && n >= 1
    ensures Reporters(es, n)
    ensures var s := Run(Created(m, Below(m), Init), es);
      s.closes + s.handled == 6 && |s.tests| == m && forall w :: 0 <= w < m ==> s.tests[w] == 6 + n
  {
    es := Lag(m, n - 1) + Late(m, n - 1, MAX_RETRY);
    LagThenLate(m, n, MAX_RETRY);
    LagLateReporters(m, n, MAX_RETRY);
  }

  lemma SevenAttempts() returns (es: seq<Event>)
    ensures Reporters(es, 1)
    ensures var s := Run(Created(1, Below(1), Init), es); s.closes + s.handled == 6 && s.tests == [7]
  {
    es := BoundReached(1, 1);
  }

  lemma SixteenAttempts() returns (es: seq<Event>)
    ensures Reporters(es, 2)
    ensures var s := Run(Created(2, Below(2), Init), es); s.closes + s.handled == 6 && s.tests == [8, 8]
  {
    es := BoundReached(2, 2);
  }

  // ---------- who moves on, and what is counted ----------

  /** A worker sees the failed status, is then let through exactly if fewer than six are counted,
      and is idle again once it has written or was refused; no other event moves it. */
  lemma WorkerExact(s: Shared, e: Event, w: nat)
    requires w < |s.phase| == |s.tests|
    ensures var t := Next(s, e);
      && w < |t.phase| == |t.tests|
      && t.tests[w] == (if e == Check(w) && s.phase[w] == Saw && s.retry < 6 then s.tests[w] + 1 else s.tests[w])
      && t.phase[w] == (if e == Look(w) && s.phase[w] == Idle && s.status == Failed then Saw
                        else if e == Check(w) && s.phase[w] == Saw then if s.retry < 6 then Through else Idle
                        else if e == Write(w) && s.phase[w] == Through then Idle
                        else s.phase[w])
  {
  }

  /** A connection is about to confirm exactly if it found the initial status and has not written
      since, and about to count exactly if it has written the failed one and not counted since. */
  lemma ReporterExact(s: Shared, e: Event, r: nat)
    ensures var t := Next(s, e);
      && (r in t.confirming <==> (e == Notice(r) && s.status == Init) || (r in s.confirming && e != Confirm(r)))
      && (r in t.reporting <==> e == Report(r) || (r in s.reporting && e != Tally(r)))
  {
  }

  function Dispatches(es: seq<Event>): nat {
    if es == [] then 0 else (if es[0].Dispatch? then 1 else 0) + Dispatches(es[1..])
  }

  /** In every run, each dispatch is counted, once. */
  lemma {:induction false} DispatchesCounted(s: Shared, es: seq<Event>)
    ensures Run(s, es).handled == s.handled + Dispatches(es)
    decreases |es|
  {
    if es != [] { DispatchesCounted(Next(s, es[0]), es[1..]); }
  }

  // ---------- how a failed record comes back ----------

  /** A failed status is overwritten exactly by a worker that was let through, which makes it
      initial, or by a success report that saw the initial status before it failed. */
  lemma FailedOverwritten(s: Shared, e: Event)
    requires s.status == Failed && |s.phase| == |s.tests|
    ensures Next(s, e).status != Failed <==>
      (e.Write? && e.w < |s.phase| && s.phase[e.w] == Through) || (e.Confirm? && e.r in s.confirming)
    ensures Next(s, e).status == Connected <==> e.Confirm? && e.r in s.confirming
  {
  }

  /** The latter happens: the record connects after it failed, and nobody was let through again. */
  lemma StaleSuccess(m: nat)
    ensures var s := Run(Created(m, {}, Init), [Notice(0), Report(0)]);
      && s.status == Failed
      && Next(s, Confirm(0)).status == Connected && Next(s, Confirm(0)).tests == Created(m, {}, Init).tests
  {
    var s0 := Created(m, {}, Init);
    assert [Notice(0), Report(0)] == [] + [Notice(0)] + [Report(0)];
    RunMore(s0, [] + [Notice(0)], Report(0));
    RunMore(s0, [], Notice(0));
  }
}
