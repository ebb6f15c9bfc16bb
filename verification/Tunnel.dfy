/** Hole punching between pairs of clients: the unordered-pair index of tunnel records and
    the state machine that bounds how often a pair is told to try. */
module Tunnel {
  import opened Bytes

  type Key8 = k: seq<byte> | |k| == 8 witness [0, 0, 0, 0, 0, 0, 0, 0]

  const MAX_RETRY := 6
  const TASK_QUEUE := 32
  const NAT_UNKNOWN := 2

  datatype Status = Init | Connected | Failed

  /** `admits`, `closes` and `handled` are history: attempts let through, close reports and
      dispatched tasks counted on this record. */
  datatype Record = Record(a: Key4, b: Key4, status: Status, retry: nat, admits: nat, closes: nat, handled: nat)

  datatype Manager = Manager(tunnels: map<Key8, Record>, tasks: seq<(Key4, Key4)>)

  /** The smaller address first, so that both directions give one key. */
  function MakeKey(a: Key4, b: Key4): Key8 {
    if Less(a, b) then a + b else b + a
  }

  /** The key is the same for both directions and for no other pair. */
  lemma MakeKeyExact(a: Key4, b: Key4, c: Key4, d: Key4)
    ensures MakeKey(a, b) == MakeKey(c, d) <==> (a == c && b == d) || (a == d && b == c)
  {
    LessTrichotomy(a, b);
    LessTrichotomy(c, d);
    var x, y := MakeKey(a, b), MakeKey(c, d);
    assert x[..4] == (if Less(a, b) then a else b) && x[4..] == (if Less(a, b) then b else a);
    assert y[..4] == (if Less(c, d) then c else d) && y[4..] == (if Less(c, d) then d else c);
  }

  datatype Step =
    | TryEstablish(src: Key4, dst: Key4, srcNat: int, dstNat: int)
    | HandleTask
    | ReportEstablished(a: Key4, b: Key4)
    | ReportClosed(a: Key4, b: Key4)
    | RemoveTunnel(a: Key4, b: Key4)
    | RemoveAll(a: Key4)

  function AddTunnel(m: Manager, a: Key4, b: Key4, status: Status, admits: nat): Manager {
    if MakeKey(a, b) in m.tunnels then m
    else m.(tunnels := m.tunnels[MakeKey(a, b) := Record(a, b, status, 0, admits, 0, 0)])
  }

  /** `ifEstablish`: a new pair, or a failed one that has not been tried too often. */
  predicate Admits(m: Manager, src: Key4, dst: Key4, srcNat: int, dstNat: int) {
    && srcNat > NAT_UNKNOWN && dstNat > NAT_UNKNOWN
    && (MakeKey(src, dst) !in m.tunnels ||
        (m.tunnels[MakeKey(src, dst)].status == Failed && m.tunnels[MakeKey(src, dst)].retry < MAX_RETRY))
  }

  function Readmit(t: Record): Record {
    t.(status := Init, admits := t.admits + 1)
  }

  function Close(t: Record): Record {
    t.(status := Failed, retry := (t.retry + 1) % WORD32, closes := t.closes + 1)
  }

  function Handle(t: Record): Record {
    t.(retry := (t.retry + 1) % WORD32, handled := t.handled + 1)
  }

  function Without(t: map<Key8, Record>, a: Key4): (r: map<Key8, Record>)
    ensures forall k :: k in r <==> k in t && t[k].a != a && t[k].b != a
    ensures forall k :: k in r ==> r[k] == t[k]
  {
    map k | k in t && t[k].a != a && t[k].b != a :: t[k]
  }

  function Apply(m: Manager, st: Step): Manager {
    match st
    case TryEstablish(src, dst, srcNat, dstNat) =>
      if !Admits(m, src, dst, srcNat, dstNat) then m else
        var k := MakeKey(src, dst);
        var m1 := if k in m.tunnels then m.(tunnels := m.tunnels[k := Readmit(m.tunnels[k])])
                  else AddTunnel(m, src, dst, Init, 1);
        if |m.tasks| < TASK_QUEUE then m1.(tasks := m.tasks + [(src, dst)]) else m1
    case HandleTask =>
      if m.tasks == [] then m else
        var (a, b) := m.tasks[0];
        var k := MakeKey(a, b);
        var m1 := m.(tasks := m.tasks[1..]);
        if k in m.tunnels then m1.(tunnels := m.tunnels[k := Handle(m.tunnels[k])]) else AddTunnel(m1, a, b, Init, 0)
    case ReportEstablished(a, b) =>
      var k := MakeKey(a, b);
      if k !in m.tunnels then AddTunnel(m, a, b, Connected, 0)
      else if m.tunnels[k].status == Init then m.(tunnels := m.tunnels[k := m.tunnels[k].(status := Connected)])
      else m
    case ReportClosed(a, b) =>
      var k := MakeKey(a, b);
      if k in m.tunnels then m.(tunnels := m.tunnels[k := Close(m.tunnels[k])]) else m
    case RemoveTunnel(a, b) => m.(tunnels := m.tunnels - {MakeKey(a, b)})
    case RemoveAll(a) => m.(tunnels := Without(m.tunnels, a))
  }

  const Start: Manager := Manager(map[], [])

  function Exec(m: Manager, steps: seq<Step>): Manager
    decreases |steps|
  {
    if steps == [] then m else Exec(Apply(m, steps[0]), steps[1..])
  }

  // ---------- the index ----------

  ghost predicate Indexed(m: Manager) {
    forall k :: k in m.tunnels ==> k == MakeKey(m.tunnels[k].a, m.tunnels[k].b)
  }

  // ---------- the bound ----------

  /** Each further attempt needs a close report of its own, and a failed record has one spare. */
  ghost predicate RecordOk(t: Record) {
    && t.retry == (t.closes + t.handled) % WORD32
    && t.admits <= t.closes + (if t.status == Failed then 0 else 1)
    && (t.closes + t.handled < WORD32 ==> t.admits <= MAX_RETRY)
  }

  ghost predicate Inv(m: Manager) {
    Indexed(m) && forall k :: k in m.tunnels ==> RecordOk(m.tunnels[k])
  }

  lemma RecordSteps(t: Record)
    requires RecordOk(t)
    ensures RecordOk(Close(t)) && RecordOk(Handle(t))
    ensures t.status == Init ==> RecordOk(t.(status := Connected))
    ensures t.status == Failed && t.retry < MAX_RETRY ==> RecordOk(Readmit(t))
  {
    var n := t.closes + t.handled;
    assert (n % WORD32 + 1) % WORD32 == (n + 1) % WORD32;
  }

  lemma UpdateInv(m: Manager, k: Key8, t: Record)
    requires Inv(m) && k in m.tunnels && RecordOk(t) && t.a == m.tunnels[k].a && t.b == m.tunnels[k].b
    ensures Inv(m.(tunnels := m.tunnels[k := t]))
  {
  }

  lemma AddInv(m: Manager, a: Key4, b: Key4, status: Status, admits: nat)
    requires Inv(m) && status != Failed && admits <= 1
    ensures Inv(AddTunnel(m, a, b, status, admits))
  {
  }

  lemma InvStep(m: Manager, st: Step)
    requires Inv(m)
    ensures Inv(Apply(m, st))
  {
    match st
    case TryEstablish(src, dst, srcNat, dstNat) =>
      var k := MakeKey(src, dst);
      AddInv(m, src, dst, Init, 1);
      if Admits(m, src, dst, srcNat, dstNat) && k in m.tunnels {
        RecordSteps(m.tunnels[k]);
        UpdateInv(m, k, Readmit(m.tunnels[k]));
      }
    case HandleTask => if m.tasks != [] { HandleInv(m); }
    case ReportEstablished(a, b) =>
      AddInv(m, a, b, Connected, 0);
      var k := MakeKey(a, b);
      if k in m.tunnels && m.tunnels[k].status == Init {
        RecordSteps(m.tunnels[k]);
        UpdateInv(m, k, m.tunnels[k].(status := Connected));
      }
    case ReportClosed(a, b) =>
      var k := MakeKey(a, b);
      if k in m.tunnels {
        RecordSteps(m.tunnels[k]);
        UpdateInv(m, k, Close(m.tunnels[k]));
      }
    case _ =>
  }

  lemma HandleInv(m: Manager)
    requires Inv(m) && m.tasks != []
    ensures Inv(Apply(m, HandleTask))
  {
    var (a, b) := m.tasks[0];
    var k, m1 := MakeKey(a, b), m.(tasks := m.tasks[1..]);
    if k in m.tunnels {
      RecordSteps(m.tunnels[k]);
      UpdateInv(m1, k, Handle(m.tunnels[k]));
    } else {
      AddInv(m1, a, b, Init, 0);
    }
  }

  lemma {:induction false} InvRun(m: Manager, steps: seq<Step>)
    requires Inv(m)
    ensures Inv(Exec(m, steps))
    decreases |steps|
  {
    if steps != [] {
      InvStep(m, steps[0]);
      InvRun(Apply(m, steps[0]), steps[1..]);
    }
  }

  /** In every run, every stored record sits under its own pair's key, and the pair has been
      let through at most six times unless its retry counter has wrapped around. */
  lemma BoundedAttempts(steps: seq<Step>)
    ensures var m := Exec(Start, steps);
      && (forall k :: k in m.tunnels ==> k == MakeKey(m.tunnels[k].a, m.tunnels[k].b))
      && (forall k :: k in m.tunnels && m.tunnels[k].closes + m.tunnels[k].handled < WORD32 ==> m.tunnels[k].admits <= 6)
  {
    InvRun(Start, steps);
  }

  // ---------- three, when tasks are dispatched in time ----------

  /** A close report comes only after every attempt let through so far was dispatched. */
  predicate Prompt(m: Manager, st: Step) {
    st.ReportClosed? && MakeKey(st.a, st.b) in m.tunnels ==>
      m.tunnels[MakeKey(st.a, st.b)].handled >= m.tunnels[MakeKey(st.a, st.b)].admits
  }

  predicate PromptRun(m: Manager, steps: seq<Step>)
    decreases |steps|
  {
    steps == [] || (Prompt(m, steps[0]) && PromptRun(Apply(m, steps[0]), steps[1..]))
  }

  ghost predicate PromptOk(t: Record) {
    && (t.status == Failed ==> t.handled >= t.admits)
    && (t.closes + t.handled < WORD32 ==> t.admits <= 3)
  }

  lemma PromptRecord(t: Record)
    requires RecordOk(t) && PromptOk(t)
    ensures PromptOk(Handle(t)) && (t.handled >= t.admits ==> PromptOk(Close(t)))
    ensures t.status == Failed && t.retry < MAX_RETRY ==> PromptOk(Readmit(t))
  {
  }

  lemma PromptStep(m: Manager, st: Step)
    requires Inv(m) && Prompt(m, st)
    requires forall k :: k in m.tunnels ==> PromptOk(m.tunnels[k])
    ensures forall k :: k in Apply(m, st).tunnels ==> PromptOk(Apply(m, st).tunnels[k])
  {
    forall k | k in m.tunnels
      ensures PromptOk(Handle(m.tunnels[k]))
      ensures m.tunnels[k].handled >= m.tunnels[k].admits ==> PromptOk(Close(m.tunnels[k]))
      ensures m.tunnels[k].status == Failed && m.tunnels[k].retry < MAX_RETRY ==> PromptOk(Readmit(m.tunnels[k]))
    {
      PromptRecord(m.tunnels[k]);
    }
  }

  lemma {:induction false} PromptBound(m: Manager, steps: seq<Step>)
    requires Inv(m) && PromptRun(m, steps) && forall k :: k in m.tunnels ==> PromptOk(m.tunnels[k])
    ensures forall k :: k in Exec(m, steps).tunnels ==> PromptOk(Exec(m, steps).tunnels[k])
    decreases |steps|
  {
    if steps != [] {
      PromptStep(m, steps[0]);
      InvStep(m, steps[0]);
      PromptBound(Apply(m, steps[0]), steps[1..]);
    }
  }

  /** Then three attempts are all a record ever gets. */
  lemma BoundedPromptAttempts(steps: seq<Step>)
    requires PromptRun(Start, steps)
    ensures var m := Exec(Start, steps);
      forall k :: k in m.tunnels && m.tunnels[k].closes + m.tunnels[k].handled < WORD32 ==> m.tunnels[k].admits <= 3
  {
    PromptBound(Start, steps);
  }

  // ---------- how a failed record comes back ----------

  /** The step is an attempt on the pair of `k` that is let through. */
  predicate LetsThrough(m: Manager, st: Step, k: Key8) {
    st.TryEstablish? && MakeKey(st.src, st.dst) == k && Admits(m, st.src, st.dst, st.srcNat, st.dstNat)
  }

  /** The record of `k` is there all along the run. */
  predicate Kept(m: Manager, steps: seq<Step>, k: Key8)
    decreases |steps|
  {
    k in m.tunnels && (steps == [] || Kept(Apply(m, steps[0]), steps[1..], k))
  }

  lemma {:induction false} KeptThere(m: Manager, steps: seq<Step>, k: Key8)
    requires Kept(m, steps, k)
    ensures k in m.tunnels && k in Exec(m, steps).tunnels
    decreases |steps|
  {
    if steps != [] { KeptThere(Apply(m, steps[0]), steps[1..], k); }
  }

  lemma RecordStep(m: Manager, st: Step, k: Key8)
    requires k in m.tunnels && k in Apply(m, st).tunnels
    ensures LetsThrough(m, st, k) ==> Apply(m, st).tunnels[k] == Readmit(m.tunnels[k])
    ensures !LetsThrough(m, st, k) ==>
      && Apply(m, st).tunnels[k].admits == m.tunnels[k].admits
      && (m.tunnels[k].status == Failed ==> Apply(m, st).tunnels[k].status == Failed)
  {
  }

  /** In every run that keeps the record, one that has failed and no longer is (connected, say)
      came back through an attempt that was let through: step `i` found it failed and made it
      initial again. */
  lemma {:induction false} FailedOnlyReadmitted(m: Manager, steps: seq<Step>, k: Key8) returns (i: nat)
    requires Kept(m, steps, k) && m.tunnels[k].status == Failed
    requires k in Exec(m, steps).tunnels && Exec(m, steps).tunnels[k].status != Failed
    ensures i < |steps|
    ensures var n := Exec(m, steps[..i]);
      && k in n.tunnels && n.tunnels[k].status == Failed && LetsThrough(n, steps[i], k)
      && k in Apply(n, steps[i]).tunnels && Apply(n, steps[i]).tunnels[k].status == Init
    decreases |steps|
  {
    var m1 := Apply(m, steps[0]);
    RecordStep(m, steps[0], k);
    if LetsThrough(m, steps[0], k) {
      i := 0;
      assert steps[..i] == [];
    } else {
      var j := FailedOnlyReadmitted(m1, steps[1..], k);
      i := j + 1;
      assert steps[..i][0] == steps[0] && steps[..i][1..] == steps[1..][..j];
    }
  }

  function Attempts(m: Manager, steps: seq<Step>, k: Key8): (n: nat)
    decreases |steps|
  {
    if steps == [] then 0
    else (if LetsThrough(m, steps[0], k) then 1 else 0) + Attempts(Apply(m, steps[0]), steps[1..], k)
  }

  /** The count that is bounded is the number of attempts let through. */
  lemma {:induction false} AttemptsCounted(m: Manager, steps: seq<Step>, k: Key8)
    requires Kept(m, steps, k)
    ensures k in Exec(m, steps).tunnels && Exec(m, steps).tunnels[k].admits == m.tunnels[k].admits + Attempts(m, steps, k)
    decreases |steps|
  {
    if steps != [] {
      KeptThere(Apply(m, steps[0]), steps[1..], k);
      RecordStep(m, steps[0], k);
      AttemptsCounted(Apply(m, steps[0]), steps[1..], k);
    }
  }

  /** The step dispatches an attempt of the pair, or reports its tunnel closed. */
  predicate IsDispatch(m: Manager, st: Step, k: Key8) {
    st.HandleTask? && m.tasks != [] && MakeKey(m.tasks[0].0, m.tasks[0].1) == k
  }

  predicate IsClose(st: Step, k: Key8) {
    st.ReportClosed? && MakeKey(st.a, st.b) == k
  }

  function Dispatches(m: Manager, steps: seq<Step>, k: Key8): (n: nat)
    decreases |steps|
  {
    if steps == [] then 0
    else (if IsDispatch(m, steps[0], k) then 1 else 0) + Dispatches(Apply(m, steps[0]), steps[1..], k)
  }

  function CloseReports(steps: seq<Step>, k: Key8): (n: nat) {
    if steps == [] then 0 else (if IsClose(steps[0], k) then 1 else 0) + CloseReports(steps[1..], k)
  }

  lemma CountStep(m: Manager, st: Step, k: Key8)
    requires k in m.tunnels && k in Apply(m, st).tunnels
    ensures Apply(m, st).tunnels[k].handled == m.tunnels[k].handled + (if IsDispatch(m, st, k) then 1 else 0)
    ensures Apply(m, st).tunnels[k].closes == m.tunnels[k].closes + (if IsClose(st, k) then 1 else 0)
  {
  }

  lemma {:induction false} HistoryExact(m: Manager, steps: seq<Step>, k: Key8)
    requires Kept(m, steps, k)
    ensures k in Exec(m, steps).tunnels
    ensures Exec(m, steps).tunnels[k].handled == m.tunnels[k].handled + Dispatches(m, steps, k)
    ensures Exec(m, steps).tunnels[k].closes == m.tunnels[k].closes + CloseReports(steps, k)
    decreases |steps|
  {
    if steps != [] {
      KeptThere(Apply(m, steps[0]), steps[1..], k);
      CountStep(m, steps[0], k);
      HistoryExact(Apply(m, steps[0]), steps[1..], k);
    }
  }

  lemma RetryCounted(run: seq<Step>, steps: seq<Step>, k: Key8)
    requires k in Exec(Exec(Start, run), steps).tunnels
    ensures var t := Exec(Exec(Start, run), steps).tunnels[k]; t.retry == (t.closes + t.handled) % WORD32
  {
    InvRun(Start, run);
    InvRun(Exec(Start, run), steps);
    assert RecordOk(Exec(Exec(Start, run), steps).tunnels[k]);
  }

  /** In every run that keeps the record, the history counts the dispatches of the pair and the
      close reports on it, and the counter is their number in 32 bits. */
  lemma CountsExact(run: seq<Step>, steps: seq<Step>, k: Key8)
    requires Kept(Exec(Start, run), steps, k)
    ensures var m, m' := Exec(Start, run), Exec(Exec(Start, run), steps);
      && k in m'.tunnels
      && m'.tunnels[k].handled == m.tunnels[k].handled + Dispatches(m, steps, k)
      && m'.tunnels[k].closes == m.tunnels[k].closes + CloseReports(steps, k)
      && m'.tunnels[k].retry == (m'.tunnels[k].closes + m'.tunnels[k].handled) % WORD32
  {
    var m := Exec(Start, run);
    HistoryExact(m, steps, k);
    RetryCounted(run, steps, k);
  }

  // ---------- what the other steps do ----------

  /** An attempt that is let through queues a task as long as fewer than 32 wait; one that is not
      changes nothing. */
  lemma AttemptExact(m: Manager, src: Key4, dst: Key4, srcNat: int, dstNat: int)
    ensures var m', k := Apply(m, TryEstablish(src, dst, srcNat, dstNat)), MakeKey(src, dst);
      if srcNat > 2 && dstNat > 2 && (k !in m.tunnels || (m.tunnels[k].status == Failed && m.tunnels[k].retry < 6)) then
        && m'.tasks == (if |m.tasks| < 32 then m.tasks + [(src, dst)] else m.tasks)
        && k in m'.tunnels && m'.tunnels[k].status == Init
        && m'.tunnels[k].retry == (if k in m.tunnels then m.tunnels[k].retry else 0)
        && m'.tunnels - {k} == m.tunnels - {k}
      else m' == m
  {
  }

  /** A success report connects a record that is initial or missing, and no other. */
  lemma EstablishedExact(m: Manager, a: Key4, b: Key4)
    ensures var m', k := Apply(m, ReportEstablished(a, b)), MakeKey(a, b);
      && m'.tasks == m.tasks && m'.tunnels - {k} == m.tunnels - {k} && k in m'.tunnels
      && m'.tunnels[k].status == (if k in m.tunnels && m.tunnels[k].status == Failed then Failed else Connected)
      && m'.tunnels[k].retry == (if k in m.tunnels then m.tunnels[k].retry else 0)
  {
  }

  /** The counter stays below 2^32. */
  lemma CounterWraps(steps: seq<Step>, k: Key8)
    requires k in Exec(Start, steps).tunnels
    ensures var n := Exec(Start, steps).tunnels[k].retry; (n + 1) % WORD32 == if n == 0xFFFF_FFFF then 0 else n + 1
  {
    InvRun(Start, steps);
    assert RecordOk(Exec(Start, steps).tunnels[k]);
  }

  /** In every run, a close report fails and counts the pair's record, whatever its status; without
      one it changes nothing. */
  lemma CloseExact(steps: seq<Step>, a: Key4, b: Key4)
    ensures var m, k := Exec(Start, steps), MakeKey(a, b); var m' := Apply(m, ReportClosed(a, b));
      if k !in m.tunnels then m' == m
      else
        && m'.tasks == m.tasks && m'.tunnels - {k} == m.tunnels - {k} && k in m'.tunnels
        && m'.tunnels[k].status == Failed
        && m'.tunnels[k].retry == (if m.tunnels[k].retry == 0xFFFF_FFFF then 0 else m.tunnels[k].retry + 1)
  {
    var k := MakeKey(a, b);
    if k in Exec(Start, steps).tunnels { CounterWraps(steps, k); }
  }

  /** In every run, the dispatcher takes the oldest task and counts it on the pair's record; if that
      is gone it adds one afresh, with nothing counted. */
  lemma DispatchExact(steps: seq<Step>)
    requires Exec(Start, steps).tasks != []
    ensures var m := Exec(Start, steps); var m', k := Apply(m, HandleTask), MakeKey(m.tasks[0].0, m.tasks[0].1);
      && m'.tasks == m.tasks[1..] && m'.tunnels - {k} == m.tunnels - {k} && k in m'.tunnels
      && m'.tunnels[k].status == (if k in m.tunnels then m.tunnels[k].status else Init)
      && m'.tunnels[k].retry ==
         (if k !in m.tunnels || m.tunnels[k].retry == 0xFFFF_FFFF then 0 else m.tunnels[k].retry + 1)
  {
    var m := Exec(Start, steps);
    var k := MakeKey(m.tasks[0].0, m.tasks[0].1);
    if k in m.tunnels { CounterWraps(steps, k); }
  }

  /** `RemoveTunnel` deletes the pair's record, in whichever order the pair is named, and no other. */
  lemma RemovePairExact(m: Manager, a: Key4, b: Key4, c: Key4, d: Key4)
    ensures var m' := Apply(m, RemoveTunnel(a, b));
      && (MakeKey(c, d) in m'.tunnels <==> MakeKey(c, d) in m.tunnels && !((a == c && b == d) || (a == d && b == c)))
      && (MakeKey(c, d) in m'.tunnels ==> m'.tunnels[MakeKey(c, d)] == m.tunnels[MakeKey(c, d)])
  {
    MakeKeyExact(a, b, c, d);
  }

  /** Exactly when a failed pair is let through again: its counter is 32 bits wide. */
  lemma ReadmitExact(steps: seq<Step>, src: Key4, dst: Key4, srcNat: int, dstNat: int)
    requires var m := Exec(Start, steps); MakeKey(src, dst) in m.tunnels && m.tunnels[MakeKey(src, dst)].status == Failed
    ensures var m := Exec(Start, steps); var t := m.tunnels[MakeKey(src, dst)];
      Admits(m, src, dst, srcNat, dstNat) <==>
        srcNat > 2 && dstNat > 2 && (t.closes + t.handled) % WORD32 < 6
  {
    InvRun(Start, steps);
    var m := Exec(Start, steps);
    assert RecordOk(m.tunnels[MakeKey(src, dst)]);
  }

  function Closes(a: Key4, b: Key4, n: nat): (s: seq<Step>) {
    if n == 0 then [] else [ReportClosed(a, b)] + Closes(a, b, n - 1)
  }

  lemma {:induction false} ManyCloses(m: Manager, a: Key4, b: Key4, n: nat)
    requires MakeKey(a, b) in m.tunnels && m.tunnels[MakeKey(a, b)].status == Failed
    requires m.tunnels[MakeKey(a, b)].retry + n <= WORD32 && m.tunnels[MakeKey(a, b)].retry < WORD32
    ensures var k := MakeKey(a, b); var t := m.tunnels[k];
      Exec(m, Closes(a, b, n)) == m.(tunnels := m.tunnels[k := t.(retry := (t.retry + n) % WORD32, closes := t.closes + n)])
    decreases n
  {
    var k := MakeKey(a, b);
    var t := m.tunnels[k];
    if n == 0 {
      assert m.tunnels[k := t] == m.tunnels;
    } else {
      var m1 := Apply(m, ReportClosed(a, b));
      assert Closes(a, b, n)[1..] == Closes(a, b, n - 1);
      if t.retry + 1 < WORD32 {
        ManyCloses(m1, a, b, n - 1);
      } else {
        assert n == 1 && Exec(m1, Closes(a, b, 0)) == m1;
      }
    }
  }

  function Rounds(a: Key4, b: Key4, n: nat): seq<Step> {
    if n == 0 then [] else Rounds(a, b, n - 1) + [TryEstablish(a, b, 3, 3), ReportClosed(a, b)]
  }

  lemma {:induction false} ExecAppend(m: Manager, x: seq<Step>, y: seq<Step>)
    ensures Exec(m, x + y) == Exec(Exec(m, x), y)
    decreases |x|
  {
    if x == [] {
      assert x + y == y;
    } else {
      assert (x + y)[1..] == x[1..] + y;
      ExecAppend(Apply(m, x[0]), x[1..], y);
    }
  }

  lemma TwoSteps(m: Manager, x: Step, y: Step)
    ensures Exec(m, [x, y]) == Apply(Apply(m, x), y)
  {
    assert [x, y][1..] == [y] && [y][1..] == [];
    assert Exec(Apply(m, x), [y]) == Exec(Apply(Apply(m, x), y), []);
  }

  lemma OneRound(m: Manager, a: Key4, b: Key4, n: nat)
    requires n < 6
    requires var k := MakeKey(a, b);
      if n == 0 then k !in m.tunnels else k in m.tunnels && m.tunnels[k] == Record(a, b, Failed, n, n, n, 0)
    ensures var m' := Apply(Apply(m, TryEstablish(a, b, 3, 3)), ReportClosed(a, b)); var k := MakeKey(a, b);
      k in m'.tunnels && m'.tunnels[k] == Record(a, b, Failed, n + 1, n + 1, n + 1, 0)
  {
  }

  /** With a close report after each attempt and no task dispatched, all six pass. */
  lemma {:induction false} SixAttempts(a: Key4, b: Key4, n: nat)
    requires 1 <= n <= 6
    ensures var m := Exec(Start, Rounds(a, b, n)); var k := MakeKey(a, b);
      k in m.tunnels && m.tunnels[k] == Record(a, b, Failed, n, n, n, 0)
    decreases n
  {
    var m := Exec(Start, Rounds(a, b, n - 1));
    ExecAppend(Start, Rounds(a, b, n - 1), [TryEstablish(a, b, 3, 3), ReportClosed(a, b)]);
    TwoSteps(m, TryEstablish(a, b, 3, 3), ReportClosed(a, b));
    if n > 1 { SixAttempts(a, b, n - 1); }
    OneRound(m, a, b, n - 1);
  }

  function PromptRounds(a: Key4, b: Key4, n: nat): seq<Step> {
    if n == 0 then [] else PromptRounds(a, b, n - 1) + [TryEstablish(a, b, 3, 3), HandleTask, ReportClosed(a, b)]
  }

  lemma ThreeSteps(m: Manager, x: Step, y: Step, z: Step)
    ensures Exec(m, [x, y, z]) == Apply(Apply(Apply(m, x), y), z)
  {
    assert [x, y, z][1..] == [y, z];
    TwoSteps(Apply(m, x), y, z);
  }

  lemma OnePromptRound(m: Manager, a: Key4, b: Key4, n: nat)
    requires n < 3 && m.tasks == []
    requires var k := MakeKey(a, b);
      if n == 0 then k !in m.tunnels else k in m.tunnels && m.tunnels[k] == Record(a, b, Failed, 2 * n, n, n, n)
    ensures var m' := Apply(Apply(Apply(m, TryEstablish(a, b, 3, 3)), HandleTask), ReportClosed(a, b)); var k := MakeKey(a, b);
      m'.tasks == [] && k in m'.tunnels && m'.tunnels[k] == Record(a, b, Failed, 2 * n + 2, n + 1, n + 1, n + 1)
  {
    var m1 := Apply(m, TryEstablish(a, b, 3, 3));
    assert m1.tasks == [(a, b)];
    var m2 := Apply(m1, HandleTask);
    assert m2.tasks == [];
  }

  /** With each attempt dispatched and then reported closed, three pass and use up the counter. */
  lemma {:induction false} ThreeAttempts(a: Key4, b: Key4, n: nat)
    requires 1 <= n <= 3
    ensures var m := Exec(Start, PromptRounds(a, b, n)); var k := MakeKey(a, b);
      m.tasks == [] && k in m.tunnels && m.tunnels[k] == Record(a, b, Failed, 2 * n, n, n, n)
    decreases n
  {
    var m := Exec(Start, PromptRounds(a, b, n - 1));
    ExecAppend(Start, PromptRounds(a, b, n - 1), [TryEstablish(a, b, 3, 3), HandleTask, ReportClosed(a, b)]);
    ThreeSteps(m, TryEstablish(a, b, 3, 3), HandleTask, ReportClosed(a, b));
    if n > 1 { ThreeAttempts(a, b, n - 1); }
    OnePromptRound(m, a, b, n - 1);
  }

  /** And a fourth is refused. */
  lemma FourthRefused(a: Key4, b: Key4, srcNat: int, dstNat: int)
    ensures var m := Exec(Start, PromptRounds(a, b, 3)); Apply(m, TryEstablish(a, b, srcNat, dstNat)) == m
  {
    ThreeAttempts(a, b, 3);
  }

  /** The limit is not absolute: once 2^32 reports have brought the counter round to zero, a
      seventh attempt passes. */
  lemma SeventhAttempt(a: Key4, b: Key4)
    ensures var m := Apply(Exec(Exec(Start, Rounds(a, b, 6)), Closes(a, b, WORD32 - 6)), TryEstablish(a, b, 3, 3));
      MakeKey(a, b) in m.tunnels && m.tunnels[MakeKey(a, b)].admits == 7
  {
    SixAttempts(a, b, 6);
    ManyCloses(Exec(Start, Rounds(a, b, 6)), a, b, WORD32 - 6);
  }

  /** `RemoveA` deletes exactly the records that name the address. */
  lemma RemoveAllExact(m: Manager, a: Key4, b: Key4, c: Key4)
    requires Indexed(m)
    ensures MakeKey(b, c) in Apply(m, RemoveAll(a)).tunnels <==> MakeKey(b, c) in m.tunnels && b != a && c != a
    ensures MakeKey(b, c) in m.tunnels && b != a && c != a ==>
      Apply(m, RemoveAll(a)).tunnels[MakeKey(b, c)] == m.tunnels[MakeKey(b, c)]
  {
    var k := MakeKey(b, c);
    if k in m.tunnels { MakeKeyExact(b, c, m.tunnels[k].a, m.tunnels[k].b); }
  }
}
