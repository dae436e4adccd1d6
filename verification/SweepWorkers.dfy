/**
 The sweep's strided workers as a state machine: any worker may take the next
 step, so a run is any interleaving.  Writing a file is two steps, the opening
 that empties it and the write of the payload, and reading it back is a third.
 */
module SweepWorkers {
  import Decimal
  import opened Outcomes

  datatype Config = Config(events: nat, workers: nat, payload: string)

  ghost predicate ValidConfig(c: Config) {
    1 <= c.workers <= c.events
  }

  function Repeat(ch: char, n: nat): string {
    seq(n, _ => ch)
  }

  /** The head of `applySweepPressure`: nothing to do, or the number of workers and the payload. */
  function Plan(kernelEvents: int, concurrency: int, payloadBytes: int): (c: Option<Config>)
    ensures c.None? <==> kernelEvents <= 0
    ensures c.Some? ==> ValidConfig(c.value) && c.value.events == kernelEvents && c.value.payload != ""
    ensures c.Some? && 1 <= concurrency <= kernelEvents ==> c.value.workers == concurrency
    ensures c.Some? && concurrency > kernelEvents ==> c.value.workers == kernelEvents
    ensures c.Some? && concurrency < 1 ==> c.value.workers == 1
    ensures c.Some? ==> |c.value.payload| == (if payloadBytes < 1 then 1 else payloadBytes)
    ensures c.Some? ==> forall i :: 0 <= i < |c.value.payload| ==> c.value.payload[i] == 'x'
  {
    if kernelEvents <= 0 then None
    else
      var concurrent := if concurrency < 1 then 1 else concurrency;
      var bytes := if payloadBytes < 1 then 1 else payloadBytes;
      Some(Config(kernelEvents, if concurrent < kernelEvents then concurrent else kernelEvents, Repeat('x', bytes)))
  }

  function FileName(worker: nat, index: nat): string {
    "worker-" + Decimal.OfNat(worker) + "-" + Decimal.OfNat(index) + ".txt"
  }

  // ------------------------------------------------------------ the state machine

  datatype Phase = Ready | Opened | Written

  datatype Worker = Worker(index: nat, phase: Phase)

  datatype Operation = Open | Write | Read(content: Option<string>)

  datatype Access = Access(worker: nat, index: nat, operation: Operation)

  datatype State = State(workers: seq<Worker>, files: map<string, string>, log: seq<Access>)

  function Get(files: map<string, string>, name: string): Option<string> {
    if name in files then Some(files[name]) else None
  }

  /** The sweep directory may hold files already. */
  ghost function Start(c: Config, found: map<string, string>): State {
    State(seq(c.workers, (w: nat) => Worker(w, Ready)), found, [])
  }

  /** Worker w does its next operation. */
  ghost predicate Step(c: Config, s: State, t: State, w: nat) {
    && w < |s.workers|
    && var k := s.workers[w];
    && k.index < c.events
    && var file := FileName(w, k.index);
    match k.phase
    case Ready =>
      t == State(s.workers[w := Worker(k.index, Opened)],
                 s.files[file := ""], s.log + [Access(w, k.index, Open)])
    case Opened =>
      t == State(s.workers[w := Worker(k.index, Written)],
                 s.files[file := c.payload], s.log + [Access(w, k.index, Write)])
    case Written =>
      t == State(s.workers[w := Worker(k.index + c.workers, Ready)],
                 s.files, s.log + [Access(w, k.index, Read(Get(s.files, file)))])
  }

  ghost predicate Next(c: Config, s: State, t: State) {
    exists w :: Step(c, s, t, w)
  }

  ghost predicate Finished(c: Config, s: State) {
    forall w :: 0 <= w < |s.workers| ==> s.workers[w].index >= c.events
  }

  ghost predicate Run(c: Config, found: map<string, string>, run: seq<State>) {
    && run != []
    && run[0] == Start(c, found)
    && forall i :: 0 <= i < |run| - 1 ==> Next(c, run[i], run[i + 1])
  }

  // ---------------------------------------------------------------- file names

  /** The first dash after a run of digits is in one place. */
  lemma FirstDash(u: string, a: nat, b: nat)
    requires a < |u| && b < |u| && u[a] == '-' && u[b] == '-'
    requires forall i :: 0 <= i < a ==> Decimal.IsDigit(u[i])
    requires forall i :: 0 <= i < b ==> Decimal.IsDigit(u[i])
    ensures a == b
  {
  }

  lemma NoDash(s: string, t: string, x: string, y: string)
    requires forall i :: 0 <= i < |s| ==> Decimal.IsDigit(s[i])
    requires forall i :: 0 <= i < |t| ==> Decimal.IsDigit(t[i])
    requires s + "-" + x == t + "-" + y
    ensures |s| == |t|
  {
    FirstDash(s + "-" + x, |s|, |t|);
  }

  /** The worker comes before the index. */
  lemma FileNameExample()
    ensures FileName(3, 11) == "worker-3-11.txt"
  {
    assert Decimal.OfNat(3) == "3" && Decimal.OfNat(1) == "1" && Decimal.OfNat(11) == "11";
  }

  lemma SameParts(s: string, t: string, x: string, y: string)
    requires s + x == t + y && (|s| == |t| || |x| == |y|)
    ensures s == t && x == y
  {
    assert (s + x)[..|s|] == s && (t + y)[..|t|] == t;
    assert (s + x)[|s|..] == x && (t + y)[|t|..] == y;
  }

  lemma FileNameTail(w: nat, i: nat)
    ensures FileName(w, i)[7..] == Decimal.OfNat(w) + "-" + (Decimal.OfNat(i) + ".txt")
    ensures FileName(w, i)[7..] == Decimal.OfNat(w) + ("-" + (Decimal.OfNat(i) + ".txt"))
  {
  }

  lemma FileNameInjective(v: nat, i: nat, w: nat, j: nat)
    requires FileName(v, i) == FileName(w, j)
    ensures v == w && i == j
  {
    var a, b := Decimal.OfNat(v), Decimal.OfNat(w);
    var x, y := Decimal.OfNat(i), Decimal.OfNat(j);
    FileNameTail(v, i);
    FileNameTail(w, j);
    NoDash(a, b, x + ".txt", y + ".txt");
    SameParts(a, b, "-" + (x + ".txt"), "-" + (y + ".txt"));
    SameParts("-", "-", x + ".txt", y + ".txt");
    SameParts(x, y, ".txt", ".txt");
    Decimal.OfNatInjective(v, w);
    Decimal.OfNatInjective(i, j);
  }

  // ----------------------------------------------------------------- the stride

  function Owner(c: Config, index: nat): (w: nat)
    requires c.workers >= 1
    ensures w < c.workers && w <= index
  {
    OwnerBelow(index, c.workers);
    index % c.workers
  }

  lemma OwnerBelow(i: nat, m: nat)
    requires m >= 1
    ensures i % m <= i
  {
    assert i == m * (i / m) + i % m;
    assert i / m >= 0;
    assert m * (i / m) >= 0;
  }

  /** The stride keeps the owner. */
  lemma StrideOwner(c: Config, index: nat)
    requires c.workers >= 1
    ensures Owner(c, index + c.workers) == Owner(c, index)
  {
    var m := c.workers;
    assert (index + m) == m * (index / m + 1) + index % m;
    DivisionUnique(index + m, m, index / m + 1, index % m);
  }

  lemma Multiples(m: nat, d: int)
    ensures d >= 1 ==> m * d >= m
    ensures d <= -1 ==> m * d <= 0 - m
  {
    if d >= 1 {
      assert m * d == m * (d - 1) + m;
    }
    if d <= -1 {
      assert m * d == m * (d + 1) - m;
      assert m * (d + 1) <= 0;
    }
  }

  lemma DivisionUnique(a: nat, m: nat, q: nat, r: nat)
    requires m >= 1 && r < m && a == m * q + r
    ensures a % m == r
  {
    var d := a / m - q;
    assert m * d == r - a % m;
    Multiples(m, d);
  }

  /** The stride reaches the next index of the same owner. */
  lemma StrideNext(c: Config, i: nat, j: nat)
    requires c.workers >= 1 && Owner(c, i) == Owner(c, j) && i < j
    ensures i + c.workers <= j
  {
    var m := c.workers;
    var d := j / m - i / m;
    assert j - i == m * d;
    Multiples(m, d);
  }

  // --------------------------------------------------------------- what was done

  /** The accesses for one index, as its worker's loop body makes them. */
  ghost function BodyTrace(c: Config, index: nat): seq<Access>
    requires c.workers >= 1
  {
    var w := Owner(c, index);
    [Access(w, index, Open), Access(w, index, Write), Access(w, index, Read(Some(c.payload)))]
  }

  /** The accesses of a worker's loop for the indices before this one. */
  ghost function LoopTrace(c: Config, index: nat): seq<Access>
    requires c.workers >= 1
  {
    if index < c.workers then [] else LoopTrace(c, index - c.workers) + BodyTrace(c, index - c.workers)
  }

  ghost function OfIndex(log: seq<Access>, index: nat): seq<Access> {
    if log == [] then []
    else
      var n := |log| - 1;
      OfIndex(log[..n], index) + if log[n].index == index then [log[n]] else []
  }

  ghost function OfWorker(log: seq<Access>, w: nat): seq<Access> {
    if log == [] then []
    else
      var n := |log| - 1;
      OfWorker(log[..n], w) + if log[n].worker == w then [log[n]] else []
  }

  lemma LogNext(log: seq<Access>, a: Access, index: nat, w: nat)
    ensures OfIndex(log + [a], index) == OfIndex(log, index) + if a.index == index then [a] else []
    ensures OfWorker(log + [a], w) == OfWorker(log, w) + if a.worker == w then [a] else []
  {
    assert (log + [a])[..|log|] == log;
  }

  ghost function Stage(p: Phase): nat {
    match p
    case Ready => 0
    case Opened => 1
    case Written => 2
  }

  /** How many of the three operations for an index are done. */
  ghost function Progress(c: Config, s: State, index: nat): (p: nat)
    requires c.workers == |s.workers| >= 1
    ensures p <= 3
  {
    var k := s.workers[Owner(c, index)];
    if index < k.index then 3 else if index == k.index then Stage(k.phase) else 0
  }

  ghost function Done(c: Config, s: State, n: nat): nat
    requires c.workers == |s.workers| >= 1
  {
    if n == 0 then 0 else Done(c, s, n - 1) + Progress(c, s, n - 1)
  }

  // ----------------------------------------------------------------- the invariant

  ghost predicate WorkerOk(c: Config, k: Worker, w: nat)
    requires c.workers >= 1
  {
    k.index < c.events + c.workers && Owner(c, k.index) == w && (k.phase != Ready ==> k.index < c.events)
  }

  ghost predicate WorkersOk(c: Config, s: State) {
    && ValidConfig(c) && |s.workers| == c.workers
    && forall w :: 0 <= w < c.workers ==> WorkerOk(c, s.workers[w], w)
  }

  /** Each index has had the first so many of its accesses, and no other. */
  ghost predicate IndicesOk(c: Config, s: State)
    requires WorkersOk(c, s)
  {
    && (forall i :: 0 <= i < c.events ==> OfIndex(s.log, i) == BodyTrace(c, i)[..Progress(c, s, i)])
    && (forall p :: 0 <= p < |s.log| ==> s.log[p].index < c.events)
  }

  /** Each worker has done what its loop does, in the loop's order. */
  ghost predicate LoopsOk(c: Config, s: State)
    requires WorkersOk(c, s)
  {
    forall w :: 0 <= w < c.workers ==>
      var k := s.workers[w];
      OfWorker(s.log, w) == LoopTrace(c, k.index) + BodyTrace(c, k.index)[..Stage(k.phase)]
  }

  ghost predicate FilesOk(c: Config, s: State)
    requires WorkersOk(c, s)
  {
    forall i :: 0 <= i < c.events && Progress(c, s, i) >= 2 ==>
      Get(s.files, FileName(Owner(c, i), i)) == Some(c.payload)
  }

  ghost predicate IsTarget(c: Config, name: string)
    requires c.workers >= 1
  {
    exists i :: 0 <= i < c.events && name == FileName(Owner(c, i), i)
  }

  ghost predicate OthersKept(c: Config, s: State, found: map<string, string>)
    requires c.workers >= 1
  {
    forall name :: !IsTarget(c, name) ==> Get(s.files, name) == Get(found, name)
  }

  ghost predicate Inv(c: Config, found: map<string, string>, s: State) {
    && WorkersOk(c, s) && IndicesOk(c, s) && LoopsOk(c, s) && FilesOk(c, s) && OthersKept(c, s, found)
    && |s.log| == Done(c, s, c.events)
  }

  lemma {:induction false} NothingDone(c: Config, s: State, n: nat)
    requires c.workers == |s.workers| >= 1 && forall i :: 0 <= i < n ==> Progress(c, s, i) == 0
    ensures Done(c, s, n) == 0
  {
    if n > 0 {
      NothingDone(c, s, n - 1);
    }
  }

  lemma OwnerOfSmall(c: Config, w: nat)
    requires c.workers >= 1 && w < c.workers
    ensures Owner(c, w) == w
  {
    DivisionUnique(w, c.workers, 0, w);
  }

  lemma StartInv(c: Config, found: map<string, string>)
    requires ValidConfig(c)
    ensures Inv(c, found, Start(c, found))
  {
    var s := Start(c, found);
    forall w | 0 <= w < c.workers
      ensures WorkerOk(c, s.workers[w], w) && s.workers[w] == Worker(w, Ready) && LoopTrace(c, w) == []
    {
      OwnerOfSmall(c, w);
    }
    forall i | 0 <= i < c.events ensures Progress(c, s, i) == 0 {
      assert s.workers[Owner(c, i)] == Worker(Owner(c, i), Ready);
    }
    NothingDone(c, s, c.events);
  }

  /** One step advances one index by one operation. */
  lemma ProgressStep(c: Config, s: State, t: State, w: nat, i: nat)
    requires WorkersOk(c, s) && Step(c, s, t, w)
    ensures |t.workers| == c.workers
    ensures Progress(c, t, i) == Progress(c, s, i) + if i == s.workers[w].index then 1 else 0
  {
    var k := s.workers[w];
    assert WorkerOk(c, k, w);
    if Owner(c, i) == w && k.index < i {
      StrideNext(c, k.index, i);
    }
  }

  lemma WorkersStep(c: Config, s: State, t: State, w: nat)
    requires WorkersOk(c, s) && Step(c, s, t, w)
    ensures WorkersOk(c, t)
  {
    StrideOwner(c, s.workers[w].index);
    assert WorkerOk(c, s.workers[w], w);
    forall v | 0 <= v < c.workers ensures WorkerOk(c, t.workers[v], v) {
      assert WorkerOk(c, s.workers[v], v);
    }
  }

  /** The access a step makes is the next one of its index's body. */
  lemma AccessOfStep(c: Config, s: State, t: State, w: nat)
    requires WorkersOk(c, s) && FilesOk(c, s) && Step(c, s, t, w)
    ensures var k := s.workers[w];
            && Owner(c, k.index) == w && k.index < c.events
            && t.log == s.log + [BodyTrace(c, k.index)[Stage(k.phase)]]
            && Stage(k.phase) == Progress(c, s, k.index)
  {
    assert WorkerOk(c, s.workers[w], w);
  }

  lemma IndicesStep(c: Config, s: State, t: State, w: nat)
    requires WorkersOk(c, s) && WorkersOk(c, t) && FilesOk(c, s) && IndicesOk(c, s) && Step(c, s, t, w)
    ensures IndicesOk(c, t)
  {
    AccessOfStep(c, s, t, w);
    var k := s.workers[w];
    var a := BodyTrace(c, k.index)[Stage(k.phase)];
    forall i | 0 <= i < c.events
      ensures OfIndex(t.log, i) == BodyTrace(c, i)[..Progress(c, t, i)]
    {
      ProgressStep(c, s, t, w, i);
      LogNext(s.log, a, i, w);
    }
  }

  lemma LoopStep(c: Config, k: Worker, next: Worker, w: nat)
    requires c.workers >= 1
    requires if k.phase == Written then next == Worker(k.index + c.workers, Ready)
             else next.index == k.index && Stage(next.phase) == Stage(k.phase) + 1
    ensures LoopTrace(c, next.index) + BodyTrace(c, next.index)[..Stage(next.phase)]
         == LoopTrace(c, k.index) + BodyTrace(c, k.index)[..Stage(k.phase)] + [BodyTrace(c, k.index)[Stage(k.phase)]]
  {
  }

  lemma LoopsStep(c: Config, s: State, t: State, w: nat)
    requires WorkersOk(c, s) && WorkersOk(c, t) && FilesOk(c, s) && LoopsOk(c, s) && Step(c, s, t, w)
    ensures LoopsOk(c, t)
  {
    AccessOfStep(c, s, t, w);
    var k := s.workers[w];
    var a := BodyTrace(c, k.index)[Stage(k.phase)];
    LoopStep(c, k, t.workers[w], w);
    forall v | 0 <= v < c.workers
      ensures OfWorker(t.log, v)
           == LoopTrace(c, t.workers[v].index) + BodyTrace(c, t.workers[v].index)[..Stage(t.workers[v].phase)]
    {
      LogNext(s.log, a, 0, v);
    }
  }

  lemma FilesStep(c: Config, s: State, t: State, w: nat)
    requires WorkersOk(c, s) && WorkersOk(c, t) && FilesOk(c, s) && Step(c, s, t, w)
    ensures FilesOk(c, t)
  {
    var k := s.workers[w];
    assert WorkerOk(c, k, w);
    forall i | 0 <= i < c.events && Progress(c, t, i) >= 2
      ensures Get(t.files, FileName(Owner(c, i), i)) == Some(c.payload)
    {
      ProgressStep(c, s, t, w, i);
      if i != k.index && FileName(Owner(c, i), i) == FileName(w, k.index) {
        FileNameInjective(Owner(c, i), i, w, k.index);
      }
    }
  }

  lemma OthersStep(c: Config, found: map<string, string>, s: State, t: State, w: nat)
    requires WorkersOk(c, s) && OthersKept(c, s, found) && Step(c, s, t, w)
    ensures OthersKept(c, t, found)
  {
    var k := s.workers[w];
    assert WorkerOk(c, k, w);
    assert IsTarget(c, FileName(w, k.index));
  }

  lemma {:induction false} DoneStep(c: Config, s: State, t: State, w: nat, n: nat)
    requires WorkersOk(c, s) && Step(c, s, t, w) && |t.workers| == c.workers
    ensures Done(c, t, n) == Done(c, s, n) + if s.workers[w].index < n then 1 else 0
  {
    if n > 0 {
      DoneStep(c, s, t, w, n - 1);
      ProgressStep(c, s, t, w, n - 1);
    }
  }

  lemma StepKeepsInv(c: Config, found: map<string, string>, s: State, t: State, w: nat)
    requires Inv(c, found, s) && Step(c, s, t, w)
    ensures Inv(c, found, t)
  {
    WorkersStep(c, s, t, w);
    IndicesStep(c, s, t, w);
    LoopsStep(c, s, t, w);
    FilesStep(c, s, t, w);
    OthersStep(c, found, s, t, w);
    DoneStep(c, s, t, w, c.events);
  }

  lemma {:induction false} RunKeepsInv(c: Config, found: map<string, string>, run: seq<State>, i: nat)
    requires ValidConfig(c) && Run(c, found, run) && i < |run|
    ensures Inv(c, found, run[i]) && |run[i].log| == i
  {
    if i == 0 {
      StartInv(c, found);
    } else {
      RunKeepsInv(c, found, run, i - 1);
      assert Next(c, run[i - 1], run[i - 1 + 1]);
      var w :| Step(c, run[i - 1], run[i], w);
      StepKeepsInv(c, found, run[i - 1], run[i], w);
    }
  }

  // -------------------------------------------------------------- the main results

  lemma {:induction false} DoneAtMost(c: Config, s: State, n: nat)
    requires c.workers == |s.workers| >= 1
    ensures Done(c, s, n) <= 3 * n
    ensures Done(c, s, n) == 3 * n <==> forall i :: 0 <= i < n ==> Progress(c, s, i) == 3
  {
    if n > 0 {
      DoneAtMost(c, s, n - 1);
    }
  }

  lemma FinishedExact(c: Config, s: State)
    requires WorkersOk(c, s)
    ensures Finished(c, s) <==> forall i :: 0 <= i < c.events ==> Progress(c, s, i) == 3
  {
    if !Finished(c, s) {
      var w :| 0 <= w < |s.workers| && s.workers[w].index < c.events;
      assert WorkerOk(c, s.workers[w], w);
      assert Progress(c, s, s.workers[w].index) == Stage(s.workers[w].phase);
    }
  }

  ghost predicate CanGoOn(c: Config, s: State) {
    exists t :: Next(c, s, t)
  }

  /** Every run makes one access a step and never more than three for each event; it is finished
      exactly when it has made them all, and until then some worker can go on. */
  lemma RunProgress(c: Config, found: map<string, string>, run: seq<State>)
    requires ValidConfig(c) && Run(c, found, run)
    ensures |run| - 1 <= 3 * c.events
    ensures Finished(c, run[|run| - 1]) <==> |run| - 1 == 3 * c.events
    ensures Finished(c, run[|run| - 1]) <==> !CanGoOn(c, run[|run| - 1])
  {
    var s := run[|run| - 1];
    RunKeepsInv(c, found, run, |run| - 1);
    DoneAtMost(c, s, c.events);
    FinishedExact(c, s);
    if !Finished(c, s) {
      var w :| 0 <= w < |s.workers| && s.workers[w].index < c.events;
      var t := Advance(c, s, w);
      assert Next(c, s, t);
    }
  }

  ghost function Advance(c: Config, s: State, w: nat): (t: State)
    requires w < |s.workers| && s.workers[w].index < c.events
    ensures Step(c, s, t, w)
  {
    var k := s.workers[w];
    var file := FileName(w, k.index);
    match k.phase
    case Ready =>
      State(s.workers[w := Worker(k.index, Opened)], s.files[file := ""], s.log + [Access(w, k.index, Open)])
    case Opened =>
      State(s.workers[w := Worker(k.index, Written)], s.files[file := c.payload], s.log + [Access(w, k.index, Write)])
    case Written =>
      State(s.workers[w := Worker(k.index + c.workers, Ready)], s.files,
            s.log + [Access(w, k.index, Read(Get(s.files, file)))])
  }

  lemma {:induction false} EntryOfIndex(log: seq<Access>, p: nat)
    requires p < |log|
    ensures log[p] in OfIndex(log, log[p].index)
  {
    if p < |log| - 1 {
      EntryOfIndex(log[..|log| - 1], p);
    }
  }

  /** At every moment of every run, each access was for an index of the sweep, by the index's own
      worker, and whatever has been read back was the payload. */
  lemma ReadsSeePayload(c: Config, found: map<string, string>, run: seq<State>, i: nat, p: nat)
    requires ValidConfig(c) && Run(c, found, run) && i < |run|
    requires p < |run[i].log|
    ensures run[i].log[p].index < c.events
    ensures run[i].log[p].operation.Read? ==> run[i].log[p].operation.content == Some(c.payload)
    ensures run[i].log[p].worker == Owner(c, run[i].log[p].index)
  {
    RunKeepsInv(c, found, run, i);
    var a := run[i].log[p];
    EntryOfIndex(run[i].log, p);
    assert a in BodyTrace(c, a.index)[..Progress(c, run[i], a.index)];
  }

  /** The worker's accesses are those of its whole loop, which leaves off at its first index past the end. */
  ghost predicate LoopRun(c: Config, log: seq<Access>, w: nat)
    requires c.workers >= 1
  {
    exists end: nat | c.events <= end < c.events + c.workers ::
      Owner(c, end) == w && OfWorker(log, w) == LoopTrace(c, end)
  }

  lemma LoopFinished(c: Config, s: State, w: nat)
    requires WorkersOk(c, s) && LoopsOk(c, s) && Finished(c, s) && w < c.workers
    ensures LoopRun(c, s.log, w)
  {
    var k := s.workers[w];
    assert WorkerOk(c, k, w);
    assert OfWorker(s.log, w) == LoopTrace(c, k.index);
  }

  lemma IndicesFinished(c: Config, s: State)
    requires WorkersOk(c, s) && IndicesOk(c, s) && FilesOk(c, s) && Finished(c, s)
    ensures forall i :: 0 <= i < c.events ==> OfIndex(s.log, i) == BodyTrace(c, i)
    ensures forall i :: 0 <= i < c.events ==> Get(s.files, FileName(Owner(c, i), i)) == Some(c.payload)
  {
    FinishedExact(c, s);
    forall i | 0 <= i < c.events
      ensures OfIndex(s.log, i) == BodyTrace(c, i)
      ensures Get(s.files, FileName(Owner(c, i), i)) == Some(c.payload)
    {
      assert Progress(c, s, i) == 3;
    }
  }

  /** A finished sweep, under any interleaving: each index was opened, written and read back once,
      in that order, by its one worker, which read the payload; each worker did what its loop does;
      each target holds the payload; and no other file was touched. */
  lemma SweepFinished(c: Config, found: map<string, string>, run: seq<State>)
    requires ValidConfig(c) && Run(c, found, run) && Finished(c, run[|run| - 1])
    ensures var s := run[|run| - 1];
            && |s.log| == 3 * c.events
            && (forall i :: 0 <= i < c.events ==> OfIndex(s.log, i) == BodyTrace(c, i))
            && (forall w :: 0 <= w < c.workers ==> LoopRun(c, s.log, w))
            && (forall i :: 0 <= i < c.events ==> Get(s.files, FileName(Owner(c, i), i)) == Some(c.payload))
            && OthersKept(c, s, found)
  {
    RunKeepsInv(c, found, run, |run| - 1);
    RunProgress(c, found, run);
    var s := run[|run| - 1];
    IndicesFinished(c, s);
    forall w | 0 <= w < c.workers ensures LoopRun(c, s.log, w) {
      LoopFinished(c, s, w);
    }
  }

  /** No two indices share a file. */
  lemma TargetsDistinct(c: Config, i: nat, j: nat)
    requires ValidConfig(c) && FileName(Owner(c, i), i) == FileName(Owner(c, j), j)
    ensures i == j
  {
    FileNameInjective(Owner(c, i), i, Owner(c, j), j);
  }
}
