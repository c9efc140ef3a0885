/** The round-robin schedule as values: which inputs are queued, in which order
    they are served, and what every step keeps. */
module Schedule {
  import opened Sequences
  import opened Options
  import opened Sweep
  import opened Verdicts
  import S = Stream

  /** A queued input: how often it was served, its key, its admission number,
      and the indices it has left once started. */
  datatype Job = MakeJob(round: nat, key: S.Key, input: nat, left: Option<set<nat>>)

  // ----- the order of service -----

  predicate KeyLess(a: S.Key, b: S.Key)
  {
    a.outcomes < b.outcomes
    || (a.outcomes == b.outcomes && (a.signatures < b.signatures
    || (a.signatures == b.signatures && (a.edges < b.edges
    || (a.edges == b.edges && a.seqno < b.seqno)))))
  }

  /** Service round first, then the immutable key. */
  predicate Precedes(ra: nat, ka: S.Key, rb: nat, kb: S.Key) { ra < rb || (ra == rb && KeyLess(ka, kb)) }

  /** Different sequence numbers never tie, so the heap never has to compare
      two testcases. */
  lemma PrecedesIsTotal(ra: nat, ka: S.Key, rb: nat, kb: S.Key)
    requires ka.seqno != kb.seqno
    ensures Precedes(ra, ka, rb, kb) != Precedes(rb, kb, ra, ka)
  {
  }

  /** The keys of two admitted inputs order them as their rows are ordered. */
  lemma KeysMeanAhead(log: seq<S.Line>, r: S.Reader, i: nat, j: nat)
    requires S.Keyed(r, S.Scores(log)) && i < |r.admitted| && j < |r.admitted| && i != j
    ensures KeyLess(r.admitted[i].key, r.admitted[j].key) <==> S.Ahead(log, i, j)
  {
    var a, b := S.Scores(log)[i], S.Scores(log)[j];
    assert S.KeyOf(r.admitted[i].key, a) && S.KeyOf(r.admitted[j].key, b);
  }

  lemma PrecedesTransitive(ra: nat, ka: S.Key, rb: nat, kb: S.Key, rc: nat, kc: S.Key)
    requires Precedes(ra, ka, rb, kb) && Precedes(rb, kb, rc, kc)
    ensures Precedes(ra, ka, rc, kc)
  {
  }

  // ----- counting -----

  function Sum(s: seq<nat>): nat { if s == [] then 0 else s[|s| - 1] + Sum(s[..|s| - 1]) }

  lemma {:induction false} SumUpdate(s: seq<nat>, i: nat)
    requires i < |s|
    ensures Sum(s[i := s[i] + 1]) == Sum(s) + 1
    decreases |s|
  {
    var n := |s| - 1;
    if i < n {
      SumUpdate(s[..n], i);
      assert s[i := s[i] + 1][..n] == s[..n][i := s[i] + 1];
    } else {
      assert s[i := s[i] + 1][..n] == s[..n];
    }
  }

  lemma SumSnocZero(s: seq<nat>)
    ensures Sum(s + [0]) == Sum(s)
  {
    assert (s + [0])[..|s|] == s;
  }

  lemma {:induction false} SumBound(s: seq<nat>, n: nat)
    requires forall i :: 0 <= i < |s| ==> s[i] <= n
    ensures Sum(s) <= |s| * n
    decreases |s|
  {
    if s != [] { SumBound(s[..|s| - 1], n); }
  }

  function NeverStarted(jobs: seq<Job>): (n: nat)
    ensures n <= |jobs|
  {
    if jobs == [] then 0
    else NeverStarted(jobs[..|jobs| - 1]) + (if jobs[|jobs| - 1].left.None? then 1 else 0)
  }

  lemma NeverStartedSnoc(jobs: seq<Job>, j: Job)
    ensures NeverStarted(jobs + [j]) == NeverStarted(jobs) + (if j.left.None? then 1 else 0)
  {
    assert (jobs + [j])[..|jobs|] == jobs;
  }

  function Without<T>(jobs: seq<T>, k: nat): (r: seq<T>)
    requires k < |jobs|
    ensures |r| == |jobs| - 1
    ensures forall i :: 0 <= i < |r| ==> r[i] == jobs[if i < k then i else i + 1]
  {
    jobs[..k] + jobs[k + 1..]
  }

  lemma {:induction false} NeverStartedWithout(jobs: seq<Job>, k: nat)
    requires k < |jobs|
    ensures NeverStarted(jobs) == NeverStarted(Without(jobs, k)) + (if jobs[k].left.None? then 1 else 0)
    decreases |jobs|
  {
    var n := |jobs| - 1;
    if k == n {
      assert Without(jobs, k) == jobs[..n];
    } else {
      NeverStartedWithout(jobs[..n], k);
      assert Without(jobs, k) == Without(jobs[..n], k) + [jobs[n]];
      NeverStartedSnoc(Without(jobs[..n], k), jobs[n]);
    }
  }

  // ----- the queue -----

  /** `served` counts the turns each admitted input has had. */
  datatype Queue = MakeQueue(
    core: Core, reader: S.Reader, jobs: seq<Job>, served: seq<nat>,
    neverStarted: nat, resumable: nat, dispatched: nat, completed: nat)

  function LeftOf(lab: Lab, j: Job): set<nat>
  {
    if j.left.None? then UpTo(|lab.patches|) else j.left.value
  }

  /** A queued input knows exactly what it has left to test, and its turns plus
      what it has left never exceed the number of candidates. */
  ghost predicate JobOk(lab: Lab, core: Core, reader: S.Reader, served: seq<nat>, j: Job)
  {
    && j.input < |reader.admitted| && j.input < |served|
    && j.key == reader.admitted[j.input].key && served[j.input] == j.round
    && j.round + |LeftOf(lab, j)| <= |lab.patches|
    && JobInv(lab, core, j.input, LeftOf(lab, j))
  }

  ghost predicate AllOk(lab: Lab, core: Core, reader: S.Reader, served: seq<nat>, jobs: seq<Job>)
  {
    forall k :: 0 <= k < |jobs| ==> JobOk(lab, core, reader, served, jobs[k])
  }

  /** No input is queued twice, and a resumable sweep is never empty. */
  ghost predicate Proper(jobs: seq<Job>)
  {
    && (forall k :: 0 <= k < |jobs| && jobs[k].left.Some? ==> jobs[k].left.value != {})
    && (forall i, k :: 0 <= i < k < |jobs| ==> jobs[i].input != jobs[k].input)
  }

  ghost predicate Queued(jobs: seq<Job>, t: nat) { exists k :: 0 <= k < |jobs| && jobs[k].input == t }

  /** An admitted input that is neither queued nor in flight has tried every
      active candidate. */
  ghost predicate RestDone(lab: Lab, core: Core, m: nat, jobs: seq<Job>, flying: set<nat>)
  {
    forall t: nat :: t < m && t !in flying && !Queued(jobs, t) ==> JobInv(lab, core, t, {})
  }

  ghost predicate Known(lab: Lab, core: Core, m: nat)
  {
    Distinct(lab.patches) && CoreInv(lab, core, UpTo(m)) && Exact(lab, core)
  }

  ghost predicate ServedOk(lab: Lab, served: seq<nat>, m: nat)
  {
    |served| == m && forall t :: 0 <= t < m ==> served[t] <= |lab.patches|
  }

  /** Admitted = never started + resumable + completed + in flight. */
  ghost predicate Accounts(q: Queue, flying: nat)
  {
    && q.neverStarted == NeverStarted(q.jobs)
    && q.neverStarted + q.resumable == |q.jobs|
    && q.neverStarted + q.resumable + q.completed + flying == |q.reader.admitted|
    && q.dispatched + q.neverStarted == |q.reader.admitted|
  }

  /** The parts of what is always true of the queue. */
  datatype QueuePart = TheKeys | TheService | TheJobs | TheOrder | TheRest | TheBooks

  ghost predicate QueueHolds(part: QueuePart, lab: Lab, q: Queue, flying: set<nat>)
  {
    match part
    case TheKeys => S.KeysIncrease(q.reader)
    case TheService => ServedOk(lab, q.served, |q.reader.admitted|)
    case TheJobs => AllOk(lab, q.core, q.reader, q.served, q.jobs)
    case TheOrder => Proper(q.jobs)
    case TheRest => RestDone(lab, q.core, |q.reader.admitted|, q.jobs, flying)
    case TheBooks => Accounts(q, |flying|)
  }

  ghost predicate QueueBut(lab: Lab, q: Queue, flying: set<nat>)
  {
    forall part: QueuePart :: QueueHolds(part, lab, q, flying)
  }

  ghost predicate QueueInv(lab: Lab, q: Queue) { QueueBut(lab, q, {}) }

  lemma OpenQueue(lab: Lab, q: Queue, flying: set<nat>)
    ensures QueueBut(lab, q, flying) <==>
            && S.KeysIncrease(q.reader) && ServedOk(lab, q.served, |q.reader.admitted|)
            && AllOk(lab, q.core, q.reader, q.served, q.jobs) && Proper(q.jobs)
            && RestDone(lab, q.core, |q.reader.admitted|, q.jobs, flying) && Accounts(q, |flying|)
  {
    if QueueBut(lab, q, flying) {
      assert QueueHolds(TheKeys, lab, q, flying) && QueueHolds(TheService, lab, q, flying)
          && QueueHolds(TheJobs, lab, q, flying);
      assert QueueHolds(TheOrder, lab, q, flying) && QueueHolds(TheRest, lab, q, flying)
          && QueueHolds(TheBooks, lab, q, flying);
    }
  }

  // ----- structure of the queue -----

  lemma QueuedSnoc(jobs: seq<Job>, j: Job, t: nat)
    ensures Queued(jobs + [j], t) <==> Queued(jobs, t) || t == j.input
  {
    if Queued(jobs, t) {
      var k :| 0 <= k < |jobs| && jobs[k].input == t;
      assert (jobs + [j])[k].input == t;
    }
    assert (jobs + [j])[|jobs|] == j;
  }

  lemma QueuedWithout(jobs: seq<Job>, k: nat, t: nat)
    requires k < |jobs| && Proper(jobs)
    ensures Queued(Without(jobs, k), t) <==> Queued(jobs, t) && t != jobs[k].input
  {
    if Queued(jobs, t) && t != jobs[k].input {
      var i :| 0 <= i < |jobs| && jobs[i].input == t;
      assert Without(jobs, k)[if i < k then i else i - 1] == jobs[i];
    }
  }

  lemma ProperSnoc(jobs: seq<Job>, j: Job)
    requires Proper(jobs) && !Queued(jobs, j.input) && (j.left.Some? ==> j.left.value != {})
    ensures Proper(jobs + [j])
  {
  }

  lemma ProperWithout(jobs: seq<Job>, k: nat)
    requires Proper(jobs) && k < |jobs|
    ensures Proper(Without(jobs, k))
  {
  }

  lemma AllOkSnoc(lab: Lab, core: Core, reader: S.Reader, served: seq<nat>, jobs: seq<Job>, j: Job)
    requires AllOk(lab, core, reader, served, jobs) && JobOk(lab, core, reader, served, j)
    ensures AllOk(lab, core, reader, served, jobs + [j])
  {
  }

  // ----- admission -----

  function Enqueue(q: Queue, next: S.Reader): Queue
    requires |next.admitted| == |q.reader.admitted| + 1
  {
    var m := |q.reader.admitted|;
    q.(reader := next, jobs := q.jobs + [MakeJob(0, next.admitted[m].key, m, None)],
       served := q.served + [0], neverStarted := q.neverStarted + 1)
  }

  lemma CoreInvGrows(lab: Lab, c: Core, m: nat, n: nat)
    requires CoreInv(lab, c, UpTo(m)) && m <= n
    ensures CoreInv(lab, c, UpTo(n))
  {
    OpenCore(lab, c, UpTo(m));
    OpenCore(lab, c, UpTo(n));
  }

  /** An input nobody has worked on still has everything to test. */
  lemma FreshJob(lab: Lab, c: Core, m: nat, t: nat)
    requires CoreInv(lab, c, UpTo(m)) && t >= m
    ensures JobInv(lab, c, t, UpTo(|lab.patches|))
  {
    OpenCore(lab, c, UpTo(m));
    forall i | i in UpTo(|lab.patches|)
      ensures (t, lab.patches[i]) !in c.done
    {
      var d := (t, lab.patches[i]);
      assert d in c.done ==> d.0 in UpTo(m);
    }
  }

  lemma AllOkAdmits(lab: Lab, core: Core, reader: S.Reader, next: S.Reader, served: seq<nat>, jobs: seq<Job>)
    requires AllOk(lab, core, reader, served, jobs) && reader.admitted <= next.admitted
    ensures AllOk(lab, core, next, served + [0], jobs)
  {
    forall k | 0 <= k < |jobs|
      ensures JobOk(lab, core, next, served + [0], jobs[k])
    {
      assert JobOk(lab, core, reader, served, jobs[k]);
    }
  }

  lemma RestDoneAdmits(lab: Lab, core: Core, m: nat, jobs: seq<Job>, j: Job)
    requires RestDone(lab, core, m, jobs, {}) && j.input == m
    ensures RestDone(lab, core, m + 1, jobs + [j], {})
  {
    forall t: nat | t < m + 1 && !Queued(jobs + [j], t)
      ensures JobInv(lab, core, t, {})
    {
      QueuedSnoc(jobs, j, t);
    }
  }

  lemma EnqueueJobs(lab: Lab, q: Queue, next: S.Reader)
    requires JobInv(lab, q.core, |q.reader.admitted|, UpTo(|lab.patches|)) && |q.served| == |q.reader.admitted|
    requires AllOk(lab, q.core, q.reader, q.served, q.jobs) && Proper(q.jobs)
    requires |next.admitted| == |q.reader.admitted| + 1 && q.reader.admitted <= next.admitted
    ensures AllOk(lab, q.core, next, q.served + [0], Enqueue(q, next).jobs) && Proper(Enqueue(q, next).jobs)
  {
    var m := |q.reader.admitted|;
    var j := MakeJob(0, next.admitted[m].key, m, None);
    AllOkAdmits(lab, q.core, q.reader, next, q.served, q.jobs);
    AllOkSnoc(lab, q.core, next, q.served + [0], q.jobs, j);
    NotQueuedAbove(lab, q.core, q.reader, q.served, q.jobs);
    ProperSnoc(q.jobs, j);
  }

  lemma NotQueuedAbove(lab: Lab, core: Core, reader: S.Reader, served: seq<nat>, jobs: seq<Job>)
    requires AllOk(lab, core, reader, served, jobs)
    ensures !Queued(jobs, |reader.admitted|)
  {
  }

  /** Admitting a row keeps the queue's invariant. */
  lemma EnqueueKeeps(lab: Lab, q: Queue, next: S.Reader)
    requires QueueInv(lab, q) && S.KeysIncrease(next) && JobInv(lab, q.core, |q.reader.admitted|, UpTo(|lab.patches|))
    requires |next.admitted| == |q.reader.admitted| + 1 && q.reader.admitted <= next.admitted
    ensures QueueInv(lab, Enqueue(q, next)) && Sum(Enqueue(q, next).served) == Sum(q.served)
  {
    var m := |q.reader.admitted|;
    var j := MakeJob(0, next.admitted[m].key, m, None);
    OpenQueue(lab, q, {});
    OpenQueue(lab, Enqueue(q, next), {});
    EnqueueJobs(lab, q, next);
    RestDoneAdmits(lab, q.core, m, q.jobs, j);
    EnqueueAccounts(q, next);
    ServedSnoc(lab, q.served, m);
    SumSnocZero(q.served);
  }

  lemma EnqueueAccounts(q: Queue, next: S.Reader)
    requires Accounts(q, 0) && |next.admitted| == |q.reader.admitted| + 1
    ensures Accounts(Enqueue(q, next), 0)
  {
    NeverStartedSnoc(q.jobs, MakeJob(0, next.admitted[|q.reader.admitted|].key, |q.reader.admitted|, None));
  }

  lemma ServedSnoc(lab: Lab, served: seq<nat>, m: nat)
    requires ServedOk(lab, served, m)
    ensures ServedOk(lab, served + [0], m + 1)
  {
  }

  lemma AllOkReread(lab: Lab, core: Core, reader: S.Reader, next: S.Reader, served: seq<nat>, jobs: seq<Job>)
    requires AllOk(lab, core, reader, served, jobs) && next.admitted == reader.admitted
    ensures AllOk(lab, core, next, served, jobs)
  {
    forall k | 0 <= k < |jobs|
      ensures JobOk(lab, core, next, served, jobs[k])
    {
      assert JobOk(lab, core, reader, served, jobs[k]);
    }
  }

  /** A line that admits nothing changes nothing the queue depends on. */
  lemma RereadKeeps(lab: Lab, q: Queue, next: S.Reader)
    requires QueueInv(lab, q) && S.KeysIncrease(next) && next.admitted == q.reader.admitted
    ensures QueueInv(lab, q.(reader := next))
  {
    OpenQueue(lab, q, {});
    OpenQueue(lab, q.(reader := next), {});
    AllOkReread(lab, q.core, q.reader, next, q.served, q.jobs);
  }

  // ----- one turn -----

  /** Take job `k` off the queue: it is dispatched if new, resumed otherwise. */
  function Take(q: Queue, k: nat): Queue
    requires k < |q.jobs| && (if q.jobs[k].left.None? then q.neverStarted > 0 else q.resumable > 0)
  {
    var rest := q.(jobs := Without(q.jobs, k));
    if q.jobs[k].left.None? then rest.(neverStarted := q.neverStarted - 1, dispatched := q.dispatched + 1)
    else rest.(resumable := q.resumable - 1)
  }

  /** Job `j`, not queued, is being served; the rest of the queue is as it should be. */
  ghost predicate Flying(lab: Lab, q: Queue, j: Job)
  {
    && QueueBut(lab, q, {j.input})
    && JobOk(lab, q.core, q.reader, q.served, j) && !Queued(q.jobs, j.input)
  }

  lemma TakeCounts(q: Queue, k: nat)
    requires Accounts(q, 0) && k < |q.jobs|
    ensures if q.jobs[k].left.None? then q.neverStarted > 0 else q.resumable > 0
    ensures Accounts(Take(q, k), 1)
  {
    NeverStartedWithout(q.jobs, k);
  }

  lemma RestDoneTakes(lab: Lab, core: Core, m: nat, jobs: seq<Job>, k: nat)
    requires RestDone(lab, core, m, jobs, {}) && Proper(jobs) && k < |jobs|
    ensures RestDone(lab, core, m, Without(jobs, k), {jobs[k].input})
  {
    forall t: nat | t < m && t != jobs[k].input && !Queued(Without(jobs, k), t)
      ensures JobInv(lab, core, t, {})
    {
      QueuedWithout(jobs, k, t);
    }
  }

  lemma AllOkWithout(lab: Lab, core: Core, reader: S.Reader, served: seq<nat>, jobs: seq<Job>, k: nat)
    requires AllOk(lab, core, reader, served, jobs) && k < |jobs|
    ensures AllOk(lab, core, reader, served, Without(jobs, k))
  {
  }

  /** Taking a job leaves it, and only it, in flight. */
  lemma TakeKeeps(lab: Lab, q: Queue, k: nat)
    requires QueueInv(lab, q) && k < |q.jobs|
    ensures if q.jobs[k].left.None? then q.neverStarted > 0 else q.resumable > 0
    ensures Flying(lab, Take(q, k), q.jobs[k])
  {
    OpenQueue(lab, q, {});
    TakeCounts(q, k);
    OpenQueue(lab, Take(q, k), {q.jobs[k].input});
    RestDoneTakes(lab, q.core, |q.reader.admitted|, q.jobs, k);
    AllOkWithout(lab, q.core, q.reader, q.served, q.jobs, k);
    ProperWithout(q.jobs, k);
    QueuedWithout(q.jobs, k, q.jobs[k].input);
    assert JobOk(lab, q.core, q.reader, q.served, q.jobs[k]);
  }

  /** End the turn: the input is complete, or goes back one round later. */
  function Land(q: Queue, core: Core, j: Job, left: set<nat>): Queue
    requires j.input < |q.served|
  {
    var served := q.served[j.input := q.served[j.input] + 1];
    if core.active == {} || left == {} then
      q.(core := core, served := served, completed := q.completed + 1)
    else
      q.(core := core, served := served, resumable := q.resumable + 1,
         jobs := q.jobs + [Later(j, left)])
  }

  function Later(j: Job, left: set<nat>): Job { MakeJob(j.round + 1, j.key, j.input, Some(left)) }

  lemma SmallerLeft(a: set<nat>, b: set<nat>)
    requires a < b
    ensures |a| < |b|
  {
    assert b == a + (b - a) && b - a != {};
  }

  lemma OtherJobOk(lab: Lab, core: Core, core': Core, reader: S.Reader, served: seq<nat>, served': seq<nat>, t: nat,
                   j: Job)
    requires JobOk(lab, core, reader, served, j) && Advances(core, core', t) && j.input != t
    requires |served'| == |served| && served'[j.input] == served[j.input]
    ensures JobOk(lab, core', reader, served', j)
  {
    OtherJobKeeps(lab, core, core', t, j.input, LeftOf(lab, j));
  }

  lemma AllOkLands(lab: Lab, core: Core, core': Core, reader: S.Reader, served: seq<nat>, t: nat, jobs: seq<Job>)
    requires AllOk(lab, core, reader, served, jobs) && Advances(core, core', t) && !Queued(jobs, t) && t < |served|
    ensures AllOk(lab, core', reader, served[t := served[t] + 1], jobs)
  {
    forall k | 0 <= k < |jobs|
      ensures JobOk(lab, core', reader, served[t := served[t] + 1], jobs[k])
    {
      assert jobs[k].input != t;
      OtherJobOk(lab, core, core', reader, served, served[t := served[t] + 1], t, jobs[k]);
    }
  }

  lemma LaterOk(lab: Lab, core: Core, core': Core, reader: S.Reader, served: seq<nat>, j: Job, left: set<nat>)
    requires JobOk(lab, core, reader, served, j) && left < LeftOf(lab, j) && JobInv(lab, core', j.input, left)
    ensures JobOk(lab, core', reader, served[j.input := served[j.input] + 1], Later(j, left))
  {
    SmallerLeft(left, LeftOf(lab, j));
  }

  lemma RestDoneLands(lab: Lab, core: Core, core': Core, m: nat, jobs: seq<Job>, t: nat)
    requires RestDone(lab, core, m, jobs, {t}) && Advances(core, core', t)
    ensures RestDone(lab, core', m, jobs, {t})
  {
    forall u: nat | u < m && u != t && !Queued(jobs, u)
      ensures JobInv(lab, core', u, {})
    {
      OtherJobKeeps(lab, core, core', t, u, {});
    }
  }

  lemma RestDoneComplete(lab: Lab, core: Core, m: nat, jobs: seq<Job>, t: nat, left: set<nat>)
    requires RestDone(lab, core, m, jobs, {t}) && JobInv(lab, core, t, left) && (core.active == {} || left == {})
    ensures RestDone(lab, core, m, jobs, {})
  {
    assert JobInv(lab, core, t, {});
  }

  lemma RestDoneRequeued(lab: Lab, core: Core, m: nat, jobs: seq<Job>, j: Job)
    requires RestDone(lab, core, m, jobs, {j.input})
    ensures RestDone(lab, core, m, jobs + [j], {})
  {
    forall u: nat | u < m && !Queued(jobs + [j], u)
      ensures JobInv(lab, core, u, {})
    {
      QueuedSnoc(jobs, j, u);
    }
  }

  lemma LandFields(q: Queue, core: Core, j: Job, left: set<nat>)
    requires j.input < |q.served|
    ensures Land(q, core, j, left).core == core && Land(q, core, j, left).reader == q.reader
    ensures Land(q, core, j, left).served == q.served[j.input := q.served[j.input] + 1]
  {
  }

  lemma LandAccounts(q: Queue, core: Core, j: Job, left: set<nat>)
    requires Accounts(q, 1) && j.input < |q.served|
    ensures Accounts(Land(q, core, j, left), 0)
  {
    NeverStartedSnoc(q.jobs, Later(j, left));
  }

  lemma ServedLands(lab: Lab, served: seq<nat>, m: nat, core: Core, reader: S.Reader, j: Job, left: set<nat>)
    requires ServedOk(lab, served, m) && JobOk(lab, core, reader, served, j) && left < LeftOf(lab, j)
    ensures ServedOk(lab, served[j.input := served[j.input] + 1], m)
  {
    SmallerLeft(left, LeftOf(lab, j));
  }

  lemma LandJobs(lab: Lab, q: Queue, core: Core, j: Job, left: set<nat>)
    requires AllOk(lab, q.core, q.reader, q.served, q.jobs) && Proper(q.jobs)
    requires JobOk(lab, q.core, q.reader, q.served, j) && !Queued(q.jobs, j.input)
    requires RestDone(lab, q.core, |q.reader.admitted|, q.jobs, {j.input})
    requires Advances(q.core, core, j.input) && left < LeftOf(lab, j) && JobInv(lab, core, j.input, left)
    ensures var q' := Land(q, core, j, left);
            AllOk(lab, q'.core, q'.reader, q'.served, q'.jobs) && Proper(q'.jobs)
            && RestDone(lab, q'.core, |q'.reader.admitted|, q'.jobs, {})
  {
    var m, served := |q.reader.admitted|, q.served[j.input := q.served[j.input] + 1];
    AllOkLands(lab, q.core, core, q.reader, q.served, j.input, q.jobs);
    RestDoneLands(lab, q.core, core, m, q.jobs, j.input);
    if core.active == {} || left == {} {
      RestDoneComplete(lab, core, m, q.jobs, j.input, left);
    } else {
      LaterOk(lab, q.core, core, q.reader, q.served, j, left);
      AllOkSnoc(lab, core, q.reader, served, q.jobs, Later(j, left));
      ProperSnoc(q.jobs, Later(j, left));
      RestDoneRequeued(lab, core, m, q.jobs, Later(j, left));
    }
  }

  /** Landing restores the queue's invariant. */
  lemma LandKeeps(lab: Lab, q: Queue, core: Core, j: Job, left: set<nat>)
    requires Flying(lab, q, j)
    requires Advances(q.core, core, j.input) && left < LeftOf(lab, j) && JobInv(lab, core, j.input, left)
    ensures QueueInv(lab, Land(q, core, j, left))
  {
    OpenQueue(lab, q, {j.input});
    OpenQueue(lab, Land(q, core, j, left), {});
    LandFields(q, core, j, left);
    LandJobs(lab, q, core, j, left);
    LandAccounts(q, core, j, left);
    ServedLands(lab, q.served, |q.reader.admitted|, q.core, q.reader, j, left);
  }

  /** The turn is charged to its input alone, and counted once. */
  lemma LandCounts(q: Queue, core: Core, j: Job, left: set<nat>)
    requires j.input < |q.served|
    ensures forall t :: 0 <= t < |q.served| ==>
              |Land(q, core, j, left).served| == |q.served|
              && Land(q, core, j, left).served[t] == q.served[t] + (if t == j.input then 1 else 0)
    ensures Sum(Land(q, core, j, left).served) == Sum(q.served) + 1
  {
    LandFields(q, core, j, left);
    SumUpdate(q.served, j.input);
  }

  /** A finite stream drains: however the quanta are cut, the turns taken never
      exceed inputs times candidates. */
  lemma TurnsAreBounded(lab: Lab, q: Queue)
    requires QueueInv(lab, q)
    ensures Sum(q.served) <= |q.reader.admitted| * |lab.patches|
  {
    OpenQueue(lab, q, {});
    SumBound(q.served, |lab.patches|);
  }

  /** Once the queue is empty every admitted input is complete. */
  lemma EmptyQueueIsComplete(lab: Lab, q: Queue, t: nat)
    requires QueueInv(lab, q) && q.jobs == [] && t in UpTo(|q.reader.admitted|)
    ensures JobInv(lab, q.core, t, {}) && q.completed == |q.reader.admitted|
  {
    OpenQueue(lab, q, {});
    assert !Queued(q.jobs, t);
  }
}
