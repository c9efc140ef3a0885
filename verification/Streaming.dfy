/** The streaming round-robin run: ingest committed rows, serve the least
    (round, key) for one quantum, and stop with one verdict per candidate. */
module Streaming {
  import opened Sequences
  import opened Options
  import opened Sweep
  import opened Verdicts
  import opened Verifier
  import opened Journal
  import opened Schedule
  import opened RunJournal
  import S = Stream

  /** A heap entry: a queued input and its sweep once started. */
  datatype Entry = MakeEntry(round: nat, key: S.Key, input: nat, sweep: ConcreteInputSweep?)

  predicate Before(a: Entry, b: Entry) { Precedes(a.round, a.key, b.round, b.key) }

  /** The entry the heap pops. */
  function Least(heap: seq<Entry>): (k: nat)
    requires heap != []
    ensures k < |heap|
    decreases |heap|
  {
    var n := |heap| - 1;
    if n == 0 then 0
    else
      var k := Least(heap[..n]);
      if Before(heap[n], heap[k]) then n else k
  }

  /** With different sequence numbers it is strictly before every other. */
  lemma {:induction false} LeastIsFirst(heap: seq<Entry>, i: nat)
    requires heap != [] && i < |heap| && i != Least(heap)
    requires forall i, j :: 0 <= i < j < |heap| ==> heap[i].key.seqno != heap[j].key.seqno
    ensures Before(heap[Least(heap)], heap[i])
    decreases |heap|
  {
    var n := |heap| - 1;
    var k := Least(heap[..n]);
    PrecedesIsTotal(heap[n].round, heap[n].key, heap[k].round, heap[k].key);
    if i < n && i != k {
      LeastIsFirst(heap[..n], i);
      if Before(heap[n], heap[k]) {
        PrecedesTransitive(heap[n].round, heap[n].key, heap[k].round, heap[k].key, heap[i].round, heap[i].key);
      }
    }
  }

  /** Queued inputs carry different sequence numbers. */
  lemma QueuedKeysDiffer(lab: Lab, q: Queue, i: nat, k: nat)
    requires QueueInv(lab, q) && i < k < |q.jobs|
    ensures q.jobs[i].key.seqno != q.jobs[k].key.seqno
  {
    OpenQueue(lab, q, {});
    assert JobOk(lab, q.core, q.reader, q.served, q.jobs[i]) && JobOk(lab, q.core, q.reader, q.served, q.jobs[k]);
    assert q.jobs[i].input != q.jobs[k].input;
  }

  /** The memory of a sweep matches what the schedule says is left. */
  ghost predicate Represents(e: Entry, j: Job)
    reads if e.sweep == null then {} else {e.sweep as object, e.sweep.bits}
  {
    && e.round == j.round && e.key == j.key && e.input == j.input
    && (e.sweep == null <==> j.left.None?)
    && (e.sweep != null ==> e.sweep.Valid() && e.sweep.pending == j.left.value)
  }

  /** No two entries share sweep memory. */
  ghost predicate Separate(heap: seq<Entry>)
  {
    forall j, k :: 0 <= j < k < |heap| && heap[j].sweep != null && heap[k].sweep != null ==>
      heap[j].sweep != heap[k].sweep && heap[j].sweep.bits != heap[k].sweep.bits
  }

  ghost predicate Apart(heap: seq<Entry>, sweep: ConcreteInputSweep)
  {
    forall k :: 0 <= k < |heap| && heap[k].sweep != null ==> heap[k].sweep != sweep && heap[k].sweep.bits != sweep.bits
  }

  ghost function Objects(heap: seq<Entry>): set<object>
  {
    (set k | 0 <= k < |heap| && heap[k].sweep != null :: heap[k].sweep as object)
    + (set k | 0 <= k < |heap| && heap[k].sweep != null :: heap[k].sweep.bits as object)
  }

  lemma NullSnoc(heap: seq<Entry>, e: Entry)
    requires e.sweep == null
    ensures Objects(heap + [e]) == Objects(heap)
    ensures Separate(heap) ==> Separate(heap + [e])
  {
    var longer := heap + [e];
    assert forall k :: 0 <= k < |heap| ==> longer[k] == heap[k];
    forall o | o in Objects(heap)
      ensures o in Objects(longer)
    {
      var k :| 0 <= k < |heap| && heap[k].sweep != null && (o == heap[k].sweep || o == heap[k].sweep.bits);
      assert longer[k].sweep != null;
    }
  }

  datatype Progress = Wait | LookAgain | Serve | Stop(reason: S.StopReason) | Fail(error: S.Error)

  /** The parts of a run's invariant. */
  datatype Part = TheMemory | TheKnowledge | TheQueue | TheJournal | TheReader | TheTurns

  /** An entry of the heap, strictly before every other one. */
  ghost predicate First(heap: seq<Entry>, e: Entry)
  {
    e in heap && forall i :: 0 <= i < |heap| && heap[i] != e ==> Before(e, heap[i])
  }

  /** Of the queued inputs, `t` was served least often, and its row goes before
      those of the others that were served as often. */
  ghost predicate Foremost(read: seq<S.Line>, served: seq<nat>, heap: seq<Entry>, t: nat)
  {
    && t < |served| == |S.Scores(read)| && (exists k :: 0 <= k < |heap| && heap[k].input == t)
    && forall k :: 0 <= k < |heap| && heap[k].input != t ==>
        var u := heap[k].input;
        u < |served| && (served[t] < served[u] || (served[t] == served[u] && S.Ahead(read, t, u)))
  }

  /** An entry waits at the round its input has been served, with its row's key. */
  predicate OnSchedule(r: S.Reader, served: seq<nat>, e: Entry)
  {
    e.input < |r.admitted| == |served| && e.round == served[e.input] && e.key == r.admitted[e.input].key
  }

  lemma FirstIsForemost(r: S.Reader, read: seq<S.Line>, served: seq<nat>, heap: seq<Entry>, least: nat)
    requires S.Keyed(r, S.Scores(read)) && least < |heap| && First(heap, heap[least])
    requires forall k :: 0 <= k < |heap| ==> OnSchedule(r, served, heap[k])
    ensures Foremost(read, served, heap, heap[least].input)
  {
    var t := heap[least].input;
    forall k | 0 <= k < |heap| && heap[k].input != t
      ensures served[t] < served[heap[k].input] ||
              (served[t] == served[heap[k].input] && S.Ahead(read, t, heap[k].input))
    {
      assert Before(heap[least], heap[k]) && OnSchedule(r, served, heap[least]);
      KeysMeanAhead(read, r, t, heap[k].input);
    }
  }

  class StreamingRun {
    const verifier: ConcreteVerifier
    const cfg: S.Config
    var reader: S.Reader
    var heap: seq<Entry>
    var neverStarted: nat
    var resumable: nat
    var dispatched: nat
    var completed: nat
    var inflight: bool
    var journal: seq<seq<Note>>  // per admitted input
    ghost var jobs: seq<Job>
    ghost var served: seq<nat>
    ghost var turns: nat
    ghost var read: seq<S.Line>  // every line ingested
    ghost var owned: set<object>  // every sweep and bitset this run allocated

    ghost function AsQueue(): Queue
      reads this, verifier
    {
      MakeQueue(verifier.Knowledge(), reader, jobs, served, neverStarted, resumable, dispatched, completed)
    }

    ghost predicate Memory()
      reads this, Objects(heap)
    {
      && |heap| == |jobs| && Separate(heap) && Objects(heap) <= owned
      && (forall k :: 0 <= k < |heap| ==> Represents(heap[k], jobs[k]))
    }

    ghost predicate Informed()
      reads this, verifier
    {
      Sound(verifier.lab) && verifier.Consistent(UpTo(|reader.admitted|))
    }

    /** The journal is what the verifier knows, a page for every admitted input. */
    ghost predicate Journaled()
      reads this, verifier
    {
      |journal| == |reader.admitted| && KeptBut(verifier.lab, verifier.Knowledge(), journal, jobs, {})
    }

    /** The reader is what ingesting the lines read so far gives. */
    ghost predicate UpToDate()
      reads this
    {
      S.IngestAll(cfg, S.START, read) == S.Ok(reader)
    }

    ghost predicate Keeps(part: Part)
      reads this, verifier, Objects(heap)
    {
      match part
      case TheMemory => Memory()
      case TheKnowledge => Informed()
      case TheQueue => QueueInv(verifier.lab, AsQueue())
      case TheJournal => Journaled()
      case TheReader => UpToDate()
      case TheTurns => !inflight && turns == Sum(served)
    }

    ghost predicate Valid()
      reads this, verifier, Objects(heap)
    {
      forall part: Part :: Keeps(part)
    }

    lemma Open()
      requires Valid()
      ensures Memory() && Informed() && QueueInv(verifier.lab, AsQueue()) && Journaled() && UpToDate()
      ensures !inflight && turns == Sum(served) && S.KeysIncrease(reader) && Accounts(AsQueue(), 0)
      ensures CutShort(verifier.lab, verifier.Knowledge(), journal)
    {
      OpenKept(verifier.lab, verifier.Knowledge(), journal, jobs, {});
      OpenQueue(verifier.lab, AsQueue(), {});
      assert Keeps(TheMemory) && Keeps(TheKnowledge) && Keeps(TheQueue) && Keeps(TheJournal) && Keeps(TheReader)
          && Keeps(TheTurns);
    }

    lemma Close()
      requires Memory() && Informed() && QueueInv(verifier.lab, AsQueue()) && Journaled() && UpToDate()
      requires !inflight && turns == Sum(served)
      ensures Valid()
    {
    }

    constructor (verifier: ConcreteVerifier, cfg: S.Config)
      requires Sound(verifier.lab) && verifier.Consistent({})
      requires verifier.done == {} && verifier.blind == {} && verifier.lost == {}
      ensures Valid() && this.verifier == verifier && this.cfg == cfg
      ensures reader == S.START && heap == [] && owned == {} && turns == 0 && read == []
    {
      this.verifier := verifier;
      this.cfg := cfg;
      reader := S.START;
      heap, jobs := [], [];
      neverStarted, resumable, dispatched, completed, inflight := 0, 0, 0, 0, false;
      served, owned, turns, journal, read := [], {}, 0, [], [];
      new;
      assert UpTo(0) == {};
      KeptNothing(verifier.lab, verifier.Knowledge());
    }

    // ----- ingestion -----

    method IngestLine(line: S.Line) returns (error: Option<S.Error>)
      requires Valid()
      modifies this
      ensures Valid() && owned == old(owned) && turns == old(turns)
      ensures error.None? ==> read == old(read) + [line]
      ensures error.Some? ==> read == old(read) && S.IngestAll(cfg, S.START, old(read) + [line]) == S.Err(error.value)
    {
      Open();
      S.IngestAppend(cfg, read, line);
      var next := S.Ingest(cfg, reader, line);
      if next.Err? { return Some(next.error); }
      S.IngestKeepsKeys(cfg, reader, line);
      S.IngestAdmits(cfg, reader, line);
      if |next.value.admitted| > |reader.admitted| {
        Push(next.value, line);
      } else {
        Skim(next.value, line);
      }
      return None;
    }

    /** A line that admits nothing. */
    method Skim(next: S.Reader, ghost line: S.Line)
      requires Valid() && S.KeysIncrease(next) && next.admitted == reader.admitted
      requires S.IngestAll(cfg, S.START, read + [line]) == S.Ok(next)
      modifies this`reader, this`read
      ensures Valid() && reader == next && read == old(read) + [line]
    {
      Open();
      RereadKeeps(verifier.lab, AsQueue(), next);
      SetReader(next, line);
      Close();
    }

    method SetReader(next: S.Reader, ghost line: S.Line)
      requires Memory()
      modifies this`reader, this`read
      ensures Memory() && reader == next && AsQueue() == old(AsQueue()).(reader := next) && read == old(read) + [line]
    {
      reader := next;
      read := read + [line];
    }

    /** Append an entry and its job. */
    method Append(e: Entry, ghost j: Job)
      requires Memory() && Represents(e, j)
      requires e.sweep != null ==> Apart(heap, e.sweep) && {e.sweep, e.sweep.bits} <= owned
      modifies this`heap, this`jobs
      ensures Memory() && heap == old(heap) + [e] && jobs == old(jobs) + [j]
    {
      if e.sweep == null { NullSnoc(heap, e); } else { SweepSnoc(heap, e); }
      heap, jobs := heap + [e], jobs + [j];
    }

    /** Count the input a row just admitted. */
    method Admit(next: S.Reader, ghost line: S.Line)
      requires Memory()
      modifies this`neverStarted, this`journal, this`reader, this`served, this`read
      ensures Memory() && neverStarted == old(neverStarted) + 1 && reader == next && served == old(served) + [0]
      ensures journal == old(journal) + [[]] && read == old(read) + [line]
    {
      neverStarted, journal, reader, served, read := neverStarted + 1, journal + [[]], next, served + [0],
        read + [line];
    }

    /** Append the entry of the input a row just admitted, at round zero. */
    method PushEntry(next: S.Reader, ghost line: S.Line)
      requires Memory() && |next.admitted| == |reader.admitted| + 1
      modifies this
      ensures Memory() && owned == old(owned) && AsQueue() == Enqueue(old(AsQueue()), next)
      ensures journal == old(journal) + [[]] && inflight == old(inflight) && turns == old(turns)
              && read == old(read) + [line]
    {
      var m := |reader.admitted|;
      Admit(next, line);
      Append(MakeEntry(0, next.admitted[m].key, m, null), MakeJob(0, next.admitted[m].key, m, None));
    }

    method Push(next: S.Reader, ghost line: S.Line)
      requires Valid() && S.KeysIncrease(next) && S.IngestAll(cfg, S.START, read + [line]) == S.Ok(next)
      requires |next.admitted| == |reader.admitted| + 1 && reader.admitted <= next.admitted
      modifies this
      ensures Valid() && reader == next && owned == old(owned) && turns == old(turns) && read == old(read) + [line]
    {
      Open();
      ghost var m, q := |reader.admitted|, AsQueue();
      FreshJob(verifier.lab, verifier.Knowledge(), m, m);
      CoreInvGrows(verifier.lab, verifier.Knowledge(), m, m + 1);
      EnqueueKeeps(verifier.lab, q, next);
      KeptAdmits(verifier.lab, verifier.Knowledge(), journal, jobs, MakeJob(0, next.admitted[m].key, m, None));
      PushEntry(next, line);
      assert AsQueue() == Enqueue(q, next);
      Close();
    }

    // ----- one turn -----

    /** Take entry `k` off the heap and start its sweep if it has none. */
    method TakeEntry(k: nat) returns (e: Entry, sweep: ConcreteInputSweep)
      requires Memory() && k < |heap|
      requires if jobs[k].left.None? then neverStarted > 0 else resumable > 0
      modifies this
      ensures Memory() && AsQueue() == Take(old(AsQueue()), k) && e == old(heap[k])
      ensures sweep.Valid() && sweep.pending == LeftOf(verifier.lab, old(jobs[k])) && Apart(heap, sweep)
      ensures {sweep, sweep.bits} <= owned && fresh(owned - old(owned))
      ensures inflight && journal == old(journal) && turns == old(turns) && read == old(read)
    {
      e := heap[k];
      assert Represents(e, jobs[k]);
      RemoveEntry(k);
      sweep := SweepOf(e.sweep);
    }

    /** The given sweep, or a new one over all candidates. */
    method SweepOf(before: ConcreteInputSweep?) returns (sweep: ConcreteInputSweep)
      requires Memory() && Freed(before) && (before != null ==> before.Valid())
      modifies this`owned
      ensures Memory() && sweep.Valid() && Apart(heap, sweep) && {sweep, sweep.bits} <= owned
              && fresh(owned - old(owned))
      ensures sweep.pending == if before == null then UpTo(|verifier.lab.patches|) else before.pending
    {
      if before != null { return before; }
      sweep := new ConcreteInputSweep(|verifier.lab.patches|);
      owned := owned + {sweep, sweep.bits};
    }

    method RemoveEntry(k: nat)
      requires Memory() && k < |heap|
      requires if jobs[k].left.None? then neverStarted > 0 else resumable > 0
      modifies this
      ensures Memory() && AsQueue() == Take(old(AsQueue()), k) && owned == old(owned)
      ensures inflight && journal == old(journal) && turns == old(turns) && read == old(read)
      ensures Freed(old(heap[k]).sweep)
    {
      assert Represents(heap[k], jobs[k]);
      Depart(heap[k].sweep == null);
      Drop(k);
    }

    /** Count an input as dispatched or resumed. */
    method Depart(first: bool)
      requires Memory() && (if first then neverStarted > 0 else resumable > 0)
      modifies this`dispatched, this`neverStarted, this`resumable, this`inflight
      ensures Memory() && inflight && dispatched == old(dispatched) + (if first then 1 else 0)
      ensures neverStarted == old(neverStarted) - (if first then 1 else 0)
              && resumable == old(resumable) - (if first then 0 else 1)
    {
      inflight := true;
      if first {
        dispatched, neverStarted := dispatched + 1, neverStarted - 1;
      } else {
        resumable := resumable - 1;
      }
    }

    /** A sweep this run owns that no entry holds any more. */
    ghost predicate Freed(sweep: ConcreteInputSweep?)
      reads this
    {
      sweep != null ==> Apart(heap, sweep) && sweep in owned && sweep.bits in owned
    }

    method Drop(k: nat)
      requires Memory() && k < |heap|
      modifies this`heap, this`jobs
      ensures Memory() && heap == Without(old(heap), k) && jobs == Without(old(jobs), k)
      ensures Freed(old(heap[k]).sweep)
    {
      ObjectsWithout(heap, k);
      heap, jobs := Without(heap, k), Without(jobs, k);
    }

    /** Run the quantum: the other sweeps are not touched. */
    method RunQuantum(t: nat, sweep: ConcreteInputSweep, ghost admitted: set<nat>)
      returns (timedOut: bool, notes: seq<Note>)
      requires Memory() && Apart(heap, sweep) && verifier.Ready(t, sweep, admitted) && sweep.remaining > 0
      modifies verifier, sweep, sweep.bits
      ensures Memory() && sweep.Valid() && verifier.Consistent(admitted)
      ensures AsQueue() == old(AsQueue()).(core := verifier.Knowledge())
      ensures Advances(old(verifier.Knowledge()), verifier.Knowledge(), t)
      ensures sweep.pending <= old(sweep.pending)
      ensures verifier.Tells(old(verifier.Knowledge()), t, notes, old(sweep.pending) - sweep.pending, timedOut)
      ensures timedOut ==> verifier.lab.deadline
      ensures !timedOut ==>
              JobInv(verifier.lab, verifier.Knowledge(), t, sweep.pending) && sweep.pending < old(sweep.pending)
    {
      ApartObjects(heap, sweep);
      timedOut, notes := verifier.Quantum(t, sweep, admitted);
    }

    /** The journal at knowledge `c` while input `t`, off the queue, still has
        `left` to try. */
    ghost predicate JournaledBut(c: Core, t: nat, left: set<nat>)
      reads this
    {
      && |journal| == |reader.admitted| && KeptBut(verifier.lab, c, journal, jobs, {t})
      && PageOf(verifier.lab, journal, t, left)
    }

    /** Append what was noted about input `t` since the verifier knew `before`. */
    method Write(t: nat, notes: seq<Note>, ghost left: set<nat>, ghost after: set<nat>, ghost before: Core,
                 ghost cut: bool)
      requires Memory() && JournaledBut(before, t, left) && !Queued(jobs, t)
      requires Distinct(verifier.lab.patches) && after <= left <= UpTo(|verifier.lab.patches|)
      requires verifier.Tells(before, t, notes, left - after, cut) && verifier.active <= before.active
      modifies this`journal
      ensures Memory() && |journal| == |reader.admitted|
      ensures if cut then CutShort(verifier.lab, verifier.Knowledge(), journal)
              else JournaledBut(verifier.Knowledge(), t, after)
    {
      KeptWrites(verifier.lab, before, verifier.Knowledge(), journal, jobs, t, notes, left, after, cut);
      journal := journal[t := journal[t] + notes];
    }

    /** Run the quantum of the input in flight and write down what it did. */
    method RunAndNote(t: nat, sweep: ConcreteInputSweep, ghost admitted: set<nat>) returns (timedOut: bool)
      requires Memory() && Apart(heap, sweep) && verifier.Ready(t, sweep, admitted) && sweep.remaining > 0
      requires JournaledBut(verifier.Knowledge(), t, sweep.pending) && !Queued(jobs, t)
      requires sweep.pending <= UpTo(|verifier.lab.patches|)
      modifies this`journal, verifier, sweep, sweep.bits
      ensures Memory() && sweep.Valid() && verifier.Consistent(admitted) && |journal| == |reader.admitted|
      ensures AsQueue() == old(AsQueue()).(core := verifier.Knowledge())
      ensures Advances(old(verifier.Knowledge()), verifier.Knowledge(), t)
      ensures if timedOut then verifier.lab.deadline && CutShort(verifier.lab, verifier.Knowledge(), journal)
              else JournaledBut(verifier.Knowledge(), t, sweep.pending) && sweep.pending < old(sweep.pending)
                   && JobInv(verifier.lab, verifier.Knowledge(), t, sweep.pending)
    {
      ghost var left, before := sweep.pending, verifier.Knowledge();
      var notes;
      timedOut, notes := RunQuantum(t, sweep, admitted);
      Write(t, notes, left, sweep.pending, before, timedOut);
    }

    /** Once every candidate is rejected, what the input has left is skipped. */
    method SkipRest(t: nat, sweep: ConcreteInputSweep)
      requires Memory() && JournaledBut(verifier.Knowledge(), t, sweep.pending) && !Queued(jobs, t) && sweep.Valid()
      requires Distinct(verifier.lab.patches) && sweep.pending <= UpTo(|verifier.lab.patches|) && verifier.active == {}
      modifies this`journal
      ensures Memory() && JournaledBut(verifier.Knowledge(), t, {})
    {
      var indices := sweep.PendingIndices();
      var rest := set i | i in indices;
      assert rest == sweep.pending && sweep.pending - {} == sweep.pending;
      NotedSkip(verifier.lab, verifier.Knowledge(), t, rest);
      Write(t, [Skip(Named(verifier.lab.patches, rest), GlobalReject)], sweep.pending, {}, verifier.Knowledge(), false);
    }

    /** Count the turn, and the input as complete or resumable. */
    method EndFlight(t: nat, over: bool)
      requires Memory() && t < |served|
      modifies this`inflight, this`turns, this`served, this`completed, this`resumable
      ensures Memory() && !inflight && turns == old(turns) + 1 && served == old(served)[t := old(served)[t] + 1]
      ensures completed == old(completed) + (if over then 1 else 0)
              && resumable == old(resumable) + (if over then 0 else 1)
    {
      inflight, turns, served := false, turns + 1, served[t := served[t] + 1];
      if over { completed := completed + 1; } else { resumable := resumable + 1; }
    }

    /** Put a sweep back one round later, or count its input complete. */
    method PutEntry(e: Entry, sweep: ConcreteInputSweep, ghost q: Queue, ghost j: Job)
      requires Memory() && Apart(heap, sweep) && sweep.Valid() && e.input < |served|
      requires AsQueue() == q.(core := verifier.Knowledge())
      requires e.round == j.round && e.key == j.key && e.input == j.input && {sweep, sweep.bits} <= owned
      modifies this
      ensures Memory() && AsQueue() == Land(q, verifier.Knowledge(), j, sweep.pending) && owned == old(owned)
      ensures !inflight && journal == old(journal) && turns == old(turns) + 1 && read == old(read)
      ensures served == q.served[e.input := q.served[e.input] + 1]
    {
      var over := verifier.active == {} || sweep.remaining == 0;
      assert sweep.remaining == 0 ==> sweep.pending == {};
      EndFlight(e.input, over);
      if !over {
        Append(MakeEntry(e.round + 1, e.key, e.input, sweep),
               MakeJob(e.round + 1, e.key, e.input, Some(sweep.pending)));
      }
    }

    /** Taking the least queued input will leave it, and only it, in flight. */
    lemma TakeLeast()
      requires Valid() && heap != [] && |jobs| == |heap| && verifier.active != {}
      ensures var k := Least(heap);
              && (if jobs[k].left.None? then neverStarted > 0 else resumable > 0)
              && Flying(verifier.lab, Take(AsQueue(), k), jobs[k]) && LeftOf(verifier.lab, jobs[k]) != {}
    {
      Open();
      TakeKeeps(verifier.lab, AsQueue(), Least(heap));
      PendingNotEmpty(verifier.lab, AsQueue(), UpTo(|reader.admitted|), Least(heap));
    }

    /** Every turn serves the strictly least (round, key). */
    lemma LeastIsServed()
      requires Valid() && heap != []
      ensures First(heap, heap[Least(heap)])
    {
      Open();
      KeysOfHeap();
      forall i | 0 <= i < |heap| && i != Least(heap)
        ensures Before(heap[Least(heap)], heap[i])
      {
        LeastIsFirst(heap, i);
      }
    }

    /** Put it back, restoring the invariant and counting the turn. */
    method EndTurn(e: Entry, sweep: ConcreteInputSweep, ghost q: Queue, ghost j: Job)
      requires Memory() && Informed() && Apart(heap, sweep) && sweep.Valid() && {sweep, sweep.bits} <= owned
      requires AsQueue() == q.(core := verifier.Knowledge()) && Flying(verifier.lab, q, j)
      requires e.round == j.round && e.key == j.key && e.input == j.input
      requires Advances(q.core, verifier.Knowledge(), j.input) && sweep.pending < LeftOf(verifier.lab, j)
      requires JobInv(verifier.lab, verifier.Knowledge(), j.input, sweep.pending)
      requires JournaledBut(verifier.Knowledge(), e.input, sweep.pending) && turns == Sum(q.served) && UpToDate()
      modifies this
      ensures Valid() && read == old(read) && reader == old(reader) && owned == old(owned) && turns == old(turns) + 1
      ensures e.input < |q.served| && served == q.served[e.input := q.served[e.input] + 1]
    {
      FlyingReady(verifier.lab, q, j);
      if verifier.active == {} && sweep.remaining > 0 { SkipRest(e.input, sweep); }
      LandKeeps(verifier.lab, q, verifier.Knowledge(), j, sweep.pending);
      LandCounts(q, verifier.Knowledge(), j, sweep.pending);
      LandFields(q, verifier.Knowledge(), j, sweep.pending);
      KeptLands(verifier.lab, q, verifier.Knowledge(), journal, j, sweep.pending);
      PutEntry(e, sweep, q, j);
      Close();
    }

    /** Serve entry `k` for one quantum; exactly one turn is counted, for it.  A
        turn the deadline cuts leaves its input in flight. */
    method ServeEntry(k: nat) returns (timedOut: bool, e: Entry)
      requires Memory() && Informed() && k < |heap| && Journaled() && turns == Sum(served) && UpToDate() && Proper(jobs)
      requires if jobs[k].left.None? then neverStarted > 0 else resumable > 0
      requires Flying(verifier.lab, Take(AsQueue(), k), jobs[k]) && LeftOf(verifier.lab, jobs[k]) != {}
      modifies this, verifier, owned
      ensures reader == old(reader) && Informed() && fresh(owned - old(owned)) && e == old(heap[k])
      ensures read == old(read) && UpToDate() && if timedOut then Cut() else Counted(old(turns), old(served), e.input)
      ensures Advances(old(verifier.Knowledge()), verifier.Knowledge(), e.input)
    {
      ghost var j, q := jobs[k], Take(AsQueue(), k);
      assert Represents(heap[k], j);
      KeptTakes(verifier.lab, verifier.Knowledge(), journal, jobs, k);
      var sweep;
      e, sweep := TakeEntry(k);
      timedOut := Fly(e, sweep, q, j);
    }

    /** The quantum of an entry taken off the heap. */
    method Fly(e: Entry, sweep: ConcreteInputSweep, ghost q: Queue, ghost j: Job) returns (timedOut: bool)
      requires Memory() && Informed() && UpToDate() && inflight && Apart(heap, sweep) && sweep.Valid()
               && {sweep, sweep.bits} <= owned
      requires AsQueue() == q && Flying(verifier.lab, q, j) && e.round == j.round && e.key == j.key
               && e.input == j.input
      requires sweep.pending == LeftOf(verifier.lab, j) && sweep.pending != {}
      requires JournaledBut(verifier.Knowledge(), e.input, sweep.pending) && turns == Sum(q.served)
      modifies this, verifier, sweep, sweep.bits
      ensures reader == old(reader) && Informed() && owned == old(owned)
      ensures read == old(read) && UpToDate()
              && if timedOut then Cut() else Counted(old(turns), q.served, e.input)
      ensures Advances(old(verifier.Knowledge()), verifier.Knowledge(), e.input)
    {
      FlyingReady(verifier.lab, q, j);
      timedOut := RunAndNote(e.input, sweep, UpTo(|reader.admitted|));
      if timedOut {
        FlyingBooks(verifier.lab, q, verifier.Knowledge(), j);
        return;
      }
      EndTurn(e, sweep, q, j);
    }

    /** A turn was cut: one input is in flight and the books still balance. */
    ghost predicate Cut()
      reads this, verifier
    {
      && verifier.lab.deadline && inflight && Accounts(AsQueue(), 1)
      && |journal| == |reader.admitted| && CutShort(verifier.lab, verifier.Knowledge(), journal)
    }

    /** One more turn was taken, for input `t` alone. */
    ghost predicate Counted(before: nat, turnsOf: seq<nat>, t: nat)
      reads this, verifier, Objects(heap)
    {
      Valid() && turns == before + 1 && t < |turnsOf| && served == turnsOf[t := turnsOf[t] + 1]
    }

    /** The least entry's input is the foremost by its row. */
    lemma LeastIsForemost()
      requires Valid() && heap != []
      ensures Foremost(read, served, heap, heap[Least(heap)].input)
    {
      Open();
      OpenQueue(verifier.lab, AsQueue(), {});
      LeastIsServed();
      S.LogKeys(cfg, read);
      forall k | 0 <= k < |heap|
        ensures OnSchedule(reader, served, heap[k])
      {
        assert Represents(heap[k], jobs[k]) && JobOk(verifier.lab, verifier.Knowledge(), reader, served, jobs[k]);
      }
      FirstIsForemost(reader, read, served, heap, Least(heap));
    }

    /** Serve the foremost input for one quantum: the least often served, then the
        most novel.  Only that input is worked on; the turn is counted for it, or
        cut by the deadline. */
    method ServeTurn() returns (timedOut: bool, e: Entry)
      requires Valid() && heap != [] && verifier.active != {}
      modifies this, verifier, owned
      ensures reader == old(reader) && Informed() && fresh(owned - old(owned)) && First(old(heap), e)
      ensures Foremost(old(read), old(served), old(heap), e.input)
      ensures read == old(read) && UpToDate() && if timedOut then Cut() else Counted(old(turns), old(served), e.input)
      ensures Advances(old(verifier.Knowledge()), verifier.Knowledge(), e.input)
    {
      Open();
      OpenQueue(verifier.lab, AsQueue(), {});
      TakeLeast();
      LeastIsServed();
      LeastIsForemost();
      timedOut, e := ServeEntry(Least(heap));
    }

    // ----- the loop -----

    /** The rows ingested are exactly the first `offset` lines of the log. */
    ghost predicate At(log: seq<S.Line>, offset: nat)
      reads this
    {
      offset <= |log| && read == log[..offset]
    }

    /** Ingest one line of the log. */
    method ReadLine(log: seq<S.Line>, offset: nat) returns (error: Option<S.Error>)
      requires Valid() && At(log, offset) && offset < |log|
      modifies this
      ensures Valid() && owned == old(owned) && turns == old(turns)
      ensures error.None? ==> At(log, offset + 1)
      ensures error.Some? ==> S.IngestAll(cfg, S.START, log[..offset + 1]) == S.Err(error.value)
    {
      assert log[..offset + 1] == log[..offset] + [log[offset]];
      error := IngestLine(log[offset]);
    }

    /** Ingest every line up to the frozen boundary, unless one is refused or the
        deadline passes in between. */
    method ReadTo(log: seq<S.Line>, start: nat, end: nat) returns (error: Option<S.Error>, late: bool, offset: nat)
      requires Valid() && At(log, start) && start <= end <= |log|
      modifies this
      ensures Valid() && owned == old(owned) && turns == old(turns)
      ensures error.None? ==> At(log, offset) && (late ==> verifier.lab.deadline) && (!late ==> offset == end)
      ensures error.Some? ==> S.IngestAll(cfg, S.START, log[..end]) == S.Err(error.value)
    {
      offset, error, late := start, None, false;
      while offset < end
        invariant start <= offset <= end && error.None? && !late
        invariant Valid() && At(log, offset) && owned == old(owned) && turns == old(turns)
      {
        late := *;
        if late && verifier.lab.deadline { return; }
        late := false;
        error := ReadLine(log, offset);
        if error.Some? {
          S.RefusedStays(cfg, log, offset + 1, end);
          return;
        }
        offset := offset + 1;
      }
    }

    /** The checks between reading and serving: fail, look again, stop, or go on.
        `alive` is the one observation of the writer made after the read. */
    function Judge(alive: bool, sawDeath: bool): Progress
      reads this, verifier
    {
      var terminal := reader.doneSeen || reader.stopSeen;
      if reader.doneSeen && cfg.live && cfg.novelty && !reader.scheduled then Fail(S.NoHeader)
      else if !cfg.live && !terminal then Fail(S.NoTerminalMarker)
      else if !(cfg.live && alive) && !terminal then if sawDeath then Fail(S.MissingMarker) else LookAgain
      else if reader.stopSeen && cfg.live then Stop(S.WallTime)
      else if verifier.active == {} then Stop(if reader.stopSeen then S.WallTime else S.AllRejected)
      else if heap != [] then Serve
      else if terminal then Stop(if reader.stopSeen then S.WallTime else S.Exhausted)
      else Wait
    }

    /** What a stop promises. */
    ghost predicate Settled(reason: S.StopReason)
      reads this, verifier, Objects(heap)
    {
      && Informed() && UpToDate() && Accounts(AsQueue(), if inflight then 1 else 0)
      && |journal| == |reader.admitted| && CutShort(verifier.lab, verifier.Knowledge(), journal)
      && match reason
         case Exhausted => Valid() && heap == [] && reader.doneSeen && !reader.stopSeen
         case AllRejected => verifier.active == {} && !reader.stopSeen && (cfg.live || reader.doneSeen)
         case WallTime => verifier.lab.deadline || (reader.stopSeen && (cfg.live || Spent()))
    }

    /** No turn was cut. */
    ghost predicate Uncut(reason: S.StopReason) { reason != S.WallTime || !verifier.lab.deadline }

    /** Nobody is left to test, or nothing to test them on. */
    ghost predicate Spent()
      reads this, verifier, Objects(heap)
    {
      verifier.active == {} || (Valid() && heap == [])
    }

    /** A run beside a minimizer that says it stopped ends without another turn. */
    ghost predicate Halts(p: Progress, before: Core, turnsBefore: nat)
      reads this, verifier
    {
      p == Stop(S.WallTime) && verifier.Knowledge() == before && turns == turnsBefore
    }

    /** The foremost input had a turn. */
    ghost predicate TookTurn(readBefore: seq<S.Line>, servedBefore: seq<nat>, heapBefore: seq<Entry>,
                             turnsBefore: nat)
      reads this, verifier, Objects(heap)
    {
      exists t :: Foremost(readBefore, servedBefore, heapBefore, t) && Counted(turnsBefore, servedBefore, t)
    }

    /** What the checks find: a failure exactly when there is one, a stop only for
        its reason, and otherwise a turn, or nothing to do yet. */
    lemma JudgeMeans(log: seq<S.Line>, offset: nat, tick: S.Tick, sawDeath: bool)
      requires Valid() && At(log, offset)
      ensures var p := Judge(tick.alive, sawDeath);
              && (forall e :: p == Fail(e) <==> Judged(cfg, log, offset, tick, sawDeath, e))
              && (p.LookAgain? <==> S.Unmarked(cfg, log, offset) && cfg.live && !tick.alive && !sawDeath)
              && (p.Wait? ==> S.Unmarked(cfg, log, offset) && heap == [] && verifier.active != {})
              && (p.Serve? ==> heap != [] && verifier.active != {})
              && (p.Stop? ==> Settled(p.reason) && Valid())
              && (cfg.live && reader.stopSeen && !p.Fail? ==> p == Stop(S.WallTime))
    {
      Open();
    }

    /** Judge what was read, and serve a turn if there is one to serve.  The
        deadline is looked at once more before a stop is believed. */
    method Act(log: seq<S.Line>, offset: nat, tick: S.Tick, sawDeath: bool) returns (p: Progress)
      requires Valid() && At(log, offset)
      modifies this, verifier, owned
      ensures At(log, offset) && fresh(owned - old(owned))
      ensures p.Stop? ==> Settled(p.reason) && (Uncut(p.reason) ==> Valid())
      ensures forall e :: p == Fail(e) <==> Judged(cfg, log, offset, tick, sawDeath, e)
      ensures !p.Stop? && !p.Fail? ==> Valid()
      ensures p.Serve? ==> TookTurn(old(read), old(served), old(heap), old(turns))
      ensures p.Wait? || p.LookAgain? ==> S.Unmarked(cfg, log, offset) && turns == old(turns)
      ensures p.LookAgain? <==> S.Unmarked(cfg, log, offset) && cfg.live && !tick.alive && !sawDeath
      ensures p.Wait? ==> heap == [] && verifier.active != {}
      ensures cfg.live && old(reader.stopSeen) && !p.Fail? ==> Halts(p, old(verifier.Knowledge()), old(turns))
    {
      Open();
      JudgeMeans(log, offset, tick, sawDeath);
      p := Judge(tick.alive, sawDeath);
      if p.Serve? {
        var timedOut, e := ServeTurn();
        if timedOut { return Stop(S.WallTime); }
        assert Foremost(old(read), old(served), old(heap), e.input);
        return;
      }
      var late: bool := *;
      if p.Stop? && late && verifier.lab.deadline { return Stop(S.WallTime); }
    }

    /** What was read holds a stop mark exactly when the reader saw one. */
    lemma StopSeen(log: seq<S.Line>, offset: nat)
      requires UpToDate() && At(log, offset)
      ensures S.IngestAll(cfg, S.START, log[..offset]) == S.Ok(reader)
      ensures reader.stopSeen <==> S.StopMark(true) in log[..offset]
    {
      S.ReadMeans(cfg, log[..offset]);
    }

    /** What a round that neither stops nor fails leaves. */
    ghost predicate GoesOn(p: Progress, log: seq<S.Line>, offset: nat, tick: S.Tick, sawDeath: bool, turnsBefore: nat)
      reads this, verifier, Objects(heap)
    {
      && Valid() && At(log, offset) && turns == turnsBefore + (if p.Serve? then 1 else 0)
      && (p.Wait? || p.LookAgain? ==> S.Unmarked(cfg, log, offset))
      && (p.LookAgain? <==> S.Unmarked(cfg, log, offset) && cfg.live && !tick.alive && !sawDeath)
      && (p.Wait? ==> heap == [] && verifier.active != {})
    }

    /** Act on all the tick sees. */
    method ActOn(log: seq<S.Line>, start: nat, tick: S.Tick, sawDeath: bool) returns (p: Progress)
      requires Valid() && At(log, S.Seen(log, tick)) && start <= S.Seen(log, tick)
      modifies this, verifier, owned
      ensures fresh(owned - old(owned)) && At(log, S.Seen(log, tick))
      ensures p.Stop? ==> Settled(p.reason) && (Uncut(p.reason) ==> Valid())
      ensures p.Fail? ==> S.RoundFails(cfg, log, start, tick, sawDeath, p.error)
      ensures !p.Fail? ==> Passed(cfg, log, start, tick, sawDeath, S.Seen(log, tick))
      ensures !p.Stop? && !p.Fail? ==> GoesOn(p, log, S.Seen(log, tick), tick, sawDeath, old(turns))
      ensures cfg.live && S.StopMark(true) in log[..S.Seen(log, tick)] && !p.Fail? ==>
                Halts(p, old(verifier.Knowledge()), old(turns))
    {
      Open();
      StopSeen(log, S.Seen(log, tick));
      JudgedFails(cfg, log, start, tick, sawDeath);
      p := Act(log, S.Seen(log, tick), tick, sawDeath);
    }

    /** One round of the loop: read up to what the tick sees, then act.  It fails
        for the reasons it should, and, unless the deadline comes first, whenever
        it should. */
    method Round(log: seq<S.Line>, start: nat, tick: S.Tick, sawDeath: bool) returns (p: Progress, offset: nat)
      requires Valid() && At(log, start)
      modifies this, verifier, owned
      ensures fresh(owned - old(owned))
      ensures p.Stop? ==> At(log, offset) && Settled(p.reason) && (Uncut(p.reason) ==> Valid())
      ensures p.Fail? ==> S.RoundFails(cfg, log, start, tick, sawDeath, p.error)
      ensures !p.Fail? ==>
                (p == Stop(S.WallTime) && verifier.lab.deadline) || Passed(cfg, log, start, tick, sawDeath, offset)
      ensures !p.Stop? && !p.Fail? ==> GoesOn(p, log, offset, tick, sawDeath, old(turns))
      ensures cfg.live && S.StopMark(true) in log[..S.Seen(log, tick)] && !p.Fail? ==>
                Halts(p, old(verifier.Knowledge()), old(turns))
    {
      offset := start;
      var late: bool := *;
      if late && verifier.lab.deadline {
        Open();
        return Stop(S.WallTime), offset;
      }
      var end := S.Seen(log, tick);
      if end < offset { return Fail(S.Truncated), offset; }
      var error;
      error, late, offset := ReadTo(log, start, end);
      if error.Some? { return Fail(error.value), start; }
      if late {
        Open();
        return Stop(S.WallTime), offset;
      }
      p := ActOn(log, start, tick, sawDeath);
    }

    /** Where a run stands after `i` observations that passed; `sawDeath` once it
        looked again at a writer that was gone. */
    ghost predicate Standing(log: seq<S.Line>, ticks: seq<S.Tick>, i: nat, offset: nat, sawDeath: bool)
      reads this, verifier, Objects(heap)
      requires i <= |ticks|
    {
      && Valid() && At(log, offset) && offset == S.SeenBefore(log, ticks, i)
      && S.Quiet(cfg, log, ticks, i) && DeathKnown(cfg, log, ticks, i, offset, sawDeath)
      && (S.Marked(cfg, log) ==> S.FullTicks(log, ticks[..i]) <= turns)
    }

    /** One round of a run. */
    method NextRound(log: seq<S.Line>, ticks: seq<S.Tick>, i: nat, start: nat, saw: bool)
      returns (p: Progress, offset: nat, sawDeath: bool)
      requires i < |ticks| && Standing(log, ticks, i, start, saw)
      modifies this, verifier, owned
      ensures fresh(owned - old(owned))
      ensures p.Stop? ==> At(log, offset) && Settled(p.reason) && (Uncut(p.reason) ==> Valid())
      ensures p.Stop? && !verifier.lab.deadline ==>
                offset == S.Seen(log, ticks[i]) && forall e :: !S.FailsAt(cfg, log, ticks, i, e)
      ensures p.Fail? ==> S.FailsAt(cfg, log, ticks, i, p.error)
      ensures !p.Stop? && !p.Fail? ==> Standing(log, ticks, i + 1, offset, sawDeath)
    {
      Open();
      SameFailures(cfg, log, ticks, i, start, saw);
      p, offset := Round(log, start, ticks[i], saw);
      sawDeath := saw || p.LookAgain?;
      if !p.Stop? && !p.Fail? {
        PassesNext(cfg, log, ticks, i, start, offset, saw, sawDeath);
        FullTick(cfg, log, ticks, i);
      }
    }

    /** Run over any sequence of observations of the outside world, until the run
        stops or fails or the observations end, after `rounds` that passed.  A
        marked log drains: a tick that sees all of it takes a turn unless the run
        ends. */
    method Run(log: seq<S.Line>, ticks: seq<S.Tick>) returns (p: Progress, offset: nat, ghost rounds: nat)
      requires Valid() && At(log, 0) && turns == 0
      modifies this, verifier, owned
      ensures p.Wait? || p.Stop? || p.Fail?
      ensures rounds <= |ticks| && S.Quiet(cfg, log, ticks, rounds) && (p.Wait? <==> rounds == |ticks|)
      ensures p.Stop? ==> At(log, offset) && Settled(p.reason) && (Uncut(p.reason) ==> Valid())
      ensures p.Stop? && !verifier.lab.deadline ==>
                offset == S.Seen(log, ticks[rounds]) && forall e :: !S.FailsAt(cfg, log, ticks, rounds, e)
      ensures p.Fail? ==> S.FailsAt(cfg, log, ticks, rounds, p.error)
      ensures p.Wait? ==> At(log, offset) && UpToDate() && offset == S.SeenBefore(log, ticks, |ticks|)
      ensures S.Marked(cfg, log) && S.FullTicks(log, ticks) > |S.Eligible(log)| * |verifier.lab.patches| ==> !p.Wait?
    {
      offset, rounds := 0, 0;
      var sawDeath := false;
      for i := 0 to |ticks|
        invariant Standing(log, ticks, i, offset, sawDeath) && fresh(owned - old(owned)) && rounds == i
      {
        p, offset, sawDeath := NextRound(log, ticks, i, offset, sawDeath);
        if p.Fail? || p.Stop? { return; }
        rounds := i + 1;
      }
      assert ticks[..|ticks|] == ticks;
      Open();
      if S.Marked(cfg, log) { TurnsBounded(log, offset); }
      return Wait, offset, rounds;
    }

    /** The turns taken never exceed published inputs times candidates. */
    lemma TurnsBounded(log: seq<S.Line>, offset: nat)
      requires Valid() && At(log, offset) && S.Marked(cfg, log)
      ensures turns <= |S.Eligible(log)| * |verifier.lab.patches|
    {
      Open();
      TurnsAreBounded(verifier.lab, AsQueue());
      S.AdmitsAllEligible(cfg, S.START, log[..offset]);
      S.EligibleConcat(log[..offset], log[offset..]);
      assert log[..offset] + log[offset..] == log;
      Monotone(|reader.admitted|, |S.Eligible(log)|, |verifier.lab.patches|);
    }

    /** After everything was rejected: what resumable sweeps have left is skipped. */
    method CloseJournal()
      requires Valid() && Settled(S.AllRejected)
      modifies this`journal
      ensures Settled(S.AllRejected) && read == old(read)
      ensures AllClosed(verifier.lab, journal) && Matches(verifier.Knowledge(), journal)
    {
      Open();
      StartClosing(verifier.lab, verifier.Knowledge(), journal, jobs);
      for k := 0 to |heap|
        invariant Memory() && QueueInv(verifier.lab, AsQueue()) && |journal| == |reader.admitted|
        invariant Closing(verifier.lab, verifier.Knowledge(), journal, jobs[k..])
      {
        SkipQueued(k);
      }
      ClosedAll(verifier.lab, verifier.Knowledge(), journal);
    }

    method SkipQueued(k: nat)
      requires Memory() && QueueInv(verifier.lab, AsQueue()) && |journal| == |reader.admitted| && k < |heap|
      requires Closing(verifier.lab, verifier.Knowledge(), journal, jobs[k..]) && verifier.active == {}
      requires Sound(verifier.lab)
      modifies this`journal
      ensures Memory() && QueueInv(verifier.lab, AsQueue()) && |journal| == |reader.admitted|
      ensures Closing(verifier.lab, verifier.Knowledge(), journal, jobs[k + 1..])
    {
      assert Represents(heap[k], jobs[k]);
      JobsFrom(verifier.lab, AsQueue(), k);
      if heap[k].sweep == null {
        CloseFresh(verifier.lab, verifier.Knowledge(), journal, jobs[k..]);
      } else {
        SkipStarted(heap[k].input, heap[k].sweep, jobs[k..]);
      }
    }

    /** Skip what a started input has left. */
    method SkipStarted(t: nat, sweep: ConcreteInputSweep, ghost later: seq<Job>)
      requires Memory() && QueueInv(verifier.lab, AsQueue()) && |journal| == |reader.admitted| && Sound(verifier.lab)
      requires Closing(verifier.lab, verifier.Knowledge(), journal, later) && verifier.active == {} && sweep.Valid()
      requires later != [] && Proper(later) && later[0].input == t && later[0].left == Some(sweep.pending)
      requires sweep.pending <= UpTo(|verifier.lab.patches|)
      modifies this`journal
      ensures Memory() && QueueInv(verifier.lab, AsQueue()) && |journal| == |reader.admitted|
      ensures Closing(verifier.lab, verifier.Knowledge(), journal, later[1..])
    {
      ghost var q := AsQueue();
      var indices := sweep.PendingIndices();
      var rest := set i | i in indices;
      assert rest == sweep.pending;
      CloseStarted(verifier.lab, verifier.Knowledge(), journal, later, rest);
      journal := journal[t := journal[t] + [Skip(Named(verifier.lab.patches, rest), GlobalReject)]];
      assert AsQueue() == q;
    }

    /** Write the final records, marked if the budget ran out.  A decided run
        without unusable executions is right about every candidate, and an
        all-rejected run is right to verify none. */
    method Report(reason: S.StopReason) returns (records: seq<PatchRecord>)
      requires Settled(reason)
      modifies verifier
      ensures records == RecordsOf(verifier.lab, old(verifier.Knowledge()),
                                   Conclude(verifier.lab, old(verifier.Knowledge())))
      ensures verifier.result == Some(MakeArtifact(records, verifier.wallTime))
              && (verifier.wallTime <==> reason == S.WallTime)
      ensures Covers(verifier.lab, verifier.verdicts)
              && RecordsOf(verifier.lab, verifier.Knowledge(), verifier.verdicts) == records
      ensures Decided(reason) && verifier.lab.reliable ==> Correct(verifier.lab, |reader.admitted|, records)
      ensures reason == S.AllRejected ==> Refuted(verifier.lab, |reader.admitted|, records)
    {
      SettledRecords(reason);
      OpenCore(verifier.lab, verifier.Knowledge(), UpTo(|reader.admitted|));
      records := Finish(reason == S.WallTime);
    }

    /** Every admitted input has tried every candidate still active. */
    ghost predicate Decided(reason: S.StopReason)
      reads this, verifier
    {
      reason == S.Exhausted || (reason == S.WallTime && !verifier.lab.deadline && !cfg.live)
    }

    /** Everything after the loop, and the mark of a budget that ends `late`. */
    method WindUp(reason: S.StopReason, late: bool) returns (records: seq<PatchRecord>, file: Option<Artifact>)
      requires Settled(reason) && (Uncut(reason) ==> Valid())
      modifies this`journal, verifier
      ensures Accounted(verifier.lab, old(verifier.Knowledge()), |reader.admitted|, reason, journal)
      ensures records == RecordsOf(verifier.lab, old(verifier.Knowledge()),
                                   Conclude(verifier.lab, old(verifier.Knowledge())))
      ensures file == Some(MakeArtifact(records, late || reason == S.WallTime))
      ensures Decided(reason) && verifier.lab.reliable ==> Correct(verifier.lab, |reader.admitted|, records)
      ensures reason == S.AllRejected ==> Refuted(verifier.lab, |reader.admitted|, records)
    {
      if Uncut(reason) {
        assert Keeps(TheJournal);
        OpenKept(verifier.lab, verifier.Knowledge(), journal, jobs, {});
      }
      if reason == S.AllRejected { CloseJournal(); }
      SettledAccount(reason);
      records := Report(reason);
      if late { verifier.MarkWallTimeReached(); }
      file := verifier.result;
    }

    /** The budget's end is recorded first, then the remaining verdicts are given
        and the records written. */
    method Finish(timedOut: bool) returns (records: seq<PatchRecord>)
      requires Distinct(verifier.lab.patches) && VerdictsInv(verifier.lab, verifier.Knowledge())
      requires !verifier.wallTime && verifier.result.None?
      modifies verifier
      ensures records == RecordsOf(verifier.lab, old(verifier.Knowledge()),
                                   Conclude(verifier.lab, old(verifier.Knowledge())))
      ensures verifier.result == Some(MakeArtifact(records, timedOut)) && verifier.wallTime == timedOut
      ensures Covers(verifier.lab, verifier.verdicts)
              && RecordsOf(verifier.lab, verifier.Knowledge(), verifier.verdicts) == records
    {
      ghost var lab, c := verifier.lab, verifier.Knowledge();
      if timedOut { verifier.MarkWallTimeReached(); }
      verifier.LogRemaining();
      ConcludeCovers(lab, c);
      RecordsOfLedger(lab, c, verifier.Knowledge(), Conclude(lab, c));
      var covered;
      covered, records := verifier.WriteResults();
    }

    /** What the journal of a settled run is. */
    lemma SettledAccount(reason: S.StopReason)
      requires Settled(reason)
      requires reason == S.AllRejected ==> AllClosed(verifier.lab, journal)
      requires Uncut(reason) ==> Matches(verifier.Knowledge(), journal)
      ensures Accounted(verifier.lab, verifier.Knowledge(), |reader.admitted|, reason, journal)
    {
      if reason == S.Exhausted {
        Open();
        EmptyQueueIsNoted(verifier.lab, verifier.Knowledge(), journal);
        forall t | t in UpTo(|reader.admitted|)
          ensures JobInv(verifier.lab, verifier.Knowledge(), t, {})
        {
          EmptyQueueIsComplete(verifier.lab, AsQueue(), t);
        }
      }
    }

    /** What the records of a settled run are. */
    lemma SettledRecords(reason: S.StopReason)
      requires Settled(reason)
      ensures var lab, c, m := verifier.lab, verifier.Knowledge(), |reader.admitted|;
              && (Decided(reason) && lab.reliable ==> Correct(lab, m, RecordsOf(lab, c, Conclude(lab, c))))
              && (reason == S.AllRejected ==> Refuted(lab, m, RecordsOf(lab, c, Conclude(lab, c))))
    {
      var lab, c, m := verifier.lab, verifier.Knowledge(), |reader.admitted|;
      if verifier.active == {} && (reason == S.AllRejected || Decided(reason)) {
        RejectedRecords(lab, c, m);
        AllRejectedCorrect(lab, m, m, RecordsOf(lab, c, Conclude(lab, c)));
      } else if Decided(reason) && lab.reliable {
        Open();
        forall t | t in UpTo(m)
          ensures JobInv(lab, c, t, {})
        {
          EmptyQueueIsComplete(lab, AsQueue(), t);
        }
        CompleteRecords(lab, c, m);
      }
    }

    lemma KeysOfHeap()
      requires Memory() && QueueInv(verifier.lab, AsQueue())
      ensures forall i, j :: 0 <= i < j < |heap| ==> heap[i].key.seqno != heap[j].key.seqno
    {
      forall i, j | 0 <= i < j < |heap|
        ensures heap[i].key.seqno != heap[j].key.seqno
      {
        QueuedKeysDiffer(verifier.lab, AsQueue(), i, j);
        assert Represents(heap[i], jobs[i]) && Represents(heap[j], jobs[j]);
      }
    }
  }

  lemma Monotone(a: nat, b: nat, n: nat)
    requires a <= b
    ensures a * n <= b * n
  {
  }

  /** The failures found after a read. */
  ghost predicate Judged(cfg: S.Config, log: seq<S.Line>, offset: nat, tick: S.Tick, sawDeath: bool, e: S.Error)
  {
    || (e == S.NoHeader && cfg.live && cfg.novelty && S.Unheaded(cfg, log, offset))
    || (e == S.NoTerminalMarker && !cfg.live && S.Unmarked(cfg, log, offset))
    || (e == S.MissingMarker && cfg.live && !tick.alive && sawDeath && S.Unmarked(cfg, log, offset))
  }

  /** All the tick sees was read, and nothing in it is a failure. */
  ghost predicate Passed(cfg: S.Config, log: seq<S.Line>, start: nat, tick: S.Tick, sawDeath: bool, offset: nat)
  {
    offset == S.Seen(log, tick) && forall e :: !S.RoundFails(cfg, log, start, tick, sawDeath, e)
  }

  /** Once all the tick sees was accepted, these are all its failures. */
  lemma JudgedFails(cfg: S.Config, log: seq<S.Line>, start: nat, tick: S.Tick, sawDeath: bool)
    requires start <= S.Seen(log, tick) && S.IngestAll(cfg, S.START, log[..S.Seen(log, tick)]).Ok?
    ensures forall e :: S.RoundFails(cfg, log, start, tick, sawDeath, e) <==>
                        Judged(cfg, log, S.Seen(log, tick), tick, sawDeath, e)
  {
  }

  /** Having looked again at a writer that is gone means it was seen dead; and a
      writer seen dead without looking again had left its marker. */
  ghost predicate DeathKnown(cfg: S.Config, log: seq<S.Line>, ticks: seq<S.Tick>, i: nat, offset: nat, sawDeath: bool)
  {
    && (sawDeath ==> S.DeadBefore(ticks, i))
    && (cfg.live && S.DeadBefore(ticks, i) && !sawDeath ==> !S.Unmarked(cfg, log, offset))
  }

  /** A round's failures are those of the sequence of observations. */
  lemma SameFailures(cfg: S.Config, log: seq<S.Line>, ticks: seq<S.Tick>, i: nat, start: nat, sawDeath: bool)
    requires i < |ticks| && start == S.SeenBefore(log, ticks, i) && S.IngestAll(cfg, S.START, log[..start]).Ok?
    requires DeathKnown(cfg, log, ticks, i, start, sawDeath)
    ensures forall e :: S.RoundFails(cfg, log, start, ticks[i], sawDeath, e) <==> S.FailsAt(cfg, log, ticks, i, e)
  {
    var seen := S.Seen(log, ticks[i]);
    if start <= seen && !S.Unmarked(cfg, log, start) { S.MarkedStays(cfg, log, start, seen); }
  }

  /** After one more round that passed. */
  lemma PassesNext(cfg: S.Config, log: seq<S.Line>, ticks: seq<S.Tick>, i: nat, start: nat, offset: nat, saw: bool,
                   sawDeath: bool)
    requires i < |ticks| && S.Quiet(cfg, log, ticks, i) && start == S.SeenBefore(log, ticks, i)
    requires Passed(cfg, log, start, ticks[i], saw, offset) && S.IngestAll(cfg, S.START, log[..start]).Ok?
    requires forall e :: S.RoundFails(cfg, log, start, ticks[i], saw, e) <==> S.FailsAt(cfg, log, ticks, i, e)
    requires DeathKnown(cfg, log, ticks, i, start, saw)
    requires cfg.live ==> S.StopMark(true) !in log[..offset]
    requires sawDeath <==> saw || (S.Unmarked(cfg, log, offset) && cfg.live && !ticks[i].alive)
    ensures S.Quiet(cfg, log, ticks, i + 1) && S.SeenBefore(log, ticks, i + 1) == offset
    ensures DeathKnown(cfg, log, ticks, i + 1, offset, sawDeath)
  {
    if offset < start { assert S.RoundFails(cfg, log, start, ticks[i], saw, S.Truncated); }
    if !S.Unmarked(cfg, log, start) { S.MarkedStays(cfg, log, start, offset); }
    assert S.DeadBefore(ticks, i + 1) ==> S.DeadBefore(ticks, i) || !ticks[i].alive;
    assert S.Passes(cfg, log, ticks, i);
  }

  /** A tick that sees all of a marked log never waits. */
  lemma FullTick(cfg: S.Config, log: seq<S.Line>, ticks: seq<S.Tick>, i: nat)
    requires i < |ticks|
    ensures S.FullTicks(log, ticks[..i + 1]) == S.FullTicks(log, ticks[..i])
            + (if S.Seen(log, ticks[i]) == |log| then 1 else 0)
    ensures S.Marked(cfg, log) && S.Seen(log, ticks[i]) == |log| ==> !S.Unmarked(cfg, log, S.Seen(log, ticks[i]))
  {
    assert ticks[..i + 1][..i] == ticks[..i];
    assert log[..|log|] == log;
  }

  lemma ConcludeCovers(lab: Lab, c: Core)
    requires VerdictsInv(lab, c)
    ensures forall p :: p in Conclude(lab, c) <==> p in lab.patches
  {
  }

  /** Records read the ledger and the verdicts alone. */
  lemma RecordsOfLedger(lab: Lab, c: Core, c': Core, verdicts: map<nat, Decision>)
    requires c.ledger == c'.ledger
    ensures RecordsOf(lab, c, verdicts) == RecordsOf(lab, c', verdicts)
  {
  }

  /** What was learnt of the first `m` admitted inputs, and what the journal says
      of it.  In feedback mode, and unless a deadline cut the run, the notes are
      exactly the knowledge; after an exhausted stop every input tried every
      candidate still active and everybody is noted for it; after everything was
      rejected everybody is noted for every input that was started. */
  ghost predicate Accounted(lab: Lab, c: Core, m: nat, reason: S.StopReason, journal: seq<seq<Note>>)
  {
    && CoreInv(lab, c, UpTo(m)) && Exact(lab, c) && |journal| == m && AllRecorded(lab, journal)
    && (lab.feedback || reason != S.WallTime || !lab.deadline ==> Matches(c, journal))
    && (reason == S.Exhausted ==> AllComplete(lab, journal) && forall t :: t in UpTo(m) ==> JobInv(lab, c, t, {}))
    && (reason == S.AllRejected ==> AllClosed(lab, journal))
  }

  /** The records follow from one consistent knowledge: a verdict and exact counts
      for every candidate. */
  ghost predicate Explained(lab: Lab, m: nat, reason: S.StopReason, records: seq<PatchRecord>, journal: seq<seq<Note>>)
  {
    exists c: Core :: Accounted(lab, c, m, reason, journal) && records == RecordsOf(lab, c, Conclude(lab, c))
  }

  /** What a record of a complete run says of its candidate, by its own executions
      on the inputs below `m`: verified iff none fails, the input that condemned it
      if one did, and otherwise on how many inputs each thing happened. */
  ghost predicate RecordRight(lab: Lab, m: nat, r: PatchRecord)
  {
    && (r.verified <==> NeverFails(lab, UpTo(m), r.patch))
    && TestcaseRight(lab, m, r) && (r.testcase.None? ==> CountsRight(lab, m, r))
  }

  ghost predicate TestcaseRight(lab: Lab, m: nat, r: PatchRecord)
  {
    match r.testcase
    case Some(t) => t in UpTo(m) && Condemned(lab, t, r.patch)
    case None => forall t :: t in UpTo(m) ==> !Condemned(lab, t, r.patch)
  }

  ghost predicate CountsRight(lab: Lab, m: nat, r: PatchRecord)
  {
    forall o :: IsCounted(o) ==> Get(r.observations, o) == |Occasions(lab, UpTo(m), r.patch, o)|
  }

  /** One right record for every candidate, in order. */
  ghost predicate Correct(lab: Lab, m: nat, records: seq<PatchRecord>)
  {
    |records| == |lab.patches|
    && forall i :: 0 <= i < |records| ==> records[i].patch == lab.patches[i] && RecordRight(lab, m, records[i])
  }

  /** What a run over any log and any observations may end with. */
  ghost predicate Ends(lab: Lab, cfg: S.Config, log: seq<S.Line>, ticks: seq<S.Tick>, p: Progress,
                       records: seq<PatchRecord>, journal: seq<seq<Note>>, offset: nat)
  {
    match p
    case Fail(e) => S.Failure(cfg, log, ticks, e)
    case Stop(reason) =>
      && offset <= |log| && S.IngestAll(cfg, S.START, log[..offset]).Ok?
      && StopsInTime(lab, cfg, log, ticks, offset)
      && Explained(lab, |S.Eligible(log[..offset])|, reason, records, journal)
      && StopsRight(lab, cfg, log[..offset], reason, records)
    case Wait =>
      && offset <= |log| && S.IngestAll(cfg, S.START, log[..offset]).Ok?
      && offset == S.SeenBefore(log, ticks, |ticks|) && S.Quiet(cfg, log, ticks, |ticks|)
      && (S.Marked(cfg, log) ==> S.FullTicks(log, ticks) <= |S.Eligible(log)| * |lab.patches|)
    case _ => false
  }

  /** A stop comes at an observation before which nothing ended the run, and
      unless there is a deadline after reading all of it, with nothing wrong. */
  ghost predicate StopsInTime(lab: Lab, cfg: S.Config, log: seq<S.Line>, ticks: seq<S.Tick>, offset: nat)
  {
    exists i :: 0 <= i < |ticks| && S.Quiet(cfg, log, ticks, i)
                && (!lab.deadline ==> offset == S.Seen(log, ticks[i]) && forall e :: !S.FailsAt(cfg, log, ticks, i, e))
  }

  /** What the reason of a stop says, after exactly the lines of `read`.  Without
      a deadline the budget only ends for a stop mark that was read; a replayed
      log with one is served to its end. */
  ghost predicate StopsRight(lab: Lab, cfg: S.Config, read: seq<S.Line>, reason: S.StopReason,
                             records: seq<PatchRecord>)
  {
    var m, stopped := |S.Eligible(read)|, S.StopMark(true) in read;
    match reason
    case Exhausted => S.DoneMark in read && !stopped && (lab.reliable ==> Correct(lab, m, records))
    case AllRejected => !stopped && (cfg.live || S.DoneMark in read) && Refuted(lab, m, records)
    case WallTime => lab.deadline || (stopped && (!cfg.live && lab.reliable ==> Correct(lab, m, records)))
  }

  /** Nobody is verified, and everybody was condemned by some input below `m`. */
  ghost predicate Refuted(lab: Lab, m: nat, records: seq<PatchRecord>)
  {
    |records| == |lab.patches|
    && forall i :: 0 <= i < |records| ==> records[i].patch == lab.patches[i] && RecordRefuted(lab, m, records[i])
  }

  ghost predicate RecordRefuted(lab: Lab, m: nat, r: PatchRecord)
  {
    !r.verified && r.testcase.Some? && r.testcase.value in UpTo(m) && Condemned(lab, r.testcase.value, r.patch)
  }

  /** The records after every admitted input was tried. */
  lemma CompleteRecords(lab: Lab, c: Core, m: nat)
    requires Sound(lab) && CoreInv(lab, c, UpTo(m)) && Exact(lab, c) && lab.reliable
    requires forall t :: t in UpTo(m) ==> JobInv(lab, c, t, {})
    ensures Correct(lab, m, RecordsOf(lab, c, Conclude(lab, c)))
  {
    forall i | 0 <= i < |lab.patches|
      ensures RecordRight(lab, m, RecordOf(lab, c, Conclude(lab, c), lab.patches[i]))
    {
      CompleteRecord(lab, c, m, lab.patches[i]);
    }
  }

  lemma CompleteRecord(lab: Lab, c: Core, m: nat, p: nat)
    requires Sound(lab) && CoreInv(lab, c, UpTo(m)) && Exact(lab, c) && lab.reliable && p in lab.patches
    requires forall t :: t in UpTo(m) ==> JobInv(lab, c, t, {})
    ensures RecordRight(lab, m, RecordOf(lab, c, Conclude(lab, c), p))
  {
    VerdictsAreScheduleFree(lab, c, UpTo(m), p);
    RecordNames(lab, c, UpTo(m), p);
    CompleteTestcase(lab, c, m, p);
    if p in c.active { CompleteCounts(lab, c, m, p); }
  }

  lemma RecordNames(lab: Lab, c: Core, admitted: set<nat>, p: nat)
    requires CoreInv(lab, c, admitted) && p in lab.patches
    ensures p in c.active <==> p !in c.verdicts
    ensures RecordOf(lab, c, Conclude(lab, c), p).testcase == if p in c.verdicts then c.verdicts[p].Input() else None
    ensures p in c.verdicts ==> c.verdicts[p].Input().Some?
  {
    OpenCore(lab, c, admitted);
  }

  lemma CompleteTestcase(lab: Lab, c: Core, m: nat, p: nat)
    requires Sound(lab) && CoreInv(lab, c, UpTo(m)) && lab.reliable && p in lab.patches
    requires forall t :: t in UpTo(m) ==> JobInv(lab, c, t, {})
    ensures TestcaseRight(lab, m, RecordOf(lab, c, Conclude(lab, c), p))
  {
    RecordNames(lab, c, UpTo(m), p);
    NamedIsCondemned(lab, c, UpTo(m), p);
    if p in c.verdicts { RejectedOnce(lab, c, UpTo(m), p); }
  }

  lemma CompleteCounts(lab: Lab, c: Core, m: nat, p: nat)
    requires CoreInv(lab, c, UpTo(m)) && Exact(lab, c) && lab.reliable && p in c.active
    requires forall t :: t in UpTo(m) ==> JobInv(lab, c, t, {})
    ensures CountsRight(lab, m, RecordOf(lab, c, Conclude(lab, c), p))
  {
    forall o | IsCounted(o)
      ensures CountOf(c.ledger, p, o) == |Occasions(lab, UpTo(m), p, o)|
    {
      SurvivorCounts(lab, c, UpTo(m), p, o);
    }
  }

  /** The records once nobody is active. */
  lemma RejectedRecords(lab: Lab, c: Core, m: nat)
    requires Sound(lab) && CoreInv(lab, c, UpTo(m)) && c.active == {}
    ensures Refuted(lab, m, RecordsOf(lab, c, Conclude(lab, c)))
  {
    OpenCore(lab, c, UpTo(m));
    forall i | 0 <= i < |lab.patches|
      ensures RecordRefuted(lab, m, RecordOf(lab, c, Conclude(lab, c), lab.patches[i]))
    {
      AllRejectedIsRight(lab, c, UpTo(m), lab.patches[i]);
      RecordNames(lab, c, UpTo(m), lab.patches[i]);
      RejectedOnce(lab, c, UpTo(m), lab.patches[i]);
    }
  }

  /** A stop for its reason, by a reader that read exactly the lines of `read`. */
  lemma StopIsRight(lab: Lab, cfg: S.Config, read: seq<S.Line>, r: S.Reader, reason: S.StopReason,
                    records: seq<PatchRecord>)
    requires S.IngestAll(cfg, S.START, read) == S.Ok(r)
    requires match reason
             case Exhausted => r.doneSeen && !r.stopSeen && (lab.reliable ==> Correct(lab, |r.admitted|, records))
             case AllRejected => !r.stopSeen && (cfg.live || r.doneSeen) && Refuted(lab, |r.admitted|, records)
             case WallTime =>
               lab.deadline || (r.stopSeen && (!cfg.live && lab.reliable ==> Correct(lab, |r.admitted|, records)))
    ensures StopsRight(lab, cfg, read, reason, records) && |r.admitted| == |S.Eligible(read)|
  {
    S.ReadMeans(cfg, read);
    S.AdmitsAllEligible(cfg, S.START, read);
  }

  /** The whole verifier over any log and any observations: construct, run and
      report.  A failing run says why; a marked log drains, so that enough looks
      at all of it end the run; a stop has one explained record per candidate
      and a journal that is what the verifier knows.  The records are written
      once; the budget's end, seen during the run or `late` after it, is marked on
      them and changes nothing else. */
  method VerifyStream(lab: Lab, useCache: bool, cfg: S.Config, log: seq<S.Line>, ticks: seq<S.Tick>, late: bool)
    returns (p: Progress, records: seq<PatchRecord>, journal: seq<seq<Note>>, offset: nat, file: Option<Artifact>)
    requires Sound(lab)
    ensures Ends(lab, cfg, log, ticks, p, records, journal, offset)
    ensures file == if p.Stop? then Some(MakeArtifact(records, late || p == Stop(S.WallTime))) else None
    ensures p == Stop(S.Exhausted) && S.IngestAll(cfg, S.START, log).Ok? ==>
              S.Eligible(log[offset..]) == [] && S.Eligible(log[..offset]) == S.Eligible(log)
  {
    var verifier := new ConcreteVerifier(lab, useCache);
    var run := new StreamingRun(verifier, cfg);
    records, journal, file := [], [], None;
    ghost var rounds;
    p, offset, rounds := run.Run(log, ticks);
    if p.Stop? {
      records, file := run.WindUp(p.reason, late);
      journal := run.journal;
      StopIsRight(lab, cfg, log[..offset], run.reader, p.reason, records);
      if p == Stop(S.Exhausted) && S.IngestAll(cfg, S.START, log).Ok? { S.MarkedPrefixHasAll(cfg, log, offset); }
    }
  }

  /** What condemned everybody on the inputs read does so on the inputs published. */
  lemma AllRejectedCorrect(lab: Lab, m: nat, n: nat, records: seq<PatchRecord>)
    requires m <= n && Refuted(lab, m, records)
    ensures Correct(lab, n, records)
  {
    forall i | 0 <= i < |records|
      ensures !NeverFails(lab, UpTo(n), records[i].patch) && records[i].testcase.value in UpTo(n)
    {
      assert RecordRefuted(lab, m, records[i]);
      assert records[i].testcase.value in UpTo(n) && Fails(lab, records[i].testcase.value, records[i].patch);
    }
  }

  lemma StopReadsPrefix(log: seq<S.Line>, offset: nat)
    requires offset <= |log|
    ensures |S.Eligible(log[..offset])| <= |S.Eligible(log)|
  {
    S.EligibleConcat(log[..offset], log[offset..]);
    assert log[..offset] + log[offset..] == log;
  }

  /** An exhausted stop has read every row there will ever be. */
  lemma ExhaustedIsFinal(lab: Lab, cfg: S.Config, log: seq<S.Line>, ticks: seq<S.Tick>, records: seq<PatchRecord>,
                         journal: seq<seq<Note>>, offset: nat, actions: seq<S.Action>)
    requires cfg.live && log == S.After(cfg, actions).log
    requires Ends(lab, cfg, log, ticks, Stop(S.Exhausted), records, journal, offset)
    ensures S.Eligible(log[..offset]) == S.Eligible(log) && (lab.reliable ==> Correct(lab, |S.Eligible(log)|, records))
    ensures forall more :: S.After(cfg, actions + more).log == log
  {
    S.ReadMeans(cfg, log[..offset]);
    S.MarkedPrefixHasAll(cfg, log, offset);
    S.AcceptedPrefix(cfg, log, offset);
    S.MarkerIsLast(cfg, S.IngestAll(cfg, S.START, log[..offset]).value, log[offset..]);
    S.NothingFollows(cfg, actions);
  }

  /** A finished log, seen whole often enough without a deadline, is decided. */
  lemma FinishedIsDecided(lab: Lab, cfg: S.Config, log: seq<S.Line>, ticks: seq<S.Tick>, p: Progress,
                          records: seq<PatchRecord>, journal: seq<seq<Note>>, offset: nat)
    requires Ends(lab, cfg, log, ticks, p, records, journal, offset) && !p.Fail?
    requires S.FinishedWell(cfg, log) && S.FullTicks(log, ticks) > |S.Eligible(log)| * |lab.patches| && !lab.deadline
             && lab.reliable
    ensures (p == Stop(S.Exhausted) || p == Stop(S.AllRejected)) && Correct(lab, |S.Eligible(log)|, records)
  {
    if p.Stop? {
      S.NeverStopped(cfg, log, offset);
      S.ReadMeans(cfg, log[..offset]);
      if p.reason == S.Exhausted {
        S.MarkedPrefixHasAll(cfg, log, offset);
      } else if p.reason == S.AllRejected {
        StopReadsPrefix(log, offset);
        AllRejectedCorrect(lab, |S.Eligible(log[..offset])|, |S.Eligible(log)|, records);
      }
    }
  }

  /** The verifier beside a live minimizer, over every history of the minimizer
      and every choice of moments at which the verifier looks.  Only an aborted
      minimizer makes it fail; an exhausted stop has read every row there will
      ever be; and, once a minimizer has finished, enough rounds give every
      candidate the verdict its executions on all published inputs call for. */
  method VerifyLive(lab: Lab, useCache: bool, cfg: S.Config, log: seq<S.Line>, ticks: seq<S.Tick>,
                    late: bool, ghost actions: seq<S.Action>, ghost moments: seq<S.Moment>)
    returns (p: Progress, records: seq<PatchRecord>, journal: seq<seq<Note>>, offset: nat, file: Option<Artifact>)
    requires Sound(lab) && cfg.live && S.Witnessed(cfg, actions, moments, log, ticks)
    ensures Ends(lab, cfg, log, ticks, p, records, journal, offset)
    ensures file == if p.Stop? then Some(MakeArtifact(records, late || p == Stop(S.WallTime))) else None
    ensures p.Fail? ==> p.error == S.MissingMarker && S.Abort in actions
    ensures p == Stop(S.Exhausted) ==>
              && S.Eligible(log[..offset]) == S.Eligible(log)
              && (lab.reliable ==> Correct(lab, |S.Eligible(log)|, records))
              && forall more :: S.After(cfg, actions + more).log == log
    ensures S.FinishedWell(cfg, log) && S.FullTicks(log, ticks) > |S.Eligible(log)| * |lab.patches| && !lab.deadline
            && lab.reliable ==>
              (p == Stop(S.Exhausted) || p == Stop(S.AllRejected)) && Correct(lab, |S.Eligible(log)|, records)
  {
    p, records, journal, offset, file := VerifyStream(lab, useCache, cfg, log, ticks, late);
    if p.Fail? {
      S.OnlyAbortFails(cfg, actions, moments, log, ticks, p.error);
      S.AbortedIsUnfinished(cfg, actions);
      return;
    }
    if p == Stop(S.Exhausted) { ExhaustedIsFinal(lab, cfg, log, ticks, records, journal, offset, actions); }
    if S.FinishedWell(cfg, log) && S.FullTicks(log, ticks) > |S.Eligible(log)| * |lab.patches| && !lab.deadline
      && lab.reliable {
      FinishedIsDecided(lab, cfg, log, ticks, p, records, journal, offset);
    }
  }

  lemma FlyingBooks(lab: Lab, q: Queue, core: Core, j: Job)
    requires Flying(lab, q, j)
    ensures Accounts(q.(core := core), 1)
  {
    OpenQueue(lab, q, {j.input});
  }

  lemma FlyingReady(lab: Lab, q: Queue, j: Job)
    requires Flying(lab, q, j)
    ensures j.input < |q.reader.admitted| && j.input < |q.served| && JobInv(lab, q.core, j.input, LeftOf(lab, j))
  {
  }

  lemma PendingNotEmpty(lab: Lab, q: Queue, admitted: set<nat>, k: nat)
    requires QueueInv(lab, q) && k < |q.jobs| && CoreInv(lab, q.core, admitted) && q.core.active != {}
    ensures LeftOf(lab, q.jobs[k]) != {}
  {
    OpenQueue(lab, q, {});
    OpenCore(lab, q.core, admitted);
    var p :| p in q.core.active;
    assert p in lab.patches && 0 in UpTo(|lab.patches|);
  }

  /** The jobs from `k` on, of which the first has only candidates left. */
  lemma JobsFrom(lab: Lab, q: Queue, k: nat)
    requires QueueInv(lab, q) && k < |q.jobs|
    ensures Proper(q.jobs[k..]) && q.jobs[k..][0] == q.jobs[k] && q.jobs[k..][1..] == q.jobs[k + 1..]
    ensures LeftOf(lab, q.jobs[k]) <= UpTo(|lab.patches|)
  {
    OpenQueue(lab, q, {});
    assert JobOk(lab, q.core, q.reader, q.served, q.jobs[k]);
    assert forall i :: 0 <= i < |q.jobs[k..]| ==> q.jobs[k..][i] == q.jobs[k + i];
  }

  lemma ObjectsWithout(heap: seq<Entry>, k: nat)
    requires k < |heap| && Separate(heap)
    ensures Objects(Without(heap, k)) <= Objects(heap) && Separate(Without(heap, k))
    ensures heap[k].sweep != null ==> Apart(Without(heap, k), heap[k].sweep)
                                      && heap[k].sweep in Objects(heap) && heap[k].sweep.bits in Objects(heap)
  {
    var rest := Without(heap, k);
    forall o | o in Objects(rest)
      ensures o in Objects(heap)
    {
      var i :| 0 <= i < |rest| && rest[i].sweep != null && (o == rest[i].sweep || o == rest[i].sweep.bits);
      assert heap[if i < k then i else i + 1] == rest[i];
    }
  }

  lemma ApartObjects(heap: seq<Entry>, sweep: ConcreteInputSweep)
    requires Apart(heap, sweep)
    ensures sweep !in Objects(heap) && sweep.bits !in Objects(heap)
  {
  }

  lemma SweepSnoc(heap: seq<Entry>, e: Entry)
    requires Separate(heap) && e.sweep != null && Apart(heap, e.sweep)
    ensures Separate(heap + [e]) && Objects(heap + [e]) <= Objects(heap) + {e.sweep, e.sweep.bits}
  {
    var longer := heap + [e];
    forall o | o in Objects(longer)
      ensures o in Objects(heap) + {e.sweep, e.sweep.bits}
    {
      var i :| 0 <= i < |longer| && longer[i].sweep != null && (o == longer[i].sweep || o == longer[i].sweep.bits);
      if i < |heap| { assert heap[i].sweep != null; }
    }
  }
}
