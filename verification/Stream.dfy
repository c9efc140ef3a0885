/** The row stream from the minimizer to the verifier: how lines are ingested,
    what the minimizer can publish, and what a verifier that samples it sees. */
module Stream {
  import opened Sequences
  import opened Options

  // ----- lines and scores -----

  datatype Score = MakeScore(outcomes: nat, signatures: nat, edges: nat, seqno: nat)

  /** The heap key: most novel first, then publication order. */
  datatype Key = MakeKey(outcomes: int, signatures: int, edges: int, seqno: nat)

  function HeapKey(s: Score): Key { MakeKey(0 - s.outcomes, 0 - s.signatures, 0 - s.edges, s.seqno) }

  datatype Line =
    | Header
    | Row(score: Option<Score>, input: nat, eligible: bool)
    | DoneMark
    | StopMark(wallTime: bool)
    | Foreign
    | Note

  datatype Error =
    | ForeignStream | LateHeader | RowAfterTerminal | MissingScore | NoHeader | DecreasingSequence
    | UnsupportedStop | NoTerminalMarker | MissingMarker | Truncated

  datatype Admission = Admit(key: Key, input: nat)

  datatype Reader = MakeReader(
    scheduled: bool, lastSeq: int, rowsSeen: nat, doneSeen: bool, stopSeen: bool, admitted: seq<Admission>)

  const START := MakeReader(false, -1, 0, false, false, [])

  /** Whether a writer thread is attached, and whether it scores its rows. */
  datatype Config = MakeConfig(live: bool, novelty: bool)

  datatype Result<T> = Ok(value: T) | Err(error: Error)

  // ----- ingestion -----

  function IngestRow(cfg: Config, r: Reader, score: Option<Score>, input: nat, eligible: bool): Result<Reader>
  {
    if r.doneSeen || r.stopSeen then Err(RowAfterTerminal)
    else if r.scheduled != score.Some? then Err(MissingScore)
    else if !r.scheduled && cfg.live && cfg.novelty then Err(NoHeader)
    else if score.Some? && score.value.seqno <= r.lastSeq then Err(DecreasingSequence)
    else
      var key := if score.Some? then HeapKey(score.value) else MakeKey(0, 0, 0, r.rowsSeen + 1);
      Ok(r.(lastSeq := if score.Some? then score.value.seqno else r.lastSeq,
            rowsSeen := r.rowsSeen + 1,
            admitted := if eligible then r.admitted + [Admit(key, input)] else r.admitted))
  }

  function Ingest(cfg: Config, r: Reader, line: Line): Result<Reader>
  {
    match line
    case Header =>
      if r.scheduled || r.rowsSeen > 0 || r.doneSeen || r.stopSeen then Err(LateHeader)
      else Ok(r.(scheduled := true))
    case Row(score, input, eligible) => IngestRow(cfg, r, score, input, eligible)
    case DoneMark => Ok(r.(doneSeen := true))
    case StopMark(wallTime) => if wallTime then Ok(r.(stopSeen := true)) else Err(UnsupportedStop)
    case Foreign => Err(ForeignStream)
    case Note => Ok(r)
  }

  function IngestAll(cfg: Config, r: Reader, lines: seq<Line>): Result<Reader>
    decreases |lines|
  {
    if lines == [] then Ok(r)
    else
      var next := Ingest(cfg, r, lines[0]);
      if next.Err? then next else IngestAll(cfg, next.value, lines[1..])
  }

  lemma {:induction false} IngestConcat(cfg: Config, r: Reader, a: seq<Line>, b: seq<Line>)
    ensures IngestAll(cfg, r, a + b) ==
            var m := IngestAll(cfg, r, a);
            if m.Err? then m else IngestAll(cfg, m.value, b)
    decreases |a|
  {
    if a == [] {
      assert a + b == b;
    } else {
      assert (a + b)[1..] == a[1..] + b;
      var next := Ingest(cfg, r, a[0]);
      if next.Ok? { IngestConcat(cfg, next.value, a[1..], b); }
    }
  }

  // ----- distinct keys -----

  /** Admissions carry strictly increasing sequence numbers, so two queued
      inputs never tie on their keys. */
  ghost predicate KeysIncrease(r: Reader)
  {
    && (forall i, j :: 0 <= i < j < |r.admitted| ==> r.admitted[i].key.seqno < r.admitted[j].key.seqno)
    && (forall i :: 0 <= i < |r.admitted| ==>
          r.admitted[i].key.seqno <= if r.scheduled then r.lastSeq else r.rowsSeen)
    && (r.rowsSeen == 0 ==> r.admitted == [])
  }

  lemma IngestKeepsKeys(cfg: Config, r: Reader, line: Line)
    requires KeysIncrease(r) && Ingest(cfg, r, line).Ok?
    ensures KeysIncrease(Ingest(cfg, r, line).value)
  {
  }

  lemma IngestAdmits(cfg: Config, r: Reader, line: Line)
    requires Ingest(cfg, r, line).Ok?
    ensures r.admitted <= Ingest(cfg, r, line).value.admitted
    ensures |Ingest(cfg, r, line).value.admitted| <= |r.admitted| + 1
  {
  }

  /** Once a terminal marker was read, an accepted log holds no more rows and no
      header. */
  lemma {:induction false} MarkerIsLast(cfg: Config, r: Reader, lines: seq<Line>)
    requires (r.doneSeen || r.stopSeen) && IngestAll(cfg, r, lines).Ok?
    ensures var after := IngestAll(cfg, r, lines).value;
            && Eligible(lines) == [] && after.scheduled == r.scheduled
            && (r.doneSeen ==> after.doneSeen) && (r.stopSeen ==> after.stopSeen)
    decreases |lines|
  {
    if lines != [] { MarkerIsLast(cfg, Ingest(cfg, r, lines[0]).value, lines[1..]); }
  }

  // ----- what a reader makes of a log -----

  ghost predicate HasRow(log: seq<Line>) { exists i :: 0 <= i < |log| && log[i].Row? }

  ghost predicate HasMark(log: seq<Line>) { DoneMark in log || StopMark(true) in log }

  /** A row of the log has a sequence number of `n` or more. */
  ghost predicate Reaches(log: seq<Line>, n: int)
  {
    exists i :: 0 <= i < |log| && log[i].Row? && log[i].score.Some? && n <= log[i].score.value.seqno
  }

  /** Why a line is refused after the lines of `log`. */
  ghost predicate Offends(cfg: Config, log: seq<Line>, line: Line, e: Error)
  {
    var scheduled, due := Header in log, line.Row? && !HasMark(log);
    match e
    case ForeignStream => line.Foreign?
    case LateHeader => line.Header? && (scheduled || HasRow(log) || HasMark(log))
    case UnsupportedStop => line == StopMark(false)
    case RowAfterTerminal => line.Row? && HasMark(log)
    case MissingScore => due && (scheduled <==> line.score.None?)
    case NoHeader => due && !scheduled && line.score.None? && cfg.live && cfg.novelty
    case DecreasingSequence => due && scheduled && line.score.Some? && Reaches(log, line.score.value.seqno)
    case _ => false
  }

  /** No line offends. */
  ghost predicate Clean(cfg: Config, log: seq<Line>)
  {
    forall k, d :: 0 <= k < |log| ==> !Offends(cfg, log[..k], log[k], d)
  }

  /** The first line that offends, and how. */
  ghost predicate FirstOffence(cfg: Config, log: seq<Line>, n: nat, e: Error)
  {
    n < |log| && Clean(cfg, log[..n]) && Offends(cfg, log[..n], log[n], e)
  }

  /** What the reader remembers of a log. */
  ghost predicate Remembers(r: Reader, log: seq<Line>)
  {
    && (r.scheduled <==> Header in log) && (r.doneSeen <==> DoneMark in log)
    && (r.stopSeen <==> StopMark(true) in log) && (r.rowsSeen > 0 <==> HasRow(log))
    && forall n: nat :: n <= r.lastSeq <==> Reaches(log, n)
  }

  lemma ReachesSnoc(log: seq<Line>, line: Line, n: int)
    ensures Reaches(log + [line], n) <==>
            Reaches(log, n) || (line.Row? && line.score.Some? && n <= line.score.value.seqno)
    ensures HasRow(log + [line]) <==> HasRow(log) || line.Row?
  {
    var longer := log + [line];
    assert longer[|log|] == line;
    if Reaches(log, n) {
      var i :| 0 <= i < |log| && log[i].Row? && log[i].score.Some? && n <= log[i].score.value.seqno;
      assert longer[i] == log[i];
    }
    if HasRow(log) {
      var i :| 0 <= i < |log| && log[i].Row?;
      assert longer[i] == log[i];
    }
  }

  /** One line: refused for exactly one reason, or remembered. */
  lemma IngestMeans(cfg: Config, r: Reader, log: seq<Line>, line: Line)
    requires Remembers(r, log)
    ensures forall e :: Ingest(cfg, r, line) == Err(e) <==> Offends(cfg, log, line, e)
    ensures Ingest(cfg, r, line).Ok? ==> Remembers(Ingest(cfg, r, line).value, log + [line])
  {
    if line.Row? && line.score.Some? { assert line.score.value.seqno <= r.lastSeq <==>
                                              Reaches(log, line.score.value.seqno); }
    if Ingest(cfg, r, line).Ok? {
      var next := Ingest(cfg, r, line).value;
      forall n: nat
        ensures n <= next.lastSeq <==> Reaches(log + [line], n)
      {
        ReachesSnoc(log, line, n);
      }
      ReachesSnoc(log, line, 0);
    }
  }

  lemma CleanSnoc(cfg: Config, log: seq<Line>, line: Line)
    ensures Clean(cfg, log + [line]) <==> Clean(cfg, log) && forall d :: !Offends(cfg, log, line, d)
  {
    var longer := log + [line];
    assert longer[..|log|] == log && longer[|log|] == line;
    assert forall k :: 0 <= k < |log| ==> longer[..k] == log[..k] && longer[k] == log[k];
  }

  lemma FirstOffenceSnoc(cfg: Config, log: seq<Line>, line: Line, n: nat, e: Error)
    ensures FirstOffence(cfg, log + [line], n, e) <==>
            if n == |log| then Clean(cfg, log) && Offends(cfg, log, line, e) else FirstOffence(cfg, log, n, e)
  {
    assert (log + [line])[..|log|] == log;
    if n < |log| { assert (log + [line])[..n] == log[..n]; }
  }

  ghost predicate Offended(cfg: Config, log: seq<Line>, e: Error) { exists n :: FirstOffence(cfg, log, n, e) }

  lemma OffendedSnoc(cfg: Config, log: seq<Line>, line: Line, e: Error)
    ensures Offended(cfg, log + [line], e) <==>
            Offended(cfg, log, e) || (Clean(cfg, log) && Offends(cfg, log, line, e))
  {
    if n: nat :| FirstOffence(cfg, log, n, e) { FirstOffenceSnoc(cfg, log, line, n, e); }
    if n: nat :| FirstOffence(cfg, log + [line], n, e) { FirstOffenceSnoc(cfg, log, line, n, e); }
    FirstOffenceSnoc(cfg, log, line, |log|, e);
  }

  /** A log is accepted exactly when no line of it offends, and then the reader
      knows its header and its marks; otherwise the first offence is the error. */
  lemma {:induction false} ReadMeans(cfg: Config, log: seq<Line>)
    ensures IngestAll(cfg, START, log).Ok? <==> Clean(cfg, log)
    ensures forall e :: IngestAll(cfg, START, log) == Err(e) <==> Offended(cfg, log, e)
    ensures IngestAll(cfg, START, log).Ok? ==> Remembers(IngestAll(cfg, START, log).value, log)
    decreases |log|
  {
    if log == [] { return; }
    var n := |log| - 1;
    ReadMeans(cfg, log[..n]);
    assert log[..n] + [log[n]] == log;
    ReadNext(cfg, log[..n], log[n]);
  }

  lemma ReadNext(cfg: Config, log: seq<Line>, line: Line)
    requires var before := IngestAll(cfg, START, log);
             && (before.Ok? <==> Clean(cfg, log)) && (forall e :: before == Err(e) <==> Offended(cfg, log, e))
             && (before.Ok? ==> Remembers(before.value, log))
    ensures var whole := IngestAll(cfg, START, log + [line]);
            && (whole.Ok? <==> Clean(cfg, log + [line]))
            && (forall e :: whole == Err(e) <==> Offended(cfg, log + [line], e))
            && (whole.Ok? ==> Remembers(whole.value, log + [line]))
  {
    var before := IngestAll(cfg, START, log);
    CleanSnoc(cfg, log, line);
    forall e ensures Offended(cfg, log + [line], e) <==>
                     Offended(cfg, log, e) || (Clean(cfg, log) && Offends(cfg, log, line, e)) {
      OffendedSnoc(cfg, log, line, e);
    }
    if before.Ok? {
      IngestAppend(cfg, log, line);
      IngestMeans(cfg, before.value, log, line);
    } else {
      IngestConcat(cfg, START, log, [line]);
    }
  }

  // ----- the order of service -----

  /** The scores of the eligible rows of a log, in order. */
  function Scores(lines: seq<Line>): (s: seq<Option<Score>>)
    ensures |s| == |Eligible(lines)|
  {
    if lines == [] then []
    else (if lines[0].Row? && lines[0].eligible then [lines[0].score] else []) + Scores(lines[1..])
  }

  /** Most new outcomes first, then most new signatures, then most new edges, then
      publication order. */
  predicate MoreNovel(a: Score, b: Score)
  {
    if a.outcomes != b.outcomes then a.outcomes > b.outcomes
    else if a.signatures != b.signatures then a.signatures > b.signatures
    else if a.edges != b.edges then a.edges > b.edges
    else a.seqno < b.seqno
  }

  /** The `i`-th eligible row of the log goes before the `j`-th; rows without
      scores go in publication order. */
  predicate Ahead(log: seq<Line>, i: nat, j: nat)
    requires i < |Scores(log)| && j < |Scores(log)|
  {
    var a, b := Scores(log)[i], Scores(log)[j];
    if a.Some? && b.Some? then MoreNovel(a.value, b.value) else i < j
  }

  /** The admissions of a reader are those of rows with these scores. */
  ghost predicate Keyed(r: Reader, scores: seq<Option<Score>>)
  {
    && KeysIncrease(r) && |r.admitted| == |scores|
    && forall k :: 0 <= k < |scores| ==> (scores[k].Some? <==> r.scheduled) && KeyOf(r.admitted[k].key, scores[k])
  }

  predicate KeyOf(key: Key, score: Option<Score>)
  {
    match score
    case None => key.outcomes == key.signatures == key.edges == 0
    case Some(s) =>
      && key.outcomes + s.outcomes == 0 && key.signatures + s.signatures == 0 && key.edges + s.edges == 0
      && key.seqno == s.seqno
  }

  lemma {:induction false} IngestKeys(cfg: Config, r: Reader, scores: seq<Option<Score>>, lines: seq<Line>)
    requires Keyed(r, scores) && IngestAll(cfg, r, lines).Ok?
    ensures Keyed(IngestAll(cfg, r, lines).value, scores + Scores(lines))
    decreases |lines|
  {
    if lines == [] {
      assert scores + [] == scores;
    } else {
      var head := if lines[0].Row? && lines[0].eligible then [lines[0].score] else [];
      KeyedNext(cfg, r, scores, lines[0], head);
      IngestKeys(cfg, Ingest(cfg, r, lines[0]).value, scores + head, lines[1..]);
      assert scores + head + Scores(lines[1..]) == scores + (head + Scores(lines[1..]));
    }
  }

  lemma KeyedNext(cfg: Config, r: Reader, scores: seq<Option<Score>>, line: Line, head: seq<Option<Score>>)
    requires Keyed(r, scores) && Ingest(cfg, r, line).Ok?
    requires head == if line.Row? && line.eligible then [line.score] else []
    ensures Keyed(Ingest(cfg, r, line).value, scores + head)
  {
    IngestKeepsKeys(cfg, r, line);
    assert head == [] ==> scores + head == scores;
  }

  /** The keys of the admissions order them as their rows are ordered. */
  lemma LogKeys(cfg: Config, log: seq<Line>)
    requires IngestAll(cfg, START, log).Ok?
    ensures Keyed(IngestAll(cfg, START, log).value, Scores(log))
  {
    IngestKeys(cfg, START, [], log);
    assert [] + Scores(log) == Scores(log);
  }

  // ----- what was published -----

  /** The eligible rows of a log, in order. */
  function Eligible(lines: seq<Line>): seq<nat>
  {
    if lines == [] then []
    else (if lines[0].Row? && lines[0].eligible then [lines[0].input] else []) + Eligible(lines[1..])
  }

  function Inputs(a: seq<Admission>): (s: seq<nat>)
    ensures |s| == |a|
  {
    seq(|a|, i requires 0 <= i < |a| => a[i].input)
  }

  /** Rows carry ids below `bound`, increasing along the log. */
  ghost predicate IdsIncrease(log: seq<Line>, bound: nat)
  {
    && (forall i :: 0 <= i < |log| && log[i].Row? ==> log[i].input < bound)
    && (forall i, j :: 0 <= i < j < |log| && log[i].Row? && log[j].Row? ==> log[i].input < log[j].input)
  }

  lemma {:induction false} EligibleFrom(log: seq<Line>, x: nat)
    requires x in Eligible(log)
    ensures exists i :: 0 <= i < |log| && log[i].Row? && log[i].input == x
    decreases |log|
  {
    if x in Eligible(log[1..]) {
      EligibleFrom(log[1..], x);
      var i :| 0 <= i < |log[1..]| && log[1..][i].Row? && log[1..][i].input == x;
      assert log[i + 1] == log[1..][i];
    } else {
      assert log[0].Row? && log[0].input == x;
    }
  }

  lemma {:induction false} EligibleIncreases(log: seq<Line>, bound: nat)
    requires IdsIncrease(log, bound)
    ensures Increasing(Eligible(log))
    decreases |log|
  {
    if log != [] {
      assert forall i :: 0 <= i < |log[1..]| ==> log[1..][i] == log[i + 1];
      EligibleIncreases(log[1..], bound);
      if log[0].Row? && log[0].eligible {
        forall j | 0 <= j < |Eligible(log[1..])|
          ensures log[0].input < Eligible(log[1..])[j]
        {
          EligibleFrom(log[1..], Eligible(log[1..])[j]);
        }
      }
    }
  }

  /** Every published eligible row is admitted exactly once, in order. */
  lemma {:induction false} AdmitsAllEligible(cfg: Config, r: Reader, lines: seq<Line>)
    requires IngestAll(cfg, r, lines).Ok?
    ensures Inputs(IngestAll(cfg, r, lines).value.admitted) == Inputs(r.admitted) + Eligible(lines)
    decreases |lines|
  {
    if lines == [] {
      assert Inputs(r.admitted) + [] == Inputs(r.admitted);
    } else {
      var next := Ingest(cfg, r, lines[0]).value;
      AdmitsAllEligible(cfg, next, lines[1..]);
      var head := if lines[0].Row? && lines[0].eligible then [lines[0].input] else [];
      assert Inputs(next.admitted) == Inputs(r.admitted) + head;
      assert Inputs(r.admitted) + head + Eligible(lines[1..]) == Inputs(r.admitted) + (head + Eligible(lines[1..]));
    }
  }

  lemma {:induction false} EligibleConcat(a: seq<Line>, b: seq<Line>)
    ensures Eligible(a + b) == Eligible(a) + Eligible(b)
    decreases |a|
  {
    if a == [] {
      assert a + b == b && [] + Eligible(b) == Eligible(b);
    } else {
      EligibleConcat(a[1..], b);
      assert (a + b)[1..] == a[1..] + b;
      var head := if a[0].Row? && a[0].eligible then [a[0].input] else [];
      assert head + (Eligible(a[1..]) + Eligible(b)) == head + Eligible(a[1..]) + Eligible(b);
    }
  }

  lemma AcceptedPrefix(cfg: Config, log: seq<Line>, n: nat)
    requires n <= |log| && IngestAll(cfg, START, log).Ok?
    ensures IngestAll(cfg, START, log[..n]).Ok?
    ensures IngestAll(cfg, IngestAll(cfg, START, log[..n]).value, log[n..]) == IngestAll(cfg, START, log)
  {
    IngestConcat(cfg, START, log[..n], log[n..]);
    assert log[..n] + log[n..] == log;
  }

  /** Reading up to a terminal marker of an accepted log reads every row of it. */
  lemma MarkedPrefixHasAll(cfg: Config, log: seq<Line>, n: nat)
    requires n <= |log| && IngestAll(cfg, START, log).Ok?
    requires var r := IngestAll(cfg, START, log[..n]); r.Ok? && (r.value.doneSeen || r.value.stopSeen)
    ensures Eligible(log[n..]) == [] && Eligible(log[..n]) == Eligible(log)
  {
    AcceptedPrefix(cfg, log, n);
    MarkerIsLast(cfg, IngestAll(cfg, START, log[..n]).value, log[n..]);
    EligibleConcat(log[..n], log[n..]);
    assert log[..n] + log[n..] == log && Eligible(log[..n]) + [] == Eligible(log[..n]);
  }

  // ----- the minimizer -----

  datatype Phase = Starting | Running | Finished | Exited

  datatype Producer = MakeProducer(log: seq<Line>, phase: Phase, nextId: nat, aborted: bool)

  const INITIAL := MakeProducer([], Starting, 0, false)

  /** One atomic action of the minimizer, with its choices. */
  datatype Action =
    | Begin
    | Publish(eligible: bool, outcomes: nat, signatures: nat, edges: nat)
    | Comment
    | MarkDone
    | MarkStopped
    | Die
    | Abort

  function Append(s: Producer, line: Line): Producer { s.(log := s.log + [line]) }

  /** The minimizer writes its header before any row when it scores them, ids
      grow by one per row, and a terminal marker precedes its exit unless it
      aborts. */
  function Produce(cfg: Config, s: Producer, a: Action): Producer
  {
    match a
    case Begin =>
      if s.phase != Starting then s
      else (if cfg.novelty then Append(s, Header) else s).(phase := Running)
    case Publish(eligible, o, g, e) =>
      if s.phase != Running then s
      else Append(s, Row(if cfg.novelty then Some(MakeScore(o, g, e, s.nextId)) else None, s.nextId, eligible))
             .(nextId := s.nextId + 1)
    case Comment => if s.phase == Starting || s.phase == Running then Append(s, Note) else s
    case MarkDone => if s.phase == Running then Append(s, DoneMark).(phase := Finished) else s
    case MarkStopped =>
      if s.phase == Starting || s.phase == Running then Append(s, StopMark(true)).(phase := Finished) else s
    case Die => if s.phase == Finished then s.(phase := Exited) else s
    case Abort =>
      if s.phase == Starting || s.phase == Running then s.(phase := Exited, aborted := true) else s
  }

  /** The log is one the verifier accepts, its row ids increase, and it is marked
      exactly when the minimizer has finished without aborting. */
  ghost predicate LogInv(cfg: Config, s: Producer)
  {
    var whole := IngestAll(cfg, START, s.log);
    && whole.Ok?
    && whole.value.lastSeq == (if cfg.novelty then s.nextId - 1 else -1)
    && (s.phase == Starting ==> !whole.value.scheduled && s.nextId == 0)
    && (s.phase == Running ==> whole.value.scheduled == cfg.novelty)
    && whole.value.rowsSeen == s.nextId && IdsIncrease(s.log, s.nextId)
    && (s.aborted ==> s.phase == Exited)
    && (whole.value.doneSeen || whole.value.stopSeen <==> (s.phase == Finished || s.phase == Exited) && !s.aborted)
    && (whole.value.doneSeen ==> whole.value.scheduled == cfg.novelty)
  }

  lemma IngestAppend(cfg: Config, log: seq<Line>, line: Line)
    requires IngestAll(cfg, START, log).Ok?
    ensures IngestAll(cfg, START, log + [line]) == Ingest(cfg, IngestAll(cfg, START, log).value, line)
  {
    IngestConcat(cfg, START, log, [line]);
    var r := Ingest(cfg, IngestAll(cfg, START, log).value, line);
    assert [line][1..] == [];
  }

  /** Every line the minimizer appends is one the verifier accepts. */
  lemma ProduceKeepsLog(cfg: Config, s: Producer, a: Action)
    requires cfg.live && LogInv(cfg, s)
    ensures LogInv(cfg, Produce(cfg, s, a))
  {
    var whole := IngestAll(cfg, START, s.log).value;
    match a
    case Begin => IngestAppend(cfg, s.log, Header);
    case Publish(eligible, o, g, e) =>
      IngestAppend(cfg, s.log,
                   Row(if cfg.novelty then Some(MakeScore(o, g, e, s.nextId)) else None, s.nextId, eligible));
    case Comment => IngestAppend(cfg, s.log, Note);
    case MarkDone => IngestAppend(cfg, s.log, DoneMark);
    case MarkStopped => IngestAppend(cfg, s.log, StopMark(true));
    case _ =>
  }

  /** The minimizer after any sequence of actions. */
  ghost function After(cfg: Config, actions: seq<Action>): (s: Producer)
    requires cfg.live
    ensures LogInv(cfg, s)
    decreases |actions|
  {
    if actions == [] then INITIAL
    else
      var s := After(cfg, actions[..|actions| - 1]);
      ProduceKeepsLog(cfg, s, actions[|actions| - 1]);
      Produce(cfg, s, actions[|actions| - 1])
  }

  lemma OneMore(cfg: Config, actions: seq<Action>, a: Action)
    requires cfg.live
    ensures After(cfg, actions + [a]) == Produce(cfg, After(cfg, actions), a)
  {
    assert (actions + [a])[..|actions|] == actions;
  }

  ghost predicate Over(s: Producer) { s.phase == Finished || s.phase == Exited }

  /** What later actions leave alone: the log only grows, nothing follows the
      marker, and nothing follows an exit. */
  ghost predicate Grown(s: Producer, later: Producer)
  {
    && s.log <= later.log && (Over(s) ==> later.log == s.log && Over(later)) && (s.phase == Exited ==> later == s)
  }

  lemma ProduceGrows(cfg: Config, s: Producer, a: Action)
    ensures Grown(s, Produce(cfg, s, a)) && (Produce(cfg, s, a).aborted ==> s.aborted || a == Abort)
  {
  }

  lemma GrownTransitive(a: Producer, b: Producer, c: Producer)
    requires Grown(a, b) && Grown(b, c)
    ensures Grown(a, c)
  {
  }

  lemma {:induction false} AfterGrows(cfg: Config, actions: seq<Action>, n: nat)
    requires cfg.live && n <= |actions|
    ensures Grown(After(cfg, actions[..n]), After(cfg, actions))
    decreases |actions|
  {
    var m := |actions| - 1;
    if n <= m {
      assert actions[..m][..n] == actions[..n] && actions[..m] + [actions[m]] == actions;
      AfterGrows(cfg, actions[..m], n);
      OneMore(cfg, actions[..m], actions[m]);
      ProduceGrows(cfg, After(cfg, actions[..m]), actions[m]);
      GrownTransitive(After(cfg, actions[..n]), After(cfg, actions[..m]), After(cfg, actions));
    } else {
      assert actions[..n] == actions;
    }
  }

  lemma {:induction false} AbortedByAction(cfg: Config, actions: seq<Action>)
    requires cfg.live && After(cfg, actions).aborted
    ensures Abort in actions
    decreases |actions|
  {
    var n := |actions| - 1;
    ProduceGrows(cfg, After(cfg, actions[..n]), actions[n]);
    if actions[n] != Abort { AbortedByAction(cfg, actions[..n]); }
  }

  /** The row of the `i`-th publication. */
  function RowOf(cfg: Config, a: Action, i: nat): Line
    requires a.Publish?
  {
    Row(if cfg.novelty then Some(MakeScore(a.outcomes, a.signatures, a.edges, i)) else None, i, a.eligible)
  }

  /** The log of a minimizer that begins, publishes these rows and says it is done. */
  function WholeLog(cfg: Config, rows: seq<Action>): seq<Line>
    requires forall a :: a in rows ==> a.Publish?
  {
    (if cfg.novelty then [Header] else []) + seq(|rows|, i requires 0 <= i < |rows| => RowOf(cfg, rows[i], i))
  }

  lemma WholeLogGrows(cfg: Config, rows: seq<Action>, n: nat)
    requires |rows| == n + 1 && forall a :: a in rows ==> a.Publish?
    ensures WholeLog(cfg, rows) == WholeLog(cfg, rows[..n]) + [RowOf(cfg, rows[n], n)]
  {
  }

  lemma RowAppended(cfg: Config, s: Producer, a: Action)
    requires s.phase == Running && a.Publish?
    ensures Produce(cfg, s, a) == MakeProducer(s.log + [RowOf(cfg, a, s.nextId)], Running, s.nextId + 1, s.aborted)
  {
  }

  lemma {:induction false} AfterRows(cfg: Config, rows: seq<Action>)
    requires cfg.live && forall a :: a in rows ==> a.Publish?
    ensures After(cfg, [Begin] + rows) == MakeProducer(WholeLog(cfg, rows), Running, |rows|, false)
    decreases |rows|
  {
    if rows == [] {
      assert [Begin] + rows == [] + [Begin];
      OneMore(cfg, [], Begin);
    } else {
      var n := |rows| - 1;
      assert [Begin] + rows == [Begin] + rows[..n] + [rows[n]];
      AfterRows(cfg, rows[..n]);
      OneMore(cfg, [Begin] + rows[..n], rows[n]);
      RowAppended(cfg, After(cfg, [Begin] + rows[..n]), rows[n]);
      WholeLogGrows(cfg, rows, n);
    }
  }

  /** Any rows at all can be published: a minimizer that finishes leaves its
      header, if it scores, one row for each with ids counting up from zero, and
      the done mark; one that is stopped leaves the stop mark instead, and one
      that aborts no mark. */
  lemma AnyRowsPublished(cfg: Config, rows: seq<Action>)
    requires cfg.live && forall a :: a in rows ==> a.Publish?
    ensures After(cfg, [Begin] + rows + [MarkDone]).log == WholeLog(cfg, rows) + [DoneMark]
    ensures After(cfg, [Begin] + rows + [MarkStopped]).log == WholeLog(cfg, rows) + [StopMark(true)]
    ensures After(cfg, [Begin] + rows + [Abort]).log == WholeLog(cfg, rows)
  {
    AfterRows(cfg, rows);
    OneMore(cfg, [Begin] + rows, MarkDone);
    OneMore(cfg, [Begin] + rows, MarkStopped);
    OneMore(cfg, [Begin] + rows, Abort);
  }

  /** The log of one that finishes is one the verifier finishes on. */
  lemma PublishedFinishes(cfg: Config, rows: seq<Action>)
    requires cfg.live && forall a :: a in rows ==> a.Publish?
    ensures FinishedWell(cfg, WholeLog(cfg, rows) + [DoneMark])
  {
    AfterRows(cfg, rows);
    OneMore(cfg, [Begin] + rows, MarkDone);
    NeverSaysStopped(cfg, rows);
    DoneFinishes(cfg, After(cfg, [Begin] + rows + [MarkDone]));
  }

  lemma DoneFinishes(cfg: Config, s: Producer)
    requires LogInv(cfg, s) && s.phase == Finished && StopMark(true) !in s.log
    ensures FinishedWell(cfg, s.log)
  {
    ReadMeans(cfg, s.log);
  }

  lemma NeverSaysStopped(cfg: Config, rows: seq<Action>)
    requires forall a :: a in rows ==> a.Publish?
    ensures StopMark(true) !in WholeLog(cfg, rows) + [DoneMark]
  {
  }

  /** Rows are published with increasing ids, so each one once. */
  lemma PublishedInOrder(cfg: Config, actions: seq<Action>)
    requires cfg.live
    ensures Increasing(Eligible(After(cfg, actions).log))
  {
    EligibleIncreases(After(cfg, actions).log, After(cfg, actions).nextId);
  }

  // ----- sampling the minimizer -----

  datatype StopReason = Exhausted | AllRejected | WallTime

  /** One observation of the outside world: how much of the log was there, and
      whether the writer was alive after the read. */
  datatype Tick = MakeTick(end: nat, alive: bool)

  /** How much of the log a tick sees. */
  function Seen(log: seq<Line>, tick: Tick): nat { if tick.end > |log| then |log| else tick.end }

  /** How much of it was seen before the `i`-th. */
  function SeenBefore(log: seq<Line>, ticks: seq<Tick>, i: nat): nat
    requires i <= |ticks|
  {
    if i == 0 then 0 else Seen(log, ticks[i - 1])
  }

  /** When a tick was taken: how many actions the minimizer had done at the read,
      and at the look that followed it. */
  datatype Moment = MakeMoment(read: nat, look: nat)

  /** The ticks are what a verifier sees that reads and looks at these moments of
      one history of the minimizer, whose log in the end is `log`. */
  ghost predicate Witnessed(cfg: Config, actions: seq<Action>, moments: seq<Moment>, log: seq<Line>, ticks: seq<Tick>)
    requires cfg.live
  {
    && log == After(cfg, actions).log && |moments| == |ticks|
    && (forall i :: 0 <= i < |ticks| ==> moments[i].read <= moments[i].look <= |actions|)
    && (forall i, j :: 0 <= i < j < |ticks| ==> moments[i].look <= moments[j].read)
    && (forall i :: 0 <= i < |ticks| ==> SeenAt(cfg, actions, moments[i], ticks[i]))
  }

  ghost predicate SeenAt(cfg: Config, actions: seq<Action>, m: Moment, tick: Tick)
    requires cfg.live && m.read <= |actions| && m.look <= |actions|
  {
    && tick.end == |After(cfg, actions[..m.read]).log|
    && tick.alive == (After(cfg, actions[..m.look]).phase != Exited)
  }

  /** How many ticks see the whole log. */
  function FullTicks(log: seq<Line>, ticks: seq<Tick>): nat
  {
    if ticks == [] then 0
    else FullTicks(log, ticks[..|ticks| - 1]) + (if Seen(log, ticks[|ticks| - 1]) == |log| then 1 else 0)
  }

  /** A log the verifier accepts, with a terminal marker. */
  ghost predicate Marked(cfg: Config, log: seq<Line>)
  {
    var r := IngestAll(cfg, START, log); r.Ok? && (r.value.doneSeen || r.value.stopSeen)
  }

  /** A log that ends in a done marker, with no stop marker. */
  ghost predicate FinishedWell(cfg: Config, log: seq<Line>)
  {
    var r := IngestAll(cfg, START, log); r.Ok? && r.value.doneSeen && !r.value.stopSeen
  }

  /** A minimizer that aborted left no marker. */
  lemma AbortedIsUnfinished(cfg: Config, actions: seq<Action>)
    requires cfg.live && After(cfg, actions).aborted
    ensures !FinishedWell(cfg, After(cfg, actions).log)
  {
  }

  lemma NeverStopped(cfg: Config, log: seq<Line>, n: nat)
    requires n <= |log| && FinishedWell(cfg, log)
    ensures IngestAll(cfg, START, log[..n]).Ok? && !IngestAll(cfg, START, log[..n]).value.stopSeen
  {
    AcceptedPrefix(cfg, log, n);
    var r := IngestAll(cfg, START, log[..n]).value;
    if r.stopSeen { MarkerIsLast(cfg, r, log[n..]); }
  }

  /** Nothing is published after a terminal marker. */
  lemma NothingFollows(cfg: Config, actions: seq<Action>)
    requires cfg.live && Marked(cfg, After(cfg, actions).log)
    ensures forall more :: After(cfg, actions + more).log == After(cfg, actions).log
  {
    forall more
      ensures After(cfg, actions + more).log == After(cfg, actions).log
    {
      assert (actions + more)[..|actions|] == actions;
      AfterGrows(cfg, actions + more, |actions|);
    }
  }

  // ----- what an error means -----

  ghost predicate Unmarked(cfg: Config, log: seq<Line>, n: nat)
  {
    n <= |log| && var r := IngestAll(cfg, START, log[..n]); r.Ok? && !r.value.doneSeen && !r.value.stopSeen
  }

  ghost predicate Unheaded(cfg: Config, log: seq<Line>, n: nat)
  {
    n <= |log| && var r := IngestAll(cfg, START, log[..n]); r.Ok? && r.value.doneSeen && !r.value.scheduled
  }

  /** Why a round fails that starts after `start` lines: a log that shrank, a
      line refused, a finished live novelty stream without its header, a replayed
      log without a marker, or a writer seen dead before and now, with no marker
      in what was read since. */
  ghost predicate RoundFails(cfg: Config, log: seq<Line>, start: nat, tick: Tick, sawDeath: bool, e: Error)
  {
    var seen := Seen(log, tick);
    if seen < start then e == Truncated
    else
      || IngestAll(cfg, START, log[..seen]) == Err(e)
      || (e == NoHeader && cfg.live && cfg.novelty && Unheaded(cfg, log, seen))
      || (e == NoTerminalMarker && !cfg.live && Unmarked(cfg, log, seen))
      || (e == MissingMarker && cfg.live && !tick.alive && sawDeath && Unmarked(cfg, log, seen))
  }

  ghost predicate DeadBefore(ticks: seq<Tick>, i: nat) { exists j :: 0 <= j < i && j < |ticks| && !ticks[j].alive }

  /** The same for the `i`-th of a sequence of observations. */
  ghost predicate FailsAt(cfg: Config, log: seq<Line>, ticks: seq<Tick>, i: nat, e: Error)
    requires i < |ticks|
  {
    RoundFails(cfg, log, SeenBefore(log, ticks, i), ticks[i], DeadBefore(ticks, i), e)
  }

  /** Nothing in the first `n` observations ends a run: none is a failure, and
      beside a minimizer none shows it stopped. */
  ghost predicate Quiet(cfg: Config, log: seq<Line>, ticks: seq<Tick>, n: nat)
    requires n <= |ticks|
  {
    forall i :: 0 <= i < n ==> Passes(cfg, log, ticks, i)
  }

  ghost predicate Passes(cfg: Config, log: seq<Line>, ticks: seq<Tick>, i: nat)
    requires i < |ticks|
  {
    && (forall e :: !FailsAt(cfg, log, ticks, i, e))
    && (cfg.live ==> StopMark(true) !in log[..Seen(log, ticks[i])])
  }

  /** The first observation that does not pass is a failure with `e`. */
  ghost predicate Failure(cfg: Config, log: seq<Line>, ticks: seq<Tick>, e: Error)
  {
    exists i :: 0 <= i < |ticks| && Quiet(cfg, log, ticks, i) && FailsAt(cfg, log, ticks, i, e)
  }

  /** A refused line stays refused whatever follows. */
  lemma RefusedStays(cfg: Config, log: seq<Line>, n: nat, m: nat)
    requires n <= m <= |log| && IngestAll(cfg, START, log[..n]).Err?
    ensures IngestAll(cfg, START, log[..m]) == IngestAll(cfg, START, log[..n])
  {
    IngestConcat(cfg, START, log[..n], log[n..m]);
    assert log[..n] + log[n..m] == log[..m];
  }

  /** A marker stays in what is read later. */
  lemma MarkedStays(cfg: Config, log: seq<Line>, n: nat, m: nat)
    requires n <= m <= |log| && IngestAll(cfg, START, log[..n]).Ok? && !Unmarked(cfg, log, n)
    ensures !Unmarked(cfg, log, m)
  {
    IngestConcat(cfg, START, log[..n], log[n..m]);
    assert log[..n] + log[n..m] == log[..m];
    if IngestAll(cfg, START, log[..m]).Ok? {
      MarkerIsLast(cfg, IngestAll(cfg, START, log[..n]).value, log[n..m]);
    }
  }

  lemma NothingUnheaded(cfg: Config, s: Producer, n: nat)
    requires cfg.live && cfg.novelty && LogInv(cfg, s)
    ensures !Unheaded(cfg, s.log, n)
  {
    if Unheaded(cfg, s.log, n) {
      AcceptedPrefix(cfg, s.log, n);
      MarkerIsLast(cfg, IngestAll(cfg, START, s.log[..n]).value, s.log[n..]);
    }
  }

  /** What a tick saw is a prefix of the final log, and all of it after an exit. */
  lemma SeenIsPrefix(cfg: Config, actions: seq<Action>, m: Moment, tick: Tick)
    requires cfg.live && m.read <= m.look <= |actions| && SeenAt(cfg, actions, m, tick)
    ensures Seen(After(cfg, actions).log, tick) == tick.end <= |After(cfg, actions).log|
    ensures After(cfg, actions).log[..tick.end] == After(cfg, actions[..m.read]).log
  {
    AfterGrows(cfg, actions, m.read);
  }

  lemma NeverShrinks(cfg: Config, actions: seq<Action>, moments: seq<Moment>, log: seq<Line>, ticks: seq<Tick>, i: nat,
                     j: nat)
    requires cfg.live && Witnessed(cfg, actions, moments, log, ticks) && i < j < |ticks|
    ensures Seen(log, ticks[i]) <= Seen(log, ticks[j])
  {
    SeenIsPrefix(cfg, actions, moments[i], ticks[i]);
    SeenIsPrefix(cfg, actions, moments[j], ticks[j]);
    var later := actions[..moments[j].read];
    assert later[..moments[i].read] == actions[..moments[i].read];
    AfterGrows(cfg, later, moments[i].read);
  }

  /** A writer seen dead has published everything, its marker included unless it
      aborted. */
  lemma DeadMeansAborted(cfg: Config, actions: seq<Action>, moments: seq<Moment>, log: seq<Line>, ticks: seq<Tick>,
                         i: nat, j: nat)
    requires cfg.live && Witnessed(cfg, actions, moments, log, ticks) && i < j < |ticks|
    requires !ticks[i].alive && Unmarked(cfg, log, Seen(log, ticks[j]))
    ensures After(cfg, actions).aborted
  {
    SeenIsPrefix(cfg, actions, moments[j], ticks[j]);
    var later := actions[..moments[j].read];
    assert later[..moments[i].look] == actions[..moments[i].look];
    assert SeenAt(cfg, actions, moments[i], ticks[i]);
    AfterGrows(cfg, later, moments[i].look);
    AfterGrows(cfg, actions, moments[j].read);
  }

  /** What is read never rewinds. */
  lemma NeverRewinds(log: seq<Line>, ticks: seq<Tick>, i: nat)
    requires i < |ticks| && forall k, j :: 0 <= k < j < |ticks| ==> Seen(log, ticks[k]) <= Seen(log, ticks[j])
    ensures SeenBefore(log, ticks, i) <= Seen(log, ticks[i])
  {
  }

  /** A failing observation of a minimizer is of one that aborted. */
  lemma OnlyAbortFailsAt(cfg: Config, actions: seq<Action>, moments: seq<Moment>, log: seq<Line>, ticks: seq<Tick>,
                         i: nat, e: Error)
    requires cfg.live && Witnessed(cfg, actions, moments, log, ticks) && i < |ticks| && FailsAt(cfg, log, ticks, i, e)
    ensures e == MissingMarker && After(cfg, actions).aborted
  {
    forall k, j | 0 <= k < j < |ticks|
      ensures Seen(log, ticks[k]) <= Seen(log, ticks[j])
    {
      NeverShrinks(cfg, actions, moments, log, ticks, k, j);
    }
    NeverRewinds(log, ticks, i);
    OnlyMarkerMissing(cfg, After(cfg, actions), SeenBefore(log, ticks, i), ticks[i], DeadBefore(ticks, i), e);
    var j :| 0 <= j < i && j < |ticks| && !ticks[j].alive;
    DeadMeansAborted(cfg, actions, moments, log, ticks, j, i);
  }

  /** On a minimizer's log a round only fails for a missing marker. */
  lemma OnlyMarkerMissing(cfg: Config, s: Producer, start: nat, tick: Tick, sawDeath: bool, e: Error)
    requires cfg.live && LogInv(cfg, s) && start <= Seen(s.log, tick)
    requires RoundFails(cfg, s.log, start, tick, sawDeath, e)
    ensures e == MissingMarker && sawDeath && Unmarked(cfg, s.log, Seen(s.log, tick))
  {
    AcceptedPrefix(cfg, s.log, Seen(s.log, tick));
    if cfg.novelty { NothingUnheaded(cfg, s, Seen(s.log, tick)); }
  }

  /** Over every history of the minimizer and every choice of moments: nothing a
      verifier sees is an error, unless the minimizer dies without its marker,
      and then only that. */
  lemma OnlyAbortFails(cfg: Config, actions: seq<Action>, moments: seq<Moment>, log: seq<Line>, ticks: seq<Tick>,
                       e: Error)
    requires cfg.live && Witnessed(cfg, actions, moments, log, ticks) && Failure(cfg, log, ticks, e)
    ensures e == MissingMarker && After(cfg, actions).aborted && Abort in actions
  {
    var i :| 0 <= i < |ticks| && Quiet(cfg, log, ticks, i) && FailsAt(cfg, log, ticks, i, e);
    OnlyAbortFailsAt(cfg, actions, moments, log, ticks, i, e);
    AbortedByAction(cfg, actions);
  }
}
