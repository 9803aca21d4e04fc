/** The parallel map: workers finish chunks in any interleaving, results are put back in order by key. */
module Pipeline {
  import opened Bytes
  import opened Results
  import Chunking

  datatype Progress = Progress(
    totalChunks: nat,
    processedChunks: nat,
    totalBytes: nat,
    processedBytes: nat,
    compressedBytes: nat)
  {
    function Updated(inputBytes: nat, outputBytes: nat): Progress {
      this.(processedChunks := processedChunks + 1,
            processedBytes := processedBytes + inputBytes,
            compressedBytes := compressedBytes + outputBytes)
    }
  }

  /** The shared counters; each update happens under the lock, so it is one step. */
  class ProgressTracker {
    var progress: Progress

    constructor (totalChunks: nat, totalBytes: nat)
      ensures progress == Progress(totalChunks, 0, totalBytes, 0, 0)
    {
      progress := Progress(totalChunks, 0, totalBytes, 0, 0);
    }

    method Update(inputBytes: nat, outputBytes: nat)
      modifies this
      ensures progress == old(progress).Updated(inputBytes, outputBytes)
    {
      progress := progress.(processedChunks := progress.processedChunks + 1);
      progress := progress.(processedBytes := progress.processedBytes + inputBytes);
      progress := progress.(compressedBytes := progress.compressedBytes + outputBytes);
    }
  }

  /** The life of one chunk: taken by a worker, processed and counted, then collected;
      or failed; or never started because another chunk had failed already. */
  datatype Phase<T> = Pending | Running | Counted(value: T) | Collected | Failed | Skipped {
    predicate Unfinished() {
      Pending? || Running? || Counted?
    }

    function StepsLeft(): nat {
      match this
      case Pending => 3
      case Running => 2
      case Counted(_) => 1
      case _ => 0
    }
  }

  type Processor<!T, !E> = (nat, seq<byte>) -> Result<(T, nat), E>

  datatype State<T, E> = State(phases: seq<Phase<T>>, results: map<nat, T>, error: Option<E>, progress: Progress) {
    predicate Complete() {
      forall i | 0 <= i < |phases| :: !phases[i].Unfinished()
    }
  }

  /** Advance chunk `i` by one step; `skip` lets a worker drop a chunk it has not started. */
  datatype Action = Action(i: nat, skip: bool)

  function Initial<T, E>(n: nat, progress: Progress): State<T, E> {
    State(seq(n, i => Pending), map[], None, progress)
  }

  predicate Enabled<T, E>(s: State<T, E>, a: Action) {
    && a.i < |s.phases|
    && s.phases[a.i].Unfinished()
    && (a.skip ==> s.phases[a.i].Pending? && s.error.Some?)
  }

  function Step<T, E>(chunks: seq<seq<byte>>, f: Processor<T, E>, s: State<T, E>, a: Action): State<T, E>
    requires |s.phases| == |chunks| && Enabled(s, a)
  {
    match s.phases[a.i]
    case Pending =>
      s.(phases := s.phases[a.i := if a.skip then Skipped else Running])
    case Running =>
      (match f(a.i, chunks[a.i])
       case Ok((value, outputBytes)) =>
         s.(phases := s.phases[a.i := Counted(value)], progress := s.progress.Updated(|chunks[a.i]|, outputBytes))
       case Err(e) =>
         s.(phases := s.phases[a.i := Failed], error := if s.error.None? then Some(e) else s.error))
    case Counted(value) =>
      s.(phases := s.phases[a.i := Collected], results := s.results[a.i := value])
  }

  /** Any interleaving: a sequence of actions, each enabled when it happens. */
  predicate IsRun<T, E>(chunks: seq<seq<byte>>, f: Processor<T, E>, s: State<T, E>, actions: seq<Action>)
    requires |s.phases| == |chunks|
    decreases |actions|
  {
    actions == [] || (Enabled(s, actions[0]) && IsRun(chunks, f, Step(chunks, f, s, actions[0]), actions[1..]))
  }

  function Run<T, E>(chunks: seq<seq<byte>>, f: Processor<T, E>, s: State<T, E>, actions: seq<Action>): (s': State<T, E>)
    requires |s.phases| == |chunks| && IsRun(chunks, f, s, actions)
    ensures |s'.phases| == |chunks|
    decreases |actions|
  {
    if actions == [] then s else Run(chunks, f, Step(chunks, f, s, actions[0]), actions[1..])
  }

  // ---- What the counters must show

  /** The counters after adding the chunks among the first `k` that have been processed. */
  function Tally<T, E>(chunks: seq<seq<byte>>, f: Processor<T, E>, phases: seq<Phase<T>>, p: Progress, k: nat): Progress
    requires k <= |chunks| == |phases|
  {
    if k == 0 then p
    else
      var q := Tally(chunks, f, phases, p, k - 1);
      var r := f(k - 1, chunks[k - 1]);
      if (phases[k - 1].Counted? || phases[k - 1].Collected?) && r.Ok? then q.Updated(|chunks[k - 1]|, r.value.1) else q
  }

  /** Two phase lists that agree on what has been processed have the same tally. */
  lemma {:induction false} TallySame<T, E>(chunks: seq<seq<byte>>, f: Processor<T, E>, a: seq<Phase<T>>, b: seq<Phase<T>>,
                                           p: Progress, k: nat)
    requires k <= |chunks| == |a| == |b|
    requires forall i | 0 <= i < k :: (a[i].Counted? || a[i].Collected?) == (b[i].Counted? || b[i].Collected?)
    ensures Tally(chunks, f, a, p, k) == Tally(chunks, f, b, p, k)
  {
    if k > 0 {
      TallySame(chunks, f, a, b, p, k - 1);
    }
  }

  /** Processing one more chunk adds exactly its bytes, in whatever order it comes. */
  lemma {:induction false} TallyAdds<T, E>(chunks: seq<seq<byte>>, f: Processor<T, E>, a: seq<Phase<T>>, i: nat, p: Progress, k: nat)
    requires i < k <= |chunks| == |a|
    requires !a[i].Counted? && !a[i].Collected? && f(i, chunks[i]).Ok?
    ensures var r := f(i, chunks[i]).value;
            Tally(chunks, f, a[i := Counted(r.0)], p, k) == Tally(chunks, f, a, p, k).Updated(|chunks[i]|, r.1)
  {
    var b := a[i := Counted(f(i, chunks[i]).value.0)];
    if i < k - 1 {
      TallyAdds(chunks, f, a, i, p, k - 1);
    } else {
      TallySame(chunks, f, a, b, p, k - 1);
    }
  }

  // ---- The invariant of every run

  /** Phase `i` is consistent with the outcome of its chunk. */
  ghost predicate PhaseOk<T, E>(chunks: seq<seq<byte>>, f: Processor<T, E>, s: State<T, E>, i: nat)
    requires i < |chunks| == |s.phases|
  {
    match s.phases[i]
    case Pending => true
    case Running => true
    case Counted(v) => f(i, chunks[i]).Ok? && f(i, chunks[i]).value.0 == v
    case Collected => f(i, chunks[i]).Ok? && i in s.results && s.results[i] == f(i, chunks[i]).value.0
    case Failed => f(i, chunks[i]).Err? && s.error.Some?
    case Skipped => s.error.Some?
  }

  ghost predicate FailureOf<T, E>(chunks: seq<seq<byte>>, f: Processor<T, E>, e: E) {
    exists i: nat | i < |chunks| :: f(i, chunks[i]) == Err(e)
  }

  ghost predicate Inv<T, E>(chunks: seq<seq<byte>>, f: Processor<T, E>, p: Progress, s: State<T, E>) {
    && |s.phases| == |chunks|
    && (forall i: nat | i < |chunks| :: PhaseOk(chunks, f, s, i))
    && (forall i: nat :: i in s.results ==> i < |chunks| && s.phases[i].Collected?)
    && (s.error.Some? ==> FailureOf(chunks, f, s.error.value))
    && s.progress == Tally(chunks, f, s.phases, p, |chunks|)
  }

  lemma {:induction false} TallyNothing<T, E>(chunks: seq<seq<byte>>, f: Processor<T, E>, phases: seq<Phase<T>>, p: Progress, k: nat)
    requires k <= |chunks| == |phases|
    requires forall i | 0 <= i < k :: phases[i].Pending?
    ensures Tally(chunks, f, phases, p, k) == p
  {
    if k > 0 {
      TallyNothing(chunks, f, phases, p, k - 1);
    }
  }

  lemma InitialInv<T, E>(chunks: seq<seq<byte>>, f: Processor<T, E>, p: Progress)
    ensures Inv(chunks, f, p, Initial(|chunks|, p))
  {
    var s: State<T, E> := Initial(|chunks|, p);
    TallyNothing(chunks, f, s.phases, p, |chunks|);
  }

  lemma StepInv<T, E>(chunks: seq<seq<byte>>, f: Processor<T, E>, p: Progress, s: State<T, E>, a: Action)
    requires Inv(chunks, f, p, s) && Enabled(s, a)
    ensures Inv(chunks, f, p, Step(chunks, f, s, a))
  {
    var s' := Step(chunks, f, s, a);
    if s.phases[a.i].Running? && f(a.i, chunks[a.i]).Ok? {
      TallyAdds(chunks, f, s.phases, a.i, p, |chunks|);
    } else {
      TallySame(chunks, f, s.phases, s'.phases, p, |chunks|);
    }
    forall i: nat | i < |chunks|
      ensures PhaseOk(chunks, f, s', i)
    {
      assert PhaseOk(chunks, f, s, i);
    }
  }

  lemma {:induction false} RunInv<T, E>(chunks: seq<seq<byte>>, f: Processor<T, E>, p: Progress, s: State<T, E>, actions: seq<Action>)
    requires Inv(chunks, f, p, s) && IsRun(chunks, f, s, actions)
    ensures Inv(chunks, f, p, Run(chunks, f, s, actions))
    decreases |actions|
  {
    if actions != [] {
      StepInv(chunks, f, p, s, actions[0]);
      RunInv(chunks, f, p, Step(chunks, f, s, actions[0]), actions[1..]);
    }
  }

  // ---- Collecting in key order

  predicate IsLeast(k: nat, keys: set<nat>) {
    k in keys && forall j | j in keys :: k <= j
  }

  lemma {:induction false} LeastExists(keys: set<nat>)
    requires keys != {}
    ensures exists k :: IsLeast(k, keys)
    decreases |keys|
  {
    var m :| m in keys;
    if keys == {m} {
      assert IsLeast(m, keys);
    } else {
      var rest := keys - {m};
      LeastExists(rest);
      var k :| IsLeast(k, rest);
      assert keys == rest + {m};
      assert IsLeast(if m < k then m else k, keys);
    }
  }

  /** The values of an ordered map, smallest key first. */
  ghost function ValuesInOrder<T>(m: map<nat, T>): seq<T>
    decreases |m.Keys|
  {
    if m.Keys == {} then []
    else
      LeastExists(m.Keys);
      var k :| IsLeast(k, m.Keys);
      assert (m - {k}).Keys == m.Keys - {k};
      [m[k]] + ValuesInOrder(m - {k})
  }

  /** With keys lo, lo+1, ..., hi-1 the values come out by position. */
  lemma {:induction false} ContiguousValues<T>(m: map<nat, T>, lo: nat, hi: nat)
    requires lo <= hi && forall i: nat :: i in m <==> lo <= i < hi
    ensures |ValuesInOrder(m)| == hi - lo
    ensures forall k | 0 <= k < hi - lo :: ValuesInOrder(m)[k] == m[lo + k]
    decreases hi - lo
  {
    if lo == hi {
      assert m.Keys == {};
    } else {
      assert lo in m.Keys;
      var rest := m - {lo};
      ContiguousValues(rest, lo + 1, hi);
      assert IsLeast(lo, m.Keys);
      assert forall k | IsLeast(k, m.Keys) :: k == lo;
      var tail := ValuesInOrder(rest);
      assert ValuesInOrder(m) == [m[lo]] + tail;
      forall k | 0 < k < hi - lo
        ensures ValuesInOrder(m)[k] == m[lo + k]
      {
        assert tail[k - 1] == rest[lo + 1 + (k - 1)];
      }
    }
  }

  ghost function Outcome<T, E>(s: State<T, E>): Result<seq<T>, E> {
    match s.error
    case Some(e) => Err(e)
    case None => Ok(ValuesInOrder(s.results))
  }

  ghost predicate AllSucceed<T, E>(chunks: seq<seq<byte>>, f: Processor<T, E>) {
    forall i: nat | i < |chunks| :: f(i, chunks[i]).Ok?
  }

  /** The sequential map the pipeline must equal. */
  function MapInOrder<T, E>(chunks: seq<seq<byte>>, f: Processor<T, E>): (vs: seq<T>)
    requires AllSucceed(chunks, f)
    ensures |vs| == |chunks| && forall i | 0 <= i < |vs| :: vs[i] == f(i, chunks[i]).value.0
  {
    seq(|chunks|, i requires 0 <= i < |chunks| => f(i, chunks[i]).value.0)
  }

  /** The counters after every chunk has been counted once. */
  function FullTally<T, E>(chunks: seq<seq<byte>>, f: Processor<T, E>, p: Progress, k: nat): (q: Progress)
    requires AllSucceed(chunks, f) && k <= |chunks|
    ensures q.processedChunks == p.processedChunks + k
    ensures q.totalChunks == p.totalChunks && q.totalBytes == p.totalBytes
  {
    if k == 0 then p else FullTally(chunks, f, p, k - 1).Updated(|chunks[k - 1]|, f(k - 1, chunks[k - 1]).value.1)
  }

  lemma {:induction false} TallyEverything<T, E>(chunks: seq<seq<byte>>, f: Processor<T, E>, phases: seq<Phase<T>>, p: Progress, k: nat)
    requires AllSucceed(chunks, f) && k <= |chunks| == |phases|
    requires forall i | 0 <= i < k :: phases[i].Collected?
    ensures Tally(chunks, f, phases, p, k) == FullTally(chunks, f, p, k)
  {
    if k > 0 {
      TallyEverything(chunks, f, phases, p, k - 1);
    }
  }

  /** What a complete state that satisfies the invariant returns. */
  lemma CompleteOutcome<T, E>(chunks: seq<seq<byte>>, f: Processor<T, E>, p: Progress, s: State<T, E>)
    requires Inv(chunks, f, p, s) && s.Complete()
    ensures AllSucceed(chunks, f) ==>
              && Outcome(s) == Ok(MapInOrder(chunks, f))
              && s.progress == FullTally(chunks, f, p, |chunks|)
    ensures !AllSucceed(chunks, f) ==> Outcome(s).Err? && FailureOf(chunks, f, Outcome(s).error)
  {
    if AllSucceed(chunks, f) {
      assert s.error.None?;
      forall i: nat | i < |chunks|
        ensures s.phases[i].Collected? && i in s.results && s.results[i] == f(i, chunks[i]).value.0
      {
        assert PhaseOk(chunks, f, s, i);
      }
      TallyEverything(chunks, f, s.phases, p, |chunks|);
      ContiguousValues(s.results, 0, |chunks|);
      assert ValuesInOrder(s.results) == MapInOrder(chunks, f);
    } else {
      var i: nat :| i < |chunks| && f(i, chunks[i]).Err?;
      assert PhaseOk(chunks, f, s, i);
    }
  }

  /** Confluence: whatever the interleaving, a complete run returns the sequential map with exact counters
      when no chunk fails, and the error of some failing chunk otherwise. */
  lemma Confluence<T, E>(chunks: seq<seq<byte>>, f: Processor<T, E>, p: Progress, actions: seq<Action>)
    requires IsRun(chunks, f, Initial(|chunks|, p), actions)
    requires Run(chunks, f, Initial(|chunks|, p), actions).Complete()
    ensures var s := Run(chunks, f, Initial(|chunks|, p), actions);
            && (AllSucceed(chunks, f) ==>
                  && Outcome(s) == Ok(MapInOrder(chunks, f))
                  && s.progress == FullTally(chunks, f, p, |chunks|))
            && (!AllSucceed(chunks, f) ==> Outcome(s).Err? && FailureOf(chunks, f, Outcome(s).error))
  {
    InitialInv(chunks, f, p);
    RunInv(chunks, f, p, Initial(|chunks|, p), actions);
    CompleteOutcome(chunks, f, p, Run(chunks, f, Initial(|chunks|, p), actions));
  }

  /** Input bytes counted are the bytes of all chunks together; output bytes those of all results together
      when the processor reports the length of what it returns. */
  lemma {:induction false} TallySums<E>(chunks: seq<seq<byte>>, f: Processor<seq<byte>, E>, p: Progress, k: nat)
    requires AllSucceed(chunks, f) && k <= |chunks|
    requires forall i: nat | i < |chunks| :: f(i, chunks[i]).value.1 == |f(i, chunks[i]).value.0|
    ensures var q := FullTally(chunks, f, p, k);
            && q.processedBytes == p.processedBytes + |Chunking.Join(chunks[..k])|
            && q.compressedBytes == p.compressedBytes + |Chunking.Join(MapInOrder(chunks, f)[..k])|
  {
    if k > 0 {
      var vs := MapInOrder(chunks, f);
      TallySums(chunks, f, p, k - 1);
      assert chunks[..k] == chunks[..k - 1] + [chunks[k - 1]];
      assert vs[..k] == vs[..k - 1] + [vs[k - 1]];
      Chunking.JoinSnoc(chunks[..k - 1], chunks[k - 1]);
      Chunking.JoinSnoc(vs[..k - 1], vs[k - 1]);
    }
  }

  // ---- The driver

  function Work<T>(phases: seq<Phase<T>>): nat {
    if phases == [] then 0 else Work(phases[..|phases| - 1]) + phases[|phases| - 1].StepsLeft()
  }

  lemma {:induction false} WorkFalls<T>(phases: seq<Phase<T>>, i: nat, x: Phase<T>)
    requires i < |phases| && x.StepsLeft() < phases[i].StepsLeft()
    ensures Work(phases[i := x]) < Work(phases)
  {
    var n := |phases| - 1;
    if i < n {
      WorkFalls(phases[..n], i, x);
      assert phases[i := x][..n] == phases[..n][i := x];
    } else {
      assert phases[i := x][..n] == phases[..n];
    }
  }

  lemma StepWorks<T, E>(chunks: seq<seq<byte>>, f: Processor<T, E>, s: State<T, E>, a: Action)
    requires |s.phases| == |chunks| && Enabled(s, a)
    ensures Work(Step(chunks, f, s, a).phases) < Work(s.phases)
  {
    WorkFalls(s.phases, a.i, Step(chunks, f, s, a).phases[a.i]);
  }

  /** Reads an ordered map out, smallest key first. */
  method IntoValues<T>(m: map<nat, T>) returns (values: seq<T>)
    ensures values == ValuesInOrder(m)
  {
    values := [];
    var rest := m;
    while rest.Keys != {}
      invariant values + ValuesInOrder(rest) == ValuesInOrder(m)
      decreases |rest.Keys|
    {
      LeastExists(rest.Keys);
      var k :| IsLeast(k, rest.Keys);
      assert forall j | IsLeast(j, rest.Keys) :: j == k;
      assert (rest - {k}).Keys == rest.Keys - {k};
      assert ValuesInOrder(rest) == [rest[k]] + ValuesInOrder(rest - {k});
      values := values + [rest[k]];
      rest := rest - {k};
    }
  }

  /** Schedules the workers arbitrarily until nothing is left to do. */
  method ProcessWithProgress<T, E>(chunks: seq<seq<byte>>, f: Processor<T, E>, tracker: ProgressTracker)
      returns (r: Result<seq<T>, E>)
    modifies tracker
    ensures AllSucceed(chunks, f) ==>
              r == Ok(MapInOrder(chunks, f)) && tracker.progress == FullTally(chunks, f, old(tracker.progress), |chunks|)
    ensures !AllSucceed(chunks, f) ==> r.Err? && FailureOf(chunks, f, r.error)
  {
    if chunks == [] {
      return Ok([]);
    }
    ghost var p := tracker.progress;
    var st: State<T, E> := Initial(|chunks|, tracker.progress);
    InitialInv(chunks, f, p);
    while !st.Complete()
      invariant Inv(chunks, f, p, st) && tracker.progress == st.progress
      decreases Work(st.phases)
    {
      var i: nat :| i < |chunks| && st.phases[i].Unfinished();
      var skip := *;
      var a := Action(i, skip && st.phases[i].Pending? && st.error.Some?);
      StepInv(chunks, f, p, st, a);
      StepWorks(chunks, f, st, a);
      if st.phases[i].Running? {
        var done := f(i, chunks[i]);
        if done.Ok? {
          tracker.Update(|chunks[i]|, done.value.1);
        }
      }
      st := Step(chunks, f, st, a);
    }
    CompleteOutcome(chunks, f, p, st);
    if st.error.Some? {
      return Err(st.error.value);
    }
    var values := IntoValues(st.results);
    return Ok(values);
  }

  /** The same without a caller's tracker. */
  method Process<T, E>(chunks: seq<seq<byte>>, f: Processor<T, E>) returns (r: Result<seq<T>, E>)
    ensures AllSucceed(chunks, f) ==> r == Ok(MapInOrder(chunks, f))
    ensures !AllSucceed(chunks, f) ==> r.Err? && FailureOf(chunks, f, r.error)
  {
    var tracker := new ProgressTracker(|chunks|, 0);
    r := ProcessWithProgress(chunks, f, tracker);
  }
}
