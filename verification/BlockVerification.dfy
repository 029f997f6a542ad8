/**
 Verification of a proposed block's transactions (cita-auth/src/handler.rs):
 what the cache cannot answer is handed to workers, whose replies come back in
 any order and are counted. One status record is kept, for the newest request;
 replies to older requests are ignored.
 */
module BlockVerification {
  import opened Basics
  import opened AuthWindow

  datatype Progress = NotBegin | Ongoing | Failed | Succeeded

  datatype Status = Status(id: nat, result: Progress, required: nat, captured: nat, cacheHits: nat)

  /** Transaction `index` of request `id`, with a worker or answered by it. */
  datatype Job = Todo(id: nat, index: nat) | Replied(id: nat, index: nat, verdict: Verdict)

  datatype Answer = Answer(id: nat, verdict: Verdict)

  /** `sizes` and `oks` are history: how many transactions each request had and
      which of them have been found OK. */
  datatype State = State(status: Status, jobs: seq<Job>, published: seq<Answer>, sizes: map<nat, nat>, oks: map<nat, set<nat>>)

  /** A request carries, per transaction, the verdict the cache has for it, if any. */
  datatype Event =
    | BlockRequest(id: nat, cached: seq<Option<Verdict>>)
    | WorkerAnswers(k: nat, verdict: Verdict)
    | ReplyArrives(k: nat)

  const START: State := State(Status(0, NotBegin, 0, 0, 0), [], [], map[], map[])

  // ---------------------------------------------------------------------
  // The three handlers
  // ---------------------------------------------------------------------

  predicate Bad(v: Option<Verdict>) {
    v.Some? && v.value != OK
  }

  /** Where the scan of the transactions stops: at the first cached failure. */
  function StopAt(cached: seq<Option<Verdict>>): (k: nat)
    ensures k <= |cached|
    ensures forall i :: 0 <= i < k ==> !Bad(cached[i])
    ensures k < |cached| ==> Bad(cached[k])
  {
    if cached == [] || Bad(cached[0]) then 0 else 1 + StopAt(cached[1..])
  }

  function Hits(cached: seq<Option<Verdict>>, k: nat): set<nat>
    requires k <= |cached|
  {
    set i: nat | i < k && cached[i] == Some(OK)
  }

  /** The jobs for the first `k` transactions that the cache does not know. */
  function Needed(id: nat, cached: seq<Option<Verdict>>, k: nat): (jobs: seq<Job>)
    requires k <= |cached|
    ensures forall j :: 0 <= j < |jobs| ==> jobs[j].Todo? && jobs[j].id == id && jobs[j].index < k && cached[jobs[j].index].None?
    ensures forall i, j :: 0 <= i < j < |jobs| ==> jobs[i].index < jobs[j].index
    ensures forall i :: 0 <= i < k && cached[i].None? ==> Todo(id, i) in jobs
  {
    if k == 0 then []
    else if cached[k - 1].None? then Needed(id, cached, k - 1) + [Todo(id, k - 1)]
    else Needed(id, cached, k - 1)
  }

  function NewRequest(s: State, id: nat, cached: seq<Option<Verdict>>): State {
    var n := |cached|;
    if n == 0 then s
    else
      var k := StopAt(cached);
      var hits, needed := Hits(cached, k), Needed(id, cached, k);
      var done := needed == [] && |hits| == n;
      State(Status(id, if done then Succeeded else Ongoing, n, |hits|, |hits|),
            s.jobs + needed,
            if k < n then s.published + [Answer(id, cached[k].value)]
            else if done then s.published + [Answer(id, OK)]
            else s.published,
            s.sizes[id := n],
            s.oks[id := hits])
  }

  function OksOf(s: State, id: nat): set<nat> {
    if id in s.oks then s.oks[id] else {}
  }

  function Reply(s: State, k: nat): State
    requires k < |s.jobs| && s.jobs[k].Replied?
  {
    var job := s.jobs[k];
    var s1 := s.(jobs := s.jobs[..k] + s.jobs[k + 1..]);
    if job.id != s.status.id then s1
    else if job.verdict != OK then
      if s.status.result.Failed? then s1
      else s1.(status := s.status.(result := Failed), published := s.published + [Answer(job.id, job.verdict)])
    else
      var captured := s.status.captured + 1;
      var done := captured == s.status.required;
      s1.(status := s.status.(captured := captured, result := if done then Succeeded else s.status.result),
          published := if done then s.published + [Answer(job.id, OK)] else s.published,
          oks := s.oks[job.id := OksOf(s, job.id) + {job.index}])
  }

  /** Request ids are never used twice. */
  predicate Enabled(s: State, e: Event) {
    match e
    case BlockRequest(id, _) => id !in s.sizes
    case WorkerAnswers(k, _) => k < |s.jobs| && s.jobs[k].Todo?
    case ReplyArrives(k) => k < |s.jobs| && s.jobs[k].Replied?
  }

  function Step(s: State, e: Event): State
    requires Enabled(s, e)
  {
    match e
    case BlockRequest(id, cached) => NewRequest(s, id, cached)
    case WorkerAnswers(k, verdict) => s.(jobs := s.jobs[k := Replied(s.jobs[k].id, s.jobs[k].index, verdict)])
    case ReplyArrives(k) => Reply(s, k)
  }

  ghost predicate Runs(s: State, events: seq<Event>, t: State)
    decreases |events|
  {
    if events == [] then s == t
    else Enabled(s, events[0]) && Runs(Step(s, events[0]), events[1..], t)
  }

  // ---------------------------------------------------------------------
  // What holds of every request
  // ---------------------------------------------------------------------

  predicate InFlight(jobs: seq<Job>, id: nat, index: nat) {
    exists k :: 0 <= k < |jobs| && jobs[k].id == id && jobs[k].index == index
  }

  /** Transaction `index` is neither OK nor still being verified. */
  ghost predicate Lost(s: State, id: nat, index: nat)
    requires id in s.oks
  {
    index !in s.oks[id] && !InFlight(s.jobs, id, index)
  }

  ghost predicate SomeLost(s: State, id: nat)
    requires id in s.sizes && id in s.oks
  {
    exists i: nat :: i < s.sizes[id] && Lost(s, id, i)
  }

  predicate FailurePublished(s: State, id: nat) {
    exists k :: 0 <= k < |s.published| && s.published[k].id == id && s.published[k].verdict != OK
  }

  /** How often OK was published for a request. */
  function OkCount(published: seq<Answer>, id: nat): nat {
    if published == [] then 0
    else OkCount(published[..|published| - 1], id) + if published[|published| - 1] == Answer(id, OK) then 1 else 0
  }

  ghost predicate IdInv(s: State, id: nat)
    requires id in s.sizes && id in s.oks
  {
    && (forall i :: i in s.oks[id] ==> i < s.sizes[id])
    && OkCount(s.published, id) == (if |s.oks[id]| == s.sizes[id] then 1 else 0)
    && (FailurePublished(s, id) ==> SomeLost(s, id))
    && (id == s.status.id ==>
          && s.status.required == s.sizes[id]
          && s.status.captured == |s.oks[id]|
          && (s.status.result.Failed? ==> FailurePublished(s, id))
          && (SomeLost(s, id) ==> FailurePublished(s, id)))
  }

  ghost predicate JobsInv(s: State) {
    && (forall k :: 0 <= k < |s.jobs| ==> JobInv(s, s.jobs[k]))
    && (forall j, k :: 0 <= j < k < |s.jobs| ==> s.jobs[j].id != s.jobs[k].id || s.jobs[j].index != s.jobs[k].index)
  }

  ghost predicate Inv(s: State) {
    && s.sizes.Keys == s.oks.Keys
    && (forall id :: id in s.sizes ==> IdInv(s, id))
    && (forall id :: id !in s.sizes ==> OkCount(s.published, id) == 0 && !FailurePublished(s, id))
    && JobsInv(s)
  }

  lemma CountAppend(published: seq<Answer>, a: Answer, id: nat)
    ensures OkCount(published + [a], id) == OkCount(published, id) + if a == Answer(id, OK) then 1 else 0
  {
    assert (published + [a])[..|published|] == published;
  }

  lemma {:induction false} BoundedSize(s: set<nat>, n: nat)
    requires forall i :: i in s ==> i < n
    ensures |s| <= n
    ensures |s| == n ==> forall i: nat :: i < n ==> i in s
    decreases n
  {
    if n > 0 {
      var t := s - {n - 1};
      BoundedSize(t, n - 1);
      assert |s| == |t| + if n - 1 in s then 1 else 0;
      if |s| == n {
        forall i: nat | i < n
          ensures i in s
        {
          assert i < n - 1 ==> i in t;
        }
      }
    }
  }

  lemma WorkerKeepsInv(s: State, k: nat, verdict: Verdict)
    requires Inv(s) && Enabled(s, WorkerAnswers(k, verdict))
    ensures Inv(Step(s, WorkerAnswers(k, verdict)))
  {
    var t := Step(s, WorkerAnswers(k, verdict));
    forall id: nat, i: nat
      ensures InFlight(t.jobs, id, i) <==> InFlight(s.jobs, id, i)
    {
      if InFlight(s.jobs, id, i) {
        var j :| 0 <= j < |s.jobs| && s.jobs[j].id == id && s.jobs[j].index == i;
        assert t.jobs[j].id == id && t.jobs[j].index == i;
      }
    }
    forall id | id in t.sizes
      ensures IdInv(t, id)
    {
      assert IdInv(s, id);
      assert forall i: nat :: Lost(t, id, i) <==> Lost(s, id, i);
    }
  }

  /** Removing the k-th job ends the flight of its transaction and of no other. */
  lemma FlightEnds(s: State, k: nat, jobs': seq<Job>)
    requires JobsInv(s) && k < |s.jobs| && jobs' == s.jobs[..k] + s.jobs[k + 1..]
    ensures forall id: nat, i: nat ::
              InFlight(jobs', id, i) <==> InFlight(s.jobs, id, i) && !(id == s.jobs[k].id && i == s.jobs[k].index)
  {
    forall id: nat, i: nat
      ensures InFlight(jobs', id, i) <==> InFlight(s.jobs, id, i) && !(id == s.jobs[k].id && i == s.jobs[k].index)
    {
      if InFlight(s.jobs, id, i) && !(id == s.jobs[k].id && i == s.jobs[k].index) {
        OtherFlights(s.jobs, k, id, i);
      }
      if InFlight(jobs', id, i) {
        var j' :| 0 <= j' < |jobs'| && jobs'[j'].id == id && jobs'[j'].index == i;
        var j := if j' < k then j' else j' + 1;
        assert jobs'[j'] == s.jobs[j];
      }
    }
  }

  lemma OtherFlights(jobs: seq<Job>, k: nat, id: nat, i: nat)
    requires k < |jobs| && InFlight(jobs, id, i) && !(id == jobs[k].id && i == jobs[k].index)
    ensures InFlight(jobs[..k] + jobs[k + 1..], id, i)
  {
    var j :| 0 <= j < |jobs| && jobs[j].id == id && jobs[j].index == i;
    assert (jobs[..k] + jobs[k + 1..])[if j < k then j else j - 1] == jobs[j];
  }

  ghost predicate JobInv(s: State, job: Job) {
    job.id in s.sizes && job.index < s.sizes[job.id] && job.index !in OksOf(s, job.id)
  }

  lemma ReplyKeepsJob(s: State, k: nat, job: Job)
    requires Enabled(s, ReplyArrives(k)) && JobInv(s, job)
    requires job.id != s.jobs[k].id || job.index != s.jobs[k].index
    ensures JobInv(Reply(s, k), job)
  {
  }

  lemma ReplyKeepsJobs(s: State, k: nat)
    requires JobsInv(s) && Enabled(s, ReplyArrives(k))
    ensures JobsInv(Reply(s, k))
  {
    hide JobInv, OksOf;
    var t := Reply(s, k);
    var jobs' := s.jobs[..k] + s.jobs[k + 1..];
    assert t.jobs == jobs';
    forall j | 0 <= j < |jobs'|
      ensures JobInv(t, jobs'[j]) && jobs'[j] == s.jobs[if j < k then j else j + 1]
    {
      ReplyKeepsJob(s, k, s.jobs[if j < k then j else j + 1]);
    }
  }

  /** `t` adds at most one answer to what `s` has published. */
  ghost predicate Publishes(s: State, t: State) {
    t.published == s.published || (t.published != [] && t.published[..|t.published| - 1] == s.published)
  }

  lemma AnswerElsewhere(s: State, t: State, id: nat)
    requires Publishes(s, t)
    requires t.published != s.published ==> t.published[|t.published| - 1].id != id
    ensures OkCount(t.published, id) == OkCount(s.published, id)
    ensures FailurePublished(t, id) <==> FailurePublished(s, id)
  {
    if t.published != s.published {
      assert forall j :: 0 <= j < |s.published| ==> t.published[j] == s.published[j];
    }
  }

  lemma AnswerHere(s: State, t: State, id: nat)
    requires Publishes(s, t) && t.published != s.published && t.published[|t.published| - 1].id == id
    ensures
      var ok := t.published[|t.published| - 1].verdict == OK;
      && OkCount(t.published, id) == OkCount(s.published, id) + (if ok then 1 else 0)
      && (FailurePublished(t, id) <==> FailurePublished(s, id) || !ok)
  {
    assert forall j :: 0 <= j < |s.published| ==> t.published[j] == s.published[j];
  }

  /** A request that an event does not touch stays as it was. */
  lemma UntouchedId(s: State, t: State, id: nat)
    requires id in s.sizes && id in s.oks && IdInv(s, id)
    requires id in t.sizes && id in t.oks && t.sizes[id] == s.sizes[id] && t.oks[id] == s.oks[id]
    requires OkCount(t.published, id) == OkCount(s.published, id)
    requires FailurePublished(t, id) <==> FailurePublished(s, id)
    requires SomeLost(s, id) ==> SomeLost(t, id)
    requires id == t.status.id ==> t.status == s.status && (SomeLost(t, id) ==> SomeLost(s, id))
    ensures IdInv(t, id)
  {
    hide OkCount, FailurePublished, SomeLost;
  }

  /** What the end of a flight does to the transactions of a request. */
  lemma LostAfterFlight(s: State, k: nat, t: State, id: nat)
    requires JobsInv(s) && k < |s.jobs| && t.jobs == s.jobs[..k] + s.jobs[k + 1..]
    requires id in s.sizes && id in s.oks && id in t.sizes && id in t.oks
    requires t.sizes[id] == s.sizes[id] && t.oks[id] == s.oks[id]
    ensures SomeLost(s, id) ==> SomeLost(t, id)
    ensures id != s.jobs[k].id ==> (SomeLost(t, id) ==> SomeLost(s, id))
  {
    FlightEnds(s, k, t.jobs);
    hide InFlight, JobsInv;
    assert forall i: nat :: Lost(s, id, i) ==> Lost(t, id, i);
    assert id != s.jobs[k].id ==> forall i: nat :: Lost(t, id, i) ==> Lost(s, id, i);
  }

  /** A failure for the current request. */
  lemma FailedReplyKeepsId(s: State, k: nat)
    requires Inv(s) && Enabled(s, ReplyArrives(k)) && s.jobs[k].id == s.status.id && s.jobs[k].verdict != OK
    ensures
      var id, t := s.status.id, Reply(s, k);
      id in t.sizes && id in t.oks && IdInv(t, id)
  {
    var job, t := s.jobs[k], Reply(s, k);
    var id := job.id;
    assert IdInv(s, id);
    if t.published != s.published {
      AnswerHere(s, t, id);
    }
    FlightEnds(s, k, t.jobs);
    hide InFlight, OkCount, FailurePublished;
    assert job.index !in s.oks[id] && job.index < s.sizes[id];
    assert Lost(t, id, job.index);
  }

  /** A request with one more transaction found OK. */
  lemma IdAfterOk(s: State, t: State, id: nat)
    requires id in s.sizes && id in s.oks && IdInv(s, id)
    requires id in t.sizes && id in t.oks && t.sizes[id] == s.sizes[id] && |t.oks[id]| == |s.oks[id]| + 1 <= s.sizes[id]
    requires forall i :: i in t.oks[id] ==> i < t.sizes[id]
    requires OkCount(t.published, id) == OkCount(s.published, id) + if |t.oks[id]| == t.sizes[id] then 1 else 0
    requires FailurePublished(t, id) <==> FailurePublished(s, id)
    requires SomeLost(t, id) <==> SomeLost(s, id)
    requires id == s.status.id == t.status.id && t.status.required == s.status.required
    requires t.status.captured == s.status.captured + 1 && (t.status.result.Failed? ==> s.status.result.Failed?)
    ensures IdInv(t, id)
  {
    hide OkCount, FailurePublished, SomeLost;
  }

  /** An OK for the current request. */
  lemma OkReplyKeepsId(s: State, k: nat)
    requires Inv(s) && Enabled(s, ReplyArrives(k)) && s.jobs[k].id == s.status.id && s.jobs[k].verdict == OK
    ensures
      var id, t := s.status.id, Reply(s, k);
      id in t.sizes && id in t.oks && IdInv(t, id)
  {
    var job, t := s.jobs[k], Reply(s, k);
    var id := job.id;
    assert IdInv(s, id) && JobInv(s, job);
    BoundedSize(t.oks[id], s.sizes[id]);
    NothingLost(s, k, t);
    hide OkCount, FailurePublished, SomeLost, JobsInv;
    if t.published != s.published {
      AnswerHere(s, t, id);
    }
    assert |t.oks[id]| == |s.oks[id]| + 1;
    IdAfterOk(s, t, id);
  }

  lemma NothingLost(s: State, k: nat, t: State)
    requires JobsInv(s) && s.sizes.Keys == s.oks.Keys && k < |s.jobs|
    requires t.jobs == s.jobs[..k] + s.jobs[k + 1..] && t.sizes == s.sizes
    requires s.jobs[k].id in t.oks && t.oks[s.jobs[k].id] == OksOf(s, s.jobs[k].id) + {s.jobs[k].index}
    ensures SomeLost(t, s.jobs[k].id) <==> SomeLost(s, s.jobs[k].id)
  {
    var id := s.jobs[k].id;
    FlightEnds(s, k, t.jobs);
    assert InFlight(s.jobs, id, s.jobs[k].index);
    hide InFlight, JobsInv;
    assert forall i: nat :: Lost(t, id, i) <==> Lost(s, id, i);
  }

  lemma OtherReplyKeepsId(s: State, k: nat, id: nat)
    requires Inv(s) && Enabled(s, ReplyArrives(k)) && id in s.sizes
    requires s.jobs[k].id == s.status.id ==> id != s.status.id
    ensures
      var t := Reply(s, k);
      id in t.sizes && id in t.oks && IdInv(t, id)
  {
    var t := Reply(s, k);
    LostAfterFlight(s, k, t, id);
    AnswerElsewhere(s, t, id);
    hide IdInv, OkCount, FailurePublished, SomeLost, JobsInv;
    UntouchedId(s, t, id);
  }

  lemma ReplyKeepsInv(s: State, k: nat)
    requires Inv(s) && Enabled(s, ReplyArrives(k))
    ensures Inv(Reply(s, k))
  {
    hide IdInv, OkCount, FailurePublished;
    var job, t := s.jobs[k], Reply(s, k);
    assert job.id in s.sizes;
    ReplyKeepsJobs(s, k);
    forall id | id in t.sizes
      ensures IdInv(t, id)
    {
      if id == job.id == s.status.id {
        if job.verdict == OK {
          OkReplyKeepsId(s, k);
        } else {
          FailedReplyKeepsId(s, k);
        }
      } else {
        OtherReplyKeepsId(s, k, id);
      }
    }
    forall id | id !in t.sizes
      ensures OkCount(t.published, id) == 0 && !FailurePublished(t, id)
    {
      AnswerElsewhere(s, t, id);
    }
  }

  lemma {:induction false} HitsBounded(cached: seq<Option<Verdict>>, k: nat)
    requires k <= |cached|
    ensures |Hits(cached, k)| <= k
    ensures |Hits(cached, k)| == k ==> forall i :: 0 <= i < k ==> cached[i] == Some(OK)
  {
    BoundedSize(Hits(cached, k), k);
    if |Hits(cached, k)| == k {
      forall i | 0 <= i < k
        ensures cached[i] == Some(OK)
      {
        assert i in Hits(cached, k);
      }
    }
  }

  /** A cached failure cuts the scan short, so not all transactions can be hits. */
  lemma NewRequestStatus(s: State, id: nat, cached: seq<Option<Verdict>>)
    requires id !in s.sizes && cached != []
    ensures
      var n, k, hits := |cached|, StopAt(cached), Hits(cached, StopAt(cached));
      && (k < n ==> |hits| < n)
      && (|hits| == n ==> Needed(id, cached, k) == [])
  {
    var k := StopAt(cached);
    HitsBounded(cached, k);
  }

  lemma NewFlights(s: State, id: nat, cached: seq<Option<Verdict>>)
    requires Inv(s) && id !in s.sizes && cached != []
    ensures
      var k, t := StopAt(cached), NewRequest(s, id, cached);
      && (forall i: nat :: i < |cached| ==> (InFlight(t.jobs, id, i) <==> i < k && cached[i].None?))
      && (forall id': nat, i: nat :: id' != id ==> (InFlight(t.jobs, id', i) <==> InFlight(s.jobs, id', i)))
  {
    var k, t := StopAt(cached), NewRequest(s, id, cached);
    var needed := Needed(id, cached, k);
    assert t.jobs == s.jobs + needed;
    forall id': nat, i: nat
      ensures InFlight(t.jobs, id', i) <==> InFlight(s.jobs, id', i) || (id' == id && i < k && cached[i].None?)
    {
      FlightsConcat(s.jobs, needed, id', i);
      FlightsNeeded(id, cached, k, id', i);
    }
    assert forall i: nat :: !InFlight(s.jobs, id, i);
  }

  lemma FlightsConcat(a: seq<Job>, b: seq<Job>, id: nat, i: nat)
    ensures InFlight(a + b, id, i) <==> InFlight(a, id, i) || InFlight(b, id, i)
  {
    if InFlight(a, id, i) {
      var j :| 0 <= j < |a| && a[j].id == id && a[j].index == i;
      assert (a + b)[j] == a[j];
    }
    if InFlight(b, id, i) {
      var j :| 0 <= j < |b| && b[j].id == id && b[j].index == i;
      assert (a + b)[|a| + j] == b[j];
    }
  }

  lemma FlightsNeeded(id: nat, cached: seq<Option<Verdict>>, k: nat, id': nat, i: nat)
    requires k <= |cached|
    ensures InFlight(Needed(id, cached, k), id', i) <==> id' == id && i < k && cached[i].None?
  {
    var needed := Needed(id, cached, k);
    if id' == id && i < k && cached[i].None? {
      assert Todo(id, i) in needed;
      var j :| 0 <= j < |needed| && needed[j] == Todo(id, i);
      assert needed[j].id == id' && needed[j].index == i;
    }
  }

  lemma RequestKeepsJobs(s: State, id: nat, cached: seq<Option<Verdict>>)
    requires Inv(s) && id !in s.sizes && cached != []
    ensures JobsInv(NewRequest(s, id, cached))
  {
    var k, t := StopAt(cached), NewRequest(s, id, cached);
    var needed := Needed(id, cached, k);
    assert t.jobs == s.jobs + needed;
    forall j | 0 <= j < |t.jobs|
      ensures JobInv(t, t.jobs[j])
      ensures j >= |s.jobs| ==> t.jobs[j].id == id && t.jobs[j] == needed[j - |s.jobs|]
      ensures j < |s.jobs| ==> t.jobs[j].id != id && t.jobs[j] == s.jobs[j]
    {
    }
  }

  /** The new request itself. */
  lemma RequestKeepsNewId(s: State, id: nat, cached: seq<Option<Verdict>>)
    requires Inv(s) && id !in s.sizes && cached != []
    ensures IdInv(NewRequest(s, id, cached), id)
  {
    var n, k, t := |cached|, StopAt(cached), NewRequest(s, id, cached);
    NewRequestStatus(s, id, cached);
    NewFlights(s, id, cached);
    HitsBounded(cached, k);
    CountAppend(s.published, Answer(id, OK), id);
    assert forall j :: 0 <= j < |s.published| ==> t.published[j] == s.published[j];
    if k < n {
      CountAppend(s.published, Answer(id, cached[k].value), id);
      assert t.published[|s.published|] == Answer(id, cached[k].value);
      assert Lost(t, id, k);
    } else {
      forall i: nat | i < n
        ensures !Lost(t, id, i)
      {
        assert !Bad(cached[i]);
      }
    }
  }

  lemma RequestPublishes(s: State, id: nat, cached: seq<Option<Verdict>>)
    requires cached != []
    ensures
      var t := NewRequest(s, id, cached);
      Publishes(s, t) && (t.published != s.published ==> t.published[|t.published| - 1].id == id)
  {
  }

  /** The requests before it. */
  lemma RequestKeepsOldId(s: State, id: nat, cached: seq<Option<Verdict>>, id': nat)
    requires Inv(s) && id !in s.sizes && cached != [] && id' in s.sizes
    ensures
      var t := NewRequest(s, id, cached);
      id' in t.sizes && id' in t.oks && IdInv(t, id')
  {
    var t := NewRequest(s, id, cached);
    NewFlights(s, id, cached);
    RequestPublishes(s, id, cached);
    AnswerElsewhere(s, t, id');
    assert IdInv(s, id');
    hide InFlight, OkCount, FailurePublished, JobsInv, IdInv;
    assert forall i: nat :: Lost(t, id', i) <==> Lost(s, id', i);
    UntouchedId(s, t, id');
  }

  lemma RequestKeepsInv(s: State, id: nat, cached: seq<Option<Verdict>>)
    requires Inv(s) && id !in s.sizes
    ensures Inv(NewRequest(s, id, cached))
  {
    hide IdInv, OkCount, FailurePublished;
    if cached != [] {
      var t := NewRequest(s, id, cached);
      RequestKeepsJobs(s, id, cached);
      RequestKeepsNewId(s, id, cached);
      RequestPublishes(s, id, cached);
      forall id' | id' in t.sizes && id' != id
        ensures IdInv(t, id')
      {
        RequestKeepsOldId(s, id, cached, id');
      }
      forall id' | id' !in t.sizes
        ensures OkCount(t.published, id') == 0 && !FailurePublished(t, id')
      {
        AnswerElsewhere(s, t, id');
      }
    }
  }

  // ---------------------------------------------------------------------
  // Runs
  // ---------------------------------------------------------------------

  lemma {:induction false} RunsKeepInv(s: State, events: seq<Event>, t: State)
    requires Inv(s) && Runs(s, events, t)
    ensures Inv(t)
    decreases |events|
  {
    if events != [] {
      match events[0] {
        case BlockRequest(id, cached) => RequestKeepsInv(s, id, cached);
        case WorkerAnswers(k, verdict) => WorkerKeepsInv(s, k, verdict);
        case ReplyArrives(k) => ReplyKeepsInv(s, k);
      }
      RunsKeepInv(Step(s, events[0]), events[1..], t);
    }
  }

  /** In any order of requests, answers and deliveries: OK is published at most
      once for a request, only when every one of its transactions was found OK,
      and never together with a failure. */
  lemma OkIsTrustworthy(events: seq<Event>, t: State, id: nat)
    requires Runs(START, events, t)
    ensures OkCount(t.published, id) <= 1
    ensures OkCount(t.published, id) == 1 ==>
              id in t.sizes && id in t.oks && forall i: nat :: i < t.sizes[id] ==> i in t.oks[id]
    ensures !(OkCount(t.published, id) == 1 && FailurePublished(t, id))
  {
    RunsKeepInv(START, events, t);
    if id in t.sizes {
      assert IdInv(t, id);
      BoundedSize(t.oks[id], t.sizes[id]);
    }
  }

  /** Once all replies to the current request have arrived it has been answered: by OK,
      once and without a failure, if and only if every transaction was found OK, and by a
      failure if and only if one was not. */
  lemma EveryRequestIsAnswered(events: seq<Event>, t: State)
    requires Runs(START, events, t)
    requires t.status.id in t.sizes
    requires forall k :: 0 <= k < |t.jobs| ==> t.jobs[k].id != t.status.id
    ensures t.status.id in t.oks
    ensures
      var id := t.status.id;
      var allOk := forall i: nat :: i < t.sizes[id] ==> i in t.oks[id];
      && OkCount(t.published, id) == (if allOk then 1 else 0)
      && (FailurePublished(t, id) <==> !allOk)
  {
    var id := t.status.id;
    RunsKeepInv(START, events, t);
    assert IdInv(t, id);
    BoundedSize(t.oks[id], t.sizes[id]);
    if i: nat :| i < t.sizes[id] && i !in t.oks[id] {
      assert Lost(t, id, i);
    } else {
      AllInBounds(t.oks[id], t.sizes[id]);
    }
  }

  /** What a new request publishes at once: the first failure the cache knows, or OK if the
      cache knows every transaction to be OK, or nothing. */
  lemma RequestAnswersAtOnce(s: State, id: nat, cached: seq<Option<Verdict>>, i: nat)
    ensures
      var t := NewRequest(s, id, cached);
      && (i < |cached| && Bad(cached[i]) && (forall j :: 0 <= j < i ==> !Bad(cached[j])) ==>
            t.published == s.published + [Answer(id, cached[i].value)])
      && (cached != [] && (forall j :: 0 <= j < |cached| ==> cached[j] == Some(OK)) ==>
            t.published == s.published + [Answer(id, OK)] && t.status.result.Succeeded?)
      && (cached == [] ==> t == s)
      && ((forall j :: 0 <= j < |cached| ==> !Bad(cached[j])) && (exists j :: 0 <= j < |cached| && cached[j].None?) ==>
            t.published == s.published)
  {
    if cached != [] {
      var k := StopAt(cached);
      HitsBounded(cached, k);
      if forall j :: 0 <= j < |cached| ==> cached[j] == Some(OK) {
        AllHit(cached);
        NothingNeeded(id, cached, k);
      }
    }
  }

  lemma {:induction false} NothingNeeded(id: nat, cached: seq<Option<Verdict>>, k: nat)
    requires k <= |cached| && forall j :: 0 <= j < k ==> cached[j].Some?
    ensures Needed(id, cached, k) == []
  {
    if k > 0 {
      NothingNeeded(id, cached, k - 1);
    }
  }

  lemma AllHit(cached: seq<Option<Verdict>>)
    requires forall j :: 0 <= j < |cached| ==> cached[j] == Some(OK)
    ensures |Hits(cached, |cached|)| == |cached|
  {
    AllInBounds(Hits(cached, |cached|), |cached|);
  }

  /** What a reply publishes: the first failure for the current request as the worker found
      it, or OK with the last transaction; a reply to an older request nothing. */
  lemma ReplyAnswers(s: State, k: nat)
    requires Enabled(s, ReplyArrives(k))
    ensures
      var t, job := Reply(s, k), s.jobs[k];
      && t.sizes == s.sizes && t.status.id == s.status.id
      && if job.id != s.status.id then t.published == s.published && t.status == s.status
      else if job.verdict != OK then
        && t.status.result.Failed?
        && t.published == (if s.status.result.Failed? then s.published else s.published + [Answer(job.id, job.verdict)])
      else
        && t.status.captured == s.status.captured + 1
        && (t.status.result.Failed? <==> s.status.result.Failed? && t.status.captured != s.status.required)
        && t.published == (if t.status.captured == s.status.required then s.published + [Answer(job.id, OK)] else s.published)
  {
  }

  /** How often a failure was published for a request. */
  function FailCount(published: seq<Answer>, id: nat): nat {
    if published == [] then 0
    else
      var last := published[|published| - 1];
      FailCount(published[..|published| - 1], id) + if last.id == id && last.verdict != OK then 1 else 0
  }

  /** At most `m` failures, and one more once a reply has failed or a newer request came. */
  ghost predicate FewFailures(s: State, id: nat, m: nat) {
    && (id !in s.sizes ==> FailCount(s.published, id) == 0)
    && FailCount(s.published, id) <= m + if id == s.status.id && !s.status.result.Failed? then 0 else 1
  }

  /** Whether a request comes with a failure that the cache knows. */
  ghost predicate KnownBad(e: Event, id: nat) {
    e.BlockRequest? && e.id == id && exists j :: 0 <= j < |e.cached| && Bad(e.cached[j])
  }

  lemma FailCountAppend(published: seq<Answer>, a: Answer, id: nat)
    ensures FailCount(published + [a], id) == FailCount(published, id) + if a.id == id && a.verdict != OK then 1 else 0
  {
    assert (published + [a])[..|published|] == published;
  }

  lemma RequestKeepsFew(s: State, id': nat, cached: seq<Option<Verdict>>, id: nat, m: nat)
    requires id' !in s.sizes && FewFailures(s, id, m) && (KnownBad(BlockRequest(id', cached), id) ==> m >= 1)
    ensures FewFailures(NewRequest(s, id', cached), id, m)
  {
    hide FailCount;
    if cached != [] {
      var t, k := NewRequest(s, id', cached), StopAt(cached);
      FailCountAppend(s.published, Answer(id', OK), id);
      if k < |cached| {
        FailCountAppend(s.published, Answer(id', cached[k].value), id);
        assert Bad(cached[k]);
      }
    }
  }

  lemma ReplyKeepsFew(s: State, k: nat, id: nat, m: nat)
    requires Inv(s) && Enabled(s, ReplyArrives(k)) && FewFailures(s, id, m)
    ensures FewFailures(Reply(s, k), id, m)
  {
    var job, t := s.jobs[k], Reply(s, k);
    assert JobInv(s, job);
    if job.id == s.status.id && job.verdict == OK && s.status.result.Failed? {
      DoneMeansNoFailure(s, k);
    }
    ReplyAnswers(s, k);
    hide FailCount, Inv, Reply;
    FailCountAppend(s.published, Answer(job.id, job.verdict), id);
  }

  lemma StepKeepsFew(s: State, e: Event, id: nat, m: nat)
    requires Inv(s) && Enabled(s, e) && FewFailures(s, id, m) && (KnownBad(e, id) ==> m >= 1)
    ensures FewFailures(Step(s, e), id, m)
  {
    hide Inv, FailCount, NewRequest, Reply;
    match e
    case WorkerAnswers(_, _) =>
    case BlockRequest(id', cached) => RequestKeepsFew(s, id', cached, id, m);
    case ReplyArrives(k) => ReplyKeepsFew(s, k, id, m);
  }

  /** A request that has failed is never completed. */
  lemma DoneMeansNoFailure(s: State, k: nat)
    requires Inv(s) && Enabled(s, ReplyArrives(k))
    requires s.jobs[k].id == s.status.id && s.jobs[k].verdict == OK && s.status.result.Failed?
    ensures Reply(s, k).status.result.Failed?
  {
    var job, t := s.jobs[k], Reply(s, k);
    var id := job.id;
    assert JobInv(s, job);
    assert IdInv(s, id);
    var i: nat :| i < s.sizes[id] && Lost(s, id, i);
    assert InFlight(s.jobs, id, job.index);
    BoundedSize(t.oks[id], s.sizes[id]);
    assert i !in t.oks[id];
  }

  /** No request gets more than two failures, and no more than one unless the cache knew one
      when it came. */
  lemma {:induction false} RunsKeepFew(s: State, events: seq<Event>, t: State, id: nat, m: nat)
    requires Inv(s) && Runs(s, events, t) && FewFailures(s, id, m)
    requires forall i :: 0 <= i < |events| && KnownBad(events[i], id) ==> m >= 1
    ensures FewFailures(t, id, m)
    decreases |events|
  {
    if events != [] {
      hide Inv, Step, FewFailures, KnownBad;
      StepKeepsInv(s, events[0]);
      StepKeepsFew(s, events[0], id, m);
      RunsKeepFew(Step(s, events[0]), events[1..], t, id, m);
    }
  }

  lemma StepKeepsInv(s: State, e: Event)
    requires Inv(s) && Enabled(s, e)
    ensures Inv(Step(s, e))
  {
    hide Inv;
    match e {
      case BlockRequest(id, cached) => RequestKeepsInv(s, id, cached);
      case WorkerAnswers(k, verdict) => WorkerKeepsInv(s, k, verdict);
      case ReplyArrives(k) => ReplyKeepsInv(s, k);
    }
  }

  lemma FailuresAreFew(events: seq<Event>, t: State, id: nat)
    requires Runs(START, events, t)
    ensures FailCount(t.published, id) <= 2
    ensures (forall i :: 0 <= i < |events| ==> !KnownBad(events[i], id)) ==> FailCount(t.published, id) <= 1
  {
    RunsKeepFew(START, events, t, id, 1);
    if forall i :: 0 <= i < |events| ==> !KnownBad(events[i], id) {
      RunsKeepFew(START, events, t, id, 0);
    }
  }

  lemma {:induction false} AllInBounds(s: set<nat>, n: nat)
    requires forall i :: i in s ==> i < n
    requires forall i: nat :: i < n ==> i in s
    ensures |s| == n
    decreases n
  {
    if n > 0 {
      AllInBounds(s - {n - 1}, n - 1);
    }
  }

  // ---------------------------------------------------------------------
  // The handler
  // ---------------------------------------------------------------------

  class Handler {
    var requestId: nat
    var result: Progress
    var required: nat
    var captured: nat
    var cacheHits: nat
    var jobs: seq<Job>
    var published: seq<Answer>
    ghost var sizes: map<nat, nat>
    ghost var oks: map<nat, set<nat>>

    ghost function View(): State
      reads this
    {
      State(Status(requestId, result, required, captured, cacheHits), jobs, published, sizes, oks)
    }

    ghost predicate Valid()
      reads this
    {
      Inv(View())
    }

    constructor ()
      ensures Valid() && View() == START
    {
      requestId, result, required, captured, cacheHits := 0, NotBegin, 0, 0, 0;
      jobs, published := [], [];
      sizes, oks := map[], map[];
    }

    /** A new block to verify; `cached[i]` is what the cache says of transaction `i`. */
    method HandleVerifyBlockReq(id: nat, cached: seq<Option<Verdict>>)
      requires Valid() && id !in sizes
      modifies this
      ensures Valid() && View() == Step(old(View()), BlockRequest(id, cached))
    {
      hide Inv, Needed, Hits, StopAt;
      RequestKeepsInv(View(), id, cached);
      if |cached| == 0 {
        return;
      }
      NewRequestStatus(View(), id, cached);
      requestId, result, required := id, Ongoing, |cached|;
      var hits, needed, failure := Scan(id, cached);
      captured, cacheHits := hits, hits;
      if failure.Some? {
        published := published + [Answer(id, failure.value)];
      }
      if |needed| > 0 {
        jobs := jobs + needed;
      } else if captured == required {
        result := Succeeded;
        published := published + [Answer(id, OK)];
      }
      sizes, oks := sizes[id := |cached|], oks[id := Hits(cached, StopAt(cached))];
      assert jobs == old(jobs) + needed;
      assert View() == NewRequest(old(View()), id, cached);
    }

    /** Goes through the transactions until the cache knows one to be bad. */
    static method Scan(id: nat, cached: seq<Option<Verdict>>) returns (hits: nat, needed: seq<Job>, failure: Option<Verdict>)
      ensures hits == |Hits(cached, StopAt(cached))|
      ensures needed == Needed(id, cached, StopAt(cached))
      ensures failure == if StopAt(cached) < |cached| then cached[StopAt(cached)] else None
    {
      hits, needed, failure := 0, [], None;
      var i := 0;
      while i < |cached|
        invariant 0 <= i <= StopAt(cached)
        invariant hits == |Hits(cached, i)| && needed == Needed(id, cached, i)
      {
        match cached[i] {
          case Some(verdict) =>
            if verdict == OK {
              assert Hits(cached, i + 1) == Hits(cached, i) + {i};
              hits := hits + 1;
            } else {
              failure := cached[i];
              return;
            }
          case None =>
            needed := needed + [Todo(id, i)];
            assert Hits(cached, i + 1) == Hits(cached, i);
        }
        i := i + 1;
      }
    }

    /** A reply comes in. */
    method HandleVerificationResult(k: nat)
      requires Valid() && k < |jobs| && jobs[k].Replied?
      modifies this
      ensures Valid() && View() == Step(old(View()), ReplyArrives(k))
    {
      hide Inv;
      ReplyKeepsInv(View(), k);
      ghost var s := View();
      var job := jobs[k];
      jobs := jobs[..k] + jobs[k + 1..];
      if job.verdict != OK {
        if job.id == requestId && !result.Failed? {
          result := Failed;
          published := published + [Answer(job.id, job.verdict)];
        }
      } else if job.id == requestId {
        captured := captured + 1;
        oks := oks[job.id := OksOf(s, job.id) + {job.index}];
        if captured == required {
          result := Succeeded;
          published := published + [Answer(job.id, OK)];
        }
      }
    }
  }
}
