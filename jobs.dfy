/**
  The mock job store and status machine of app/welcome/welcome.tsx. The module-level array
  `MOCK_JOB_DATA_STORE` becomes the `jobs` field of a `JobStore` object; `crypto.randomUUID`
  becomes a counter, `new Date()` a time value the caller supplies, and the timer that
  resolves a triggered job becomes a separate `Resolve` call whose outcome (`Math.random()
  > 0.3`) is a boolean parameter.
 */
module Jobs {
  import opened Wrappers
  import Text

  datatype Status = Pending | InProgress | Submitted | Failed

  /** The status as the source spells it. */
  function StatusName(s: Status): string
  {
    match s
    case Pending => "Pending"
    case InProgress => "In Progress"
    case Submitted => "Submitted"
    case Failed => "Failed"
  }

  type JobId = nat
  type Time = int

  /** `Job`; `log` is optional. */
  datatype Job = Job(
    id: JobId,
    status: Status,
    url: string,
    jobTitle: string,
    attempts: nat,
    log: Option<string>,
    createdAt: Time,
    updatedAt: Time)

  /** `JobInput`, what a caller hands to `mockAddJob`. */
  datatype JobInput = JobInput(status: Status, url: string, jobTitle: string, attempts: nat)

  const PendingClasses := "bg-gray-100 text-gray-700 border-gray-300"
  const SubmittedClasses := "bg-green-100 text-green-800 border-green-300"
  const FailedClasses := "bg-red-100 text-red-800 border-red-300"
  const InProgressClasses := "bg-blue-100 text-blue-800 border-blue-300 animate-pulse"

  /** `getStatusClasses`: a switch on the status string whose default shares the `Pending`
      case. */
  function StatusClasses(status: string): (r: string)
    ensures r == SubmittedClasses <==> status == "Submitted"
    ensures r == FailedClasses <==> status == "Failed"
    ensures r == InProgressClasses <==> status == "In Progress"
    ensures r == PendingClasses <==> status != "Submitted" && status != "Failed" && status != "In Progress"
  {
    if status == "Submitted" then SubmittedClasses
    else if status == "Failed" then FailedClasses
    else if status == "In Progress" then InProgressClasses
    else PendingClasses
  }

  /** Every status gets its own classes, and any other string falls back to those of
      `Pending`. */
  lemma StatusClassesTotal(status: string)
    ensures forall s, t :: s != t ==> StatusClasses(StatusName(s)) != StatusClasses(StatusName(t))
    ensures (forall s :: status != StatusName(s)) ==> StatusClasses(status) == StatusClasses(StatusName(Pending))
  {
    assert StatusName(InProgress) == "In Progress";
    assert StatusName(Submitted) == "Submitted";
    assert StatusName(Failed) == "Failed";
  }

  // ---------------------------------------------------------------------------------------
  // One job's transitions
  // ---------------------------------------------------------------------------------------

  const SuccessLog := "Application submitted successfully via automation script."
  const FailureLog := "Failed: CAPTCHA or Form Structure Change detected."
  const NotFoundMessage := "Job not found on server."
  const AddedMessage := "Job added successfully"

  /** The record `mockAddJob` builds: the input spread, then a fresh id and two equal
      timestamps. */
  function NewJob(input: JobInput, id: JobId, now: Time): (job: Job)
    ensures job.status == input.status && job.url == input.url
    ensures job.jobTitle == input.jobTitle && job.attempts == input.attempts
    ensures job.id == id && job.createdAt == job.updatedAt == now && job.log == None
  {
    Job(id, input.status, input.url, input.jobTitle, input.attempts, None, now, now)
  }

  /** What `mockTriggerAutomation` does at once to the job it found. */
  function Started(job: Job, now: Time): (r: Job)
    ensures r.status == InProgress && r.updatedAt == now
    ensures r.id == job.id && r.url == job.url && r.jobTitle == job.jobTitle
    ensures r.attempts == job.attempts && r.log == job.log && r.createdAt == job.createdAt
  {
    job.(status := InProgress, updatedAt := now)
  }

  /** What the timer of `mockTriggerAutomation` does to the job when it fires. */
  function Finished(job: Job, success: bool, now: Time): (r: Job)
    ensures (r.status == Submitted <==> success) && (r.status == Failed <==> !success)
    ensures r.updatedAt == now && r.attempts == job.attempts + 1
    ensures r.log == Some(if success then SuccessLog else FailureLog)
    ensures SameListing(r, job)
  {
    job.(status := if success then Submitted else Failed,
         updatedAt := now,
         attempts := job.attempts + 1,
         log := Some(if success then SuccessLog else FailureLog))
  }

  /** Only the status, the log, the attempt count and the update time change over a run. */
  predicate SameListing(a: Job, b: Job)
  {
    a.id == b.id && a.url == b.url && a.jobTitle == b.jobTitle && a.createdAt == b.createdAt
  }

  /** A trigger followed by its resolution settles the job in a terminal status, one
      attempt later, with the matching log line. */
  lemma TriggerThenResolve(job: Job, startedAt: Time, success: bool, resolvedAt: Time)
    ensures var j := Finished(Started(job, startedAt), success, resolvedAt);
      && SameListing(job, j)
      && j.attempts == job.attempts + 1
      && (j.status == Submitted <==> success) && (j.status == Failed <==> !success)
      && j.log == Some(if j.status == Submitted then SuccessLog else FailureLog)
      && j.updatedAt == resolvedAt
  {
  }

  // ---------------------------------------------------------------------------------------
  // The listing: a stable sort by creation time, newest first
  // ---------------------------------------------------------------------------------------

  predicate NewestFirst(s: seq<Job>)
  {
    forall i, j | 0 <= i < j < |s| :: s[i].createdAt >= s[j].createdAt
  }

  /** Inserts `x` into `s` before the first job that is not newer than it. */
  function Insert(x: Job, s: seq<Job>): (r: seq<Job>)
    requires NewestFirst(s)
    ensures NewestFirst(r)
    ensures multiset(r) == multiset(s) + multiset{x}
    ensures |r| == |s| + 1
    ensures r[0] == x || (s != [] && r[0] == s[0])
  {
    if s == [] || s[0].createdAt <= x.createdAt then
      PrependKeepsOrder(x, s);
      [x] + s
    else
      NewestFirstTail(s);
      var rest := Insert(x, s[1..]);
      KeepHeadFirst(x, s, rest);
      [s[0]] + rest
  }

  /** `x` went into the tail of `s`: putting the head back in front keeps the order. */
  lemma KeepHeadFirst(x: Job, s: seq<Job>, rest: seq<Job>)
    requires NewestFirst(s) && s != [] && s[0].createdAt > x.createdAt
    requires NewestFirst(rest) && multiset(rest) == multiset(s[1..]) + multiset{x}
    requires |rest| == |s| && (rest[0] == x || (|s| > 1 && rest[0] == s[1]))
    ensures NewestFirst([s[0]] + rest)
    ensures multiset([s[0]] + rest) == multiset(s) + multiset{x}
  {
    NewestFirstTail(s);
    PrependKeepsOrder(s[0], rest);
    assert s == [s[0]] + s[1..];
  }

  lemma NewestFirstTail(s: seq<Job>)
    requires NewestFirst(s) && s != []
    ensures NewestFirst(s[1..])
    ensures |s| > 1 ==> s[1].createdAt <= s[0].createdAt
  {
  }

  lemma PrependKeepsOrder(a: Job, s: seq<Job>)
    requires NewestFirst(s)
    requires s != [] ==> s[0].createdAt <= a.createdAt
    ensures NewestFirst([a] + s)
  {
    forall i, j | 0 <= i < j < |s| + 1 ensures ([a] + s)[i].createdAt >= ([a] + s)[j].createdAt {
      if i == 0 {
        assert s[0].createdAt >= s[j - 1].createdAt;
      }
    }
  }

  /** The order `mockFetchJobs` returns: `sort` with `b.createdAt - a.createdAt` as
      comparator. `Array.prototype.sort` is stable, so jobs created at the same time keep
      their store order; this insertion sort keeps it by inserting each job in front of the
      equally old jobs that followed it. */
  function SortByNewest(s: seq<Job>): (r: seq<Job>)
    ensures NewestFirst(r)
    ensures multiset(r) == multiset(s)
    ensures |r| == |s|
  {
    if s == [] then []
    else
      assert s == [s[0]] + s[1..];
      Insert(s[0], SortByNewest(s[1..]))
  }

  /** The jobs of `s` created at time `t`, in their order in `s`. */
  function CreatedAt(s: seq<Job>, t: Time): seq<Job>
  {
    if s == [] then []
    else (if s[0].createdAt == t then [s[0]] else []) + CreatedAt(s[1..], t)
  }

  lemma {:induction false} InsertKeepsTies(x: Job, s: seq<Job>, t: Time)
    requires NewestFirst(s)
    ensures CreatedAt(Insert(x, s), t) == (if x.createdAt == t then [x] else []) + CreatedAt(s, t)
  {
    if s == [] || s[0].createdAt <= x.createdAt {
      assert Insert(x, s) == [x] + s;
      assert ([x] + s)[1..] == s;
    } else {
      NewestFirstTail(s);
      InsertKeepsTies(x, s[1..], t);
      assert Insert(x, s) == [s[0]] + Insert(x, s[1..]);
      TiesBehindNewerHead(x, s, Insert(x, s[1..]), t);
    }
  }

  /** The head of `s` is strictly newer than `x`, so at most one of the two is created at
      `t`, and the head keeps its place in front of the jobs created at `t`. */
  lemma TiesBehindNewerHead(x: Job, s: seq<Job>, rest: seq<Job>, t: Time)
    requires s != [] && s[0].createdAt > x.createdAt
    requires CreatedAt(rest, t) == (if x.createdAt == t then [x] else []) + CreatedAt(s[1..], t)
    ensures CreatedAt([s[0]] + rest, t) == (if x.createdAt == t then [x] else []) + CreatedAt(s, t)
  {
    var head := if s[0].createdAt == t then [s[0]] else [];
    assert ([s[0]] + rest)[1..] == rest;
    assert CreatedAt([s[0]] + rest, t) == head + CreatedAt(rest, t);
    assert CreatedAt(s, t) == head + CreatedAt(s[1..], t);
    if x.createdAt == t {
      assert head == [];
    } else {
      assert CreatedAt(rest, t) == CreatedAt(s[1..], t);
    }
  }

  /** The sort is stable: for every creation time, the jobs created then appear in the
      listing in the order they have in the store. */
  lemma {:induction false} SortIsStable(s: seq<Job>, t: Time)
    ensures CreatedAt(SortByNewest(s), t) == CreatedAt(s, t)
  {
    if s != [] {
      SortIsStable(s[1..], t);
      InsertKeepsTies(s[0], SortByNewest(s[1..]), t);
    }
  }

  /** A job created strictly after every job of the store is listed first. */
  lemma NewestJobListedFirst(s: seq<Job>, x: Job)
    requires forall j | j in s :: j.createdAt < x.createdAt
    ensures SortByNewest(s + [x])[0] == x
  {
    var r := SortByNewest(s + [x]);
    assert x in multiset(r) by {
      assert x in multiset(s + [x]);
    }
    var i :| 0 <= i < |r| && r[i] == x;
    assert r[0].createdAt >= x.createdAt;
    assert r[0] in multiset(s + [x]);
    assert r[0] !in s;
  }

  // ---------------------------------------------------------------------------------------
  // Marking one job 'In Progress' across a list
  // ---------------------------------------------------------------------------------------

  /** `jobs.map(j => j.id === id ? { ...j, status: 'In Progress', updatedAt: now } : j)`. */
  function MarkInProgress(jobs: seq<Job>, id: JobId, now: Time): (r: seq<Job>)
    ensures |r| == |jobs|
    ensures forall k | 0 <= k < |jobs| ::
      r[k] == if jobs[k].id == id then Started(jobs[k], now) else jobs[k]
    ensures NewestFirst(jobs) ==> NewestFirst(r)
  {
    if jobs == [] then []
    else [if jobs[0].id == id then Started(jobs[0], now) else jobs[0]] + MarkInProgress(jobs[1..], id, now)
  }

  /** A job is marked the same way wherever it ends up. */
  function MarkOne(x: Job, id: JobId, now: Time): (r: Job)
    ensures r.createdAt == x.createdAt
  {
    if x.id == id then Started(x, now) else x
  }

  lemma {:induction false} InsertCommutesWithMark(x: Job, s: seq<Job>, id: JobId, now: Time)
    requires NewestFirst(s)
    ensures Insert(MarkOne(x, id, now), MarkInProgress(s, id, now)) == MarkInProgress(Insert(x, s), id, now)
  {
    var x' := MarkOne(x, id, now);
    var s' := MarkInProgress(s, id, now);
    if s == [] || s[0].createdAt <= x.createdAt {
      assert Insert(x, s) == [x] + s;
      assert Insert(x', s') == [x'] + s';
      assert ([x] + s)[1..] == s;
    } else {
      InsertCommutesWithMark(x, s[1..], id, now);
      InsertAfterMarkedHead(x, s, id, now);
      MarkAfterInsertedHead(x, s, id, now);
    }
  }

  /** Inserting a job older than the head of a marked list keeps the marked head first. */
  lemma InsertAfterMarkedHead(x: Job, s: seq<Job>, id: JobId, now: Time)
    requires NewestFirst(s) && s != [] && s[0].createdAt > x.createdAt
    ensures Insert(MarkOne(x, id, now), MarkInProgress(s, id, now))
         == [MarkOne(s[0], id, now)] + Insert(MarkOne(x, id, now), MarkInProgress(s[1..], id, now))
  {
    var s' := MarkInProgress(s, id, now);
    var tail' := MarkInProgress(s[1..], id, now);
    assert s' == [MarkOne(s[0], id, now)] + tail';
    assert s'[1..] == tail';
  }

  /** Marking a list in which a job was inserted after the head keeps the marked head first. */
  lemma MarkAfterInsertedHead(x: Job, s: seq<Job>, id: JobId, now: Time)
    requires NewestFirst(s) && s != [] && s[0].createdAt > x.createdAt
    ensures MarkInProgress(Insert(x, s), id, now)
         == [MarkOne(s[0], id, now)] + MarkInProgress(Insert(x, s[1..]), id, now)
  {
    assert Insert(x, s) == [s[0]] + Insert(x, s[1..]);
    assert ([s[0]] + Insert(x, s[1..]))[1..] == Insert(x, s[1..]);
  }

  /** Marking a job in the listing gives the listing of the store after the same mark: the
      handler's optimistic update shows what the next poll returns until the job resolves. */
  lemma {:induction false} SortCommutesWithMark(s: seq<Job>, id: JobId, now: Time)
    ensures SortByNewest(MarkInProgress(s, id, now)) == MarkInProgress(SortByNewest(s), id, now)
  {
    if s != [] {
      SortCommutesWithMark(s[1..], id, now);
      assert MarkInProgress(s, id, now)[1..] == MarkInProgress(s[1..], id, now);
      InsertCommutesWithMark(s[0], SortByNewest(s[1..]), id, now);
    }
  }

  // ---------------------------------------------------------------------------------------
  // The decisions of the two handlers
  // ---------------------------------------------------------------------------------------

  const InvalidUrlMessage := "Please enter a valid Workday URL."
  const TitlePrefix := "Workday Listing "

  /** `workday` starts at index `i` of `url`, ignoring the case of its letters. */
  predicate WorkdayAt(url: string, i: int)
  {
    0 <= i && i + 7 <= |url| && forall k | 0 <= k < 7 :: Text.LowerChar(url[i + k]) == "workday"[k]
  }

  /** `url.toLowerCase().includes('workday')`: some position of the url spells `workday` in
      either case. */
  predicate ContainsWorkday(url: string)
    ensures ContainsWorkday(url) <==> exists i :: WorkdayAt(url, i)
  {
    assert forall i :: WorkdayAt(url, i) <==> Text.OccursAt(Text.Lower(url), "workday", i);
    Text.Includes(Text.Lower(url), "workday")
  }

  /** What `handleAddJob` makes of the text in the input box. */
  datatype AddDecision = Ignored | Rejected(error: string) | Accepted(input: JobInput)

  /** The checks of `handleAddJob` before it calls `mockAddJob`; `timeLabel` stands for
      `new Date().toLocaleTimeString()`. */
  function DecideAdd(jobUrl: string, timeLabel: string): (d: AddDecision)
    ensures d == Ignored <==> forall k | 0 <= k < |jobUrl| :: Text.IsWhitespace(jobUrl[k])
    ensures d.Rejected? <==> Text.Trim(jobUrl) != [] && !ContainsWorkday(jobUrl)
    ensures d.Rejected? ==> d.error == InvalidUrlMessage
    ensures d.Accepted? ==>
      d.input == JobInput(Pending, Text.Trim(jobUrl), TitlePrefix + timeLabel, 0)
  {
    if Text.Trim(jobUrl) == [] then Ignored
    else if !ContainsWorkday(jobUrl) then Rejected(InvalidUrlMessage)
    else Accepted(JobInput(Pending, Text.Trim(jobUrl), TitlePrefix + timeLabel, 0))
  }

  /** The characters of "workday" are not whitespace, so an occurrence never touches the
      trimmed margins: trimming neither creates nor destroys one. */
  lemma WorkdaySurvivesTrim(url: string)
    ensures ContainsWorkday(Text.Trim(url)) <==> ContainsWorkday(url)
  {
    var w := "workday";
    forall k | 0 <= k < |w| ensures !Text.IsWhitespace(w[k]) {
      assert 'a' <= w[k] <= 'y';
    }
    Text.IncludesSurvivesTrim(url, w);
  }

  /** The url of an accepted job passes the same checks again unchanged. */
  lemma AcceptedUrlIsSettled(jobUrl: string, timeLabel: string)
    requires DecideAdd(jobUrl, timeLabel).Accepted?
    ensures var url := DecideAdd(jobUrl, timeLabel).input.url;
      DecideAdd(url, timeLabel) == DecideAdd(jobUrl, timeLabel)
  {
    Text.TrimIdempotent(jobUrl);
    WorkdaySurvivesTrim(jobUrl);
  }

  /** A Workday url is accepted whatever the case of its letters, and stored trimmed. */
  lemma AcceptedExample(timeLabel: string)
    ensures DecideAdd(" x.MyWorkday.com", timeLabel)
         == Accepted(JobInput(Pending, "x.MyWorkday.com", TitlePrefix + timeLabel, 0))
  {
    var padded := " x.My" + "Workday" + ".com";
    assert padded == " x.MyWorkday.com";
    PaddedUrlTrim();
    CapitalWorkdayLowers();
    assert WorkdayAt(padded, 5) by {
      assert forall k | 0 <= k < 7 :: padded[5 + k] == "Workday"[k];
    }
  }

  lemma CapitalWorkdayLowers()
    ensures forall k | 0 <= k < 7 :: Text.LowerChar("Workday"[k]) == "workday"[k]
  {
  }

  lemma PaddedUrlTrim()
    ensures Text.Trim(" x.MyWorkday.com") == "x.MyWorkday.com"
  {
    var padded := " x.MyWorkday.com";
    var url := "x.MyWorkday.com";
    assert padded[1..] == url;
    assert Text.LeadingSpace(padded) == 1 by {
      assert Text.LeadingSpace(url) == 0;
    }
    assert Text.TrailingSpace(url) == 0;
  }

  /** A url of another site is rejected with the Workday message. */
  lemma RejectedExample(timeLabel: string)
    ensures DecideAdd("https://example.com/1", timeLabel) == Rejected(InvalidUrlMessage)
  {
    var other := "https://example.com/1";
    assert 'w' !in other && 'W' !in other;
    forall i ensures !Text.OccursAt(Text.Lower(other), "workday", i) {
      if 0 <= i < |other| {
        var w := "workday";
        assert other[i] in other;
        assert Text.Lower(other)[i + 0] != w[0];
      }
    }
    assert !Text.IsWhitespace(other[0]);
  }

  /** A blank input box is ignored. */
  lemma IgnoredExample(timeLabel: string)
    ensures DecideAdd(" \t", timeLabel) == Ignored
  {
    assert Text.IsWhitespace(" \t"[0]) && Text.IsWhitespace(" \t"[1]);
  }

  /** `handleTriggerSubmission`'s optimistic update of the list on screen: nothing for a job
      already 'In Progress', otherwise that job marked 'In Progress'. */
  function OptimisticView(view: seq<Job>, job: Job, now: Time): (r: seq<Job>)
    ensures job.status == InProgress ==> r == view
    ensures |r| == |view|
    ensures job.status != InProgress ==> forall k | 0 <= k < |view| ::
      r[k] == if view[k].id == job.id then Started(view[k], now) else view[k]
  {
    if job.status == InProgress then view else MarkInProgress(view, job.id, now)
  }

  /** `Array.prototype.find` on the id: the first job with that id. */
  function FindJob(jobs: seq<Job>, id: JobId): (r: Option<nat>)
    ensures r.None? <==> forall k | 0 <= k < |jobs| :: jobs[k].id != id
    ensures r.Some? ==> r.value < |jobs| && jobs[r.value].id == id
    ensures r.Some? ==> forall k | 0 <= k < r.value :: jobs[k].id != id
  {
    if jobs == [] then None
    else if jobs[0].id == id then Some(0)
    else match FindJob(jobs[1..], id)
      case None => None
      case Some(k) => Some(k + 1)
  }

  /** Some job in `jobs` has the id `id`. */
  predicate HasJob(jobs: seq<Job>, id: JobId)
  {
    exists k | 0 <= k < |jobs| :: jobs[k].id == id
  }

  /** Appending a job keeps every id that was stored. */
  lemma HasJobGrows(jobs: seq<Job>, job: Job)
    ensures forall id | HasJob(jobs, id) :: HasJob(jobs + [job], id)
  {
    forall id | HasJob(jobs, id) ensures HasJob(jobs + [job], id) {
      var k :| 0 <= k < |jobs| && jobs[k].id == id;
      assert (jobs + [job])[k] == jobs[k];
    }
  }

  /** Replacing one job by one with the same id keeps every id that was stored. */
  lemma HasJobKeptByUpdate(jobs: seq<Job>, i: int, job: Job)
    requires 0 <= i < |jobs| && job.id == jobs[i].id
    ensures forall id | HasJob(jobs, id) :: HasJob(jobs[i := job], id)
  {
    forall id | HasJob(jobs, id) ensures HasJob(jobs[i := job], id) {
      var k :| 0 <= k < |jobs| && jobs[k].id == id;
      assert jobs[i := job][k].id == id;
    }
  }

  // ---------------------------------------------------------------------------------------
  // The store
  // ---------------------------------------------------------------------------------------

  /** `MOCK_JOB_DATA_STORE`, with the id source that replaces `crypto.randomUUID`. */
  class JobStore {
    var jobs: seq<Job>
    var nextId: JobId
    /** The timers set by `mockTriggerAutomation` that have not fired yet, one copy of the
        job's id per timer. */
    var pending: multiset<JobId>

    /** Ids are unique, every id handed out so far is below `nextId`, and every pending timer
        belongs to a stored job. */
    ghost predicate Valid()
      reads this
    {
      && (forall k | 0 <= k < |jobs| :: jobs[k].id < nextId)
      && (forall i, j | 0 <= i < j < |jobs| :: jobs[i].id != jobs[j].id)
      && (forall id | id in pending :: HasJob(jobs, id))
    }

    constructor ()
      ensures Valid() && jobs == [] && nextId == 0 && pending == multiset{}
    {
      jobs := [];
      nextId := 0;
      pending := multiset{};
    }

    /** `mockAddJob`: appends the new job and answers with it. */
    method AddJob(input: JobInput, now: Time) returns (job: Job, message: string)
      requires Valid()
      modifies this
      ensures Valid()
      ensures job == NewJob(input, old(nextId), now)
      ensures jobs == old(jobs) + [job]
      ensures forall k | 0 <= k < |old(jobs)| :: old(jobs)[k].id != job.id
      ensures nextId == old(nextId) + 1 && pending == old(pending)
      ensures message == AddedMessage
    {
      job := NewJob(input, nextId, now);
      nextId := nextId + 1;
      ghost var before := jobs;
      jobs := jobs + [job];
      HasJobGrows(before, job);
      message := AddedMessage;
    }

    /** `mockFetchJobs`: a sorted copy; the store itself is not reordered. */
    function Listing(): (r: seq<Job>)
      reads this
      ensures NewestFirst(r)
      ensures multiset(r) == multiset(jobs)
      ensures forall t :: CreatedAt(r, t) == CreatedAt(jobs, t)
    {
      forall t ensures CreatedAt(SortByNewest(jobs), t) == CreatedAt(jobs, t) {
        SortIsStable(jobs, t);
      }
      SortByNewest(jobs)
    }

    /** The synchronous part of `mockTriggerAutomation`: an unknown id is rejected and
        changes nothing; a known one is marked 'In Progress' at `now`. */
    method TriggerAutomation(id: JobId, now: Time) returns (r: Result<(), string>)
      requires Valid()
      modifies this
      ensures Valid() && nextId == old(nextId)
      ensures r == if exists k | 0 <= k < |old(jobs)| :: old(jobs)[k].id == id then Success(())
                   else Failure(NotFoundMessage)
      ensures r.Failure? ==> jobs == old(jobs)
      ensures r.Success? ==> jobs == MarkInProgress(old(jobs), id, now)
      ensures pending == if r.Success? then old(pending) + multiset{id} else old(pending)
    {
      var found := FindJob(jobs, id);
      if found.None? {
        return Failure(NotFoundMessage);
      }
      var i := found.value;
      ghost var before := jobs;
      jobs := jobs[i := Started(jobs[i], now)];
      HasJobKeptByUpdate(before, i, jobs[i]);
      pending := pending + multiset{id};
      r := Success(());
    }

    /** One pending timer of `mockTriggerAutomation` firing for the job it found; `success`
        is the draw `Math.random() > 0.3`. */
    method Resolve(id: JobId, success: bool, now: Time) returns (message: string)
      requires Valid()
      requires id in pending
      modifies this
      ensures Valid() && nextId == old(nextId)
      ensures pending == old(pending) - multiset{id}
      ensures |jobs| == |old(jobs)|
      ensures forall k | 0 <= k < |jobs| ::
        jobs[k] == if old(jobs)[k].id == id then Finished(old(jobs)[k], success, now) else old(jobs)[k]
      ensures message == "Submission finished with status: " + StatusName(if success then Submitted else Failed)
    {
      var found := FindJob(jobs, id);
      var i := found.value;
      var job := Finished(jobs[i], success, now);
      ghost var before := jobs;
      jobs := jobs[i := job];
      HasJobKeptByUpdate(before, i, job);
      pending := pending - multiset{id};
      message := "Submission finished with status: " + StatusName(job.status);
    }

    /** `handleAddJob`: decides on the input and, when it is accepted, adds the job. */
    method HandleAddJob(jobUrl: string, timeLabel: string, now: Time) returns (decision: AddDecision)
      requires Valid()
      modifies this
      ensures Valid()
      ensures decision == DecideAdd(jobUrl, timeLabel)
      ensures jobs == if decision.Accepted? then old(jobs) + [NewJob(decision.input, old(nextId), now)]
                      else old(jobs)
      ensures nextId == if decision.Accepted? then old(nextId) + 1 else old(nextId)
      ensures pending == old(pending)
    {
      decision := DecideAdd(jobUrl, timeLabel);
      if decision.Accepted? {
        var _, _ := AddJob(decision.input, now);
      }
    }

    /** `handleTriggerSubmission` up to the call that waits for the resolution: a job shown
        as 'In Progress' is left alone; otherwise the list on screen is updated at once and
        the store is asked to run the job. The two clock reads are separate: `viewNow` is the
        `new Date()` of the state updater, `storeNow` the one inside `mockTriggerAutomation`.
        When the screen showed the store's listing, the next poll returns the optimistic list
        with the store's time; with a single time the two lists are equal. */
    method HandleTriggerSubmission(view: seq<Job>, job: Job, viewNow: Time, storeNow: Time)
      returns (newView: seq<Job>, triggered: Option<Result<(), string>>)
      requires Valid()
      modifies this
      ensures Valid() && nextId == old(nextId)
      ensures newView == OptimisticView(view, job, viewNow)
      ensures job.status == InProgress ==> triggered == None && jobs == old(jobs)
      ensures job.status != InProgress ==> triggered == Some(
        if exists k | 0 <= k < |old(jobs)| :: old(jobs)[k].id == job.id then Success(())
        else Failure(NotFoundMessage))
      ensures triggered == Some(Failure(NotFoundMessage)) ==> jobs == old(jobs)
      ensures triggered == Some(Success(())) ==> jobs == MarkInProgress(old(jobs), job.id, storeNow)
      ensures pending == if triggered == Some(Success(())) then old(pending) + multiset{job.id}
                         else old(pending)
      ensures triggered == Some(Success(())) && view == SortByNewest(old(jobs)) ==>
        Listing() == OptimisticView(view, job, storeNow)
      ensures triggered == Some(Success(())) && view == SortByNewest(old(jobs)) && viewNow == storeNow ==>
        newView == Listing()
    {
      newView := OptimisticView(view, job, viewNow);
      if job.status == InProgress {
        return newView, None;
      }
      ghost var before := jobs;
      var r := TriggerAutomation(job.id, storeNow);
      triggered := Some(r);
      if r.Success? {
        SortCommutesWithMark(before, job.id, storeNow);
      }
    }
  }
}
