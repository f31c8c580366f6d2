/** The job application pipeline: statuses, the history table and the bulk change. */
module Applications {
  import opened Wrappers
  import opened Sequences

  datatype Status =
    | Draft
    | Submitted
    | UnderReview
    | Shortlisted
    | InterviewScheduled
    | Interviewed
    | OfferExtended
    | Hired
    | Rejected
    | Withdrawn

  type AppId = string
  type PostingId = string

  datatype Application = Application(email: string, postingId: PostingId, status: Status, createdAt: int)

  datatype Posting = Posting(published: bool, closesAt: Option<int>)

  datatype HistoryRow = HistoryRow(applicationId: AppId, fromStatus: Status, toStatus: Status)

  datatype State = State(
    postings: map<PostingId, Posting>,
    applications: map<AppId, Application>,
    history: seq<HistoryRow>)

  datatype Error =
    | PostingNotFound
    | PostingNotPublished
    | PostingClosed
    | VerifyCodeInvalid
    | Duplicate
    | CustomFieldsInvalid
    | NotFound
    | AlreadyWithdrawn
    | TerminalStatus(status: Status)
    | InvalidTransition(fromStatus: Status, toStatus: Status)

  predicate IsTerminal(s: Status) {
    s == Hired || s == Rejected || s == Withdrawn
  }

  function AllowedTransitions(s: Status): set<Status> {
    match s
    case Draft => {Submitted}
    case Submitted => {UnderReview, Rejected, Withdrawn}
    case UnderReview => {Shortlisted, Rejected, Withdrawn}
    case Shortlisted => {InterviewScheduled, Rejected, Withdrawn}
    case InterviewScheduled => {Interviewed, Rejected, Withdrawn}
    case Interviewed => {OfferExtended, Rejected, Withdrawn}
    case OfferExtended => {Hired, Rejected, Withdrawn}
    case _ => {}
  }

  /** One transaction: the new status and the history row that records it. */
  function Moved(s: State, id: AppId, status: Status): State
    requires id in s.applications
  {
    var a := s.applications[id];
    s.(applications := s.applications[id := a.(status := status)],
       history := s.history + [HistoryRow(id, a.status, status)])
  }

  /** One transaction: a new application, submitted at once, and its first history row. */
  function Created(s: State, id: AppId, a: Application): State {
    s.(applications := s.applications[id := a], history := s.history + [HistoryRow(id, Draft, Submitted)])
  }

  /** Why a status change is refused before anything is written. */
  function Refusal(s: State, id: AppId, status: Status): Option<Error> {
    if id !in s.applications then Some(NotFound)
    else
      var current := s.applications[id].status;
      if IsTerminal(current) then Some(TerminalStatus(current))
      else if status !in AllowedTransitions(current) then Some(InvalidTransition(current, status))
      else None
  }

  /** The posting is looked up only after the transaction, for the event; the foreign key says it is there. */
  function ChangeStatus(s: State, id: AppId, status: Status): (State, Result<(), Error>) {
    match Refusal(s, id, status)
    case Some(error) => (s, Err(error))
    case None =>
      (Moved(s, id, status),
       if s.applications[id].postingId in s.postings then Ok(()) else Err(PostingNotFound))
  }

  function Withdraw(s: State, id: AppId): (State, Result<(), Error>) {
    if id !in s.applications then (s, Err(NotFound))
    else
      var current := s.applications[id].status;
      if current == Withdrawn then (s, Err(AlreadyWithdrawn))
      else if IsTerminal(current) then (s, Err(TerminalStatus(current)))
      else (Moved(s, id, Withdrawn), Ok(()))
  }

  datatype Submission = Submission(
    email: string, postingId: PostingId, codeValid: bool, fieldsValid: bool, now: int, newId: AppId)

  predicate SameApplicant(s: State, id: AppId, email: string, postingId: PostingId) {
    id in s.applications && s.applications[id].email == email && s.applications[id].postingId == postingId
  }

  ghost function FindExisting(s: State, email: string, postingId: PostingId): Option<AppId> {
    if exists id :: SameApplicant(s, id, email, postingId) then
      var id :| SameApplicant(s, id, email, postingId);
      Some(id)
    else None
  }

  ghost function Submit(s: State, d: Submission): (State, Result<AppId, Error>) {
    if d.postingId !in s.postings then (s, Err(PostingNotFound))
    else if !s.postings[d.postingId].published then (s, Err(PostingNotPublished))
    else if s.postings[d.postingId].closesAt.Some? && s.postings[d.postingId].closesAt.value < d.now then
      (s, Err(PostingClosed))
    else if !d.codeValid then (s, Err(VerifyCodeInvalid))
    else
      match FindExisting(s, d.email, d.postingId)
      case Some(id) =>
        if !SameApplicant(s, id, d.email, d.postingId) || s.applications[id].status != Draft then (s, Err(Duplicate))
        else if !d.fieldsValid then (s, Err(CustomFieldsInvalid))
        else (Moved(s, id, Submitted), Ok(id))
      case None =>
        if !d.fieldsValid then (s, Err(CustomFieldsInvalid))
        else
          (Created(s, d.newId, Application(d.email, d.postingId, Submitted, d.now)), Ok(d.newId))
  }

  function OldDrafts(applications: map<AppId, Application>, cutoff: int): set<AppId> {
    set id | id in applications && applications[id].status == Draft && applications[id].createdAt < cutoff
  }

  function PruneDrafts(s: State, cutoff: int): State {
    var deleted := OldDrafts(s.applications, cutoff);
    s.(applications := s.applications - deleted, history := RowsKept(s.history, deleted))
  }

  /** Deleting an application deletes its history. */
  function RowsKept(history: seq<HistoryRow>, deleted: set<AppId>): seq<HistoryRow> {
    if history == [] then []
    else
      var last := history[|history| - 1];
      RowsKept(history[..|history| - 1], deleted) + if last.applicationId in deleted then [] else [last]
  }

  // ---------- the bulk change ----------

  datatype BulkResult = BulkResult(succeeded: seq<AppId>, failed: seq<(AppId, Error)>)

  function BulkChange(s: State, ids: seq<AppId>, status: Status): (State, BulkResult)
    decreases |ids|
  {
    if ids == [] then (s, BulkResult([], []))
    else
      var n := |ids| - 1;
      var (t, r) := BulkChange(s, ids[..n], status);
      var (t', outcome) := ChangeStatus(t, ids[n], status);
      (t', Recorded(r, ids[n], outcome))
  }

  function Recorded(r: BulkResult, id: AppId, outcome: Result<(), Error>): BulkResult {
    match outcome
    case Ok(_) => r.(succeeded := r.succeeded + [id])
    case Err(error) => r.(failed := r.failed + [(id, error)])
  }

  class ApplicationService {
    var postings: map<PostingId, Posting>
    var applications: map<AppId, Application>
    var history: seq<HistoryRow>

    function Now(): State
      reads this
    {
      State(postings, applications, history)
    }

    constructor (postings: map<PostingId, Posting>)
      ensures Now() == State(postings, map[], [])
    {
      this.postings, applications, history := postings, map[], [];
    }

    method SubmitApplication(d: Submission) returns (r: Result<AppId, Error>)
      requires Consistent(Now())
      modifies this
      ensures (Now(), r) == Submit(old(Now()), d)
    {
      if d.postingId !in postings {
        return Err(PostingNotFound);
      }
      var posting := postings[d.postingId];
      if !posting.published {
        return Err(PostingNotPublished);
      }
      if posting.closesAt.Some? && posting.closesAt.value < d.now {
        return Err(PostingClosed);
      }
      if !d.codeValid {
        return Err(VerifyCodeInvalid);
      }
      if id :| id in applications && SameApplicant(Now(), id, d.email, d.postingId) {
        if applications[id].status != Draft {
          return Err(Duplicate);
        }
        if !d.fieldsValid {
          return Err(CustomFieldsInvalid);
        }
        history := history + [HistoryRow(id, Draft, Submitted)];
        applications := applications[id := applications[id].(status := Submitted)];
        r := Ok(id);
      } else {
        if !d.fieldsValid {
          return Err(CustomFieldsInvalid);
        }
        applications := applications[d.newId := Application(d.email, d.postingId, Submitted, d.now)];
        history := history + [HistoryRow(d.newId, Draft, Submitted)];
        r := Ok(d.newId);
      }
    }

    method ChangeStatusOf(id: AppId, status: Status) returns (r: Result<(), Error>)
      modifies this
      ensures (Now(), r) == ChangeStatus(old(Now()), id, status)
    {
      if id !in applications {
        return Err(NotFound);
      }
      var application := applications[id];
      if IsTerminal(application.status) {
        return Err(TerminalStatus(application.status));
      }
      if status !in AllowedTransitions(application.status) {
        return Err(InvalidTransition(application.status, status));
      }
      applications := applications[id := application.(status := status)];
      history := history + [HistoryRow(id, application.status, status)];
      r := if application.postingId in postings then Ok(()) else Err(PostingNotFound);
    }

    method WithdrawApplication(id: AppId) returns (r: Result<(), Error>)
      modifies this
      ensures (Now(), r) == Withdraw(old(Now()), id)
    {
      if id !in applications {
        return Err(NotFound);
      }
      var application := applications[id];
      if application.status == Withdrawn {
        return Err(AlreadyWithdrawn);
      }
      if IsTerminal(application.status) {
        return Err(TerminalStatus(application.status));
      }
      applications := applications[id := application.(status := Withdrawn)];
      history := history + [HistoryRow(id, application.status, Withdrawn)];
      r := Ok(());
    }

    method BulkChangeStatus(ids: seq<AppId>, status: Status)
      returns (succeeded: seq<AppId>, failed: seq<(AppId, Error)>)
      modifies this
      ensures (Now(), BulkResult(succeeded, failed)) == BulkChange(old(Now()), ids, status)
    {
      succeeded, failed := [], [];
      var i := 0;
      while i < |ids|
        invariant 0 <= i <= |ids|
        invariant (Now(), BulkResult(succeeded, failed)) == BulkChange(old(Now()), ids[..i], status)
      {
        assert ids[..i + 1][..i] == ids[..i] && ids[..i + 1][i] == ids[i];
        var outcome := ChangeStatusOf(ids[i], status);
        match outcome {
          case Ok(_) => succeeded := succeeded + [ids[i]];
          case Err(error) => failed := failed + [(ids[i], error)];
        }
        i := i + 1;
      }
      assert ids[..i] == ids;
    }

    method PruneDraftApplications(cutoff: int) returns (count: nat)
      modifies this
      ensures Now() == PruneDrafts(old(Now()), cutoff)
      ensures count + |applications| == |old(applications)|
      ensures forall id :: id in applications <==>
                             && id in old(applications)
                             && !(old(applications)[id].status == Draft && old(applications)[id].createdAt < cutoff)
      ensures forall id :: id in applications ==> applications[id] == old(applications)[id]
    {
      var deleted := OldDrafts(applications, cutoff);
      count := |deleted|;
      assert deleted <= applications.Keys && (applications - deleted).Keys == applications.Keys - deleted;
      history := RowsKept(history, deleted);
      applications := applications - deleted;
    }
  }

  // ---------- histories are paths ----------

  function HistoryOf(history: seq<HistoryRow>, id: AppId): seq<HistoryRow> {
    if history == [] then []
    else
      var last := history[|history| - 1];
      HistoryOf(history[..|history| - 1], id) + if last.applicationId == id then [last] else []
  }

  /** The transitions any service method makes: the table, and withdrawal from every open status. */
  predicate Legal(fromStatus: Status, toStatus: Status) {
    toStatus in AllowedTransitions(fromStatus) || (toStatus == Withdrawn && !IsTerminal(fromStatus))
  }

  /** The rows join up, start at DRAFT and end at the given status. */
  ghost predicate IsPath(rows: seq<HistoryRow>, status: Status) {
    && (rows == [] ==> status == Draft)
    && (rows != [] ==> rows[0].fromStatus == Draft && rows[|rows| - 1].toStatus == status)
    && (forall i :: 0 <= i < |rows| - 1 ==> rows[i].toStatus == rows[i + 1].fromStatus)
    && forall i :: 0 <= i < |rows| ==> Legal(rows[i].fromStatus, rows[i].toStatus)
  }

  /** Histories are paths of their applications, the foreign key holds, and an applicant applies once to a posting. */
  ghost predicate Consistent(s: State) {
    && (forall id :: HistoryFits(s, id))
    && (forall id :: id in s.applications ==> s.applications[id].postingId in s.postings)
    && AppliesOnce(s.applications)
  }

  ghost predicate HistoryFits(s: State, id: AppId) {
    if id in s.applications then IsPath(HistoryOf(s.history, id), s.applications[id].status)
    else HistoryOf(s.history, id) == []
  }

  ghost predicate AppliesOnce(applications: map<AppId, Application>) {
    forall a, b | a in applications && b in applications ::
      applications[a].email == applications[b].email && applications[a].postingId == applications[b].postingId ==> a == b
  }

  lemma HistoryAfter(history: seq<HistoryRow>, row: HistoryRow, id: AppId)
    ensures HistoryOf(history + [row], id) == HistoryOf(history, id) + if row.applicationId == id then [row] else []
  {
    assert (history + [row])[..|history|] == history;
  }

  lemma PathExtends(rows: seq<HistoryRow>, id: AppId, status: Status, next: Status)
    requires IsPath(rows, status) && Legal(status, next)
    ensures IsPath(rows + [HistoryRow(id, status, next)], next)
  {
  }

  lemma MovedFits(s: State, id: AppId, status: Status, x: AppId)
    requires id in s.applications && Legal(s.applications[id].status, status)
    requires HistoryFits(s, id) && HistoryFits(s, x)
    ensures HistoryFits(Moved(s, id, status), x)
  {
    HistoryAfter(s.history, HistoryRow(id, s.applications[id].status, status), x);
    if x == id {
      PathExtends(HistoryOf(s.history, id), id, s.applications[id].status, status);
    } else {
      assert HistoryOf(Moved(s, id, status).history, x) == HistoryOf(s.history, x);
    }
  }

  lemma MovedConsistent(s: State, id: AppId, status: Status)
    requires Consistent(s) && id in s.applications && Legal(s.applications[id].status, status)
    ensures Consistent(Moved(s, id, status))
  {
    forall x
      ensures HistoryFits(Moved(s, id, status), x)
    {
      MovedFits(s, id, status, x);
    }
  }

  lemma FirstRowIsPath(id: AppId)
    ensures IsPath([HistoryRow(id, Draft, Submitted)], Submitted)
  {
  }

  lemma CreatedFits(s: State, id: AppId, a: Application, x: AppId)
    requires id !in s.applications && a.status == Submitted
    requires HistoryFits(s, id) && HistoryFits(s, x)
    ensures HistoryFits(Created(s, id, a), x)
  {
    HistoryAfter(s.history, HistoryRow(id, Draft, Submitted), x);
    if x == id {
      FirstRowIsPath(id);
      assert HistoryOf(Created(s, id, a).history, x) == [HistoryRow(id, Draft, Submitted)];
    } else {
      assert HistoryOf(Created(s, id, a).history, x) == HistoryOf(s.history, x);
    }
  }

  lemma CreatedConsistent(s: State, id: AppId, a: Application)
    requires Consistent(s) && id !in s.applications && a.postingId in s.postings && a.status == Submitted
    requires forall x :: !SameApplicant(s, x, a.email, a.postingId)
    ensures Consistent(Created(s, id, a))
  {
    forall x
      ensures HistoryFits(Created(s, id, a), x)
    {
      CreatedFits(s, id, a, x);
    }
    AddedAppliesOnce(s, id, a);
  }

  lemma AddedAppliesOnce(s: State, id: AppId, a: Application)
    requires AppliesOnce(s.applications)
    requires forall x :: !SameApplicant(s, x, a.email, a.postingId)
    ensures AppliesOnce(s.applications[id := a])
  {
    var after := s.applications[id := a];
    forall x, y | x in after && y in after && after[x].email == after[y].email && after[x].postingId == after[y].postingId
      ensures x == y
    {
      assert !SameApplicant(s, x, a.email, a.postingId) && !SameApplicant(s, y, a.email, a.postingId);
    }
  }

  lemma {:induction false} RowsKeptOf(history: seq<HistoryRow>, deleted: set<AppId>, id: AppId)
    ensures HistoryOf(RowsKept(history, deleted), id) == if id in deleted then [] else HistoryOf(history, id)
  {
    if history == [] {
    } else {
      var front, last := history[..|history| - 1], history[|history| - 1];
      RowsKeptOf(front, deleted, id);
      if last.applicationId in deleted {
        assert RowsKept(history, deleted) == RowsKept(front, deleted);
      } else {
        HistoryAfter(RowsKept(front, deleted), last, id);
      }
    }
  }

  lemma PruneConsistent(s: State, cutoff: int)
    requires Consistent(s)
    ensures Consistent(PruneDrafts(s, cutoff))
  {
    forall x
      ensures HistoryFits(PruneDrafts(s, cutoff), x)
    {
      assert HistoryFits(s, x);
      RowsKeptOf(s.history, OldDrafts(s.applications, cutoff), x);
    }
  }

  // ---------- runs ----------

  datatype Step =
    | InsertDraft(id: AppId, email: string, postingId: PostingId, createdAt: int)
    | SubmitStep(submission: Submission)
    | ChangeStep(id: AppId, status: Status)
    | WithdrawStep(id: AppId)
    | PruneStep(cutoff: int)

  /** New ids are fresh; a draft row may come from elsewhere if it respects the table's constraints. */
  ghost predicate Enabled(s: State, step: Step) {
    match step
    case InsertDraft(id, email, postingId, _) =>
      && id !in s.applications
      && postingId in s.postings
      && forall x :: !SameApplicant(s, x, email, postingId)
    case SubmitStep(d) => d.newId !in s.applications
    case _ => true
  }

  ghost function Next(s: State, step: Step): State {
    match step
    case InsertDraft(id, email, postingId, createdAt) =>
      s.(applications := s.applications[id := Application(email, postingId, Draft, createdAt)])
    case SubmitStep(d) => Submit(s, d).0
    case ChangeStep(id, status) => ChangeStatus(s, id, status).0
    case WithdrawStep(id) => Withdraw(s, id).0
    case PruneStep(cutoff) => PruneDrafts(s, cutoff)
  }

  ghost predicate IsRun(s: State, steps: seq<Step>)
    decreases |steps|
  {
    steps == [] || (Enabled(s, steps[0]) && IsRun(Next(s, steps[0]), steps[1..]))
  }

  ghost function Final(s: State, steps: seq<Step>): State
    decreases |steps|
  {
    if steps == [] then s else Final(Next(s, steps[0]), steps[1..])
  }

  lemma SubmitConsistent(s: State, d: Submission)
    requires Consistent(s) && d.newId !in s.applications
    ensures Consistent(Submit(s, d).0)
  {
    var t := Submit(s, d).0;
    if t != s {
      match FindExisting(s, d.email, d.postingId)
      case Some(id) => MovedConsistent(s, id, Submitted);
      case None => CreatedConsistent(s, d.newId, Application(d.email, d.postingId, Submitted, d.now));
    }
  }

  lemma StepConsistent(s: State, step: Step)
    requires Consistent(s) && Enabled(s, step)
    ensures Consistent(Next(s, step))
  {
    match step
    case InsertDraft(id, email, postingId, createdAt) =>
      AddedAppliesOnce(s, id, Application(email, postingId, Draft, createdAt));
      assert forall x :: HistoryFits(s, x) ==> HistoryFits(Next(s, step), x);
    case SubmitStep(d) => SubmitConsistent(s, d);
    case ChangeStep(id, status) =>
      if Refusal(s, id, status) == None {
        MovedConsistent(s, id, status);
      }
    case WithdrawStep(id) =>
      if id in s.applications && !IsTerminal(s.applications[id].status) {
        MovedConsistent(s, id, Withdrawn);
      }
    case PruneStep(cutoff) => PruneConsistent(s, cutoff);
  }

  lemma {:induction false} RunConsistent(s: State, steps: seq<Step>)
    requires Consistent(s) && IsRun(s, steps)
    ensures Consistent(Final(s, steps))
    decreases |steps|
  {
    if steps == [] {
    } else {
      StepConsistent(s, steps[0]);
      RunConsistent(Next(s, steps[0]), steps[1..]);
    }
  }

  // ---------- how long a path is, and what it can be ----------

  const PIPELINE := [Draft, Submitted, UnderReview, Shortlisted, InterviewScheduled, Interviewed, OfferExtended, Hired]

  /** How far along the pipeline a status stands; the three terminal ones come last. */
  function Rank(s: Status): nat {
    match s
    case Draft => 0
    case Submitted => 1
    case UnderReview => 2
    case Shortlisted => 3
    case InterviewScheduled => 4
    case Interviewed => 5
    case OfferExtended => 6
    case _ => 7
  }

  lemma {:induction false} PathLength(rows: seq<HistoryRow>, status: Status)
    requires IsPath(rows, status)
    ensures |rows| <= Rank(status)
    decreases |rows|
  {
    if rows == [] {
    } else {
      var n := |rows| - 1;
      PathFront(rows, status);
      PathLength(rows[..n], rows[n].fromStatus);
    }
  }

  lemma PathFront(rows: seq<HistoryRow>, status: Status)
    requires IsPath(rows, status) && rows != []
    ensures IsPath(rows[..|rows| - 1], rows[|rows| - 1].fromStatus)
  {
    var n := |rows| - 1;
    if n > 0 {
      assert rows[n - 1].toStatus == rows[n - 1 + 1].fromStatus;
    }
  }

  /** The only path to a status that is neither REJECTED nor WITHDRAWN is the pipeline up to it, step by step. */
  lemma {:induction false} PathIsPipeline(rows: seq<HistoryRow>, status: Status, id: AppId)
    requires IsPath(rows, status) && status != Rejected && status != Withdrawn
    requires forall i :: 0 <= i < |rows| ==> rows[i].applicationId == id
    ensures rows == seq(Rank(status), i requires 0 <= i < Rank(status) => HistoryRow(id, PIPELINE[i], PIPELINE[i + 1]))
    decreases |rows|
  {
    if rows == [] {
    } else {
      var n := |rows| - 1;
      PathFront(rows, status);
      var last := rows[n];
      PipelineStep(last.fromStatus, status);
      PathIsPipeline(rows[..n], last.fromStatus, id);
      assert last == HistoryRow(id, PIPELINE[n], PIPELINE[n + 1]);
      assert rows == rows[..n] + [last];
    }
  }

  lemma PipelineStep(fromStatus: Status, status: Status)
    requires Legal(fromStatus, status) && status != Rejected && status != Withdrawn
    ensures fromStatus != Rejected && fromStatus != Withdrawn && Rank(status) == Rank(fromStatus) + 1
    ensures PIPELINE[Rank(fromStatus)] == fromStatus && PIPELINE[Rank(status)] == status
  {
  }

  lemma {:induction false} HistoryOfOwn(history: seq<HistoryRow>, id: AppId)
    ensures forall i :: 0 <= i < |HistoryOf(history, id)| ==> HistoryOf(history, id)[i].applicationId == id
  {
    if history == [] {
    } else {
      HistoryOfOwn(history[..|history| - 1], id);
    }
  }

  /** In every reachable state each history is a path from DRAFT to the current status with at most seven rows, and the
      history of a HIRED application is the seven-step pipeline. */
  lemma HistoryIsAPath(postings: map<PostingId, Posting>, steps: seq<Step>, id: AppId)
    requires IsRun(State(postings, map[], []), steps)
    requires id in Final(State(postings, map[], []), steps).applications
    ensures var s := Final(State(postings, map[], []), steps);
            var rows := HistoryOf(s.history, id);
            && IsPath(rows, s.applications[id].status)
            && |rows| <= 7
            && (s.applications[id].status == Hired ==>
                  rows == seq(7, i requires 0 <= i < 7 => HistoryRow(id, PIPELINE[i], PIPELINE[i + 1])))
  {
    RunConsistent(State(postings, map[], []), steps);
    var s := Final(State(postings, map[], []), steps);
    var rows := HistoryOf(s.history, id);
    assert HistoryFits(s, id);
    PathLength(rows, s.applications[id].status);
    HistoryOfOwn(s.history, id);
    if s.applications[id].status == Hired {
      PathIsPipeline(rows, Hired, id);
    }
  }

  lemma OtherHistory(s: State, id: AppId, x: AppId, status: Status)
    requires id in s.applications && x != id
    ensures HistoryOf(Moved(s, id, status).history, x) == HistoryOf(s.history, x)
  {
    HistoryAfter(s.history, HistoryRow(id, s.applications[id].status, status), x);
  }

  ghost predicate SameApplication(s: State, t: State, id: AppId)
    requires id in s.applications
  {
    id in t.applications && t.applications[id] == s.applications[id] && HistoryOf(t.history, id) == HistoryOf(s.history, id)
  }

  lemma OtherMoved(s: State, x: AppId, id: AppId, status: Status)
    requires x in s.applications && id in s.applications && x != id
    ensures SameApplication(s, Moved(s, x, status), id)
  {
    OtherHistory(s, x, id, status);
  }

  lemma SubmitKeepsTerminal(s: State, d: Submission, id: AppId)
    requires d.newId !in s.applications && id in s.applications && IsTerminal(s.applications[id].status)
    ensures SameApplication(s, Submit(s, d).0, id)
  {
    if Submit(s, d).0 != s {
      match FindExisting(s, d.email, d.postingId)
      case Some(x) => OtherMoved(s, x, id, Submitted);
      case None => HistoryAfter(s.history, HistoryRow(d.newId, Draft, Submitted), id);
    }
  }

  lemma StepKeepsTerminal(s: State, step: Step, id: AppId)
    requires Enabled(s, step) && id in s.applications && IsTerminal(s.applications[id].status)
    ensures SameApplication(s, Next(s, step), id)
  {
    match step
    case InsertDraft(_, _, _, _) =>
    case SubmitStep(d) => SubmitKeepsTerminal(s, d, id);
    case ChangeStep(x, status) =>
      if Refusal(s, x, status) == None {
        OtherMoved(s, x, id, status);
      }
    case WithdrawStep(x) =>
      if x in s.applications && !IsTerminal(s.applications[x].status) {
        OtherMoved(s, x, id, Withdrawn);
      }
    case PruneStep(cutoff) => RowsKeptOf(s.history, OldDrafts(s.applications, cutoff), id);
  }

  /** Terminal statuses are absorbing: whatever runs afterwards, the application and its history stay as they are. */
  lemma {:induction false} TerminalIsAbsorbing(s: State, steps: seq<Step>, id: AppId)
    requires IsRun(s, steps) && id in s.applications && IsTerminal(s.applications[id].status)
    ensures var t := Final(s, steps);
            id in t.applications && t.applications[id] == s.applications[id]
            && HistoryOf(t.history, id) == HistoryOf(s.history, id)
    decreases |steps|
  {
    if steps == [] {
    } else {
      StepKeepsTerminal(s, steps[0], id);
      TerminalIsAbsorbing(Next(s, steps[0]), steps[1..], id);
    }
  }

  // ---------- what a bulk change does ----------

  /** The two lists together are the input, each in input order. */
  predicate Splits(ids: seq<AppId>, succeeded: seq<AppId>, failed: seq<(AppId, Error)>)
    decreases |ids|
  {
    if ids == [] then succeeded == [] && failed == []
    else
      var n := |ids| - 1;
      || (succeeded != [] && succeeded[|succeeded| - 1] == ids[n]
          && Splits(ids[..n], succeeded[..|succeeded| - 1], failed))
      || (failed != [] && failed[|failed| - 1].0 == ids[n]
          && Splits(ids[..n], succeeded, failed[..|failed| - 1]))
  }

  predicate CanMove(s: State, id: AppId, status: Status) {
    id in s.applications && status in AllowedTransitions(s.applications[id].status)
  }

  lemma NoSelfLoop(a: Status, b: Status)
    requires b in AllowedTransitions(a)
    ensures b !in AllowedTransitions(b)
  {
  }

  ghost predicate BulkEffect(s: State, t: State, succeeded: seq<AppId>, status: Status) {
    && t.postings == s.postings
    && t.applications.Keys == s.applications.Keys
    && (forall id :: id in s.applications ==> t.applications[id] == After(s, succeeded, status, id))
    && forall id :: HistoryOf(t.history, id) == HistoryOf(s.history, id) + RowsGained(s, succeeded, status, id)
  }

  function After(s: State, succeeded: seq<AppId>, status: Status, id: AppId): Application
    requires id in s.applications
  {
    if id in succeeded then s.applications[id].(status := status) else s.applications[id]
  }

  function RowsGained(s: State, succeeded: seq<AppId>, status: Status, id: AppId): seq<HistoryRow> {
    if id in succeeded && id in s.applications then [HistoryRow(id, s.applications[id].status, status)] else []
  }

  /** One more id changes its status exactly when it could at the start and has not moved yet. */
  lemma BulkStepOutcome(s: State, t: State, succeeded: seq<AppId>, id: AppId, status: Status)
    requires forall x :: x in s.applications ==> s.applications[x].postingId in s.postings
    requires BulkEffect(s, t, succeeded, status)
    requires forall x :: x in succeeded ==> CanMove(s, x, status)
    ensures Refusal(t, id, status) == None <==> CanMove(s, id, status) && id !in succeeded
    ensures ChangeStatus(t, id, status).1.Ok? <==> Refusal(t, id, status) == None
    ensures ChangeStatus(t, id, status).0 == if Refusal(t, id, status) == None then Moved(t, id, status) else t
  {
    if id in succeeded {
      NoSelfLoop(s.applications[id].status, status);
    }
  }

  lemma BulkStepEffect(s: State, t: State, succeeded: seq<AppId>, id: AppId, status: Status)
    requires BulkEffect(s, t, succeeded, status) && id in s.applications && id !in succeeded
    ensures BulkEffect(s, Moved(t, id, status), succeeded + [id], status)
  {
    var row := HistoryRow(id, t.applications[id].status, status);
    forall x
      ensures HistoryOf(t.history + [row], x) == HistoryOf(s.history, x) + RowsGained(s, succeeded + [id], status, x)
    {
      HistoryAfter(t.history, row, x);
      assert x in succeeded + [id] <==> x in succeeded || x == id;
      if x != id {
        assert HistoryOf(t.history + [row], x) == HistoryOf(t.history, x);
      }
    }
    forall x | x in s.applications
      ensures Moved(t, id, status).applications[x] == After(s, succeeded + [id], status, x)
    {
      assert x in succeeded + [id] <==> x in succeeded || x == id;
    }
  }

  ghost predicate ExactlyMovable(s: State, ids: seq<AppId>, succeeded: seq<AppId>, status: Status) {
    forall id :: id in succeeded <==> id in ids && CanMove(s, id, status)
  }

  lemma ExactlyMovableExtends(s: State, ids: seq<AppId>, succeeded: seq<AppId>, id: AppId, status: Status)
    requires ExactlyMovable(s, ids, succeeded, status)
    ensures CanMove(s, id, status) && id !in succeeded ==> ExactlyMovable(s, ids + [id], succeeded + [id], status)
    ensures !(CanMove(s, id, status) && id !in succeeded) ==> ExactlyMovable(s, ids + [id], succeeded, status)
  {
    assert forall x :: x in ids + [id] <==> x in ids || x == id;
    assert forall x :: x in succeeded + [id] <==> x in succeeded || x == id;
  }

  lemma SplitsExtends(ids: seq<AppId>, succeeded: seq<AppId>, failed: seq<(AppId, Error)>, id: AppId, error: Error)
    requires Splits(ids, succeeded, failed)
    ensures Splits(ids + [id], succeeded + [id], failed)
    ensures Splits(ids + [id], succeeded, failed + [(id, error)])
  {
    assert (ids + [id])[..|ids|] == ids;
    assert (succeeded + [id])[..|succeeded|] == succeeded;
    assert (failed + [(id, error)])[..|failed|] == failed;
  }

  ghost predicate BulkExact(s: State, ids: seq<AppId>, t: State, r: BulkResult, status: Status) {
    && Splits(ids, r.succeeded, r.failed)
    && ExactlyMovable(s, ids, r.succeeded, status)
    && Distinct(r.succeeded)
    && BulkEffect(s, t, r.succeeded, status)
    && forall i :: 0 <= i < |r.failed| ==> FailedForCause(s, r.failed[i].0, r.failed[i].1, status)
  }

  /** An id fails because it is unknown, or because its application, as it was or as just moved, may not move. */
  predicate FailedForCause(s: State, id: AppId, error: Error, status: Status) {
    if id !in s.applications then error == NotFound
    else Stuck(s.applications[id].status, error, status) || Stuck(status, error, status)
  }

  predicate Stuck(current: Status, error: Error, status: Status) {
    if IsEnd(current) then error == TerminalStatus(current)
    else !MayFollow(current, status) && error == InvalidTransition(current, status)
  }

  lemma FailureHasCause(s: State, t: State, succeeded: seq<AppId>, id: AppId, status: Status)
    requires forall x :: x in s.applications ==> s.applications[x].postingId in s.postings
    requires BulkEffect(s, t, succeeded, status)
    ensures var outcome := ChangeStatus(t, id, status).1; outcome.Err? ==> FailedForCause(s, id, outcome.error, status)
  {
    if id in s.applications {
      assert t.applications[id] == After(s, succeeded, status, id);
      TransitionsExactly(t.applications[id].status, status);
    }
  }

  lemma SuccessExtends(s: State, ids: seq<AppId>, t: State, r: BulkResult, id: AppId, status: Status)
    requires BulkExact(s, ids, t, r, status) && CanMove(s, id, status) && id !in r.succeeded && id in t.applications
    ensures BulkExact(s, ids + [id], Moved(t, id, status), r.(succeeded := r.succeeded + [id]), status)
  {
    ExactlyMovableExtends(s, ids, r.succeeded, id, status);
    SplitsExtends(ids, r.succeeded, r.failed, id, NotFound);
    BulkStepEffect(s, t, r.succeeded, id, status);
  }

  lemma FailureExtends(s: State, ids: seq<AppId>, t: State, r: BulkResult, id: AppId, error: Error, status: Status)
    requires BulkExact(s, ids, t, r, status) && !(CanMove(s, id, status) && id !in r.succeeded)
    requires FailedForCause(s, id, error, status)
    ensures BulkExact(s, ids + [id], t, r.(failed := r.failed + [(id, error)]), status)
  {
    ExactlyMovableExtends(s, ids, r.succeeded, id, status);
    SplitsExtends(ids, r.succeeded, r.failed, id, error);
  }

  lemma BulkExactExtends(s: State, ids: seq<AppId>, t: State, r: BulkResult, id: AppId, status: Status)
    requires forall x :: x in s.applications ==> s.applications[x].postingId in s.postings
    requires BulkExact(s, ids, t, r, status)
    ensures var (t', outcome) := ChangeStatus(t, id, status);
            BulkExact(s, ids + [id], t', Recorded(r, id, outcome), status)
  {
    BulkStepOutcome(s, t, r.succeeded, id, status);
    FailureHasCause(s, t, r.succeeded, id, status);
    match ChangeStatus(t, id, status).1
    case Ok(_) => SuccessExtends(s, ids, t, r, id, status);
    case Err(error) => FailureExtends(s, ids, t, r, id, error, status);
  }

  /** Bulk change on any list, duplicates included: the results split the list in order; an id succeeds exactly when it
      is listed and its application may move, and then once; the succeeded applications have the new status and
      one more history row; nothing else has changed. */
  lemma {:induction false} BulkChangeIsExact(s: State, ids: seq<AppId>, status: Status)
    requires forall id :: id in s.applications ==> s.applications[id].postingId in s.postings
    ensures var (t, r) := BulkChange(s, ids, status); BulkExact(s, ids, t, r, status)
    decreases |ids|
  {
    if ids == [] {
    } else {
      var n := |ids| - 1;
      var (t, r) := BulkChange(s, ids[..n], status);
      BulkChangeIsExact(s, ids[..n], status);
      BulkExactExtends(s, ids[..n], t, r, ids[n], status);
      assert ids == ids[..n] + [ids[n]];
    }
  }

  // ---------- what each operation answers and does, outright ----------

  /** What the terminal statuses and the table have to be, told without them. */
  predicate IsEnd(s: Status) {
    s == Hired || s == Rejected || s == Withdrawn
  }

  /** One stage further along the pipeline, or out of it from anywhere after DRAFT that is not the end. */
  predicate MayFollow(a: Status, b: Status) {
    !IsEnd(a) && if b == Rejected || b == Withdrawn then a != Draft else Rank(b) == Rank(a) + 1
  }

  lemma TransitionsExactly(a: Status, b: Status)
    ensures b in AllowedTransitions(a) <==> MayFollow(a, b)
  {
  }

  lemma ChangeVerdicts(s: State, id: AppId, status: Status)
    ensures var r := ChangeStatus(s, id, status).1;
            && (r == Err(NotFound) <==> id !in s.applications)
            && (forall x :: r == Err(TerminalStatus(x)) <==>
                              id in s.applications && s.applications[id].status == x && IsEnd(x))
            && (forall x, y :: r == Err(InvalidTransition(x, y)) <==>
                                 && id in s.applications && s.applications[id].status == x && y == status
                                 && !IsEnd(x) && !MayFollow(x, y))
            && (r == Ok(()) <==> && id in s.applications && MayFollow(s.applications[id].status, status)
                                 && s.applications[id].postingId in s.postings)
  {
    if id in s.applications {
      TransitionsExactly(s.applications[id].status, status);
    }
  }

  /** A change that is allowed sets the status and adds the row that says from where to where; any other does nothing. */
  lemma ChangeEffect(s: State, id: AppId, status: Status)
    ensures var t := ChangeStatus(s, id, status).0;
            if id in s.applications && MayFollow(s.applications[id].status, status) then
              var a := s.applications[id];
              && t.applications == s.applications[id := Application(a.email, a.postingId, status, a.createdAt)]
              && t.history == s.history + [HistoryRow(id, a.status, status)]
              && t.postings == s.postings
            else t == s
  {
    if id in s.applications {
      TransitionsExactly(s.applications[id].status, status);
    }
  }

  lemma WithdrawVerdicts(s: State, id: AppId)
    ensures var (t, r) := Withdraw(s, id);
            && (r == Err(NotFound) <==> id !in s.applications)
            && (r == Err(AlreadyWithdrawn) <==> id in s.applications && s.applications[id].status == Withdrawn)
            && (forall x :: r == Err(TerminalStatus(x)) <==>
                              && id in s.applications && s.applications[id].status == x && (x == Hired || x == Rejected))
            && (r == Ok(()) <==> id in s.applications && !IsEnd(s.applications[id].status))
            && (r.Err? ==> t == s)
            && (r.Ok? ==>
                  var a := s.applications[id];
                  && t.applications == s.applications[id := Application(a.email, a.postingId, Withdrawn, a.createdAt)]
                  && t.history == s.history + [HistoryRow(id, a.status, Withdrawn)]
                  && t.postings == s.postings)
  {
  }

  predicate IsOpen(s: State, d: Submission) {
    && d.postingId in s.postings
    && s.postings[d.postingId].published
    && (s.postings[d.postingId].closesAt.Some? ==> s.postings[d.postingId].closesAt.value >= d.now)
  }

  predicate HasApplied(s: State, d: Submission) {
    exists id :: id in s.applications && SameApplicant(s, id, d.email, d.postingId) && s.applications[id].status != Draft
  }

  lemma TheApplication(s: State, id: AppId, email: string, postingId: PostingId)
    requires Consistent(s) && SameApplicant(s, id, email, postingId)
    ensures FindExisting(s, email, postingId) == Some(id)
  {
    var found := FindExisting(s, email, postingId).value;
    assert SameApplicant(s, found, email, postingId);
  }

  /** Each answer to a submission exactly under its own condition, the first that applies. */
  lemma SubmitVerdicts(s: State, d: Submission)
    requires Consistent(s)
    ensures var r := Submit(s, d).1;
            && (r == Err(PostingNotFound) <==> d.postingId !in s.postings)
            && (r == Err(PostingNotPublished) <==> d.postingId in s.postings && !s.postings[d.postingId].published)
            && (r == Err(PostingClosed) <==>
                  d.postingId in s.postings && s.postings[d.postingId].published && !IsOpen(s, d))
            && (r == Err(VerifyCodeInvalid) <==> IsOpen(s, d) && !d.codeValid)
            && (r == Err(Duplicate) <==> IsOpen(s, d) && d.codeValid && HasApplied(s, d))
            && (r == Err(CustomFieldsInvalid) <==>
                  IsOpen(s, d) && d.codeValid && !HasApplied(s, d) && !d.fieldsValid)
            && (r.Ok? <==> IsOpen(s, d) && d.codeValid && !HasApplied(s, d) && d.fieldsValid)
  {
    if HasApplied(s, d) {
      var id :| id in s.applications && SameApplicant(s, id, d.email, d.postingId) && s.applications[id].status != Draft;
      TheApplication(s, id, d.email, d.postingId);
    } else if FindExisting(s, d.email, d.postingId).Some? {
      var found := FindExisting(s, d.email, d.postingId).value;
      assert SameApplicant(s, found, d.email, d.postingId);
    }
  }

  /** An accepted submission turns the applicant's draft, or a new application if there is none, into a submitted one;
      any other does nothing. */
  lemma SubmitEffect(s: State, d: Submission)
    requires Consistent(s) && d.newId !in s.applications
    ensures var (t, r) := Submit(s, d);
            && (r.Err? ==> t == s)
            && (r.Ok? ==>
                  && t.applications == s.applications[r.value :=
                       Application(d.email, d.postingId, Submitted,
                                   if r.value in s.applications then s.applications[r.value].createdAt else d.now)]
                  && t.history == s.history + [HistoryRow(r.value, Draft, Submitted)]
                  && t.postings == s.postings
                  && if exists id :: SameApplicant(s, id, d.email, d.postingId)
                     then SameApplicant(s, r.value, d.email, d.postingId) && s.applications[r.value].status == Draft
                     else r.value == d.newId)
  {
    if exists id :: SameApplicant(s, id, d.email, d.postingId) {
      var id :| SameApplicant(s, id, d.email, d.postingId);
      TheApplication(s, id, d.email, d.postingId);
    }
  }

  // ---------- every stage is reached ----------

  lemma {:induction false} AppendStep(s: State, steps: seq<Step>, last: Step)
    requires IsRun(s, steps) && Enabled(Final(s, steps), last)
    ensures IsRun(s, steps + [last]) && Final(s, steps + [last]) == Next(Final(s, steps), last)
    decreases |steps|
  {
    if steps == [] {
      assert steps + [last] == [last] && [last][1..] == [];
      assert IsRun(Next(s, last), []);
    } else {
      assert (steps + [last])[1..] == steps[1..] + [last];
      AppendStep(Next(s, steps[0]), steps[1..], last);
    }
  }

  function PipelineRows(id: AppId, k: nat): seq<HistoryRow>
    requires k <= 7
  {
    seq(k, i requires 0 <= i < k => HistoryRow(id, PIPELINE[i], PIPELINE[i + 1]))
  }

  lemma FirstStage(postings: map<PostingId, Posting>, d: Submission)
    requires IsOpen(State(postings, map[], []), d) && d.codeValid && d.fieldsValid
    ensures Next(State(postings, map[], []), SubmitStep(d))
         == State(postings, map[d.newId := Application(d.email, d.postingId, Submitted, d.now)], PipelineRows(d.newId, 1))
  {
    var s := State(postings, map[], []);
    assert FindExisting(s, d.email, d.postingId) == None;
  }

  /** Every stage of the pipeline is reached, HIRED included: a submission and one status change for each further stage
      end there, with the history that tells so. */
  lemma {:induction false} EveryStageIsReached(postings: map<PostingId, Posting>, d: Submission, k: nat)
    returns (steps: seq<Step>)
    requires IsOpen(State(postings, map[], []), d) && d.codeValid && d.fieldsValid && 1 <= k <= 7
    ensures |steps| == k && steps[0] == SubmitStep(d)
    ensures forall i :: 1 <= i < k ==> steps[i] == ChangeStep(d.newId, PIPELINE[i + 1])
    ensures IsRun(State(postings, map[], []), steps)
    ensures Final(State(postings, map[], []), steps)
         == State(postings, map[d.newId := Application(d.email, d.postingId, PIPELINE[k], d.now)], PipelineRows(d.newId, k))
    decreases k
  {
    var s := State(postings, map[], []);
    if k == 1 {
      FirstStage(postings, d);
      steps := [SubmitStep(d)];
      assert steps[1..] == [] && IsRun(Next(s, SubmitStep(d)), []);
    } else {
      var front := EveryStageIsReached(postings, d, k - 1);
      var step := ChangeStep(d.newId, PIPELINE[k]);
      AppendStep(s, front, step);
      steps := front + [step];
      NextStage(postings, d, k);
    }
  }

  lemma NextStage(postings: map<PostingId, Posting>, d: Submission, k: nat)
    requires 2 <= k <= 7
    ensures Next(State(postings, map[d.newId := Application(d.email, d.postingId, PIPELINE[k - 1], d.now)],
                       PipelineRows(d.newId, k - 1)),
                 ChangeStep(d.newId, PIPELINE[k]))
         == State(postings, map[d.newId := Application(d.email, d.postingId, PIPELINE[k], d.now)], PipelineRows(d.newId, k))
  {
    var s := State(postings, map[d.newId := Application(d.email, d.postingId, PIPELINE[k - 1], d.now)],
                   PipelineRows(d.newId, k - 1));
    assert Rank(PIPELINE[k]) == Rank(PIPELINE[k - 1]) + 1;
    ChangeEffect(s, d.newId, PIPELINE[k]);
    assert PipelineRows(d.newId, k) == PipelineRows(d.newId, k - 1) + [HistoryRow(d.newId, PIPELINE[k - 1], PIPELINE[k])];
  }
}
