/** The service as a state machine over both stores: every mutating call as
    one step, runs of steps, the invariant every step keeps, and the
    properties that relate several calls. */
module Lifecycle {
  import opened Model
  import opened HistoryService
  import opened ApplicationService

  /** The mutating service calls. */
  datatype Op =
    | Add(req: ApplicationRequest, generated: Id)
    | Verify(id: Id)
    | Accept(id: Id)
    | Publish(id: Id)
    | Delete(id: Id, reason: Option<string>)
    | Reject(id: Id, reason: Option<string>)
    | Update(req: ApplicationRequest)
  {
    /** The calls that write a history record when they succeed. */
    predicate WritesHistory() {
      !Add? && !Update?
    }

    /** An add that names `id`, and so replaces whatever is stored under it. */
    predicate AddsUnder(id: Id) {
      Add? && req.id == Some(id)
    }

    /** The application a call addresses, when it names one. */
    function Target(): Option<Id> {
      match this
      case Add(req, _) => req.id
      case Update(req) => req.id
      case Verify(id) => Some(id)
      case Accept(id) => Some(id)
      case Publish(id) => Some(id)
      case Delete(id, _) => Some(id)
      case Reject(id, _) => Some(id)
    }
  }

  /** A call together with the date the clock would have given it. */
  datatype Call = Call(op: Op, today: Date)

  const Empty: Db := Db(map[], [])

  /** The store generates an id for an add that carries none, and that id is
      one no stored application has. */
  predicate Admissible(db: Db, c: Call) {
    c.op.Add? && c.op.req.id.None? ==> c.op.generated !in db.apps
  }

  /** Every call of a run gets a fresh generated id on the stores it meets. */
  predicate AdmissibleRun(db: Db, calls: seq<Call>)
    decreases |calls|
  {
    calls == [] || (Admissible(db, calls[0]) && AdmissibleRun(Apply(db, calls[0]).db, calls[1..]))
  }

  /** A run without adds needs no generated id. */
  lemma {:induction false} RunWithoutAddsIsAdmissible(db: Db, calls: seq<Call>)
    requires forall i :: 0 <= i < |calls| ==> !calls[i].op.Add?
    ensures AdmissibleRun(db, calls)
    decreases |calls|
  {
    if calls != [] {
      assert forall i :: 0 <= i < |calls[1..]| ==> calls[1..][i] == calls[i + 1];
      RunWithoutAddsIsAdmissible(Apply(db, calls[0]).db, calls[1..]);
    }
  }

  /** One call on the stores. A failed call changes nothing; the log only
      grows, by one record exactly when a lifecycle call succeeds. */
  function Apply(db: Db, c: Call): (r: Reply)
    requires Admissible(db, c)
    ensures r.result.Err? ==> r.db == db
    ensures db.log <= r.db.log
    ensures |r.db.log| == |db.log| + (if r.result.Ok? && c.op.WritesHistory() then 1 else 0)
  {
    match c.op
    case Add(req, generated) => AddApplication(db, req, generated)
    case Verify(id) => VerifyApplication(db, id, c.today)
    case Accept(id) => AcceptApplication(db, id, c.today)
    case Publish(id) => PublishApplication(db, id, c.today)
    case Delete(id, reason) => DeleteApplication(db, id, reason, c.today)
    case Reject(id, reason) => RejectApplication(db, id, reason, c.today)
    case Update(req) => UpdateApplication(db, req)
  }

  /** A sequence of calls, each on the stores the previous one left. The log
      of the start is a prefix of the log at the end. */
  function Run(db: Db, calls: seq<Call>): (db': Db)
    requires AdmissibleRun(db, calls)
    ensures db.log <= db'.log
    decreases |calls|
  {
    if calls == [] then db else Run(Apply(db, calls[0]).db, calls[1..])
  }

  /** The shape of a record: a removal carries a non-blank reason; a forward
      move carries none and left a state other than PUBLISHED. */
  predicate WellFormedRecord(h: History) {
    if h.oldState == DELETED || h.oldState == REJECTED then HasText(h.resignReason)
    else h.oldState != PUBLISHED && h.resignReason.None?
  }

  /** What holds of the stores the service writes: each application is kept
      under its own id in a live state, and the log's records are well formed
      and carry the identifiers the store gave them. */
  predicate Valid(db: Db) {
    && (forall id :: id in db.apps ==> db.apps[id].id == id && IsLive(db.apps[id].state))
    && IdsArePositions(db.log)
    && (forall i :: 0 <= i < |db.log| ==> WellFormedRecord(db.log[i]))
  }

  lemma EmptyIsValid()
    ensures Valid(Empty)
  {
  }

  /** Every call keeps the invariant. */
  lemma ApplyPreservesValid(db: Db, c: Call)
    requires Valid(db) && Admissible(db, c)
    ensures Valid(Apply(db, c).db)
  {
    var r := Apply(db, c);
    if r.result.Ok? && c.op.WritesHistory() {
      var h := r.db.log[|db.log|];
      assert r.db.log == db.log + [h];
      assert WellFormedRecord(h) && h.id == |db.log|;
    }
  }

  /** Every run of calls keeps the invariant. */
  lemma {:induction false} RunPreservesValid(db: Db, calls: seq<Call>)
    requires Valid(db) && AdmissibleRun(db, calls)
    ensures Valid(Run(db, calls))
    decreases |calls|
  {
    if calls != [] {
      ApplyPreservesValid(db, calls[0]);
      RunPreservesValid(Apply(db, calls[0]).db, calls[1..]);
    }
  }

  /** Apart from an add, a call moves a stored application at most one step
      along the forward table and never back; it stores no new application. */
  lemma StepsFollowTable(db: Db, c: Call, k: Id)
    requires Valid(db)
    requires !c.op.Add?
    requires k in Apply(db, c).db.apps
    ensures k in db.apps
    ensures var before := db.apps[k].state;
      var after := Apply(db, c).db.apps[k].state;
      after == before || Successor(before) == Some(after)
    ensures Rank(db.apps[k].state) <= Rank(Apply(db, c).db.apps[k].state)
  {
    var r := Apply(db, c);
    if r.result.Ok? {
      var t := c.op.Target().value;
      assert t in db.apps && db.apps[t].id == t;
      match c.op
      case Update(req) =>
        assert r.db.apps == db.apps[t := r.result.value];
      case Delete(_, _) =>
        assert r.db.apps == db.apps - {t};
      case Reject(_, _) =>
        assert r.db.apps == db.apps - {t};
      case Verify(_) =>
        assert r.db.apps == db.apps[t := r.result.value];
      case Accept(_) =>
        assert r.db.apps == db.apps[t := r.result.value];
      case Publish(_) =>
        assert r.db.apps == db.apps[t := r.result.value];
      case Add(_, _) =>
    }
  }

  /** An add naming an id already stored overwrites that application and
      puts it back to CREATED, whatever state it had reached. */
  lemma AddOverwritesExisting(db: Db, req: ApplicationRequest, generated: Id, today: Date)
    requires req.id.Some? && req.id.value in db.apps
    requires HasText(req.name) && HasText(req.content)
    ensures var db' := Apply(db, Call(Add(req, generated), today)).db;
      && req.id.value in db'.apps
      && db'.apps[req.id.value].state == CREATED
      && db'.apps[req.id.value].name == req.name.value
      && |db'.apps| == |db.apps|
  {
    var db' := Apply(db, Call(Add(req, generated), today)).db;
    assert db'.apps.Keys == db.apps.Keys;
  }

  /** An add without an id inserts under the fresh id the store generates:
      every stored application stays as it was and the count grows by one. */
  lemma IdlessAddInserts(db: Db, req: ApplicationRequest, generated: Id, today: Date)
    requires req.id.None? && generated !in db.apps
    requires HasText(req.name) && HasText(req.content)
    ensures var db' := Apply(db, Call(Add(req, generated), today)).db;
      && generated in db'.apps && db'.apps[generated].state == CREATED
      && (forall k :: k in db.apps ==> k in db'.apps && db'.apps[k] == db.apps[k])
      && |db'.apps| == |db.apps| + 1
  {
    var db' := Apply(db, Call(Add(req, generated), today)).db;
    assert db'.apps.Keys == db.apps.Keys + {generated};
    assert |db'.apps.Keys| == |db.apps.Keys| + 1;
  }

  /** A forward call succeeds exactly when the forward table leads from the
      stored state to the call's target state. */
  lemma ForwardCallsFollowTable(db: Db, id: Id, today: Date)
    ensures Apply(db, Call(Verify(id), today)).result.Ok?
        <==> id in db.apps && Successor(db.apps[id].state) == Some(VERIFIED)
    ensures Apply(db, Call(Accept(id), today)).result.Ok?
        <==> id in db.apps && Successor(db.apps[id].state) == Some(ACCEPTED)
    ensures Apply(db, Call(Publish(id), today)).result.Ok?
        <==> id in db.apps && Successor(db.apps[id].state) == Some(PUBLISHED)
  {
  }

  /** PUBLISHED is terminal: every call other than an add that addresses a
      published application fails with a wrong-state error and changes
      nothing. */
  lemma PublishedIsTerminal(db: Db, c: Call)
    requires !c.op.Add?
    requires c.op.Target().Some? && c.op.Target().value in db.apps
    requires db.apps[c.op.Target().value].state == PUBLISHED
    ensures Apply(db, c).result.Err? && Apply(db, c).result.error.WrongState?
    ensures Apply(db, c).db == db
  {
  }

  /** Nothing moves a stored application backwards or out of PUBLISHED
      except an add that names its id: along any run without such an add,
      a published application stays published. An add without an id gets a
      fresh one and leaves it alone. */
  lemma {:induction false} PublishedStaysPublished(db: Db, calls: seq<Call>, id: Id)
    requires Valid(db) && AdmissibleRun(db, calls)
    requires id in db.apps && db.apps[id].state == PUBLISHED
    requires forall i :: 0 <= i < |calls| ==> !calls[i].op.AddsUnder(id)
    ensures id in Run(db, calls).apps && Run(db, calls).apps[id].state == PUBLISHED
    decreases |calls|
  {
    if calls != [] {
      var c := calls[0];
      var db1 := Apply(db, c).db;
      assert !c.op.AddsUnder(id);
      if c.op.Add? {
        assert db1.apps[id] == db.apps[id];
      } else if c.op.Target() == Some(id) {
        PublishedIsTerminal(db, c);
      } else {
        SameAfterOtherCall(db, c, id);
      }
      ApplyPreservesValid(db, c);
      assert forall i :: 0 <= i < |calls[1..]| ==> calls[1..][i] == calls[i + 1];
      PublishedStaysPublished(db1, calls[1..], id);
    }
  }

  /** A call other than an add that addresses another application leaves
      this one as it was. */
  lemma SameAfterOtherCall(db: Db, c: Call, id: Id)
    requires Valid(db)
    requires !c.op.Add? && c.op.Target() != Some(id)
    requires id in db.apps
    ensures id in Apply(db, c).db.apps && Apply(db, c).db.apps[id] == db.apps[id]
  {
    var r := Apply(db, c);
    if r.result.Ok? {
      var t := c.op.Target().value;
      assert t in db.apps && db.apps[t].id == t;
      if c.op.Update? {
        assert r.result.value.id == t;
      }
    }
  }

  /** A successful delete or reject: the application can no longer be
      fetched, its history gained exactly the removal record, and that record
      stays retrievable through its application id after any later calls. */
  lemma RemovalKeepsHistory(db: Db, c: Call, later: seq<Call>)
    requires Valid(db)
    requires c.op.Delete? || c.op.Reject?
    requires Apply(db, c).result.Ok?
    requires AdmissibleRun(Apply(db, c).db, later)
    ensures var db' := Apply(db, c).db;
      var rec := History(|db.log|, c.today, if c.op.Delete? then DELETED else REJECTED,
                         c.op.id, c.op.reason);
      && GetApplicationById(db', c.op.id) == Err(NotFound(c.op.id))
      && GetHistoryOfApplication(db'.log, c.op.id)
         == GetHistoryOfApplication(db.log, c.op.id) + [rec]
      && rec in GetHistoryOfApplication(Run(db', later).log, c.op.id)
  {
    var db' := Apply(db, c).db;
    var id := c.op.id;
    var tag := if c.op.Delete? then DELETED else REJECTED;
    var rec := History(|db.log|, c.today, tag, id, c.op.reason);
    assert db'.log == AddHistory(db.log, c.today, tag, id, c.op.reason);
    AddThenHistoryOfApplication(db.log, c.today, tag, id, c.op.reason, id);
    assert rec in GetHistoryOfApplication(db'.log, id);
    HistoryOfApplicationGrows(db'.log, Run(db', later).log, id);
  }

  /** The whole forward path: an application in CREATED goes through verify,
      accept and publish to PUBLISHED, and the log gains three records about
      it whose left states are CREATED, VERIFIED and ACCEPTED in that order. */
  lemma ForwardPathReachesPublished(db: Db, id: Id, t1: Date, t2: Date, t3: Date)
    requires Valid(db)
    requires id in db.apps && db.apps[id].state == CREATED
    ensures AdmissibleRun(db, [Call(Verify(id), t1), Call(Accept(id), t2), Call(Publish(id), t3)])
    ensures var db' := Run(db, [Call(Verify(id), t1), Call(Accept(id), t2), Call(Publish(id), t3)]);
      && id in db'.apps
      && db'.apps[id] == db.apps[id].(state := PUBLISHED)
      && db'.log == db.log + [History(|db.log|, t1, CREATED, id, None),
                              History(|db.log| + 1, t2, VERIFIED, id, None),
                              History(|db.log| + 2, t3, ACCEPTED, id, None)]
  {
    var n := |db.log|;
    var calls := [Call(Verify(id), t1), Call(Accept(id), t2), Call(Publish(id), t3)];
    var db1 := Apply(db, calls[0]).db;
    assert db1.apps[id] == db.apps[id].(state := VERIFIED);
    assert db1.log == db.log + [History(n, t1, CREATED, id, None)];
    var db2 := Apply(db1, calls[1]).db;
    assert db2.apps[id] == db.apps[id].(state := ACCEPTED);
    assert db2.log == db1.log + [History(n + 1, t2, VERIFIED, id, None)];
    var db3 := Apply(db2, calls[2]).db;
    assert db3.apps[id] == db.apps[id].(state := PUBLISHED);
    assert db3.log == db2.log + [History(n + 2, t3, ACCEPTED, id, None)];
    RunThree(db, calls);
  }

  /** A run of three calls is the three calls one after another. */
  lemma RunThree(db: Db, calls: seq<Call>)
    requires |calls| == 3 && forall i :: 0 <= i < 3 ==> !calls[i].op.Add?
    ensures AdmissibleRun(db, calls)
    ensures Run(db, calls)
         == Apply(Apply(Apply(db, calls[0]).db, calls[1]).db, calls[2]).db
  {
    RunWithoutAddsIsAdmissible(db, calls);
    var db1 := Apply(db, calls[0]).db;
    var db2 := Apply(db1, calls[1]).db;
    assert Run(db, calls) == Run(db1, calls[1..]);
    assert Run(db1, calls[1..]) == Run(db2, calls[2..]);
    assert Run(db2, calls[2..]) == Run(Apply(db2, calls[2]).db, calls[3..]);
    assert calls[3..] == [];
  }

  /** Round trip: what a successful add returns is what a lookup by its id
      then finds, and the log is untouched. */
  lemma AddThenGet(db: Db, req: ApplicationRequest, generated: Id, today: Date)
    requires req.id.None? ==> generated !in db.apps
    requires HasText(req.name) && HasText(req.content)
    ensures var r := Apply(db, Call(Add(req, generated), today));
      && r.result.Ok?
      && GetApplicationById(r.db, r.result.value.id) == r.result
      && r.db.log == db.log
  {
  }

  /** Round trip: after a successful update a lookup finds the updated
      values; state and history are untouched, and repeating the same update
      changes nothing more. */
  lemma UpdateThenGet(db: Db, req: ApplicationRequest)
    requires Valid(db)
    requires UpdateApplication(db, req).result.Ok?
    ensures var r := UpdateApplication(db, req);
      && GetApplicationById(r.db, req.id.value) == r.result
      && r.result.value.state == db.apps[req.id.value].state
      && r.db.log == db.log
      && UpdateApplication(r.db, req) == r
  {
    var r := UpdateApplication(db, req);
    assert r.result.value.id == req.id.value;
  }

  /** An update checks for null only: a blank name is accepted and stored,
      so a stored application can end up with a blank name although
      creation refuses one. */
  lemma UpdateAcceptsBlankName(db: Db, id: Id, blank: string)
    requires Valid(db)
    requires id in db.apps && db.apps[id].state == CREATED
    requires IsBlank(blank)
    ensures var r := UpdateApplication(db, ApplicationRequest(Some(id), None, Some(blank), None));
      && r.result.Ok?
      && GetApplicationById(r.db, id).value.name == blank
      && !HasText(Some(GetApplicationById(r.db, id).value.name))
  {
  }

  /** Verifying twice: the second call fails naming CREATED and changes nothing. */
  lemma VerifyTwiceFails(db: Db, id: Id, t1: Date, t2: Date)
    requires Valid(db)
    requires id in db.apps && db.apps[id].state == CREATED
    ensures var db1 := Apply(db, Call(Verify(id), t1)).db;
      && Apply(db1, Call(Verify(id), t2)).result == Err(WrongState([CREATED]))
      && Apply(db1, Call(Verify(id), t2)).db == db1
  {
  }
}
