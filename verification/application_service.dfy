/** The lifecycle engine: creation, the guarded forward transitions, the two
    removal paths, partial update, lookup and the listing filter. Every
    operation is a function from the stores to a reply; a failure leaves the
    stores as they were. */
module ApplicationService {
  import opened Model
  import opened HistoryService

  /** The forward table: the state each forward transition leads to. */
  function Successor(s: State): Option<State> {
    match s
    case CREATED => Some(VERIFIED)
    case VERIFIED => Some(ACCEPTED)
    case ACCEPTED => Some(PUBLISHED)
    case _ => None
  }

  /** `getApplicationById`: the stored application, or not-found naming the id. */
  function GetApplicationById(db: Db, id: Id): (r: Result<Application>)
    ensures r.Ok? <==> id in db.apps
    ensures r.Ok? ==> r.value == db.apps[id]
    ensures r.Err? ==> r.error == NotFound(id)
  {
    if id in db.apps then Ok(db.apps[id]) else Err(NotFound(id))
  }

  /** `getAllApplications`: every stored application, and nothing else. */
  function GetAllApplications(db: Db): (r: set<Application>)
    ensures forall id :: id in db.apps ==> db.apps[id] in r
    ensures forall a :: a in r ==> exists id :: id in db.apps && db.apps[id] == a
  {
    set id | id in db.apps :: db.apps[id]
  }

  /** `addApplication`: the state is forced to CREATED whatever the caller
      sent; name and content must both be non-null and non-blank. The id is
      the caller's when given, and then the save replaces any application
      stored under it. Otherwise the store generates an id that no stored
      application has, given here as `generated`, and the save inserts. No
      history record is written. */
  function AddApplication(db: Db, req: ApplicationRequest, generated: Id): (r: Reply)
    requires req.id.None? ==> generated !in db.apps
    ensures r.result.Ok? <==> HasText(req.name) && HasText(req.content)
    ensures r.result.Err? ==> r.result.error == NoParameter && r.db == db
    ensures r.result.Ok? ==>
      var a := r.result.value;
      && a.state == CREATED
      && req.name == Some(a.name) && req.content == Some(a.content)
      && (req.id.Some? ==> a.id == req.id.value)
      && (req.id.None? ==> a.id == generated)
      && r.db.apps == StoreSave(db.apps, a)
      && r.db.log == db.log
    ensures r.result.Ok? && req.id.None? ==>
      && r.db.apps.Keys == db.apps.Keys + {r.result.value.id}
      && r.result.value.id !in db.apps
      && forall k :: k in db.apps ==> r.db.apps[k] == db.apps[k]
  {
    if HasText(req.name) && HasText(req.content) then
      var id := if req.id.Some? then req.id.value else generated;
      var a := Application(id, CREATED, req.name.value, req.content.value);
      Reply(Ok(a), Db(StoreSave(db.apps, a), db.log))
    else
      Reply(Err(NoParameter), db)
  }

  /** `changeApplicationState`: the one guarded primitive behind every
      forward move. Not-found is checked first, then the exact predecessor
      state; on success one record (the state left, no reason) is appended
      and the application is saved in its new state. */
  function ChangeApplicationState(db: Db, id: Id, current: State, expected: State,
                                  today: Date): (r: Reply)
    ensures r.result.Ok? <==> id in db.apps && db.apps[id].state == current
    ensures id !in db.apps ==> r.result == Err(NotFound(id))
    ensures id in db.apps && db.apps[id].state != current ==> r.result == Err(WrongState([current]))
    ensures r.result.Err? ==> r.db == db
    ensures r.result.Ok? ==>
      var before := db.apps[id];
      var a := r.result.value;
      && a == Application(before.id, expected, before.name, before.content)
      && r.db.apps == StoreSave(db.apps, a)
      && |r.db.log| == |db.log| + 1 && r.db.log[..|db.log|] == db.log
      && r.db.log[|db.log|] == History(|db.log|, today, current, before.id, None)
  {
    if id !in db.apps then
      Reply(Err(NotFound(id)), db)
    else
      var app := db.apps[id];
      if app.state == current then
        var log' := AddHistory(db.log, today, current, app.id, None);
        var a := app.(state := expected);
        Reply(Ok(a), Db(StoreSave(db.apps, a), log'))
      else
        Reply(Err(WrongState([current])), db)
  }

  /** `verifyApplication`: CREATED to VERIFIED. */
  function VerifyApplication(db: Db, id: Id, today: Date): (r: Reply)
    ensures r.result.Ok? <==> id in db.apps && db.apps[id].state == CREATED
    ensures r.result.Ok? ==> r.result.value.state == VERIFIED
    ensures r.result.Err? ==> r.db == db
  {
    ChangeApplicationState(db, id, CREATED, VERIFIED, today)
  }

  /** `acceptApplication`: VERIFIED to ACCEPTED. */
  function AcceptApplication(db: Db, id: Id, today: Date): (r: Reply)
    ensures r.result.Ok? <==> id in db.apps && db.apps[id].state == VERIFIED
    ensures r.result.Ok? ==> r.result.value.state == ACCEPTED
    ensures r.result.Err? ==> r.db == db
  {
    ChangeApplicationState(db, id, VERIFIED, ACCEPTED, today)
  }

  /** `publishApplication`: ACCEPTED to PUBLISHED. */
  function PublishApplication(db: Db, id: Id, today: Date): (r: Reply)
    ensures r.result.Ok? <==> id in db.apps && db.apps[id].state == ACCEPTED
    ensures r.result.Ok? ==> r.result.value.state == PUBLISHED
    ensures r.result.Err? ==> r.db == db
  {
    ChangeApplicationState(db, id, ACCEPTED, PUBLISHED, today)
  }

  /** The removal primitive shared by delete and reject: not-found first, then
      the eligible states, then a non-blank reason. On success one record
      tagged with the removal outcome and carrying the reason is appended
      before the application leaves the store; the reply holds its last
      stored values. */
  function RemoveApplication(db: Db, id: Id, eligible: seq<State>, tag: State,
                             reason: Option<string>, today: Date): (r: Reply)
    ensures r.result.Ok? <==> id in db.apps && db.apps[id].state in eligible && HasText(reason)
    ensures id !in db.apps ==> r.result == Err(NotFound(id))
    ensures id in db.apps && db.apps[id].state !in eligible ==> r.result == Err(WrongState(eligible))
    ensures id in db.apps && db.apps[id].state in eligible && !HasText(reason) ==>
      r.result == Err(NoReason)
    ensures r.result.Err? ==> r.db == db
    ensures r.result.Ok? ==>
      && r.result.value == db.apps[id]
      && r.db.apps == StoreDelete(db.apps, db.apps[id])
      && |r.db.log| == |db.log| + 1 && r.db.log[..|db.log|] == db.log
      && r.db.log[|db.log|] == History(|db.log|, today, tag, db.apps[id].id, reason)
  {
    if id !in db.apps then
      Reply(Err(NotFound(id)), db)
    else
      var app := db.apps[id];
      if app.state !in eligible then
        Reply(Err(WrongState(eligible)), db)
      else if !HasText(reason) then
        Reply(Err(NoReason), db)
      else
        var log' := AddHistory(db.log, today, tag, app.id, reason);
        Reply(Ok(app), Db(StoreDelete(db.apps, app), log'))
  }

  /** `deleteApplication`: only from CREATED, and only with a reason; the
      state is checked before the reason. */
  function DeleteApplication(db: Db, id: Id, reason: Option<string>, today: Date): (r: Reply)
    ensures r.result.Ok? <==> id in db.apps && db.apps[id].state == CREATED && HasText(reason)
    ensures id in db.apps && db.apps[id].state != CREATED ==> r.result == Err(WrongState([CREATED]))
    ensures r.result.Ok? ==>
      && db.apps[id].id !in r.db.apps
      && |r.db.log| == |db.log| + 1
      && r.db.log[|db.log|].oldState == DELETED && r.db.log[|db.log|].resignReason == reason
    ensures r.result.Err? ==> r.db == db
  {
    RemoveApplication(db, id, [CREATED], DELETED, reason, today)
  }

  /** `rejectApplication`: only from VERIFIED or ACCEPTED, and only with a
      reason; the state is checked before the reason. */
  function RejectApplication(db: Db, id: Id, reason: Option<string>, today: Date): (r: Reply)
    ensures r.result.Ok? <==>
      id in db.apps && (db.apps[id].state == VERIFIED || db.apps[id].state == ACCEPTED)
      && HasText(reason)
    ensures id in db.apps && db.apps[id].state != VERIFIED && db.apps[id].state != ACCEPTED ==>
      r.result == Err(WrongState([VERIFIED, ACCEPTED]))
    ensures r.result.Ok? ==>
      && db.apps[id].id !in r.db.apps
      && |r.db.log| == |db.log| + 1
      && r.db.log[|db.log|].oldState == REJECTED && r.db.log[|db.log|].resignReason == reason
    ensures r.result.Err? ==> r.db == db
  {
    RemoveApplication(db, id, [VERIFIED, ACCEPTED], REJECTED, reason, today)
  }

  /** `updateApplication`: only in CREATED or VERIFIED. Each of content and
      name is overwritten only when the caller sent a non-null value (a
      blank one is accepted); id and state stay, and no record is written.
      A request without an id is refused by the repository's null check. */
  function UpdateApplication(db: Db, req: ApplicationRequest): (r: Reply)
    ensures req.id.None? ==> r.result == Err(MissingId)
    ensures req.id.Some? && req.id.value !in db.apps ==> r.result == Err(NotFound(req.id.value))
    ensures r.result.Ok? <==>
      req.id.Some? && req.id.value in db.apps
      && (db.apps[req.id.value].state == CREATED || db.apps[req.id.value].state == VERIFIED)
    ensures (req.id.Some? && req.id.value in db.apps
             && db.apps[req.id.value].state != CREATED && db.apps[req.id.value].state != VERIFIED) ==>
      r.result == Err(WrongState([CREATED, VERIFIED]))
    ensures r.result.Err? ==> r.db == db
    ensures r.result.Ok? ==>
      var before := db.apps[req.id.value];
      var a := r.result.value;
      && a.id == before.id && a.state == before.state
      && a.name == (if req.name.Some? then req.name.value else before.name)
      && a.content == (if req.content.Some? then req.content.value else before.content)
      && r.db == Db(StoreSave(db.apps, a), db.log)
  {
    if req.id.None? then
      Reply(Err(MissingId), db)
    else if req.id.value !in db.apps then
      Reply(Err(NotFound(req.id.value)), db)
    else
      var app := db.apps[req.id.value];
      if app.state == CREATED || app.state == VERIFIED then
        var app1 := if req.content.Some? then app.(content := req.content.value) else app;
        var app2 := if req.name.Some? then app1.(name := req.name.value) else app1;
        Reply(Ok(app2), Db(StoreSave(db.apps, app2), db.log))
      else
        Reply(Err(WrongState([CREATED, VERIFIED])), db)
  }

  /** One equality criterion of the listing query. */
  datatype Criterion = NameIs(name: string) | StateIs(state: State)

  predicate Holds(c: Criterion, a: Application) {
    match c
    case NameIs(n) => a.name == n
    case StateIs(s) => a.state == s
  }

  /** The query's criteria: a name criterion only for a non-null, non-blank
      name, a state criterion only for a non-null state. */
  function BuildCriteria(name: Option<string>, state: Option<State>): seq<Criterion> {
    (if HasText(name) then [NameIs(name.value)] else [])
    + (if state.Some? then [StateIs(state.value)] else [])
  }

  /** The criteria joined by `andOperator`; no criteria means no restriction. */
  predicate SatisfiesAll(cs: seq<Criterion>, a: Application) {
    forall i :: 0 <= i < |cs| ==> Holds(cs[i], a)
  }

  /** The criteria list means the conjunction of the supplied filters. */
  lemma CriteriaAreConjunctive(name: Option<string>, state: Option<State>, a: Application)
    ensures SatisfiesAll(BuildCriteria(name, state), a) <==>
      (HasText(name) ==> a.name == name.value) && (state.Some? ==> a.state == state.value)
  {
    var cs := BuildCriteria(name, state);
    if HasText(name) && state.Some? {
      assert cs == [NameIs(name.value), StateIs(state.value)];
      assert SatisfiesAll(cs, a) ==> Holds(cs[0], a) && Holds(cs[1], a);
    } else if HasText(name) {
      assert cs == [NameIs(name.value)];
      assert SatisfiesAll(cs, a) ==> Holds(cs[0], a);
    } else if state.Some? {
      assert cs == [StateIs(state.value)];
      assert SatisfiesAll(cs, a) ==> Holds(cs[0], a);
    } else {
      assert cs == [];
    }
  }

  /** The listing's answer without page slicing: every matching application
      and the total count, which the query computes with skip and limit
      cleared and so does not depend on the page asked for. */
  datatype Page = Page(matching: map<Id, Application>, totalElements: nat)

  /** The filter of `getAllPages`: exactly the stored applications whose name
      equals a given non-blank name and whose state equals a given state,
      each filter applying only when supplied. */
  function GetAllPages(db: Db, name: Option<string>, state: Option<State>): (p: Page)
    ensures p.matching.Keys <= db.apps.Keys
    ensures forall id :: id in p.matching ==> p.matching[id] == db.apps[id]
    ensures forall id :: id in db.apps ==>
      (id in p.matching <==>
        (HasText(name) ==> db.apps[id].name == name.value)
        && (state.Some? ==> db.apps[id].state == state.value))
    ensures p.totalElements == |p.matching|
  {
    var cs := BuildCriteria(name, state);
    var m := map id | id in db.apps && SatisfiesAll(cs, db.apps[id]) :: db.apps[id];
    forall id | id in db.apps
      ensures SatisfiesAll(cs, db.apps[id]) <==>
        (HasText(name) ==> db.apps[id].name == name.value)
        && (state.Some? ==> db.apps[id].state == state.value)
    {
      CriteriaAreConjunctive(name, state, db.apps[id]);
    }
    Page(m, |m|)
  }

  /** With both filters the listing is the intersection of the two single
      filters. */
  lemma FiltersIntersect(db: Db, name: Option<string>, state: Option<State>)
    ensures GetAllPages(db, name, state).matching.Keys
         == GetAllPages(db, name, None).matching.Keys * GetAllPages(db, None, state).matching.Keys
  {
    var both := GetAllPages(db, name, state).matching;
    var byName := GetAllPages(db, name, None).matching;
    var byState := GetAllPages(db, None, state).matching;
    forall id | id in both.Keys ensures id in byName.Keys * byState.Keys {
      assert id in db.apps;
    }
    forall id | id in byName.Keys * byState.Keys ensures id in both.Keys {
      assert id in db.apps;
    }
  }

  /** With neither filter the listing is the whole store. */
  lemma NoFilterListsAll(db: Db)
    ensures GetAllPages(db, None, None).matching == db.apps
  {
    var all := GetAllPages(db, None, None).matching;
    forall id | id in db.apps ensures id in all {
    }
    assert all.Keys == db.apps.Keys;
  }

  /** A null or blank name filter is no name filter. */
  lemma BlankNameIgnored(db: Db, name: Option<string>, state: Option<State>)
    requires !HasText(name)
    ensures GetAllPages(db, name, state) == GetAllPages(db, None, state)
  {
    var given := GetAllPages(db, name, state).matching;
    var byState := GetAllPages(db, None, state).matching;
    forall id | id in given.Keys ensures id in byState.Keys {
      assert id in db.apps;
    }
    forall id | id in byState.Keys ensures id in given.Keys {
      assert id in db.apps;
    }
    assert given.Keys == byState.Keys;
  }

  /** Without filters the listing returns the same applications as
      `getAllApplications`. */
  lemma UnfilteredListingIsAll(db: Db)
    ensures GetAllPages(db, None, None).matching.Values == GetAllApplications(db)
  {
    NoFilterListsAll(db);
  }
}
