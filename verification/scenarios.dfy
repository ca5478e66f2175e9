/** The service's documented scenarios, stated on concrete data: the four
    applications every service test starts from, the listing counts, and the
    create, transition and removal paths with their failures. */
module Scenarios {
  import opened Model
  import opened HistoryService
  import opened ApplicationService
  import opened Lifecycle

  const Today: Date := Date(2021, 6, 1)

  /** A request carrying an id, the state CREATED, a name and a content. */
  function Req(id: Id, name: string, content: string): ApplicationRequest {
    ApplicationRequest(Some(id), Some(CREATED), Some(name), Some(content))
  }

  /** The four applications the service tests add before each case. */
  function Seeded(): Db {
    var db1 := AddApplication(Empty, Req(12345, "name", "content"), 0).db;
    var db2 := AddApplication(db1, Req(67890, "name", "content"), 0).db;
    var db3 := AddApplication(db2, Req(11111, "nameThird", "content"), 0).db;
    AddApplication(db3, Req(22222, "name", "contentFourth"), 0).db
  }

  lemma NotBlank(s: string)
    requires |s| > 0 && 'a' <= s[0] <= 'z'
    ensures !IsBlank(s)
  {
    assert !IsWhitespace(s[0]);
  }

  /** The four seeded applications, as stored. */
  function SeedApps(): map<Id, Application> {
    map[12345 := Application(12345, CREATED, "name", "content"),
        67890 := Application(67890, CREATED, "name", "content"),
        11111 := Application(11111, CREATED, "nameThird", "content"),
        22222 := Application(22222, CREATED, "name", "contentFourth")]
  }

  /** The seeded store holds exactly the four applications, all CREATED. */
  lemma SeededContents()
    ensures Seeded() == Db(SeedApps(), [])
    ensures Valid(Seeded())
  {
    NotBlank("name");
    NotBlank("nameThird");
    NotBlank("content");
    NotBlank("contentFourth");
  }

  /** The listing counts the service tests expect: three by name and state,
      three by name, four by state. */
  lemma SeededListingCounts()
    ensures GetAllPages(Seeded(), Some("name"), Some(CREATED)).totalElements == 3
    ensures GetAllPages(Seeded(), Some("name"), None).totalElements == 3
    ensures GetAllPages(Seeded(), None, Some(CREATED)).totalElements == 4
  {
    SeededContents();
    CountByNameAndState();
    CountByName();
    CountByState();
  }

  lemma CountByNameAndState()
    ensures GetAllPages(Db(SeedApps(), []), Some("name"), Some(CREATED)).totalElements == 3
  {
    NotBlank("name");
    CountOn(Db(SeedApps(), []), Some("name"), Some(CREATED), {12345, 67890, 22222});
  }

  lemma CountByName()
    ensures GetAllPages(Db(SeedApps(), []), Some("name"), None).totalElements == 3
  {
    NotBlank("name");
    CountOn(Db(SeedApps(), []), Some("name"), None, {12345, 67890, 22222});
  }

  lemma CountByState()
    ensures GetAllPages(Db(SeedApps(), []), None, Some(CREATED)).totalElements == 4
  {
    CountOn(Db(SeedApps(), []), None, Some(CREATED), {12345, 67890, 11111, 22222});
  }

  /** The total of a listing is the number of stored ids that pass its filters. */
  lemma CountOn(db: Db, name: Option<string>, state: Option<State>, ids: set<Id>)
    requires ids <= db.apps.Keys
    requires forall id :: id in db.apps ==>
      (id in ids <==> (HasText(name) ==> db.apps[id].name == name.value)
                      && (state.Some? ==> db.apps[id].state == state.value))
    ensures GetAllPages(db, name, state).totalElements == |ids|
  {
    var p := GetAllPages(db, name, state);
    forall id | id in p.matching.Keys
      ensures id in ids
    {
      assert id in db.apps;
    }
    forall id | id in ids
      ensures id in p.matching.Keys
    {
      assert id in db.apps;
    }
    assert p.matching.Keys == ids;
    assert |p.matching| == |p.matching.Keys|;
  }

  /** Adding a request without a name, or without a content, fails with the
      missing-parameter error; a request without a state is stored CREATED
      with the name and content it carried. */
  lemma AddScenarios()
    ensures AddApplication(Seeded(), ApplicationRequest(None, None, None, Some("content")), 7).result
         == Err(NoParameter)
    ensures AddApplication(Seeded(), ApplicationRequest(None, None, Some("name"), None), 7).result
         == Err(NoParameter)
    ensures AddApplication(Seeded(), ApplicationRequest(None, None, Some("name"), Some("content")), 7).result
         == Ok(Application(7, CREATED, "name", "content"))
  {
    NotBlank("name");
    NotBlank("content");
  }

  /** Transition failures name the expected state: verifying twice names
      CREATED, accepting a CREATED application names VERIFIED, publishing
      it names ACCEPTED. */
  lemma WrongStateScenarios()
    ensures var db1 := VerifyApplication(Seeded(), 12345, Today).db;
      VerifyApplication(db1, 12345, Today).result == Err(WrongState([CREATED]))
    ensures AcceptApplication(Seeded(), 12345, Today).result == Err(WrongState([VERIFIED]))
    ensures PublishApplication(Seeded(), 12345, Today).result == Err(WrongState([ACCEPTED]))
  {
    SeededContents();
  }

  /** Create, verify, accept, publish: PUBLISHED, with three records whose
      left states are CREATED, VERIFIED, ACCEPTED. */
  lemma PublishScenario()
    ensures AdmissibleRun(Empty, [Call(Add(ApplicationRequest(None, None, Some("name"), Some("content")), 1), Today),
                                  Call(Verify(1), Today), Call(Accept(1), Today), Call(Publish(1), Today)])
    ensures var db := Run(Empty, [Call(Add(ApplicationRequest(None, None, Some("name"), Some("content")), 1), Today),
                                  Call(Verify(1), Today), Call(Accept(1), Today), Call(Publish(1), Today)]);
      && GetApplicationById(db, 1) == Ok(Application(1, PUBLISHED, "name", "content"))
      && |db.log| == 3
      && db.log[0].oldState == CREATED && db.log[1].oldState == VERIFIED
      && db.log[2].oldState == ACCEPTED
  {
    NotBlank("name");
    NotBlank("content");
    var add := Call(Add(ApplicationRequest(None, None, Some("name"), Some("content")), 1), Today);
    var calls := [add, Call(Verify(1), Today), Call(Accept(1), Today), Call(Publish(1), Today)];
    var db1 := Apply(Empty, add).db;
    assert db1.apps == map[1 := Application(1, CREATED, "name", "content")];
    ApplyPreservesValid(Empty, add);
    RunThree(db1, calls[1..]);
    assert AdmissibleRun(Empty, calls);
    assert Run(Empty, calls) == Run(db1, calls[1..]);
    ForwardPathReachesPublished(db1, 1, Today, Today, Today);
  }

  /** Create then delete with reason "bad": the lookup fails with not-found
      and the application's history is the single DELETED record with that
      reason. A delete without a reason fails and changes nothing. */
  lemma DeleteScenario()
    ensures var db1 := AddApplication(Empty, ApplicationRequest(None, None, Some("name"), Some("content")), 5).db;
      var db2 := DeleteApplication(db1, 5, Some("bad"), Today).db;
      && DeleteApplication(db1, 5, None, Today) == Reply(Err(NoReason), db1)
      && GetApplicationById(db2, 5) == Err(NotFound(5))
      && GetHistoryOfApplication(db2.log, 5) == [History(0, Today, DELETED, 5, Some("bad"))]
  {
    NotBlank("name");
    NotBlank("content");
    NotBlank("bad");
    var db1 := AddApplication(Empty, ApplicationRequest(None, None, Some("name"), Some("content")), 5).db;
    assert db1.apps == map[5 := Application(5, CREATED, "name", "content")];
    var db2 := DeleteApplication(db1, 5, Some("bad"), Today).db;
    assert db2.log == [History(0, Today, DELETED, 5, Some("bad"))];
  }

  /** Create, verify, then reject with a null or an empty reason: the
      missing-reason error, the application still VERIFIED, no record
      written beyond the verify's. A reject with a reason removes it. */
  lemma RejectScenario()
    ensures var db1 := AddApplication(Empty, ApplicationRequest(None, None, Some("name"), Some("content")), 5).db;
      var db2 := VerifyApplication(db1, 5, Today).db;
      var r := RejectApplication(db2, 5, Some(""), Today);
      && r == Reply(Err(NoReason), db2)
      && RejectApplication(db2, 5, None, Today) == Reply(Err(NoReason), db2)
      && GetApplicationById(db2, 5).value.state == VERIFIED
      && |db2.log| == 1
      && GetApplicationById(RejectApplication(db2, 5, Some("reason"), Today).db, 5) == Err(NotFound(5))
  {
    NotBlank("name");
    NotBlank("content");
    var db1 := AddApplication(Empty, ApplicationRequest(None, None, Some("name"), Some("content")), 5).db;
    assert db1.apps == map[5 := Application(5, CREATED, "name", "content")];
    assert !HasText(Some(""));
    assert !IsBlank("reason") by { assert !IsWhitespace("reason"[0]); }
  }
}
