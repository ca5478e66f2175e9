/** The history log: an append-only sequence of audit records. Records are
    only ever added; nothing here updates or removes one. */
module HistoryService {
  import opened Model

  /** The store gives every record an identifier no earlier record has; the
      model uses the record's position in the log as that identifier. */
  predicate IdsArePositions(log: seq<History>) {
    forall i :: 0 <= i < |log| ==> log[i].id == i
  }

  /** `addHistory`: the service builds a record without an id; the store
      assigns the next identifier and appends the record. */
  function AddHistory(log: seq<History>, date: Date, oldState: State, applicationId: Id,
                      resignReason: Option<string>): (log': seq<History>)
    ensures |log'| == |log| + 1 && log'[..|log|] == log
    ensures var h := log'[|log|];
      h.date == date && h.oldState == oldState && h.applicationId == applicationId
      && h.resignReason == resignReason
    ensures IdsArePositions(log) ==> IdsArePositions(log')
  {
    log + [History(|log|, date, oldState, applicationId, resignReason)]
  }

  /** `getAllHistory`: every record, in insertion order. */
  function GetAllHistory(log: seq<History>): (r: seq<History>)
    ensures |r| == |log| && forall i :: 0 <= i < |log| ==> r[i] == log[i]
  {
    log
  }

  /** `getHistoryById`: the record carrying `id`; an absent id makes
      `Optional.get()` fail, which is not the service's not-found error. */
  function GetHistoryById(log: seq<History>, id: Id): (r: Result<History>)
    ensures r.Ok? ==> r.value in log && r.value.id == id
    ensures r.Err? <==> forall h :: h in log ==> h.id != id
    ensures r.Err? ==> r.error == NoSuchElement
  {
    if log == [] then Err(NoSuchElement)
    else if log[0].id == id then Ok(log[0])
    else GetHistoryById(log[1..], id)
  }

  /** `getHistoryOfApplication`: the records about one application, in log
      order; empty, not an error, when there are none. */
  function GetHistoryOfApplication(log: seq<History>, appId: Id): (r: seq<History>)
    ensures forall h :: h in r <==> h in log && h.applicationId == appId
    ensures r == [] <==> forall h :: h in log ==> h.applicationId != appId
    ensures |r| <= |log|
  {
    if log == [] then []
    else
      var rest := GetHistoryOfApplication(log[..|log| - 1], appId);
      assert log == log[..|log| - 1] + [log[|log| - 1]];
      if log[|log| - 1].applicationId == appId then rest + [log[|log| - 1]] else rest
  }

  /** Appending a record and reading the log back yields the earlier records
      followed by the new one. */
  lemma AddThenGetAll(log: seq<History>, date: Date, oldState: State, applicationId: Id,
                      resignReason: Option<string>)
    ensures GetAllHistory(AddHistory(log, date, oldState, applicationId, resignReason))
         == GetAllHistory(log) + [History(|log|, date, oldState, applicationId, resignReason)]
  {
  }

  /** On a log whose identifiers are positions, the lookup finds exactly the
      record at that position, and fails for every other identifier. */
  lemma GetHistoryByIdOnPositions(log: seq<History>, id: Id)
    requires IdsArePositions(log)
    ensures 0 <= id < |log| ==> GetHistoryById(log, id) == Ok(log[id])
    ensures !(0 <= id < |log|) ==> GetHistoryById(log, id) == Err(NoSuchElement)
  {
    var r := GetHistoryById(log, id);
    if 0 <= id < |log| {
      assert log[id] in log;
      if r.Ok? {
        var j :| 0 <= j < |log| && log[j] == r.value;
        assert log[j].id == j;
      }
    } else {
      forall h | h in log
        ensures h.id != id
      {
        var j :| 0 <= j < |log| && log[j] == h;
      }
    }
  }

  /** Every record `getAllHistory` lists can be fetched again by its id. */
  lemma AllHistoryFetchableById(log: seq<History>)
    requires IdsArePositions(log)
    ensures forall i :: 0 <= i < |GetAllHistory(log)| ==>
      GetHistoryById(log, GetAllHistory(log)[i].id) == Ok(GetAllHistory(log)[i])
  {
    forall i | 0 <= i < |log|
      ensures GetHistoryById(log, log[i].id) == Ok(log[i])
    {
      GetHistoryByIdOnPositions(log, i);
    }
  }

  /** Round trip: the record `addHistory` appends can be fetched by the
      identifier the store gave it, and earlier records keep theirs. */
  lemma AddThenGetById(log: seq<History>, date: Date, oldState: State, applicationId: Id,
                       resignReason: Option<string>, id: Id)
    requires IdsArePositions(log)
    ensures var log' := AddHistory(log, date, oldState, applicationId, resignReason);
      && GetHistoryById(log', |log|) == Ok(History(|log|, date, oldState, applicationId, resignReason))
      && (id != |log| ==> GetHistoryById(log', id) == GetHistoryById(log, id))
  {
    var log' := AddHistory(log, date, oldState, applicationId, resignReason);
    GetHistoryByIdOnPositions(log', |log|);
    GetHistoryByIdOnPositions(log', id);
    GetHistoryByIdOnPositions(log, id);
  }

  /** Selecting one application's records distributes over concatenation:
      the selection keeps log order. */
  lemma {:induction false} HistoryOfApplicationAppend(a: seq<History>, b: seq<History>, appId: Id)
    ensures GetHistoryOfApplication(a + b, appId)
         == GetHistoryOfApplication(a, appId) + GetHistoryOfApplication(b, appId)
    decreases |b|
  {
    if b == [] {
      assert a + b == a;
    } else {
      var b' := b[..|b| - 1];
      var last := b[|b| - 1];
      assert (a + b)[..|a + b| - 1] == a + b';
      assert (a + b)[|a + b| - 1] == last;
      HistoryOfApplicationAppend(a, b', appId);
    }
  }

  /** Once the log has grown by appends, an application's earlier history is
      still there, unchanged, at the front of its selection. */
  lemma HistoryOfApplicationGrows(log: seq<History>, log': seq<History>, appId: Id)
    requires log <= log'
    ensures GetHistoryOfApplication(log, appId) <= GetHistoryOfApplication(log', appId)
  {
    assert log' == log + log'[|log|..];
    HistoryOfApplicationAppend(log, log'[|log|..], appId);
  }

  /** What `addHistory` does to one application's history: the new record
      joins the end of it exactly when it is about that application. */
  lemma AddThenHistoryOfApplication(log: seq<History>, date: Date, oldState: State,
                                    applicationId: Id, resignReason: Option<string>, appId: Id)
    ensures var h := History(|log|, date, oldState, applicationId, resignReason);
      GetHistoryOfApplication(AddHistory(log, date, oldState, applicationId, resignReason), appId)
      == GetHistoryOfApplication(log, appId) + (if applicationId == appId then [h] else [])
  {
    var log' := AddHistory(log, date, oldState, applicationId, resignReason);
    assert log'[..|log'| - 1] == log;
  }
}
