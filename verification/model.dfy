/** The data model of the application registry: the lifecycle states, the
    Application and History records, the typed errors that replace the
    service's exceptions, and the two stores (a map for applications, an
    append-only sequence for history records). */
module Model {

  /** Identifiers are Java BigIntegers: unbounded integers. */
  type Id = int

  datatype Option<+T> = None | Some(value: T)

  /** A calendar date, passed in by the caller in place of the system clock. */
  datatype Date = Date(year: int, month: int, day: int)

  /** The lifecycle states. DELETED and REJECTED never label a stored
      application: they only tag the history record of a removal. */
  datatype State = CREATED | VERIFIED | ACCEPTED | PUBLISHED | DELETED | REJECTED

  /** States a stored application can be in. */
  predicate IsLive(s: State) {
    s == CREATED || s == VERIFIED || s == ACCEPTED || s == PUBLISHED
  }

  /** Position of a live state on the forward path CREATED, VERIFIED, ACCEPTED, PUBLISHED. */
  function Rank(s: State): nat {
    match s
    case CREATED => 0
    case VERIFIED => 1
    case ACCEPTED => 2
    case PUBLISHED => 3
    case DELETED => 4
    case REJECTED => 4
  }

  /** A persisted application. Its name and content are never null once
      stored: creation demands both and an update only overwrites with a
      non-null value. */
  datatype Application = Application(id: Id, state: State, name: string, content: string)

  /** An application as a caller supplies it (a request body): every field
      may be null. */
  datatype ApplicationRequest = ApplicationRequest(
    id: Option<Id>, state: Option<State>, name: Option<string>, content: Option<string>)

  /** An audit record. `oldState` is the state the application left, or the
      removal tag DELETED / REJECTED. */
  datatype History = History(
    id: Id, date: Date, oldState: State, applicationId: Id, resignReason: Option<string>)

  /** The service's failures, carrying structured context instead of a
      formatted message. `MissingId` is the repository's refusal of a null
      id; `NoSuchElement` is `Optional.get()` on an absent history record. */
  datatype Error =
    | NotFound(id: Id)
    | WrongState(expected: seq<State>)
    | NoParameter
    | NoReason
    | MissingId
    | NoSuchElement

  datatype Result<+T> = Ok(value: T) | Err(error: Error)

  /** Both stores: applications keyed by id, and the history log in insertion order. */
  datatype Db = Db(apps: map<Id, Application>, log: seq<History>)

  /** The outcome of a service call: what it returned or raised, and the stores afterwards. */
  datatype Reply = Reply(result: Result<Application>, db: Db)

  /** The repository's `save`: an upsert keyed by the entity's own id. */
  function StoreSave(apps: map<Id, Application>, a: Application): (apps': map<Id, Application>)
    ensures a.id in apps' && apps'[a.id] == a
    ensures apps'.Keys == apps.Keys + {a.id}
    ensures forall k :: k in apps && k != a.id ==> k in apps' && apps'[k] == apps[k]
  {
    apps[a.id := a]
  }

  /** The repository's `delete(entity)`: removes the entity's id. */
  function StoreDelete(apps: map<Id, Application>, a: Application): (apps': map<Id, Application>)
    ensures a.id !in apps'
    ensures apps'.Keys == apps.Keys - {a.id}
    ensures forall k :: k in apps' ==> apps'[k] == apps[k]
  {
    apps - {a.id}
  }

  /** Java's `Character.isWhitespace`: the Unicode space, line and paragraph
      separators other than the three no-break spaces, plus the ASCII
      controls TAB, LF, VT, FF, CR and the four information separators. */
  predicate IsWhitespace(c: char) {
    || ('\U{9}' <= c <= '\U{D}')
    || ('\U{1C}' <= c <= ' ')
    || c == '\U{1680}'
    || ('\U{2000}' <= c <= '\U{2006}')
    || ('\U{2008}' <= c <= '\U{200A}')
    || c == '\U{2028}' || c == '\U{2029}'
    || c == '\U{205F}' || c == '\U{3000}'
  }

  /** Java's `String.isBlank`: empty or white space only. */
  predicate IsBlank(s: string) {
    forall i :: 0 <= i < |s| ==> IsWhitespace(s[i])
  }

  /** The guard `s != null && !s.isBlank()`. */
  predicate HasText(s: Option<string>) {
    s.Some? && !IsBlank(s.value)
  }
}
