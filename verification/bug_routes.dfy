/** The decision logic of the `/api/bugs` handlers (`backend/routes/bugRoutes.js`),
    each a function from the store and the request to the response and the
    new store. A handler that throws after `res.status(code)` answers with that
    code and `{message}` holding the error's text. */
module BugRoutes {
  import opened Wrappers
  import opened JsStrings
  import opened JsValues
  import opened Validation
  import opened BugModel

  const NotFoundMessage: string := "Bug not found"
  const InvalidStatusMessage: string := "Invalid status value"
  const DeletedMessage: string := "Bug deleted successfully"

  /** A JSON response body. `Null` is `res.json(null)`. */
  datatype Body = Message(text: string) | Record(bug: Bug) | Records(bugs: seq<Bug>) | Null

  datatype Response = Response(code: nat, body: Body)

  datatype Reply = Reply(response: Response, store: Store)

  /** `GET /api/bugs`. */
  function ListBugs(st: Store): (r: Response)
    ensures r.code == 200 && r.body.Records? && r.body.bugs == st.bugs
    ensures Valid(st) ==> forall i, j :: 0 <= i < j < |r.body.bugs| ==> r.body.bugs[i].id < r.body.bugs[j].id
  {
    Response(200, Records(GetAll(st)))
  }

  /** `GET /api/bugs/:id`. */
  function GetBug(st: Store, id: string): (r: Response)
    ensures r.code == 404 <==> NoMatch(st.bugs, ParseInt(id))
    ensures r.code == 404 ==> r.body == Message(NotFoundMessage)
    ensures r.code != 404 ==> r.code == 200 && r.body.Record? && r.body.bug in st.bugs
                              && Some(r.body.bug.id) == ParseInt(id)
  {
    match GetById(st, ParseInt(id))
    case None => Response(404, Message(NotFoundMessage))
    case Some(b) => Response(200, Record(b))
  }

  /** `POST /api/bugs`: validate the raw body, then create from it unsanitised. */
  function PostBug(st: Store, body: BugData, createdAt: Timestamp, updatedAt: Timestamp): (r: Reply)
    ensures var v := ValidateBug(body);
            !v.valid ==> r == Reply(Response(400, Message(Join(v.errors, ", "))), st)
    ensures ValidateBug(body).valid ==>
              var c := Create(st, body, createdAt, updatedAt);
              r == Reply(Response(201, Record(c.value)), c.store)
    ensures r.store.nextId == st.nextId + (if ValidateBug(body).valid then 1 else 0)
    ensures Valid(st) ==> Valid(r.store)
  {
    var v := ValidateBug(body);
    if !v.valid then Reply(Response(400, Message(Join(v.errors, ", "))), st)
    else
      var c := Create(st, body, createdAt, updatedAt);
      Reply(Response(201, Record(c.value)), c.store)
  }

  /** The status check of `PUT`: a truthy status outside the enumeration. */
  predicate RejectedStatus(body: BugData) {
    Truthy(body.status) && !ValidateStatus(body.status)
  }

  /** `PUT /api/bugs/:id`: existence is checked before the status, and only the
      status is checked. */
  function PutBug(st: Store, id: string, body: BugData, now: Timestamp): (r: Reply)
    ensures NoMatch(st.bugs, ParseInt(id)) ==> r == Reply(Response(404, Message(NotFoundMessage)), st)
    ensures !NoMatch(st.bugs, ParseInt(id)) && RejectedStatus(body) ==>
              r == Reply(Response(400, Message(InvalidStatusMessage)), st)
    ensures !NoMatch(st.bugs, ParseInt(id)) && !RejectedStatus(body) ==>
              && r.response.code == 200
              && r.response.body.Record?
              && r.store == Update(st, ParseInt(id), body, now).store
              && Some(r.response.body.bug) == GetById(r.store, ParseInt(id))
    ensures r.store.nextId == st.nextId
    ensures Valid(st) ==> Valid(r.store)
  {
    var key := ParseInt(id);
    match GetById(st, key)
    case None => Reply(Response(404, Message(NotFoundMessage)), st)
    case Some(_) =>
      if RejectedStatus(body) then Reply(Response(400, Message(InvalidStatusMessage)), st)
      else
        var u := Update(st, key, body, now);
        UpdateThenGetById(st, key, body, now);
        Reply(Response(200, if u.value.Some? then Record(u.value.value) else Null), u.store)
  }

  /** `DELETE /api/bugs/:id`. */
  function DeleteBug(st: Store, id: string): (r: Reply)
    ensures NoMatch(st.bugs, ParseInt(id)) ==> r == Reply(Response(404, Message(NotFoundMessage)), st)
    ensures !NoMatch(st.bugs, ParseInt(id)) ==>
              && r.response == Response(200, Message(DeletedMessage))
              && |r.store.bugs| == |st.bugs| - 1
    ensures r.store == Delete(st, ParseInt(id)).store
    ensures r.store.nextId == st.nextId
    ensures Valid(st) ==> Valid(r.store)
  {
    var d := Delete(st, ParseInt(id));
    if !d.value then Reply(Response(404, Message(NotFoundMessage)), st)
    else Reply(Response(200, Message(DeletedMessage)), d.store)
  }

  // ---------------------------------------------------------------------------
  // The router as a whole
  // ---------------------------------------------------------------------------

  /** A request to the router, with the clock readings the handler takes. */
  datatype Request =
    | List
    | Get(id: string)
    | Post(body: BugData, createdAt: Timestamp, updatedAt: Timestamp)
    | Put(id: string, body: BugData, now: Timestamp)
    | Remove(id: string)

  function Handle(st: Store, req: Request): (r: Reply)
    ensures r.response.code in {200, 201, 400, 404}
    ensures r.response.code >= 400 ==> r.store == st
    ensures (req.List? || req.Get?) ==> r.store == st
    ensures r.response.code == 201 <==> req.Post? && ValidateBug(req.body).valid
    ensures r.response.code == 201 ==> r.response.body.Record? && r.response.body.bug.id == st.nextId
    ensures r.store.nextId == st.nextId + (if r.response.code == 201 then 1 else 0)
    ensures Valid(st) ==> Valid(r.store)
  {
    match req
    case List => Reply(ListBugs(st), st)
    case Get(id) => Reply(GetBug(st, id), st)
    case Post(body, createdAt, updatedAt) => PostBug(st, body, createdAt, updatedAt)
    case Put(id, body, now) => PutBug(st, id, body, now)
    case Remove(id) => DeleteBug(st, id)
  }

  /** The responses to a sequence of requests and the store they leave. */
  datatype Session = Session(responses: seq<Response>, store: Store)

  function Serve(st: Store, reqs: seq<Request>): (s: Session)
    ensures |s.responses| == |reqs|
  {
    if |reqs| == 0 then Session([], st)
    else
      var before := Serve(st, reqs[..|reqs| - 1]);
      var r := Handle(before.store, reqs[|reqs| - 1]);
      Session(before.responses + [r.response], r.store)
  }

  /** The id of the record a response reports as created, if any. */
  function Created(r: Response): seq<int>
  {
    if r.code == 201 && r.body.Record? then [r.body.bug.id] else []
  }

  /** The ids of the records created during a session, in order. */
  function IssuedIds(responses: seq<Response>): seq<int>
  {
    if |responses| == 0 then [] else Created(responses[0]) + IssuedIds(responses[1..])
  }

  lemma {:induction false} IssuedIdsAppend(responses: seq<Response>, r: Response)
    ensures IssuedIds(responses + [r]) == IssuedIds(responses) + Created(r)
  {
    if |responses| > 0 {
      assert (responses + [r])[1..] == responses[1..] + [r];
      IssuedIdsAppend(responses[1..], r);
    }
  }

  /** Ids are never reused: over any run of requests, created records get
      strictly increasing ids, all at or above the counter the run started from,
      hence different from every id the store ever held before. */
  lemma {:induction false} IdsNeverReused(st: Store, reqs: seq<Request>)
    requires Valid(st)
    ensures var s := Serve(st, reqs);
            && Valid(s.store)
            && s.store.nextId == st.nextId + |IssuedIds(s.responses)|
            && (forall k :: 0 <= k < |IssuedIds(s.responses)| ==>
                  st.nextId <= IssuedIds(s.responses)[k] < s.store.nextId)
            && (forall k, l :: 0 <= k < l < |IssuedIds(s.responses)| ==>
                  IssuedIds(s.responses)[k] < IssuedIds(s.responses)[l])
  {
    if |reqs| > 0 {
      var before := Serve(st, reqs[..|reqs| - 1]);
      IdsNeverReused(st, reqs[..|reqs| - 1]);
      var r := Handle(before.store, reqs[|reqs| - 1]);
      var s := Serve(st, reqs);
      assert s.responses == before.responses + [r.response];
      IssuedIdsAppend(before.responses, r.response);
      var prior := IssuedIds(before.responses);
      var ids := IssuedIds(s.responses);
      if r.response.code == 201 {
        assert ids == prior + [before.store.nextId];
      } else {
        assert ids == prior;
      }
    }
  }

  // ---------------------------------------------------------------------------
  // Request sequences
  // ---------------------------------------------------------------------------

  /** A created record is served back at `/api/bugs/<its id>`. */
  lemma PostThenGet(st: Store, body: BugData, createdAt: Timestamp, updatedAt: Timestamp)
    requires Valid(st)
    requires ValidateBug(body).valid
    ensures var r := PostBug(st, body, createdAt, updatedAt);
            GetBug(r.store, NatToDecimal(st.nextId)) == Response(200, r.response.body)
  {
    var r := PostBug(st, body, createdAt, updatedAt);
    ParseIntOfDecimal("", st.nextId, "");
    assert "" + NatToDecimal(st.nextId) + "" == NatToDecimal(st.nextId);
    CreateThenGetById(st, body, createdAt, updatedAt);
  }

  /** After a successful `DELETE`, a `GET` of the same id answers 404. */
  lemma DeleteThenGet(st: Store, id: string)
    requires Valid(st)
    requires DeleteBug(st, id).response.code == 200
    ensures GetBug(DeleteBug(st, id).store, id) == Response(404, Message(NotFoundMessage))
  {
    DeleteThenGetById(st, ParseInt(id));
  }

  /** A rejected `POST` names every broken rule in its message. */
  lemma PostRejectionNamesEveryRule(st: Store, body: BugData, createdAt: Timestamp, updatedAt: Timestamp)
    requires !ValidateBug(body).valid
    ensures var r := PostBug(st, body, createdAt, updatedAt);
            && r.response.code == 400
            && r.store == st
            && forall v: Violation :: v in Violations(body) ==> OccursIn(v.Message(), r.response.body.text)
  {
    var errors := ValidateBug(body).errors;
    JoinContainsEach(errors, ", ");
    forall v: Violation | v in Violations(body)
      ensures OccursIn(v.Message(), Join(errors, ", "))
    {
      assert v.Message() in errors;
      var i :| 0 <= i < |errors| && errors[i] == v.Message();
    }
  }

  /** `PUT` does not re-validate the title: a found record can be given an
      empty title, which `POST` would have rejected. */
  lemma PutAcceptsEmptyTitle(st: Store, id: string, now: Timestamp)
    requires !NoMatch(st.bugs, ParseInt(id))
    ensures var body := BugData(Str(""), Missing, Missing, Missing);
            var r := PutBug(st, id, body, now);
            && r.response.code == 200
            && r.response.body.bug.title == Str("")
            && !ValidateBug(BugData(r.response.body.bug.title, Str("x"), Missing, Missing)).valid
  {
    var body := BugData(Str(""), Missing, Missing, Missing);
    var u := Update(st, ParseInt(id), body, now);
    assert u.value.Some?;
  }
}
