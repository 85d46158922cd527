/** The catalog routes as the server wires them: the token middleware in
    front of create, update and delete, each handler's checks, its one
    statement against the table, and the mapping of the statement's result
    to a response. */
module Routes {
  import opened Js
  import opened DateRegex
  import opened Http
  import opened Music
  import opened Store
  import opened Auth

  /** The response sent and the table as the request leaves it. */
  datatype Outcome = Outcome(response: Response, table: Table)

  const DatabaseError := "An error occurred in the database."
  const MusicAdded := "Music successfully added!"
  const MusicUpdated := "Music successfully updated!"
  const MusicDeleted := "Music successfully deleted!"
  const NotFoundForId := "Music not found for the given ID."
  const FetchError := "An error occurred."
  const MusicNotFound := "Music not found."

  /** The callback of the update and delete statements: an error gives 500,
      no affected row 404, anything else the success text. */
  function WriteOutcome(w: Write, t: Table, success: string): (o: Outcome)
    ensures o.response.status in {200, 404, 500}
    ensures o.response.status == 500 <==> w.WriteFailed?
    ensures o.response.status == 404 <==> w.Written? && w.affected == 0
    ensures o.response.status == 500 ==> o.response == Send(500, DatabaseError)
    ensures o.response.status == 404 ==> o.response == Send(404, NotFoundForId)
    ensures o.response == Send(200, success) <==> w.Written? && w.affected > 0
    ensures o.table == if w.Written? then w.table else t
  {
    match w
    case WriteFailed => Outcome(Send(500, DatabaseError), t)
    case Written(after, affected) =>
      if affected == 0 then Outcome(Send(404, NotFoundForId), after)
      else Outcome(Send(200, success), after)
  }

  /** The callback of the get-one query: an error gives 500, no row 404,
      otherwise the first row as JSON. */
  function FirstRowResponse(s: Select): (r: Response)
    ensures r.status in {200, 404, 500}
    ensures r.status == 500 <==> s.SelectFailed?
    ensures r.status == 404 <==> s.Selected? && s.rows == []
    ensures r.status == 500 ==> r == Send(500, FetchError)
    ensures r.status == 404 ==> r == Send(404, MusicNotFound)
    ensures r.status == 200 ==> s.Selected? && s.rows != [] && r.payload == RowJson(s.rows[0])
  {
    match s
    case SelectFailed => Send(500, FetchError)
    case Selected(rows) => if rows == [] then Send(404, MusicNotFound) else Response(200, RowJson(rows[0]))
  }

  // ---------------------------------------------------------------------
  // POST /music

  /** `newId` is the id the table's auto-increment hands the new row. */
  function PostMusic(header: Option<string>, verify: string -> Option<Claims>, body: Track,
                     parses: string -> bool, t: Table, newId: int, fails: bool): (o: Outcome)
    ensures VerifyToken(header, verify).Deny? ==> o == Outcome(VerifyToken(header, verify).response, t)
    ensures o.response.status == 400 <==>
              VerifyToken(header, verify).Proceed? && CheckCreate(body, parses).Reject?
    ensures o.response.status == 400 ==> o.response == Send(400, CheckCreate(body, parses).message)
    ensures o.response.status == 500 <==>
              VerifyToken(header, verify).Proceed? && CheckCreate(body, parses).Accept? && (fails || newId in t)
    ensures o.response == Send(201, MusicAdded) <==>
              VerifyToken(header, verify).Proceed? && CheckCreate(body, parses).Accept? && !fails && newId !in t
    ensures o.response.status == 500 ==> o.response == Send(500, DatabaseError)
    ensures o.table == if o.response.status == 201 then t[newId := body] else t
  {
    match VerifyToken(header, verify)
    case Deny(response) => Outcome(response, t)
    case Proceed(_) =>
      match CheckCreate(body, parses)
      case Reject(message) => Outcome(Send(400, message), t)
      case Accept =>
        match Insert(t, newId, body, fails)
        case WriteFailed => Outcome(Send(500, DatabaseError), t)
        case Written(after, _) => Outcome(Send(201, MusicAdded), after)
  }

  // ---------------------------------------------------------------------
  // GET /music/:id

  ghost function GetMusic(id: string, t: Table, fails: bool): (r: Response)
    ensures r.status in {200, 404, 500}
    ensures r.status == 500 <==> fails
    ensures r.status == 404 <==> !fails && Matching(t, Str(id)) == {}
    ensures r.status == 500 ==> r == Send(500, FetchError)
    ensures r.status == 404 ==> r == Send(404, MusicNotFound)
    ensures r.status == 200 ==>
              exists k :: k in t && KeyMatches(k, Str(id)) && r.payload == RowJson(Row(k, t[k]))
  {
    var s := SelectById(t, Str(id), fails);
    assert s.Selected? && s.rows != [] ==> s.rows[0] in s.rows && s.rows[0].id in t;
    assert s.Selected? && s.rows == [] ==> |Matching(t, Str(id))| == 0;
    FirstRowResponse(s)
  }

  // ---------------------------------------------------------------------
  // PATCH /music/:id

  method PatchMusic(header: Option<string>, verify: string -> Option<Claims>, id: string,
                    body: Track, t: Table, fails: bool) returns (o: Outcome)
    ensures VerifyToken(header, verify).Deny? ==> o == Outcome(VerifyToken(header, verify).response, t)
    ensures o.response.status == 400 <==>
              VerifyToken(header, verify).Proceed? && CheckPatch(body).Reject?
    ensures o.response.status == 400 ==> o.response == Send(400, CheckPatch(body).message)
    ensures o.response.status == 500 <==>
              VerifyToken(header, verify).Proceed? && CheckPatch(body).Accept? && fails
    ensures o.response.status == 404 <==>
              VerifyToken(header, verify).Proceed? && CheckPatch(body).Accept? && !fails
              && Matching(t, Str(id)) == {}
    ensures o.response == Send(200, MusicUpdated) <==>
              VerifyToken(header, verify).Proceed? && CheckPatch(body).Accept? && !fails
              && Matching(t, Str(id)) != {}
    ensures o.response.status == 500 ==> o.response == Send(500, DatabaseError)
    ensures o.response.status == 404 ==> o.response == Send(404, NotFoundForId)
    ensures o.table == if o.response.status == 200 then PatchedTable(t, id, body) else t
  {
    var gate := VerifyToken(header, verify);
    if gate.Deny? {
      return Outcome(gate.response, t);
    }
    var verdict := CheckPatch(body);
    if verdict.Reject? {
      return Outcome(Send(400, verdict.message), t);
    }
    var updates, values := BuildUpdate(body, id);
    assert values == BoundValues(body, Assigned(body)) + [Str(id)];
    UpdateOfBuiltStatement(t, body, id, fails);
    var w := Update(t, updates, values, fails);
    o := WriteOutcome(w, t, MusicUpdated);
    if o.response.status == 404 {
      assert PatchedTable(t, id, body) == t;
    }
  }

  // ---------------------------------------------------------------------
  // DELETE /music/:id

  function DeleteMusic(header: Option<string>, verify: string -> Option<Claims>, id: string,
                       t: Table, fails: bool): (o: Outcome)
    ensures VerifyToken(header, verify).Deny? ==> o == Outcome(VerifyToken(header, verify).response, t)
    ensures o.response.status == 500 <==> VerifyToken(header, verify).Proceed? && fails
    ensures o.response.status == 404 <==>
              VerifyToken(header, verify).Proceed? && !fails && Matching(t, Str(id)) == {}
    ensures o.response == Send(200, MusicDeleted) <==>
              VerifyToken(header, verify).Proceed? && !fails && Matching(t, Str(id)) != {}
    ensures o.response.status == 500 ==> o.response == Send(500, DatabaseError)
    ensures o.response.status == 404 ==> o.response == Send(404, NotFoundForId)
    ensures o.table == if o.response.status == 200 then t - Matching(t, Str(id)) else t
  {
    match VerifyToken(header, verify)
    case Deny(response) => Outcome(response, t)
    case Proceed(_) =>
      var w := Delete(t, Str(id), fails);
      var o := WriteOutcome(w, t, MusicDeleted);
      assert o.response.status == 404 ==> t - Matching(t, Str(id)) == t;
      o
  }

  // ---------------------------------------------------------------------
  // Properties across requests

  /** After a successful delete, fetching the same id finds nothing. */
  lemma DeleteThenGetIsNotFound(header: Option<string>, verify: string -> Option<Claims>, id: string,
                                t: Table, fails: bool)
    requires DeleteMusic(header, verify, id, t, fails).response.status == 200
    ensures GetMusic(id, DeleteMusic(header, verify, id, t, fails).table, false).status == 404
  {
    var after := DeleteMusic(header, verify, id, t, fails).table;
    assert Matching(after, Str(id)) == {};
  }

  /** A delete removes the one row the id names and keeps every other row. */
  lemma DeleteRemovesOnlyThatRow(header: Option<string>, verify: string -> Option<Claims>, id: string,
                                 t: Table, fails: bool)
    requires DeleteMusic(header, verify, id, t, fails).response.status == 200
    ensures var after := DeleteMusic(header, verify, id, t, fails).table;
            && |t| == |after| + 1
            && forall k :: k in t && !KeyMatches(k, Str(id)) ==> k in after && after[k] == t[k]
  {
    var m := Matching(t, Str(id));
    AtMostOneMatch(t, Str(id));
    var k :| k in m;
    assert |m - {k}| == 0;
    assert m == {k};
    var after := DeleteMusic(header, verify, id, t, fails).table;
    assert after == t - {k};
    assert t.Keys == after.Keys + {k};
  }

  /** A row every check of the create handler would accept. */
  ghost predicate Catalogued(t: Table, parses: string -> bool) {
    forall k :: k in t ==> CheckCreate(t[k], parses).Accept?
  }

  /** Create keeps every stored row one that create accepts: it only adds
      a row it has accepted. */
  lemma CreateKeepsCatalogued(header: Option<string>, verify: string -> Option<Claims>,
                              body: Track, parses: string -> bool, t: Table, newId: int, fails: bool)
    requires Catalogued(t, parses)
    ensures Catalogued(PostMusic(header, verify, body, parses, t, newId, fails).table, parses)
  {
  }

  /** Delete keeps every stored row one that create accepts: it only
      removes rows. */
  lemma DeleteKeepsCatalogued(header: Option<string>, verify: string -> Option<Claims>,
                              parses: string -> bool, t: Table, id: string, fails: bool)
    requires Catalogued(t, parses)
    ensures Catalogued(DeleteMusic(header, verify, id, t, fails).table, parses)
  {
  }

  /** An update keeps stored genres in the list ... */
  lemma PatchKeepsGenresValid(t: Table, id: string, body: Track)
    requires forall k :: k in t ==> IsValidGenre(t[k].genre)
    requires CheckPatch(body).Accept?
    ensures forall k :: k in PatchedTable(t, id, body) ==> IsValidGenre(PatchedTable(t, id, body)[k].genre)
  {
    forall k | k in PatchedTable(t, id, body)
      ensures IsValidGenre(PatchedTable(t, id, body)[k].genre)
    {
      assert Patched(t[k], body).Get(Genre) == Patched(t[k], body).genre;
    }
  }

  /** ... but not stored dates: an update of an existing row with a body
      that create refuses only for its date format is accepted, and leaves
      a row create would have refused, so a catalogued table stops being one. */
  lemma PatchCanUncatalogue(t: Table, id: string, body: Track, parses: string -> bool)
    requires Matching(t, Str(id)) != {}
    requires HasAllFields(body) && IsValidGenre(body.genre)
    requires !IsDateShaped(ToJsString(body.release_date))
    ensures CheckPatch(body).Accept?
    ensures !Catalogued(PatchedTable(t, id, body), parses)
  {
    PatchSkipsDateFormat(body, parses);
    var k :| k in Matching(t, Str(id));
    PatchedByFullBody(t[k], body);
    assert PatchedTable(t, id, body)[k] == body;
  }
}
