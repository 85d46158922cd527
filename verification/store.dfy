/** The `music` table as the handlers see it through their queries: rows
    keyed by id, and a flag standing for any database failure (lost
    connection, rejected value, ...), on which the statement changes nothing. */
module Store {
  import opened Js
  import opened Music

  type Table = map<int, Track>

  /** What an INSERT, UPDATE or DELETE gave the callback: an error, or the
      new table with `affectedRows` (rows matched, as mysql2 reports by default). */
  datatype Write = WriteFailed | Written(table: Table, affected: nat)

  /** What a SELECT gave the callback. */
  datatype Select = SelectFailed | Selected(rows: seq<Row>)

  /** `WHERE id = ?` bound to a path parameter: the row's id reads as that
      string. */
  predicate KeyMatches(key: int, param: Value) {
    param.Str? && IntToString(key) == param.s
  }

  function Matching(t: Table, param: Value): set<int> {
    set k | k in t && KeyMatches(k, param)
  }

  /** Ids are unique and their numerals are too, so at most one row matches. */
  lemma AtMostOneMatch(t: Table, param: Value)
    ensures |Matching(t, param)| <= 1
  {
    var m := Matching(t, param);
    if |m| > 1 {
      var a :| a in m;
      assert |m - {a}| == |m| - 1;
      var b :| b in m - {a};
      IntToStringInjective(a, b);
      assert false;
    }
  }

  /** INSERT with the id the table's auto-increment chose. */
  function Insert(t: Table, newId: int, track: Track, fails: bool): (w: Write)
    ensures w.Written? <==> !fails && newId !in t
    ensures w.Written? ==> w.table == t[newId := track] && w.affected == 1
  {
    if fails || newId in t then WriteFailed else Written(t[newId := track], 1)
  }

  /** The columns a list of SET assignment texts names, if it names known ones. */
  function ParseSetClauses(sets: seq<string>): (r: Option<seq<Column>>)
    ensures r.Some? ==> |r.value| == |sets|
  {
    if sets == [] then Some([])
    else
      match (ColumnOfSetter(sets[0]), ParseSetClauses(sets[1..]))
      case (Some(c), Some(cs)) => Some([c] + cs)
      case _ => None
  }

  /** The SET texts made for a list of columns read back as those columns. */
  lemma {:induction false} ParseSetClausesOfSetClauses(cols: seq<Column>)
    ensures ParseSetClauses(SetClauses(cols)) == Some(cols)
  {
    if cols != [] {
      ColumnOfSetterText(cols[0]);
      assert SetClauses(cols)[1..] == SetClauses(cols[1..]);
      ParseSetClausesOfSetClauses(cols[1..]);
      assert [cols[0]] + cols[1..] == cols;
    }
  }

  /** The assignments of a SET list applied left to right. */
  function Assign(track: Track, cols: seq<Column>, vals: seq<Value>): Track
    requires |cols| == |vals|
    decreases |cols|
  {
    if cols == [] then track else Assign(track.With(cols[0], vals[0]), cols[1..], vals[1..])
  }

  /** `UPDATE music SET <sets> WHERE id = ?` with `params` bound to the
      placeholders in order: the SET list must name known columns and the
      parameters must fill the placeholders exactly, or the statement fails. */
  function Update(t: Table, sets: seq<string>, params: seq<Value>, fails: bool): (w: Write)
    ensures w.Written? ==> w.table.Keys == t.Keys && w.affected <= 1
    ensures w.Written? ==> |params| >= 2 && w.affected == |Matching(t, params[|params| - 1])|
  {
    if fails then WriteFailed
    else
      match ParseSetClauses(sets)
      case None => WriteFailed
      case Some(cols) =>
        if cols == [] || |params| != |cols| + 1 then WriteFailed
        else
          var m := Matching(t, params[|cols|]);
          AtMostOneMatch(t, params[|cols|]);
          Written(map k | k in t :: if k in m then Assign(t[k], cols, params[..|cols|]) else t[k], |m|)
  }

  /** `DELETE FROM music WHERE id = ?`. */
  function Delete(t: Table, param: Value, fails: bool): (w: Write)
    ensures w.Written? <==> !fails
    ensures w.Written? ==> w.table == t - Matching(t, param) && w.affected == |Matching(t, param)|
  {
    if fails then WriteFailed else Written(t - Matching(t, param), |Matching(t, param)|)
  }

  /** `SELECT * FROM music WHERE id = ?`. */
  ghost function SelectById(t: Table, param: Value, fails: bool): (s: Select)
    ensures s.SelectFailed? <==> fails
    ensures s.Selected? ==> |s.rows| == |Matching(t, param)| <= 1
    ensures s.Selected? ==> forall r :: r in s.rows ==> r.id in t && KeyMatches(r.id, param) && r.track == t[r.id]
  {
    if fails then SelectFailed
    else
      var m := Matching(t, param);
      AtMostOneMatch(t, param);
      if m == {} then Selected([])
      else
        var k :| k in m;
        assert |m - {k}| == 0;
        assert m == {k};
        Selected([Row(k, t[k])])
  }

  /** The table after `UPDATE ... WHERE id = ?` with the SET list of a
      partial update: the row the id names is patched, every other row is
      left as it was, and no row appears or disappears. */
  function PatchedTable(t: Table, id: string, body: Track): (after: Table)
    ensures after.Keys == t.Keys
    ensures forall k :: k in t && !KeyMatches(k, Str(id)) ==> after[k] == t[k]
  {
    map k | k in t :: if KeyMatches(k, Str(id)) then Patched(t[k], body) else t[k]
  }

  /** Applying the assignments built from a body for its supplied columns
      changes exactly those columns, to the body's values. */
  lemma {:induction false} AssignBoundValues(track: Track, cols: seq<Column>, body: Track, c: Column)
    ensures Assign(track, cols, BoundValues(body, cols)).Get(c) ==
            if c in cols then body.Get(c) else track.Get(c)
    decreases |cols|
  {
    if cols != [] {
      assert BoundValues(body, cols)[1..] == BoundValues(body, cols[1..]);
      AssignBoundValues(track.With(cols[0], body.Get(cols[0])), cols[1..], body, c);
      assert c in cols <==> c == cols[0] || c in cols[1..] by {
        assert cols == [cols[0]] + cols[1..];
      }
    }
  }

  /** The statement the update handler builds for a body that supplies some
      column fails only when the database does, and otherwise patches the
      row the id names and nothing else. */
  lemma UpdateOfBuiltStatement(t: Table, body: Track, id: string, fails: bool)
    requires Assigned(body) != []
    ensures var w := Update(t, SetClauses(Assigned(body)), BoundValues(body, Assigned(body)) + [Str(id)], fails);
            && (w.WriteFailed? <==> fails)
            && (w.Written? ==> w.affected == |Matching(t, Str(id))|)
            && (w.Written? ==> w.table == PatchedTable(t, id, body))
  {
    var cols := Assigned(body);
    var params := BoundValues(body, cols) + [Str(id)];
    ParseSetClausesOfSetClauses(cols);
    assert params[|cols|] == Str(id);
    assert params[..|cols|] == BoundValues(body, cols);
    forall k | k in t
      ensures Assign(t[k], cols, BoundValues(body, cols)) == Patched(t[k], body)
    {
      forall c ensures Assign(t[k], cols, BoundValues(body, cols)).Get(c) == Patched(t[k], body).Get(c) {
        AssignBoundValues(t[k], cols, body, c);
        AssignedIffSupplied(body, c);
      }
      TrackExtensionality(Assign(t[k], cols, BoundValues(body, cols)), Patched(t[k], body));
    }
  }
}
