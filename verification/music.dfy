/** The catalog's entity and the request checks of the create and partial
    update handlers, with the builder of the partial update's SET list. */
module Music {
  import opened Js
  import opened DateRegex

  /** The closed genre list; matching is exact and case-sensitive. */
  const ValidGenres: seq<string> :=
    ["podcast", "rock", "ambient", "jazz", "electronic", "pop", "classical", "rap"]

  /** `validGenres.includes(genre)`: SameValueZero never equates a string
      with a value of another type, so unlike the date check nothing is
      converted, and every genre in the list is a non-empty string. */
  function IsValidGenre(v: Value): (b: bool)
    ensures b ==> v.Str? && Truthy(v)
    ensures !v.Str? ==> !b
  {
    v.Str? && v.s in ValidGenres
  }

  /** The six writable columns of the `music` table, in the order the
      handlers list them. */
  datatype Column = Title | Artist | Genre | Duration | ReleaseDate | ImageUrl

  const Columns: seq<Column> := [Title, Artist, Genre, Duration, ReleaseDate, ImageUrl]

  /** Position of a column in `Columns`. */
  function Rank(c: Column): (r: nat)
    ensures r < |Columns| && Columns[r] == c
  {
    match c
    case Title => 0
    case Artist => 1
    case Genre => 2
    case Duration => 3
    case ReleaseDate => 4
    case ImageUrl => 5
  }

  /** The six properties the handlers destructure from a request body; the
      same shape holds the values a row stores in those columns. */
  datatype Track = Track(title: Value, artist: Value, genre: Value,
                         duration: Value, release_date: Value, image_url: Value)
  {
    function Get(c: Column): Value {
      match c
      case Title => title
      case Artist => artist
      case Genre => genre
      case Duration => duration
      case ReleaseDate => release_date
      case ImageUrl => image_url
    }

    function With(c: Column, v: Value): (t: Track)
      ensures t.Get(c) == v
      ensures forall d :: d != c ==> t.Get(d) == Get(d)
    {
      match c
      case Title => this.(title := v)
      case Artist => this.(artist := v)
      case Genre => this.(genre := v)
      case Duration => this.(duration := v)
      case ReleaseDate => this.(release_date := v)
      case ImageUrl => this.(image_url := v)
    }
  }

  /** A row of the table: its server-generated id and its columns. */
  datatype Row = Row(id: int, track: Track)

  /** Two tracks that agree on every column are equal. */
  lemma TrackExtensionality(a: Track, b: Track)
    requires forall c :: a.Get(c) == b.Get(c)
    ensures a == b
  {
    assert a.Get(Title) == b.Get(Title) && a.Get(Artist) == b.Get(Artist);
    assert a.Get(Genre) == b.Get(Genre) && a.Get(Duration) == b.Get(Duration);
    assert a.Get(ReleaseDate) == b.Get(ReleaseDate) && a.Get(ImageUrl) == b.Get(ImageUrl);
  }

  // ---------------------------------------------------------------------
  // POST /music

  const AllFieldsRequired := "All fields are required!"
  const InvalidGenre := "Invalid genre. Allowed genres: " + Join(ValidGenres, ", ")
  const InvalidDateFormat := "Invalid date format! Correct format: YYYY-MM-DD"
  const InvalidDate := "Invalid date!"

  /** The outcome of a handler's input checks: the 400 message of the first
      check that fails, or permission to issue the query. */
  datatype Verdict = Reject(message: string) | Accept

  predicate HasAllFields(body: Track) {
    forall c :: Truthy(body.Get(c))
  }

  lemma HasAllFieldsUnrolled(body: Track)
    ensures HasAllFields(body) <==>
              && Truthy(body.title) && Truthy(body.artist) && Truthy(body.genre)
              && Truthy(body.duration) && Truthy(body.release_date) && Truthy(body.image_url)
  {
    assert body.Get(Title) == body.title && body.Get(Artist) == body.artist;
    assert body.Get(Genre) == body.genre && body.Get(Duration) == body.duration;
    assert body.Get(ReleaseDate) == body.release_date && body.Get(ImageUrl) == body.image_url;
  }

  /** The checks of the create handler, in order; `parses` stands for
      `!isNaN(new Date(s).getTime())`, whose result the JavaScript engine
      decides. */
  function CheckCreate(body: Track, parses: string -> bool): (v: Verdict)
    ensures v.Accept? <==>
              && HasAllFields(body)
              && IsValidGenre(body.genre)
              && IsDateShaped(ToJsString(body.release_date))
              && parses(ToJsString(body.release_date))
    ensures !HasAllFields(body) ==> v == Reject(AllFieldsRequired)
    ensures HasAllFields(body) && !IsValidGenre(body.genre) ==> v == Reject(InvalidGenre)
    ensures (HasAllFields(body) && IsValidGenre(body.genre)
             && !IsDateShaped(ToJsString(body.release_date))) ==> v == Reject(InvalidDateFormat)
    ensures (HasAllFields(body) && IsValidGenre(body.genre)
             && IsDateShaped(ToJsString(body.release_date))
             && !parses(ToJsString(body.release_date))) ==> v == Reject(InvalidDate)
    ensures v.Accept? ==> body.release_date.Str? || body.release_date.Object?
  {
    HasAllFieldsUnrolled(body);
    if !Truthy(body.title) || !Truthy(body.artist) || !Truthy(body.genre)
       || !Truthy(body.duration) || !Truthy(body.release_date) || !Truthy(body.image_url)
    then
      Reject(AllFieldsRequired)
    else if !IsValidGenre(body.genre) then
      Reject(InvalidGenre)
    else
      var date := ToJsString(body.release_date);
      TestDatePatternIsDateShaped(date);
      if !Test(DatePattern, date) then
        Reject(InvalidDateFormat)
      else
        DateShapedValueIsText(body.release_date);
        if !parses(date) then Reject(InvalidDate) else Accept
  }

  // ---------------------------------------------------------------------
  // PATCH /music/:id

  const NoFieldToUpdate := "At least one field must be provided for the update."

  /** The columns of `cols` that the body supplies (truthy), in their order. */
  function AssignedAmong(cols: seq<Column>, body: Track): (a: seq<Column>)
    ensures forall c :: c in a <==> c in cols && Truthy(body.Get(c))
  {
    if cols == [] then []
    else
      var last := cols[|cols| - 1];
      assert cols == cols[..|cols| - 1] + [last];
      AssignedAmong(cols[..|cols| - 1], body) + (if Truthy(body.Get(last)) then [last] else [])
  }

  /** The columns a partial update assigns. */
  function Assigned(body: Track): seq<Column> {
    AssignedAmong(Columns, body)
  }

  lemma EveryColumnListed(c: Column)
    ensures c in Columns
  {
    assert Columns[Rank(c)] == c;
  }

  /** A partial update assigns a column exactly when the body supplies it. */
  lemma AssignedIffSupplied(body: Track, c: Column)
    ensures c in Assigned(body) <==> Truthy(body.Get(c))
  {
    EveryColumnListed(c);
  }

  /** The update assigns nothing exactly when all six properties are falsy. */
  lemma AssignedEmptyIffNoField(body: Track)
    ensures Assigned(body) == [] <==>
              && !Truthy(body.title) && !Truthy(body.artist) && !Truthy(body.genre)
              && !Truthy(body.duration) && !Truthy(body.release_date) && !Truthy(body.image_url)
  {
    AssignedIffSupplied(body, Title);
    AssignedIffSupplied(body, Artist);
    AssignedIffSupplied(body, Genre);
    AssignedIffSupplied(body, Duration);
    AssignedIffSupplied(body, ReleaseDate);
    AssignedIffSupplied(body, ImageUrl);
    if Assigned(body) != [] {
      var c := Assigned(body)[0];
      AssignedIffSupplied(body, c);
    }
  }

  /** The guards of the partial-update handler, in order. */
  function CheckPatch(body: Track): (v: Verdict)
    ensures v.Accept? <==> Assigned(body) != [] && (Truthy(body.genre) ==> IsValidGenre(body.genre))
    ensures Assigned(body) == [] ==> v == Reject(NoFieldToUpdate)
    ensures v.Reject? && Assigned(body) != [] ==> v == Reject(InvalidGenre)
  {
    AssignedEmptyIffNoField(body);
    if !Truthy(body.title) && !Truthy(body.artist) && !Truthy(body.genre)
       && !Truthy(body.duration) && !Truthy(body.release_date) && !Truthy(body.image_url)
    then
      Reject(NoFieldToUpdate)
    else if Truthy(body.genre) && !IsValidGenre(body.genre) then
      Reject(InvalidGenre)
    else
      Accept
  }

  /** The text of one assignment in the SET list: the column's name
      followed by " = ?". */
  function SetterText(c: Column): string {
    match c
    case Title => "title = ?"
    case Artist => "artist = ?"
    case Genre => "genre = ?"
    case Duration => "duration = ?"
    case ReleaseDate => "release_date = ?"
    case ImageUrl => "image_url = ?"
  }

  function SetClauses(cols: seq<Column>): (sets: seq<string>)
    ensures |sets| == |cols|
  {
    seq(|cols|, i requires 0 <= i < |cols| => SetterText(cols[i]))
  }

  function BoundValues(body: Track, cols: seq<Column>): (vals: seq<Value>)
    ensures |vals| == |cols|
  {
    seq(|cols|, i requires 0 <= i < |cols| => body.Get(cols[i]))
  }

  /** The column an assignment text names, if it is one the builder writes. */
  function ColumnOfSetter(s: string): Option<Column> {
    if s == "title = ?" then Some(Title)
    else if s == "artist = ?" then Some(Artist)
    else if s == "genre = ?" then Some(Genre)
    else if s == "duration = ?" then Some(Duration)
    else if s == "release_date = ?" then Some(ReleaseDate)
    else if s == "image_url = ?" then Some(ImageUrl)
    else None
  }

  /** Each assignment text names the column it was made for. */
  lemma ColumnOfSetterText(c: Column)
    ensures ColumnOfSetter(SetterText(c)) == Some(c)
  {
    assert "title = ?"[0] == 't' && "artist = ?"[0] == 'a' && "genre = ?"[0] == 'g';
    assert "duration = ?"[0] == 'd' && "release_date = ?"[0] == 'r' && "image_url = ?"[0] == 'i';
  }

  /** Strictly in the order of `Columns`, hence without repetition. */
  predicate InColumnOrder(cols: seq<Column>) {
    forall i, j :: 0 <= i < j < |cols| ==> Rank(cols[i]) < Rank(cols[j])
  }

  lemma {:induction false} AssignedAmongKeepsOrder(cols: seq<Column>, body: Track)
    requires InColumnOrder(cols)
    ensures InColumnOrder(AssignedAmong(cols, body))
  {
    if cols != [] {
      var init, last := cols[..|cols| - 1], cols[|cols| - 1];
      var front := AssignedAmong(init, body);
      assert InColumnOrder(init) by {
        forall i, j | 0 <= i < j < |init| ensures Rank(init[i]) < Rank(init[j]) {
          assert init[i] == cols[i] && init[j] == cols[j];
        }
      }
      AssignedAmongKeepsOrder(init, body);
      forall c | c in front ensures Rank(c) < Rank(last) {
        var k :| 0 <= k < |init| && init[k] == c;
        assert cols[k] == c;
      }
      var a := AssignedAmong(cols, body);
      if Truthy(body.Get(last)) {
        assert a == front + [last];
        forall i, j | 0 <= i < j < |a| ensures Rank(a[i]) < Rank(a[j]) {
          assert a[i] == front[i] && a[i] in front;
          if j < |front| {
            assert a[j] == front[j];
          } else {
            assert a[j] == last;
          }
        }
      } else {
        assert a == front;
      }
    }
  }

  /** The assigned columns keep the order of `Columns`, so none repeats. */
  lemma AssignedKeepsColumnOrder(body: Track)
    ensures InColumnOrder(Assigned(body))
  {
    forall i, j | 0 <= i < j < |Columns| ensures Rank(Columns[i]) < Rank(Columns[j]) {
      assert Rank(Columns[i]) == i && Rank(Columns[j]) == j;
    }
    AssignedAmongKeepsOrder(Columns, body);
  }

  /** The SET list and the parameters of the partial update: for each
      column in order that the body supplies, its assignment text and its
      value are pushed together; the id is pushed last, for the WHERE. */
  method BuildUpdate(body: Track, id: string) returns (updates: seq<string>, values: seq<Value>)
    ensures |values| == |updates| + 1 && values[|updates|] == Str(id)
    ensures updates == SetClauses(Assigned(body))
    ensures values[..|updates|] == BoundValues(body, Assigned(body))
    ensures forall i :: 0 <= i < |updates| ==>
              ColumnOfSetter(updates[i]).Some? && values[i] == body.Get(ColumnOfSetter(updates[i]).value)
  {
    updates, values := [], [];
    var i := 0;
    while i < |Columns|
      invariant 0 <= i <= |Columns|
      invariant updates == SetClauses(AssignedAmong(Columns[..i], body))
      invariant values == BoundValues(body, AssignedAmong(Columns[..i], body))
    {
      var c := Columns[i];
      ghost var done := AssignedAmong(Columns[..i], body);
      assert Columns[..i + 1] == Columns[..i] + [c];
      if Truthy(body.Get(c)) {
        updates := updates + [SetterText(c)];
        values := values + [body.Get(c)];
        Snoc(body, done, c);
      }
      i := i + 1;
    }
    assert Columns[..|Columns|] == Columns;
    ghost var cols := Assigned(body);
    values := values + [Str(id)];
    forall i | 0 <= i < |updates|
      ensures ColumnOfSetter(updates[i]).Some? && values[i] == body.Get(ColumnOfSetter(updates[i]).value)
    {
      ColumnOfSetterText(cols[i]);
    }
  }

  lemma Snoc(body: Track, cols: seq<Column>, c: Column)
    ensures SetClauses(cols + [c]) == SetClauses(cols) + [SetterText(c)]
    ensures BoundValues(body, cols + [c]) == BoundValues(body, cols) + [body.Get(c)]
  {
  }

  /** What a partial update makes of a stored track: every column the body
      supplies takes the body's value, every other keeps its own. */
  function Patched(track: Track, body: Track): (r: Track)
    ensures forall c :: r.Get(c) == if Truthy(body.Get(c)) then body.Get(c) else track.Get(c)
  {
    Track(
      if Truthy(body.title) then body.title else track.title,
      if Truthy(body.artist) then body.artist else track.artist,
      if Truthy(body.genre) then body.genre else track.genre,
      if Truthy(body.duration) then body.duration else track.duration,
      if Truthy(body.release_date) then body.release_date else track.release_date,
      if Truthy(body.image_url) then body.image_url else track.image_url)
  }

  /** Unlike create, the update guards check neither the format of the
      release date nor that of the duration: a body that create refuses only
      for its date format passes them. */
  lemma PatchSkipsDateFormat(body: Track, parses: string -> bool)
    requires HasAllFields(body) && IsValidGenre(body.genre)
    requires !IsDateShaped(ToJsString(body.release_date))
    ensures CheckCreate(body, parses) == Reject(InvalidDateFormat)
    ensures CheckPatch(body) == Accept
  {
    HasAllFieldsUnrolled(body);
    AssignedEmptyIffNoField(body);
  }

  /** A body supplying every field replaces the whole track. */
  lemma PatchedByFullBody(track: Track, body: Track)
    requires HasAllFields(body)
    ensures Patched(track, body) == body
  {
    HasAllFieldsUnrolled(body);
  }
}
