/** The decisions both add-a-person routes take, in the order they take
    them: read the body, check the name, look it up, ask the model whether
    the person is notable, score the questions, ask for a Wikipedia URL,
    insert the row. The replies of the language model are inputs: `None`
    where the call threw, `Some(text)` with the text it returned. */
module Pipeline {
  import opened Wrappers
  import opened Text
  import opened Questions
  import opened Scoring
  import opened People

  const NameRequired := "Name is required"
  const NameTooLong := "Name must be 50 characters or less"
  const AlreadyExists := "This person already exists in the database"
  const NotNotableEnough := "This person is not well-known enough to be added to the political compass. Only notable people with sufficient documentation can be added."
  const GenericError := "An error occurred while processing your request"
  const WikipediaPrefix := "https://en.wikipedia.org/wiki/"
  const MaxNameLength := 50

  /** The request as `const { name } = await request.json()` sees it: a body
      that is not JSON (or is `null`) throws; otherwise `name` is a string or
      it is not (absent, or another JSON type: `None`). */
  datatype Request = Unreadable | Body(name: Option<string>)

  /** `!name || typeof name !== "string"`, then the trimmed name's `.length`.
      The emptiness test is on the name as sent, the length test on the
      trimmed name. */
  function ValidateName(name: Option<string>): (r: Result<string>)
    ensures r.Ok? <==> name.Some? && name.value != "" && Utf16Length(Trim(name.value)) <= MaxNameLength
    ensures r.Ok? ==> r.value == Trim(name.value)
    ensures r.Err? ==> r.message == if name.None? || name.value == "" then NameRequired else NameTooLong
  {
    match name
    case None => Err(NameRequired)
    case Some(n) =>
      if n == "" then Err(NameRequired)
      else
        var trimmed := Trim(n);
        if Utf16Length(trimmed) > MaxNameLength then Err(NameTooLong) else Ok(trimmed)
  }

  /** A name of blanks is not refused: it passes as the empty name. */
  lemma BlankNameAccepted(n: string)
    requires n != [] && |n| <= MaxNameLength
    requires forall k :: 0 <= k < |n| ==> IsJsWhitespace(n[k])
    ensures ValidateName(Some(n)) == Ok("")
  {
  }

  /** Every accepted name is trimmed and at most 50 UTF-16 units long, so at
      most 50 characters. */
  lemma AcceptedNameShape(name: Option<string>)
    requires ValidateName(name).Ok?
    ensures var t := ValidateName(name).value;
      Trim(t) == t && |t| <= MaxNameLength
  {
    TrimIdempotent(name.value);
  }

  /** `text.trim().toUpperCase() === "YES"`. */
  predicate IsNotable(reply: string) {
    UpperCase(Trim(reply)) == "YES"
  }

  /** The replies read as a yes: after trimming, three characters spelling
      y-e-s in any case, the 's' possibly the long s. */
  lemma IsNotableExactly(reply: string)
    ensures IsNotable(reply) <==>
      var t := Trim(reply);
      |t| == 3 && (t[0] == 'y' || t[0] == 'Y') && (t[1] == 'e' || t[1] == 'E')
      && (t[2] == 's' || t[2] == 'S' || t[2] as int == 0x17F)
  {
    var t := Trim(reply);
    var u := UpperCase(t);
    if |t| == 3 {
      assert u == [UpperChar(t[0]), UpperChar(t[1]), UpperChar(t[2])];
      UpperCharIs(t[0], 'Y');
      UpperCharIs(t[1], 'E');
      UpperCharIs(t[2], 'S');
    }
  }

  /** The characters `toUpperCase` maps to a given capital letter. */
  lemma UpperCharIs(c: char, capital: char)
    requires 'A' <= capital <= 'Z'
    ensures UpperChar(c) == capital <==>
      c == capital || c as int == capital as int + 32 || (capital == 'S' && c as int == 0x17F)
  {
  }

  /** `startsWith("https://en.wikipedia.org/wiki/")` on the trimmed reply:
      the URL is kept when it has that prefix and dropped otherwise. */
  function AcceptUrl(reply: string): (r: Option<string>)
    ensures r.Some? <==> StartsWith(Trim(reply), WikipediaPrefix)
    ensures r.Some? ==> r.value == Trim(reply) && r.value != ""
  {
    var url := Trim(reply);
    if StartsWith(url, WikipediaPrefix) then Some(url) else None
  }

  /** The table stores an accepted URL as it is. */
  lemma AcceptedUrlStored(reply: string)
    ensures StoredUrl(AcceptUrl(reply)) == AcceptUrl(reply)
  {
  }

  /** What is inserted: the trimmed name, the finished coordinates and the
      accepted URL. */
  datatype Record = Record(name: string, x: real, y: real, wikipediaUrl: Option<string>)

  /** Where a request ends. */
  datatype Exit =
    | BodyUnreadable          // `request.json()` threw
    | InvalidName(message: string)
    | Duplicate
    | NotabilityThrew
    | NotNotable
    | UrlThrew
    | InsertThrew
    | Inserted(record: Record)

  /** The outcome of one request against a table holding `rows`, with
      `answers[i]` the reply for `questions[i]`. */
  function Outcome(rows: seq<Person>, questions: seq<Question>, request: Request,
                   notability: Option<string>, answers: seq<Option<string>>,
                   urlReply: Option<string>, insertFails: bool): Exit
    requires |answers| == |questions|
  {
    match request
    case Unreadable => BodyUnreadable
    case Body(name) =>
      match ValidateName(name)
      case Err(message) => InvalidName(message)
      case Ok(trimmed) => Checked(rows, questions, trimmed, notability, answers, urlReply, insertFails)
  }

  /** The rest of a request once the name is valid: the duplicate check,
      then the rest. */
  function Checked(rows: seq<Person>, questions: seq<Question>, trimmed: string,
                   notability: Option<string>, answers: seq<Option<string>>,
                   urlReply: Option<string>, insertFails: bool): (e: Exit)
    requires |answers| == |questions|
    ensures e == Duplicate <==> NameTaken(rows, trimmed)
    ensures e != BodyUnreadable && !e.InvalidName?
  {
    if NameTaken(rows, trimmed) then Duplicate
    else Vetted(questions, trimmed, notability, answers, urlReply, insertFails)
  }

  /** The request of a new name: the notability check, then scoring. */
  function Vetted(questions: seq<Question>, trimmed: string,
                  notability: Option<string>, answers: seq<Option<string>>,
                  urlReply: Option<string>, insertFails: bool): (e: Exit)
    requires |answers| == |questions|
    ensures e.NotabilityThrew? <==> notability.None?
    ensures e.NotNotable? <==> notability.Some? && !IsNotable(notability.value)
    ensures e != BodyUnreadable && !e.InvalidName? && e != Duplicate
  {
    match notability
    case None => NotabilityThrew
    case Some(reply) =>
      if !IsNotable(reply) then NotNotable
      else Scored(questions, answers, trimmed, urlReply, insertFails)
  }

  /** The end of a request for a notable person: score, ask for the URL,
      insert. */
  function Scored(questions: seq<Question>, answers: seq<Option<string>>, trimmed: string,
                  urlReply: Option<string>, insertFails: bool): (e: Exit)
    requires |answers| == |questions|
    ensures e.UrlThrew? || e.InsertThrew? || e.Inserted?
  {
    Saved(trimmed, Totals(questions, answers), urlReply, insertFails)
  }

  /** The steps after scoring, from the raw totals `p`: ask for the URL,
      insert the finished coordinates. */
  function Saved(trimmed: string, p: Point, urlReply: Option<string>, insertFails: bool): (e: Exit)
    ensures e.UrlThrew? || e.InsertThrew? || e.Inserted?
  {
    Filed(trimmed, ClampRound(p.x), ClampRound(p.y), urlReply, insertFails)
  }

  /** The steps once the coordinates `x` and `y` are finished: ask for the
      URL, insert. */
  function Filed(trimmed: string, x: real, y: real, urlReply: Option<string>, insertFails: bool): (e: Exit)
    ensures e.UrlThrew? || e.InsertThrew? || e.Inserted?
    ensures e.Inserted? ==> e.record.name == trimmed && e.record.x == x && e.record.y == y
  {
    match urlReply
    case None => UrlThrew
    case Some(u) =>
      if insertFails then InsertThrew
      else Inserted(Record(trimmed, x, y, AcceptUrl(u)))
  }

  /** Everything that is inserted satisfies the table's and the compass's
      rules: a new, trimmed, short name, coordinates in [-10, 10] with at
      most two decimals, and a URL only with the Wikipedia prefix. */
  lemma InsertedRecordShape(rows: seq<Person>, questions: seq<Question>, request: Request,
                            notability: Option<string>, answers: seq<Option<string>>,
                            urlReply: Option<string>, insertFails: bool)
    requires |answers| == |questions|
    requires Outcome(rows, questions, request, notability, answers, urlReply, insertFails).Inserted?
    ensures var r := Outcome(rows, questions, request, notability, answers, urlReply, insertFails).record;
      && request.Body? && ValidateName(request.name) == Ok(r.name)
      && !NameTaken(rows, r.name)
      && notability.Some? && IsNotable(notability.value)
      && -10.0 <= r.x <= 10.0 && -10.0 <= r.y <= 10.0 && IsHundredths(r.x) && IsHundredths(r.y)
      && r.x == ClampRound(Totals(questions, answers).x) && r.y == ClampRound(Totals(questions, answers).y)
      && (r.wikipediaUrl.Some? ==> StartsWith(r.wikipediaUrl.value, WikipediaPrefix))
      && !insertFails
  {
    ClampRoundBounds(Totals(questions, answers).x);
    ClampRoundBounds(Totals(questions, answers).y);
  }

  /** The answers only move the point: with other answers a request ends the
      same way, and an inserted record differs in its coordinates only. */
  lemma AnswersOnlyMoveThePoint(rows: seq<Person>, questions: seq<Question>, request: Request,
                                notability: Option<string>, answers: seq<Option<string>>,
                                others: seq<Option<string>>, urlReply: Option<string>, insertFails: bool)
    requires |answers| == |questions| && |others| == |questions|
    ensures var e := Outcome(rows, questions, request, notability, answers, urlReply, insertFails);
      var f := Outcome(rows, questions, request, notability, others, urlReply, insertFails);
      if e.Inserted? then f.Inserted? && f.record.name == e.record.name
        && f.record.wikipediaUrl == e.record.wikipediaUrl
      else f == e
  {
    if request.Body? && ValidateName(request.name).Ok? {
      var trimmed := ValidateName(request.name).value;
      if !NameTaken(rows, trimmed) && notability.Some? && IsNotable(notability.value) {
        SavedOnlyMovesThePoint(trimmed, Totals(questions, answers), Totals(questions, others),
                               urlReply, insertFails);
      }
    }
  }

  /** The steps after scoring end the same way from any totals, and an
      inserted record differs in its coordinates only. */
  lemma SavedOnlyMovesThePoint(trimmed: string, p: Point, q: Point, urlReply: Option<string>, insertFails: bool)
    ensures var e, f := Saved(trimmed, p, urlReply, insertFails), Saved(trimmed, q, urlReply, insertFails);
      if e.Inserted? then f.Inserted? && f.record.name == e.record.name
        && f.record.wikipediaUrl == e.record.wikipediaUrl
      else f == e
  {
  }

  /** A request that fails validation or names a person already in the table
      never reaches the model: its outcome is the same whatever the model
      would have replied. */
  lemma EarlyExitsIgnoreTheModel(rows: seq<Person>, questions: seq<Question>, request: Request,
                                 notability: Option<string>, answers: seq<Option<string>>,
                                 urlReply: Option<string>, insertFails: bool,
                                 notability': Option<string>, answers': seq<Option<string>>,
                                 urlReply': Option<string>, insertFails': bool)
    requires |answers| == |questions| && |answers'| == |questions|
    requires Outcome(rows, questions, request, notability, answers, urlReply, insertFails) in
      {BodyUnreadable, Duplicate} || Outcome(rows, questions, request, notability, answers, urlReply, insertFails).InvalidName?
    ensures Outcome(rows, questions, request, notability', answers', urlReply', insertFails')
      == Outcome(rows, questions, request, notability, answers, urlReply, insertFails)
  {
    match request
    case Unreadable =>
    case Body(name) =>
      match ValidateName(name)
      case Err(_) =>
      case Ok(trimmed) =>
        assert NameTaken(rows, trimmed);
  }

  /** The row the table gets for an inserted record. */
  function RowFor(id: nat, r: Record): Person {
    Person(id, r.name, r.x, r.y, StoredUrl(r.wikipediaUrl))
  }

  /** The table after a request: one row more, with the next id, exactly
      when the request ends in an insertion. */
  function RowsAfter(rows: seq<Person>, nextId: nat, e: Exit): seq<Person> {
    if e.Inserted? then rows + [RowFor(nextId, e.record)] else rows
  }

  /** Once a person is in, asking again under any name whose trimmed form
      equals the stored one up to ASCII case ends as a duplicate, whatever the model
      would say. */
  lemma SecondRequestIsDuplicate(rows: seq<Person>, questions: seq<Question>, request: Request,
                                 notability: Option<string>, answers: seq<Option<string>>,
                                 urlReply: Option<string>, insertFails: bool, id: nat,
                                 again: string, notability': Option<string>, answers': seq<Option<string>>,
                                 urlReply': Option<string>, insertFails': bool)
    requires |answers| == |questions| && |answers'| == |questions|
    requires Outcome(rows, questions, request, notability, answers, urlReply, insertFails).Inserted?
    requires ValidateName(Some(again)).Ok?
    requires EqualIgnoringAsciiCase(Trim(request.name.value), Trim(again))
    ensures var rows' := rows + [RowFor(id, Outcome(rows, questions, request, notability, answers, urlReply, insertFails).record)];
      Outcome(rows', questions, Body(Some(again)), notability', answers', urlReply', insertFails') == Duplicate
  {
    var r := Outcome(rows, questions, request, notability, answers, urlReply, insertFails).record;
    var row := RowFor(id, r);
    var t' := Trim(again);
    InsertedRecordShape(rows, questions, request, notability, answers, urlReply, insertFails);
    AddedNameTaken(rows, row, t');
    assert ValidateName(Some(again)) == Ok(t');
    assert Checked(rows + [row], questions, t', notability', answers', urlReply', insertFails') == Duplicate;
  }
}
