/** The buffered route: it runs the whole pipeline and answers once, with a
    JSON body and a status code. */
module AiAdd {
  import opened Wrappers
  import opened Text
  import opened Questions
  import opened Scoring
  import opened People
  import opened Pipeline

  /** The JSON bodies the route sends: `{ error }` or the stored person. */
  datatype Body =
    | ErrorBody(error: string)
    | PersonBody(name: string, x: real, y: real, wikipediaUrl: Option<string>)

  datatype Response = Response(status: nat, body: Body)

  /** The answer for each outcome: 400 for what the client can fix or the
      model refused, 500 for anything that threw, 200 with the stored row. */
  function BufferedResponse(e: Exit): (r: Response)
    ensures r.status == 200 <==> e.Inserted?
    ensures r.status == 400 <==> e.InvalidName? || e.Duplicate? || e.NotNotable?
    ensures r.status == 500 <==> e.BodyUnreadable? || e.NotabilityThrew? || e.UrlThrew? || e.InsertThrew?
    ensures r.body.ErrorBody? <==> r.status != 200
    ensures r.status == 500 ==> r.body == ErrorBody(GenericError)
    ensures e.InvalidName? ==> r.body == ErrorBody(e.message)
    ensures e.Duplicate? ==> r.body == ErrorBody(AlreadyExists)
    ensures e.NotNotable? ==> r.body == ErrorBody(NotNotableEnough)
    ensures e.Inserted? ==>
      r.body == PersonBody(e.record.name, e.record.x, e.record.y, e.record.wikipediaUrl)
  {
    match e
    case BodyUnreadable => Response(500, ErrorBody(GenericError))
    case InvalidName(message) => Response(400, ErrorBody(message))
    case Duplicate => Response(400, ErrorBody(AlreadyExists))
    case NotabilityThrew => Response(500, ErrorBody(GenericError))
    case NotNotable => Response(400, ErrorBody(NotNotableEnough))
    case UrlThrew => Response(500, ErrorBody(GenericError))
    case InsertThrew => Response(500, ErrorBody(GenericError))
    case Inserted(r) => Response(200, PersonBody(r.name, r.x, r.y, r.wikipediaUrl))
  }

  /** `POST`: the steps in the order the route takes them, returning as soon
      as one of them fails. */
  method Post(store: Store, questions: seq<Question>, request: Request,
              notability: Option<string>, answers: seq<Option<string>>,
              urlReply: Option<string>, insertFails: bool) returns (response: Response)
    requires store.Valid() && |answers| == |questions|
    modifies store
    ensures store.Valid()
    ensures var e := Outcome(old(store.rows), questions, request, notability, answers, urlReply, insertFails);
      && response == BufferedResponse(e)
      && store.rows == RowsAfter(old(store.rows), old(store.nextId), e)
      && store.nextId == old(store.nextId) + (if e.Inserted? then 1 else 0)
  {
    ghost var e := Outcome(store.rows, questions, request, notability, answers, urlReply, insertFails);
    if request.Unreadable? {
      return Response(500, ErrorBody(GenericError));
    }
    var name := request.name;
    if name.None? || name.value == "" {
      assert e == InvalidName(NameRequired);
      return Response(400, ErrorBody(NameRequired));
    }
    var trimmedName := Trim(name.value);
    if Utf16Length(trimmedName) > MaxNameLength {
      assert e == InvalidName(NameTooLong);
      return Response(400, ErrorBody(NameTooLong));
    }
    assert ValidateName(name) == Ok(trimmedName);
    assert e == Checked(store.rows, questions, trimmedName, notability, answers, urlReply, insertFails);
    response := PostValidName(store, questions, trimmedName, notability, answers, urlReply, insertFails);
  }

  /** The steps after the name has been validated: the duplicate check, the
      notability check, then the rest. */
  method PostValidName(store: Store, questions: seq<Question>, trimmedName: string,
                       notability: Option<string>, answers: seq<Option<string>>,
                       urlReply: Option<string>, insertFails: bool) returns (response: Response)
    requires store.Valid() && |answers| == |questions|
    modifies store
    ensures store.Valid()
    ensures var e := Checked(old(store.rows), questions, trimmedName, notability, answers, urlReply, insertFails);
      && response == BufferedResponse(e)
      && store.rows == RowsAfter(old(store.rows), old(store.nextId), e)
      && store.nextId == old(store.nextId) + (if e.Inserted? then 1 else 0)
  {
    ghost var e := Checked(store.rows, questions, trimmedName, notability, answers, urlReply, insertFails);
    if store.PersonExists(trimmedName) {
      assert e == Duplicate;
      return Response(400, ErrorBody(AlreadyExists));
    }
    if notability.None? {
      assert e == NotabilityThrew;
      return Response(500, ErrorBody(GenericError));
    }
    if !IsNotable(notability.value) {
      assert e == NotNotable;
      return Response(400, ErrorBody(NotNotableEnough));
    }
    var x, y := ScoreQuestions(questions, answers);
    assert e == Saved(trimmedName, Point(x, y), urlReply, insertFails);
    response := PostScored(store, trimmedName, x, y, urlReply, insertFails);
  }

  /** The steps after the questions, from the raw totals `sumX` and `sumY`:
      clamp and round, ask for the URL, insert. */
  method PostScored(store: Store, trimmedName: string, sumX: real, sumY: real,
                    urlReply: Option<string>, insertFails: bool) returns (response: Response)
    requires store.Valid()
    modifies store
    ensures store.Valid()
    ensures var e := Saved(trimmedName, Point(sumX, sumY), urlReply, insertFails);
      && response == BufferedResponse(e)
      && store.rows == RowsAfter(old(store.rows), old(store.nextId), e)
      && store.nextId == old(store.nextId) + (if e.Inserted? then 1 else 0)
  {
    var x, y := Clamp(sumX), Clamp(sumY);
    x, y := RoundHundredths(x), RoundHundredths(y);
    if urlReply.None? {
      return Response(500, ErrorBody(GenericError));
    }
    var wikipediaUrl := Trim(urlReply.value);
    var isValidUrl := StartsWith(wikipediaUrl, WikipediaPrefix);
    if insertFails {
      return Response(500, ErrorBody(GenericError));
    }
    ghost var record := Record(trimmedName, x, y, AcceptUrl(urlReply.value));
    assert Saved(trimmedName, Point(sumX, sumY), urlReply, insertFails) == Inserted(record);
    AcceptedUrlStored(urlReply.value);
    var newPerson := store.AddPerson(trimmedName, x, y, if isValidUrl then Some(wikipediaUrl) else None);
    assert newPerson == RowFor(old(store.nextId), record);
    response := Response(200, PersonBody(newPerson.name, newPerson.x, newPerson.y, newPerson.wikipediaUrl));
  }

  /** Two identical requests in a row: when the first one adds the person,
      the second is refused as a duplicate, whatever the model replies. */
  method PostTwice(store: Store, questions: seq<Question>, name: string,
                   notability: Option<string>, answers: seq<Option<string>>,
                   urlReply: Option<string>, insertFails: bool,
                   notability': Option<string>, answers': seq<Option<string>>,
                   urlReply': Option<string>, insertFails': bool)
    returns (first: Response, second: Response)
    requires store.Valid() && |answers| == |questions| && |answers'| == |questions|
    modifies store
    ensures first.status == 200 ==> second == Response(400, ErrorBody(AlreadyExists))
    ensures first.status == 200 ==>
      && |store.rows| == |old(store.rows)| + 1 && store.rows[..|old(store.rows)|] == old(store.rows)
      && store.rows[|old(store.rows)|].id == old(store.nextId) && store.rows[|old(store.rows)|].name == Trim(name)
      && store.nextId == old(store.nextId) + 1
  {
    ghost var rows, id := store.rows, store.nextId;
    ghost var e := Outcome(rows, questions, Body(Some(name)), notability, answers, urlReply, insertFails);
    first := Post(store, questions, Body(Some(name)), notability, answers, urlReply, insertFails);
    ghost var rows', id' := store.rows, store.nextId;
    if first.status == 200 {
      assert e.Inserted? && rows' == rows + [RowFor(id, e.record)] && id' == id + 1;
      InsertedRecordShape(rows, questions, Body(Some(name)), notability, answers, urlReply, insertFails);
      assert rows'[|rows|] == RowFor(id, e.record) && e.record.name == Trim(name);
      assert EqualIgnoringAsciiCase(Trim(name), Trim(name));
      SecondRequestIsDuplicate(rows, questions, Body(Some(name)), notability, answers, urlReply, insertFails,
                               id, name, notability', answers', urlReply', insertFails');
    }
    second := Post(store, questions, Body(Some(name)), notability', answers', urlReply', insertFails');
    if first.status == 200 {
      assert store.rows == rows' && store.nextId == id';
    }
  }
}
