# Political compass: adding a person with a language model

This project models the part of the political-compass web application that
adds a person to the compass. A client sends a name. The server:

1. validates the name;
2. refuses a name that is already in the `people` table (compared up to
   ASCII case);
3. asks a language model whether the person is notable enough;
4. asks the model, one question at a time, how the person would answer each
   question of the compass's weighted question table, and adds each
   answer's weighted strike to x or y;
5. clamps both coordinates to [-10, 10] and rounds them to hundredths;
6. asks for an English Wikipedia URL, which is kept only when it has the
   right prefix;
7. inserts the row.

Two routes do this. `ai-add` answers with one JSON response. `ai-add-stream`
reports progress as server-sent events, counting towards a fixed total of 64,
and ends with one error or one success event. Both read the question table
from a CSV file at start-up. Both store people through the SQLite table in
`lib/db.ts`.

Modules, in dependency order:

- `Wrappers`: `Option` and `Result`.
- `Text`: the JavaScript string operations the routes use.
  - `trim` with ECMAScript's whitespace set;
  - `.length` counted in UTF-16 units;
  - `toUpperCase`, as far as it matters for comparing with `"YES"`;
  - `split("\n")`;
  - SQLite's ASCII-only `LOWER`;
  - a `parseFloat` for the numerals the table holds.
- `Questions`: the CSV question table.
  - The row regular expression is modelled as a leftmost scan.
  - `ParseRows` is the `split`/`slice`/`filter`/`map`/`filter` chain.
- `Scoring`: the per-answer arithmetic.
  - the symbol's value and the strike;
  - `Totals`, the specification of the scoring loop;
  - `ScoreQuestions`, the loop itself;
  - `Math.max`/`Math.min` clamping and `Math.round` to hundredths.
- `People`: the `people` table.
  - It is a class `Store` holding the rows and the next AUTOINCREMENT id.
  - Its methods are the functions of `lib/db.ts`.
- `Pipeline`: `Outcome`, the decision both routes take for one request. It
  gives the `Exit` where the request ends and the record that is inserted.
- `AiAdd`: the buffered route's `POST` as a method on the store. It is proved
  to answer `BufferedResponse(Outcome(...))` and to change the table by
  exactly that outcome.
- `AiAddStream`: the streaming route. The stream controller is a class
  `EventStream` holding the events sent so far and a closed flag.
  - `Run` is the body of `start` inside its `try`/`catch`. It is proved to
    send `StreamEvents(Outcome(...))`.
  - `Start` adds the `finally` block's `close()`.

Where the model calls the language model, it takes the replies as
parameters:

- `notability`, `answers[i]` and `urlReply`: `None` where the call threw,
  `Some(text)` with the text returned;
- `insertFails`: the insert statement threw.

Two details of the routes decide edge cases:

- `Math.round` rounds a half towards +infinity: -0.125 becomes -0.12.
- The emptiness test is on the name as sent, before trimming. A name of
  blanks passes it and becomes the empty name (`BlankNameAccepted`).

## Model

| member | source | states |
|---|---|---|
| Text.TrimStart | app/api/people/ai-add/route.ts:48 | the result is a suffix of the input; exactly the removed prefix is ECMAScript whitespace; the result starts with a non-blank |
| Text.TrimEnd | app/api/people/ai-add/route.ts:48 | the result is a prefix of the input; exactly the removed suffix is whitespace; the result ends with a non-blank |
| Text.Trim | app/api/people/ai-add/route.ts:48 | `trim()` gives a middle part of the input with only ECMAScript whitespace before and after it (`BlankAround`); it has no blank at either end, and it is empty exactly when the input is all blanks |
| Text.TrimEndOfTrimStartAround | app/api/people/ai-add/route.ts:48 | trimming the start, then the end, cuts blanks only, from both ends |
| Text.BlankAroundOfParts | app/api/people/ai-add/route.ts:48 | a blank prefix removed, then a blank suffix removed, leaves a middle part with blanks only around it |
| Text.TrimIdempotent | app/api/people/ai-add/route.ts:48 | trimming a trimmed string changes nothing |
| Text.TrimOfTrimmed | app/api/people/ai-add/route.ts:48 | a string with no blank at either end is its own trim |
| Text.TrimEndOfTrimStart | app/api/people/ai-add/route.ts:48 | trimming the end after the start leaves no blank at either end, and the result is empty exactly for all-blank input |
| Text.Utf16Length | app/api/people/ai-add/route.ts:49 | `.length` counts UTF-16 units: between one and two per character |
| Text.AsciiLower | lib/db.ts:55 | SQLite `LOWER` maps exactly the letters A-Z to a-z and keeps every other character |
| Text.AsciiLowerMatchesIgnoringCase | lib/db.ts:55 | `LOWER(a) = LOWER(b)` holds exactly when a and b are equal up to ASCII case |
| Text.TrimOfCaseVariant | app/api/people/ai-add/route.ts:48 | two names equal up to ASCII case still are after trimming |
| Text.TrimStartOfCaseVariant | app/api/people/ai-add/route.ts:48 | the same for the leading blanks |
| Text.TrimEndOfCaseVariant | app/api/people/ai-add/route.ts:48 | the same for the trailing blanks |
| Text.UpperCase | app/api/people/ai-add/route.ts:75 | the restricted `toUpperCase` of this model: a-z and U+017F to capitals, one character for one, every other character kept |
| Text.Split | app/api/people/ai-add/route.ts:16 | `split("\n")` gives at least one piece; no piece holds a line feed; joining the pieces by line feeds gives the input back |
| Text.JoinLinesInjective | app/api/people/ai-add/route.ts:16 | two lists of lines without line feeds that join to the same text are equal |
| Text.SplitJoinLines | app/api/people/ai-add/route.ts:16 | splitting lines joined by line feeds gives the lines back |
| Text.FirstLine | app/api/people/ai-add/route.ts:16 | in joined lines, the first line is followed by a line feed and then the rest |
| Text.NatToString | app/api/people/ai-add-stream/route.ts:111 | the decimal numeral of n: digits only, no leading zero, value n |
| Text.DigitChar | app/api/people/ai-add-stream/route.ts:111 | the digit character for d has value d |
| Text.LeadingDigits | app/api/people/ai-add/route.ts:26 | the longest run of digits at the start |
| Text.LeadingDigitsOfDigits | app/api/people/ai-add/route.ts:26 | a numeral is all leading digits |
| Text.ParseUnsignedOfNumeral | app/api/people/ai-add/route.ts:26 | `parseFloat` of a digit string is its value |
| Text.ParseFloatOfNumeral | app/api/people/ai-add/route.ts:26 | `parseFloat` reads back every numeral `NatToString` writes |
| Text.Pow10 | app/api/people/ai-add/route.ts:26 | powers of ten are positive |
| Text.ParseFloat | app/api/people/ai-add/route.ts:26 | `parseFloat` skips leading whitespace and one sign; it reads nothing (NaN) exactly when no digit, or point and digit, follows |
| Text.ParseUnsigned | app/api/people/ai-add/route.ts:26 | the unsigned numeral at the start: never negative, and none exactly when the text does not start with a digit or a point and a digit |
| Text.FractionValue | app/api/people/ai-add/route.ts:26 | the digits after the point are worth less than one |
| Text.DigitsBelowPow10 | app/api/people/ai-add/route.ts:26 | k digits are worth less than 10^k |
| Text.LeadingDigitsThen | app/api/people/ai-add/route.ts:26 | the digit run stops at the first character that is not a digit |
| Text.ParseFloatOfDigits | app/api/people/ai-add/route.ts:26 | a numeral that starts with a digit is read without sign or blanks |
| Text.ParseUnsignedOfDecimal | app/api/people/ai-add/route.ts:26 | "w.f" reads as the value of w plus the fraction f |
| Text.ParseFloatOfDecimal | app/api/people/ai-add/route.ts:26 | `parseFloat` reads a weight such as "0.5" as its whole part plus its fraction |
| Text.ParseFloatOfNegative | app/api/people/ai-add/route.ts:26 | after a minus, a numeral reads as its negation |
| Questions.QuoteFrom | app/api/people/ai-add/route.ts:20 | `[^"]+` stops at the first quote: no quote before the result, a quote at it |
| Questions.QuotedFields | app/api/people/ai-add/route.ts:20 | a match of `"…","…"` has exactly `count` fields, each non-empty and free of quotes |
| Questions.QuotedFieldsText | app/api/people/ai-add/route.ts:20 | the fields read from a position are the line's own text there, written with `","` between them and a closing quote |
| Questions.MatchAt | app/api/people/ai-add/route.ts:20 | a match at a position has five fields, the first of them digits (`\d+`) |
| Questions.MatchAtSound | app/api/people/ai-add/route.ts:20 | a match's fields can be captured (digits first, none empty or holding a quote) and the line holds them, quoted, at the match |
| Questions.MatchAtComplete | app/api/people/ai-add/route.ts:20 | wherever the line holds five such fields, quoted, the pattern matches there with them |
| Questions.MatchAtExactly | app/api/people/ai-add/route.ts:20 | the pattern matches at a position with given fields exactly when the fields can be captured and the line holds them, quoted, there |
| Questions.FirstMatchFrom | app/api/people/ai-add/route.ts:20-21 | `line.match` searches from a position; any match it finds has five fields with a numeric id |
| Questions.FirstMatchFromLeftmost | app/api/people/ai-add/route.ts:20-21 | the search finds nothing exactly when no position from the start matches; otherwise it finds the match at the least matching position |
| Questions.MatchHere | app/api/people/ai-add/route.ts:20-21 | a match at the position the search starts from is the first one |
| Questions.NoMatchBefore | app/api/people/ai-add/route.ts:20-21 | when nothing matches at a position, the search from there finds what the search from the next one finds |
| Questions.ToQuestion | app/api/people/ai-add/route.ts:22-28 | the question of the five groups: `parseInt` of the id, the text and the axis as captured, `parseFloat` of the weight, the direction |
| Questions.ParseLine | app/api/people/ai-add/route.ts:19-31 | a line gives a question exactly when the pattern matches somewhere in it |
| Questions.Selected | app/api/people/ai-add/route.ts:18-31 | a line adds at most one question, and none exactly when it is blank or the pattern matches nowhere in it |
| Questions.Keep | app/api/people/ai-add/route.ts:18-32 | the lines after the header give at most one question each |
| Questions.ParseRows | app/api/people/ai-add/route.ts:15-38 | the table has fewer questions than the file has lines: the header never gives one |
| Questions.KeepUnmatched | app/api/people/ai-add/route.ts:30-32 | a single line the pattern does not match gives no question |
| Questions.KeepAppend | app/api/people/ai-add/route.ts:15-31 | lines are read independently: the table of `a + b` is that of `a` followed by that of `b` |
| Questions.UnmatchedLineIgnored | app/api/people/ai-add/route.ts:30-32 | a line the regex does not match adds nothing (`return null` then `filter(Boolean)`) |
| Questions.QuoteFromAt | app/api/people/ai-add/route.ts:20 | the scan for a quote stops at the first one |
| Questions.FieldsTextShape | app/api/people/ai-add/route.ts:20 | the written fields text is the first field, then `","` and the rest, or the closing quote |
| Questions.FirstFieldOfText | app/api/people/ai-add/route.ts:20 | in a written row, the scan for the first field stops at its end |
| Questions.RestFieldsOfText | app/api/people/ai-add/route.ts:20 | in a written row, `","` and the remaining fields follow the first field |
| Questions.QuotedFieldsOfText | app/api/people/ai-add/route.ts:20 | the regex reads back the quote-free fields a written row holds |
| Questions.RowLines | app/api/people/ai-add/route.ts:15-17 | one CSV line per row |
| Questions.ToQuestions | app/api/people/ai-add/route.ts:19-28 | one question per row |
| Questions.FieldsTextNoLineFeed | app/api/people/ai-add/route.ts:16 | a row of fields without line feeds is written on one line |
| Questions.RowTextMatches | app/api/people/ai-add/route.ts:20 | the regex matches a written row at its start, with the row's five fields |
| Questions.SelectedAtStart | app/api/people/ai-add/route.ts:18-31 | a line matching at its first character gives exactly that row's question |
| Questions.RowTextSelected | app/api/people/ai-add/route.ts:18-31 | a written row is one line and gives exactly its question |
| Questions.KeepRowLines | app/api/people/ai-add/route.ts:18-32 | the lines of written rows give the rows' questions, in order |
| Questions.ParseRowsRoundTrip | app/api/people/ai-add/route.ts:15-38 | a header line followed by written rows parses back to exactly those rows' questions: the header is skipped and the order is kept |
| Scoring.SymbolValue | app/api/people/ai-add/route.ts:126-134 | "++" is 1, "+" is 2, "--" is 4, and every other reply, "-" included, is 3 |
| Scoring.Strike | app/api/people/ai-add/route.ts:136-153 | the signed strike: the weight, halved for values 2 and 3, negated when the answer goes against the direction; `StrikeMagnitude` states its size and sign |
| Scoring.StrikeMagnitude | app/api/people/ai-add/route.ts:137-153 | the strike is the full weight for values 1 and 4 and half of it for 2 and 3; for a positive weight it is negative exactly when the answer goes against the question's direction |
| Scoring.OppositeAnswersCancel | app/api/people/ai-add/route.ts:137-153 | strongly agree and strongly disagree cancel, and so do agree and disagree |
| Scoring.UnknownDirectionNeverNegates | app/api/people/ai-add/route.ts:145-153 | an `agree` cell that is neither "+" nor "-" never flips the sign |
| Scoring.Contribution | app/api/people/ai-add/route.ts:121-167 | what one question adds to x or y; `ContributionShape` states it |
| Scoring.ContributionShape | app/api/people/ai-add/route.ts:156-167 | one question moves only its own axis ("x", or y for any other text), by at most its weight; a failed call moves nothing |
| Scoring.Contributions | app/api/people/ai-add/route.ts:91 | one contribution per question |
| Scoring.SumSnoc | app/api/people/ai-add/route.ts:157-159 | adding one more point to the running sum |
| Scoring.SumAppend | app/api/people/ai-add/route.ts:91-168 | the sum of two runs is the sum of their sums |
| Scoring.ContributionsAppend | app/api/people/ai-add/route.ts:91 | the contributions of two runs of questions are the two lists in order |
| Scoring.TotalsSnoc | app/api/people/ai-add/route.ts:91-168 | one more question adds its contribution to the totals |
| Scoring.TotalsPrefixStep | app/api/people/ai-add/route.ts:91-168 | the totals after question i are those before it plus its contribution |
| Scoring.Totals | app/api/people/ai-add/route.ts:87-168 | the sum of the contributions in table order, the specification the loop `ScoreQuestions` is proved against; `TotalsBounded` bounds it |
| Scoring.ScoreQuestions | app/api/people/ai-add/route.ts:87-168 | the loop leaves x and y at `Totals`: the sum of every answered question's strike |
| Scoring.TotalsAppend | app/api/people/ai-add/route.ts:91-168 | the totals of two runs of questions add up |
| Scoring.FailedQuestionContributesNothing | app/api/people/ai-add/route.ts:164-167 | a question whose call threw changes neither total |
| Scoring.TotalsBounded | app/api/people/ai-add/route.ts:91-168 | whatever the model answers, the sum of the sizes of the raw totals is at most the table's total weight |
| Scoring.Clamp | app/api/people/ai-add/route.ts:171-172 | the result lies in [-10, 10]; values inside are kept; values above become 10 and below become -10 |
| Scoring.RoundHundredths | app/api/people/ai-add/route.ts:175-176 | `Math.round(v * 100) / 100` as the floor of v * 100 + 1/2, over 100; `RoundHundredthsNearest` and `TiesRoundUp` state its result |
| Scoring.ClampRound | app/api/people/ai-add/route.ts:171-176 | a total as stored: clamped, then rounded; `ClampRoundBounds`, `ClampRoundIdempotent` and `ClampRoundMonotone` state its properties |
| Scoring.RoundHundredthsNearest | app/api/people/ai-add/route.ts:175-176 | `Math.round(v * 100) / 100` has at most two decimals and lies in (v - 0.005, v + 0.005] |
| Scoring.ClampRoundBounds | app/api/people/ai-add/route.ts:171-176 | a stored coordinate lies in [-10, 10], has at most two decimals, and is within half a hundredth of the clamped value |
| Scoring.RoundHundredthsOfHundredths | app/api/people/ai-add/route.ts:175-176 | a value with two decimals is its own rounding |
| Scoring.ClampRoundIdempotent | app/api/people/ai-add/route.ts:171-176 | clamping and rounding twice is the same as once |
| Scoring.ClampRoundMonotone | app/api/people/ai-add/route.ts:171-176 | clamping and rounding keep the order of values |
| Scoring.TiesRoundUp | app/api/people/ai-add/route.ts:175-176 | a value half way between two hundredths is stored as the upper one |
| People.StoredUrl | lib/db.ts:40 | `wikipedia_url \|\| null`: an absent or empty URL is stored as NULL, anything else as it is |
| People.FindById | lib/db.ts:33-36 | the row found has that id; no row is found exactly when no row has it |
| People.FindByIdAt | lib/db.ts:33-36 | with increasing ids, the lookup of a row's id finds that row |
| People.NameCount | lib/db.ts:55-56 | `COUNT(*)` is at most the number of rows |
| People.NameTaken | lib/db.ts:54-58 | `personExists` holds exactly when some row's name equals the name up to ASCII case |
| People.NameCountPositive | lib/db.ts:55-57 | the count is positive exactly when some row's name matches up to ASCII case |
| People.AddedNameTaken | lib/db.ts:38-42 | after a row is appended, its name is taken under every ASCII-case spelling |
| People.WithCoordinates | lib/db.ts:44-47 | `UPDATE` keeps the number of rows and every row's id, name and URL |
| People.UpdateEffect | lib/db.ts:44-47 | after an update the row with that id reads with the new coordinates, and every other id reads as before |
| People.WithoutId | lib/db.ts:49-52 | `DELETE` keeps exactly the rows with another id |
| People.WithoutIdIncreasing | lib/db.ts:49-52 | deleting keeps the ids increasing |
| People.AppendIncreasing | lib/db.ts:10 | a row whose id is larger than every other id can go last |
| People.DeleteEffect | lib/db.ts:49-52 | after a delete the id is gone and every other id reads as before |
| People.Store.constructor | lib/db.ts:8-17 | a new table is empty, and its first id is 1 |
| People.Store.AllPeople | lib/db.ts:28-31 | `getAllPeople` returns the rows with their ids increasing |
| People.Store.GetPerson | lib/db.ts:33-36 | `getPerson` returns the row with that id, or nothing exactly when no row has it |
| People.Store.PersonExists | lib/db.ts:54-58 | `personExists` holds exactly when some row's name equals the name up to ASCII case |
| People.Store.AddPerson | lib/db.ts:38-42 | `addPerson` appends the row with the next AUTOINCREMENT id and the stored URL, and returns that row as read back by its id; the name is taken afterwards; the table stays valid |
| People.Store.UpdatePerson | lib/db.ts:44-47 | `updatePerson` sets the coordinates of the rows with that id; ids are unchanged; the table stays valid |
| People.Store.DeletePerson | lib/db.ts:49-52 | `deletePerson` removes the row with that id; the id is never reused, since the next id stays |
| People.Store.SeedIfEmpty | lib/db.ts:60-64 | an empty table gets Ayn Rand at (8, -8) with her Wikipedia URL; a non-empty table is left alone |
| Pipeline.ValidateName | app/api/people/ai-add/route.ts:44-51 | the name is accepted exactly when it is a non-empty string whose trim is at most 50 UTF-16 units long; the result is the trimmed name; otherwise the error is "Name is required" or "Name must be 50 characters or less", as the source's test decides |
| Pipeline.BlankNameAccepted | app/api/people/ai-add/route.ts:44-51 | a name of 1 to 50 blanks passes validation as the empty name |
| Pipeline.AcceptedNameShape | app/api/people/ai-add/route.ts:48-51 | an accepted name is already trimmed and at most 50 characters long |
| Pipeline.IsNotable | app/api/people/ai-add/route.ts:75 | `text.trim().toUpperCase() === "YES"`; `IsNotableExactly` lists the replies it accepts |
| Pipeline.IsNotableExactly | app/api/people/ai-add/route.ts:75 | the notability reply counts as yes exactly when, trimmed, it is y, e, s in any case, the s possibly U+017F |
| Pipeline.UpperCharIs | app/api/people/ai-add/route.ts:75 | the characters `toUpperCase` maps to a given capital letter |
| Pipeline.AcceptUrl | app/api/people/ai-add/route.ts:195-196 | the URL is kept exactly when the trimmed reply starts with `https://en.wikipedia.org/wiki/`, and it is kept trimmed and non-empty |
| Pipeline.AcceptedUrlStored | app/api/people/ai-add/route.ts:203 | an accepted URL is stored as it is, never as NULL |
| Pipeline.Outcome | app/api/people/ai-add/route.ts:40-56 | where a request ends: an unreadable body, an invalid name, then the duplicate check; `InsertedRecordShape`, `EarlyExitsIgnoreTheModel` and `SecondRequestIsDuplicate` state its properties |
| Pipeline.Checked | app/api/people/ai-add/route.ts:53-56 | the request ends as a duplicate exactly when the name is taken, before any model call; it never ends as an unreadable body or an invalid name |
| Pipeline.Vetted | app/api/people/ai-add/route.ts:58-81 | the request ends at the notability call exactly when that call threw, and as not notable exactly when the reply is not a yes; it is never an earlier exit |
| Pipeline.Scored | app/api/people/ai-add/route.ts:87-211 | once the person is found notable, the request ends at the URL call, at the insert, or with the insertion |
| Pipeline.Saved | app/api/people/ai-add/route.ts:171-211 | after scoring, the request ends at the URL call, at the insert, or with the insertion |
| Pipeline.InsertedRecordShape | app/api/people/ai-add/route.ts:44-211 | every inserted record is for a valid, new name and a notable person; its coordinates are the clamped and rounded totals, in [-10, 10] with two decimals; a URL is present only with the Wikipedia prefix |
| Pipeline.AnswersOnlyMoveThePoint | app/api/people/ai-add/route.ts:91-168 | other answers end the request the same way, and change an inserted record's coordinates only |
| Pipeline.Filed | app/api/people/ai-add/route.ts:178-211 | once the point is fixed, the request ends at the URL call, at the insert, or with an insertion whose record has exactly the trimmed name and the given coordinates |
| Pipeline.SavedOnlyMovesThePoint | app/api/people/ai-add/route.ts:171-211 | from any two totals the steps after scoring end the same way, and inserted records differ in their coordinates only |
| Pipeline.EarlyExitsIgnoreTheModel | app/api/people/ai-add/route.ts:42-56 | a request refused before the notability call ends the same way whatever the model would reply |
| Pipeline.SecondRequestIsDuplicate | app/api/people/ai-add/route.ts:54-56 | once a person is inserted, a request for any valid name whose trimmed form equals the inserted name up to ASCII case ends as a duplicate |
| AiAdd.BufferedResponse | app/api/people/ai-add/route.ts:44-218 | status 200 exactly for an insertion, with the row's name, coordinates and URL; 400 exactly for invalid names, duplicates and people who are not notable, with the validation message, "This person already exists in the database" and the not-notable message respectively; 500 with the generic message exactly when the body, a model call or the insert threw |
| AiAdd.Post | app/api/people/ai-add/route.ts:40-219 | the handler answers `BufferedResponse` of the request's outcome, and the table gains exactly the inserted row with the next id, or nothing |
| AiAdd.PostValidName | app/api/people/ai-add/route.ts:53-211 | the same after the name has been validated |
| AiAdd.PostScored | app/api/people/ai-add/route.ts:170-211 | the same from the raw totals on: clamping, rounding, the URL and the insert |
| AiAdd.PostTwice | app/api/people/ai-add/route.ts:54-56 | posting the same name again after a successful post is answered 400 "This person already exists in the database"; the table then holds exactly one new row, with the next id and the trimmed name, and the next id has moved on by one |
| AiAddStream.QuestionEvent | app/api/people/ai-add-stream/route.ts:111 | the event before question i of n: current i + 2 of 64, "Processing question i + 1 of n" |
| AiAddStream.StreamEvents | app/api/people/ai-add-stream/route.ts:45-238 | the events each outcome sends, from "Checking if person exists..." to the one error or success event; `Run`, `OneTerminalEventLast` and `SameVerdictAsBuffered` state its properties |
| AiAddStream.ScoredTail | app/api/people/ai-add-stream/route.ts:189-235 | after the questions: "Fetching Wikipedia URL...", then the URL error, or "Saving to database..." and the insert's error or the success event |
| AiAddStream.QuestionsUpTo | app/api/people/ai-add-stream/route.ts:107-111 | one progress event per question so far: the event at position i announces question i + 1 with current i + 2 |
| AiAddStream.EventStream.constructor | app/api/people/ai-add-stream/route.ts:43-44 | a new stream is open and empty |
| AiAddStream.EventStream.Enqueue | app/api/people/ai-add-stream/route.ts:49 | `controller.enqueue` appends one event to an open stream |
| AiAddStream.EventStream.Close | app/api/people/ai-add-stream/route.ts:237 | `controller.close` closes the stream; on a closed stream it throws and changes nothing |
| AiAddStream.ScoredStreamEvents | app/api/people/ai-add-stream/route.ts:62-231 | the events of a scored run are "Checking", "Verifying", the question events, then the tail |
| AiAddStream.VettingStreamEvents | app/api/people/ai-add-stream/route.ts:72-97 | the events of a run refused at notability end with its error event |
| AiAddStream.ScoreWithProgress | app/api/people/ai-add-stream/route.ts:103-186 | the loop sends one progress event per question, in order, and leaves x and y at `Totals` |
| AiAddStream.ScoreAndSave | app/api/people/ai-add-stream/route.ts:103-231 | from the notability check on, the stream gets exactly the events `StreamEvents` lists; it is not closed; the table gains exactly the inserted row |
| AiAddStream.Save | app/api/people/ai-add-stream/route.ts:189-231 | after the loop: "Fetching Wikipedia URL...", then the URL failure, or the insert events; the table changes as the outcome says |
| AiAddStream.FetchAndInsert | app/api/people/ai-add-stream/route.ts:200-231 | after "Fetching Wikipedia URL...", the stream gets exactly the tail of `Filed`'s outcome, stays open, and the table gains exactly the inserted row |
| AiAddStream.Insert | app/api/people/ai-add-stream/route.ts:220-231 | "Saving to database...", then either the generic error with the table unchanged, or the row with the next id appended and its success event |
| AiAddStream.Run | app/api/people/ai-add-stream/route.ts:45-236 | the body sends exactly `StreamEvents` of the request's outcome; it closes the stream itself exactly on the early exits (invalid name, duplicate, not notable); the table changes exactly as in the buffered route |
| AiAddStream.CheckAndScore | app/api/people/ai-add-stream/route.ts:62-231 | the same after the name has been validated |
| AiAddStream.VerifyAndScore | app/api/people/ai-add-stream/route.ts:72-231 | the same after "Checking if person exists..." for a new name |
| AiAddStream.Start | app/api/people/ai-add-stream/route.ts:44-239 | as written, `start` enqueues `StreamEvents` and ends closed, but it rejects exactly on the early exits, because `finally` closes a second time; the table and the next id change as in the buffered route |
| AiAddStream.StartClosingOnce | app/api/people/ai-add-stream/route.ts:44-239 | with the early exits leaving the closing to `finally`, every run enqueues the same events, ends closed, and never rejects; the table and the next id change as in the buffered route |
| AiAddStream.EmptyNameClosesEarly | app/api/people/ai-add-stream/route.ts:48-51 | an empty name is an early exit, so the route as written closes twice |
| AiAddStream.OneTerminalEventLast | app/api/people/ai-add-stream/route.ts:45-238 | every run ends with exactly one error or success event, and every event before it is progress; it is a success exactly on insertion |
| AiAddStream.SameVerdictAsBuffered | app/api/people/ai-add-stream/route.ts:45-238 | the last event carries the same error message or the same person as the buffered route's response |
| AiAddStream.Counting | app/api/people/ai-add-stream/route.ts:111 | the question counters 2, 3, ..., k + 1, one per question |
| AiAddStream.Currents | app/api/people/ai-add-stream/route.ts:62 | the progress counters of a run, at most one per event |
| AiAddStream.CurrentsAppend | app/api/people/ai-add-stream/route.ts:62 | the counters of two runs of events follow each other |
| AiAddStream.QuestionCurrents | app/api/people/ai-add-stream/route.ts:111 | the question events count 2, 3, ..., n + 1 |
| AiAddStream.ScoredRunCurrents | app/api/people/ai-add-stream/route.ts:62-220 | a scored run counts 0, 1, 2 .. n + 1, 63, then 64 when it gets as far as saving |
| AiAddStream.FrontCurrents | app/api/people/ai-add-stream/route.ts:62-111 | before the tail, a scored run counts 0, 1, then 2 .. n + 1 |
| AiAddStream.TailCurrents | app/api/people/ai-add-stream/route.ts:189-220 | the tail counts 63, then 64 when it gets as far as saving |
| AiAddStream.ProgressIncreasingExactly | app/api/people/ai-add-stream/route.ts:62-220 | the progress counters strictly increase exactly when the table has at most 61 questions |
| AiAddStream.ProgressWithinTotalExactly | app/api/people/ai-add-stream/route.ts:62-220 | no counter exceeds the announced total of 64 exactly when the table has at most 63 questions |

## Left out

- The language model, the CSV file and the SQLite file are not called. Each
  model reply, the result of the insert and the table's contents are
  parameters or state. The prompts, the model name, the temperature and the
  token limits are not modelled, and neither is the `console` logging.
- The `created_at` column comes from the database clock and is not modelled.
- JSON and server-sent-event serialization, and the `TextEncoder`, are not
  modelled. Events are values. The stream route interpolates the name into
  its success event without escaping it; that is not modelled.
- Coordinates are exact reals, not IEEE doubles, and `Math.round` is
  `floor(v + 1/2)` on reals. Rounding errors of `x * 100` and of the running
  sums are not captured.
- Text.ParseFloat: reads an optional sign, digits and an optional fraction.
  It does not model exponents or `Infinity`.
- Questions: a weight `parseFloat` cannot read is taken as 0. In the source
  it is `NaN`, which would make that axis's total `NaN`. `NaN` passes through
  `Math.min`, `Math.max` and `Math.round` into the `x REAL NOT NULL` or
  `y REAL NOT NULL` column, which most likely makes the insert fail and the
  route answer 500. On such a table the model answers 200 with a point, so
  its outcome differs there.
- Strings are sequences of Unicode scalar values. A JSON name holding a
  lone surrogate (`"\ud800"`) cannot be represented, and neither can its
  handling on the way into SQLite, where it becomes U+FFFD before `LOWER`
  compares names.
- What reaches the client after `start` rejects is not modelled. Under the
  Streams standard a rejected `start` errors the stream and drops the events
  still queued; the model records the events enqueued.
- Text.UpperCase: maps only a-z and U+017F, the characters that can make a
  reply equal to "YES". Other characters are kept, not upper-cased.
- Questions: the id is the value of its digits, as `parseInt` reads `\d+`.
  The precision limit of ids beyond 2^53 is not modelled.
- Questions.QuotedFields: its own contract gives the number and the shape
  of the fields it reads. Where they lie in the line is stated apart, by
  `QuotedFieldsText`.
- People.Store.AllPeople: `SELECT *` without `ORDER BY` is taken to return
  rows in id order.
- People.Store: AUTOINCREMENT's upper limit and every database error other
  than a failing insert are not modelled.
- AiAddStream.EventStream.Enqueue: requires an open stream, since the route
  never enqueues after closing. A `TypeError` from enqueueing on a closed
  stream is not modelled.
- Each request is modelled as one atomic step on the table. In the source,
  `personExists` (app/api/people/ai-add/route.ts:54-56) and `addPerson`
  (199-204) are separated by awaited model calls. The table has no UNIQUE
  constraint on `name` (lib/db.ts:9-16). So two concurrent requests for the
  same name can both pass the check and both insert. `SecondRequestIsDuplicate`
  and `PostTwice` hold for requests that run one after the other.
- A client that cancels the stream is not modelled.
- The `Response` headers of the stream and the request object's other
  fields are not modelled.

## Findings

| source | as written | input that shows it | evidently intended | confidence | as-written member | corrected member |
|---|---|---|---|---|---|---|
| app/api/people/ai-add-stream/route.ts:48-59, 65-69, 93-97, 236-238 | the early exits call `controller.close()` and return; `finally` then calls `controller.close()` again on the closed stream, which throws a `TypeError`, so `start` rejects | a request with the name `""` (`EmptyNameClosesEarly`) | close the stream once, in `finally` | medium, not executed | AiAddStream.Start | AiAddStream.StartClosingOnce |
