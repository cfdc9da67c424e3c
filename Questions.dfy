/** The question table both routes load at start-up: the CSV text is cut
    into lines, the header line is dropped, blank lines are skipped, and a
    line becomes a question when it contains five double-quoted fields
    separated by `","` whose first field is all digits (the pattern
    `"(\d+)","([^"]+)","([^"]+)","([^"]+)","([^"]+)"`, searched anywhere in
    the line). Lines that do not match are dropped without a word. */
module Questions {
  import opened Wrappers
  import opened Text

  /** One weighted question: `axis` is "x" or "y" and `agree` is "+" or "-"
      in a well-formed table, but any text the pattern lets through is kept. */
  datatype Question = Question(id: nat, text: string, axis: string, units: real, agree: string)

  /** A field the pattern `[^"]+` can take: non-empty and without a quote. */
  predicate QuoteFree(f: string) {
    |f| > 0 && forall k :: 0 <= k < |f| ==> f[k] != '"'
  }

  /** The text of fields `fs` after an opening quote: each field followed by
      `","`, the last by a closing quote. */
  function FieldsText(fs: seq<string>): string
    requires |fs| >= 1
  {
    if |fs| == 1 then fs[0] + "\"" else fs[0] + "\",\"" + FieldsText(fs[1..])
  }

  /** A whole quoted row, as the table file writes it. */
  function RowText(fs: seq<string>): string
    requires |fs| >= 1
  {
    "\"" + FieldsText(fs)
  }

  /** The first quote at or after `p`, or the end of the line. */
  function QuoteFrom(line: string, p: nat): (e: nat)
    requires p <= |line|
    ensures p <= e <= |line|
    ensures forall k :: p <= k < e ==> line[k] != '"'
    ensures e < |line| ==> line[e] == '"'
    decreases |line| - p
  {
    if p == |line| || line[p] == '"' then p else QuoteFrom(line, p + 1)
  }

  /** Reads `count` quoted fields starting just after an opening quote at
      `start - 1`. A `[^"]+` group must run up to the next quote (only a quote
      may follow it), so backtracking never finds another way to match and
      the fields are determined. */
  function QuotedFields(line: string, start: nat, count: nat): (r: Option<seq<string>>)
    requires start <= |line| && count >= 1
    ensures r.Some? ==> |r.value| == count && forall i :: 0 <= i < count ==> QuoteFree(r.value[i])
    decreases count
  {
    var e := QuoteFrom(line, start);
    if e == start || e == |line| then None
    else if count == 1 then Some([line[start..e]])
    else if e + 2 < |line| && line[e + 1] == ',' && line[e + 2] == '"' then
      match QuotedFields(line, e + 3, count - 1)
      case Some(rest) => Some([line[start..e]] + rest)
      case None => None
    else None
  }

  /** The pattern tried at position `p` of the line. */
  function MatchAt(line: string, p: nat): (r: Option<seq<string>>)
    ensures r.Some? ==> |r.value| == 5 && IsDigits(r.value[0])
  {
    if p < |line| && line[p] == '"' then
      match QuotedFields(line, p + 1, 5)
      case Some(fs) => if IsDigits(fs[0]) then Some(fs) else None
      case None => None
    else None
  }

  /** The pattern matches at no position in `[a, b)`. */
  predicate NoMatchIn(line: string, a: nat, b: nat) {
    forall q :: a <= q < b ==> MatchAt(line, q).None?
  }

  /** `q` is the first position at or after `p` where the pattern matches,
      and `r` is that match. */
  predicate FirstMatchAt(line: string, p: nat, q: nat, r: Option<seq<string>>) {
    p <= q < |line| && MatchAt(line, q) == r && r.Some? && NoMatchIn(line, p, q)
  }

  /** The leftmost match at or after `p`, as `String.prototype.match` finds
      it: none exactly when no position from `p` on matches, and otherwise
      the match at the first position that does. */
  function FirstMatchFrom(line: string, p: nat): (r: Option<seq<string>>)
    requires p <= |line|
    ensures r.Some? ==> |r.value| == 5 && IsDigits(r.value[0])
    decreases |line| - p
  {
    if p == |line| then None
    else match MatchAt(line, p)
      case Some(fs) => Some(fs)
      case None => FirstMatchFrom(line, p + 1)
  }

  /** The search from `p` finds nothing exactly when no position from `p`
      matches, and otherwise the match at the leftmost matching position. */
  lemma {:induction false} FirstMatchFromLeftmost(line: string, p: nat)
    requires p <= |line|
    ensures FirstMatchFrom(line, p).None? <==> NoMatchIn(line, p, |line|)
    ensures FirstMatchFrom(line, p).Some? ==> exists q :: FirstMatchAt(line, p, q, FirstMatchFrom(line, p))
    decreases |line| - p
  {
    if p < |line| {
      if MatchAt(line, p).Some? {
        MatchHere(line, p);
      } else {
        FirstMatchFromLeftmost(line, p + 1);
        NoMatchBefore(line, p, FirstMatchFrom(line, p), p + 1);
      }
    }
  }

  /** A match at `p` is the first one from `p`. */
  lemma MatchHere(line: string, p: nat)
    requires p < |line| && MatchAt(line, p).Some?
    ensures FirstMatchAt(line, p, p, MatchAt(line, p)) && !NoMatchIn(line, p, |line|)
  {
  }

  /** When nothing matches at `p`, searching from `p` finds what searching
      from `p + 1` finds. */
  lemma NoMatchBefore(line: string, p: nat, r: Option<seq<string>>, next: nat)
    requires p < |line| && MatchAt(line, p).None? && next == p + 1
    requires r.None? <==> NoMatchIn(line, next, |line|)
    requires r.Some? ==> exists q :: FirstMatchAt(line, next, q, r)
    ensures r.None? <==> NoMatchIn(line, p, |line|)
    ensures r.Some? ==> exists q :: FirstMatchAt(line, p, q, r)
  {
    if r.Some? {
      var q :| FirstMatchAt(line, next, q, r);
      NoMatchFrom(line, p, q);
      assert FirstMatchAt(line, p, q, r);
    }
    NoMatchFrom(line, p, |line|);
  }

  /** No match in `[p, b)` is no match at `p` and none in `[p + 1, b)`. */
  lemma NoMatchFrom(line: string, p: nat, b: nat)
    requires p < b
    ensures NoMatchIn(line, p, b) <==> MatchAt(line, p).None? && NoMatchIn(line, p + 1, b)
  {
  }

  /** The question built from the five captured groups: `parseInt` of the
      digits, the text, the axis, `parseFloat` of the weight, the direction. */
  function ToQuestion(fs: seq<string>): Question
    requires |fs| == 5 && IsDigits(fs[0])
  {
    Question(DigitsValue(fs[0]), fs[1], fs[2], ParseFloat(fs[3]).GetOr(0.0), fs[4])
  }

  /** The question of a line, from its leftmost match; none when the
      pattern matches nowhere in it. */
  function ParseLine(line: string): (r: Option<Question>)
    ensures r.None? <==> NoMatchIn(line, 0, |line|)
  {
    FirstMatchFromLeftmost(line, 0);
    match FirstMatchFrom(line, 0)
    case Some(fs) => Some(ToQuestion(fs))
    case None => None
  }

  /** What one line adds to the table: nothing when it is blank or does not
      match anywhere, otherwise one question. */
  function Selected(line: string): (r: seq<Question>)
    ensures |r| <= 1
    ensures r == [] <==> Trim(line) == [] || NoMatchIn(line, 0, |line|)
  {
    if Trim(line) == [] then []
    else match ParseLine(line)
      case Some(q) => [q]
      case None => []
  }

  /** The `filter`/`map`/`filter` chain over the lines after the header: at
      most one question per line. */
  function Keep(lines: seq<string>): (r: seq<Question>)
    ensures |r| <= |lines|
  {
    if |lines| == 0 then [] else Selected(lines[0]) + Keep(lines[1..])
  }

  /** The question table read from the CSV text: at most one question per
      line after the header. */
  function ParseRows(csv: string): (r: seq<Question>)
    ensures |r| < |Split(csv)|
  {
    Keep(Split(csv)[1..])
  }

  // ---------------------------------------------------------------------
  // properties

  /** Lines are read one by one: the table of two runs of lines is the two
      tables in order. */
  lemma {:induction false} KeepAppend(a: seq<string>, b: seq<string>)
    ensures Keep(a + b) == Keep(a) + Keep(b)
  {
    if |a| > 0 {
      assert (a + b)[0] == a[0] && (a + b)[1..] == a[1..] + b;
      KeepAppend(a[1..], b);
      calc {
        Keep(a + b);
        Selected(a[0]) + Keep(a[1..] + b);
        Selected(a[0]) + (Keep(a[1..]) + Keep(b));
      }
    } else {
      assert a + b == b;
    }
  }

  /** A line that does not match the pattern is dropped and changes nothing else. */
  lemma UnmatchedLineIgnored(a: seq<string>, line: string, b: seq<string>)
    requires ParseLine(line).None?
    ensures Keep(a + [line] + b) == Keep(a) + Keep(b)
  {
    KeepAppend(a + [line], b);
    KeepAppend(a, [line]);
    KeepUnmatched(line);
    calc {
      Keep(a + [line] + b);
      Keep(a + [line]) + Keep(b);
      Keep(a) + Keep([line]) + Keep(b);
      { assert Keep(a) + [] == Keep(a); }
      Keep(a) + Keep(b);
    }
  }

  lemma KeepUnmatched(line: string)
    requires ParseLine(line).None?
    ensures Keep([line]) == []
  {
    assert Selected(line) == [];
    assert Keep([line]) == Selected(line) + Keep([]);
  }

  /** The first quote after `p` is `k` characters on. */
  lemma {:induction false} QuoteFromAt(line: string, p: nat, k: nat)
    requires p + k < |line| && line[p + k] == '"'
    requires forall j :: p <= j < p + k ==> line[j] != '"'
    ensures QuoteFrom(line, p) == p + k
    decreases k
  {
    if k > 0 {
      QuoteFromAt(line, p + 1, k - 1);
    }
  }

  /** The shape of written fields: the first field, then its closing quote,
      then either the end or `","` and the remaining fields. */
  lemma FieldsTextShape(fs: seq<string>)
    requires |fs| >= 1
    ensures var text, f := FieldsText(fs), fs[0];
      |f| < |text| && text[..|f|] == f && text[|f|] == '"'
      && (|fs| > 1 ==> |f| + 3 <= |text| && text[|f| + 1] == ',' && text[|f| + 2] == '"'
                       && text[|f| + 3..] == FieldsText(fs[1..]))
  {
    if |fs| > 1 {
      assert FieldsText(fs) == fs[0] + "\",\"" + FieldsText(fs[1..]);
    }
  }

  /** Where written fields sit in a line, the first field is read up to its
      closing quote. */
  lemma FirstFieldOfText(line: string, start: nat, fs: seq<string>)
    requires |fs| >= 1 && QuoteFree(fs[0])
    requires start + |FieldsText(fs)| <= |line|
    requires line[start..start + |FieldsText(fs)|] == FieldsText(fs)
    ensures var e := start + |fs[0]|;
      e < |line| && QuoteFrom(line, start) == e && line[start..e] == fs[0]
  {
    var f, text := fs[0], FieldsText(fs);
    FieldsTextShape(fs);
    assert forall j :: 0 <= j < |text| ==> line[start + j] == text[j];
    forall j | start <= j < start + |f| ensures line[j] != '"' {
      assert line[j] == text[j - start] == f[j - start];
    }
    QuoteFromAt(line, start, |f|);
    assert line[start..start + |f|] == f;
  }

  /** ... and, when more fields follow, by `","` and the written rest. */
  lemma RestFieldsOfText(line: string, start: nat, fs: seq<string>)
    requires |fs| > 1
    requires start + |FieldsText(fs)| <= |line|
    requires line[start..start + |FieldsText(fs)|] == FieldsText(fs)
    ensures var e := start + |fs[0]|;
      e + 2 < |line| && line[e + 1] == ',' && line[e + 2] == '"'
      && e + 3 + |FieldsText(fs[1..])| <= |line|
      && line[e + 3..e + 3 + |FieldsText(fs[1..])|] == FieldsText(fs[1..])
  {
    var f, text, tail := fs[0], FieldsText(fs), FieldsText(fs[1..]);
    FieldsTextShape(fs);
    assert forall j :: 0 <= j < |text| ==> line[start + j] == text[j];
    assert line[start + |f| + 3..start + |f| + 3 + |tail|] == tail;
  }

  /** Reading the last field: everything up to the next quote. */
  lemma QuotedFieldsLast(line: string, start: nat, e: nat)
    requires start < e < |line| && QuoteFrom(line, start) == e
    ensures QuotedFields(line, start, 1) == Some([line[start..e]])
  {
  }

  /** Reading a field that `","` follows: it, then the fields after. */
  lemma QuotedFieldsNext(line: string, start: nat, e: nat, count: nat, rest: seq<string>)
    requires start <= |line| && count >= 2 && e == QuoteFrom(line, start)
    requires start < e && e + 2 < |line| && line[e + 1] == ',' && line[e + 2] == '"'
    requires QuotedFields(line, e + 3, count - 1) == Some(rest)
    ensures QuotedFields(line, start, count) == Some([line[start..e]] + rest)
  {
  }

  /** The same for written fields: the first one, then the others. */
  lemma QuotedFieldsCons(line: string, start: nat, e: nat, fs: seq<string>)
    requires start <= |line| && |fs| >= 2 && e == QuoteFrom(line, start)
    requires start < e && e + 2 < |line| && line[e + 1] == ',' && line[e + 2] == '"'
    requires line[start..e] == fs[0]
    requires QuotedFields(line, e + 3, |fs[1..]|) == Some(fs[1..])
    ensures QuotedFields(line, start, |fs|) == Some(fs)
  {
    var rest := fs[1..];
    assert |rest| == |fs| - 1;
    QuotedFieldsNext(line, start, e, |fs|, rest);
    assert [fs[0]] + rest == fs;
  }

  /** Quoted fields written out are read back. */
  lemma {:induction false} QuotedFieldsOfText(line: string, start: nat, fs: seq<string>)
    requires |fs| >= 1 && forall i :: 0 <= i < |fs| ==> QuoteFree(fs[i])
    requires start + |FieldsText(fs)| <= |line|
    requires line[start..start + |FieldsText(fs)|] == FieldsText(fs)
    ensures QuotedFields(line, start, |fs|) == Some(fs)
    decreases |fs|
  {
    var e := start + |fs[0]|;
    FirstFieldOfText(line, start, fs);
    if |fs| > 1 {
      RestFieldsOfText(line, start, fs);
      QuotedFieldsOfText(line, e + 3, fs[1..]);
      QuotedFieldsCons(line, start, e, fs);
    } else {
      QuotedFieldsLast(line, start, e);
      assert fs == [fs[0]];
    }
  }

  /** The text of a field followed by more fields. */
  lemma FieldsTextCons(f: string, rest: seq<string>)
    requires |rest| >= 1
    ensures FieldsText([f] + rest) == f + "\",\"" + FieldsText(rest)
  {
    assert ([f] + rest)[0] == f && ([f] + rest)[1..] == rest;
  }

  /** The line holds the text of `fs` from `start` on. */
  predicate FieldsAt(line: string, start: nat, fs: seq<string>)
    requires |fs| >= 1
  {
    start + |FieldsText(fs)| <= |line| && line[start..start + |FieldsText(fs)|] == FieldsText(fs)
  }

  /** Fields read from `start` are written out at `start`: the reading
      takes exactly the text of the line there. */
  lemma {:induction false} QuotedFieldsText(line: string, start: nat, count: nat)
    requires start <= |line| && count >= 1
    ensures QuotedFields(line, start, count).Some? ==> FieldsAt(line, start, QuotedFields(line, start, count).value)
    decreases count
  {
    var r := QuotedFields(line, start, count);
    if r.Some? {
      var e := QuoteFrom(line, start);
      if count == 1 {
        assert r.value == [line[start..e]];
        LastFieldText(line, start, e);
      } else {
        var tail := QuotedFields(line, e + 3, count - 1);
        assert r.value == [line[start..e]] + tail.value;
        QuotedFieldsText(line, e + 3, count - 1);
        NextFieldText(line, start, e, tail.value);
      }
    }
  }

  /** A field closed by a quote is written as itself and the quote. */
  lemma LastFieldText(line: string, start: nat, e: nat)
    requires start <= e < |line| && line[e] == '"'
    ensures FieldsAt(line, start, [line[start..e]])
  {
    assert line[start..e + 1] == line[start..e] + [line[e]];
  }

  /** A field, `","`, then written fields: all of them are written there. */
  lemma NextFieldText(line: string, start: nat, e: nat, rest: seq<string>)
    requires start <= e && e + 2 < |line| && line[e] == '"' && line[e + 1] == ',' && line[e + 2] == '"'
    requires |rest| >= 1 && FieldsAt(line, e + 3, rest)
    ensures FieldsAt(line, start, [line[start..e]] + rest)
  {
    var f, n := line[start..e], |FieldsText(rest)|;
    FieldsTextCons(f, rest);
    assert line[e..e + 3] == "\",\"";
    assert line[start..e + 3 + n] == f + line[e..e + 3] + line[e + 3..e + 3 + n];
  }

  /** The five fields the pattern captures: digits first, none empty or
      holding a quote. */
  predicate Captures(fs: seq<string>) {
    |fs| == 5 && IsDigits(fs[0]) && forall i :: 0 <= i < 5 ==> QuoteFree(fs[i])
  }

  /** The line holds the quoted row of `fs` from position `p` on. */
  predicate WrittenAt(line: string, p: nat, fs: seq<string>) {
    |fs| >= 1 && p + |RowText(fs)| <= |line| && line[p..p + |RowText(fs)|] == RowText(fs)
  }

  /** A match at `p` is the line's own text: the quoted fields written there. */
  lemma MatchAtSound(line: string, p: nat, fs: seq<string>)
    requires MatchAt(line, p) == Some(fs)
    ensures Captures(fs) && WrittenAt(line, p, fs)
  {
    assert p < |line| && line[p] == '"' && QuotedFields(line, p + 1, 5) == Some(fs);
    QuotedFieldsText(line, p + 1, 5);
    QuoteThenText(line, p, FieldsText(fs));
  }

  /** A quote at `p` followed by `text` is the text `"` + `text` at `p`. */
  lemma QuoteThenText(line: string, p: nat, text: string)
    requires p < |line| && line[p] == '"'
    requires p + 1 + |text| <= |line| && line[p + 1..p + 1 + |text|] == text
    ensures line[p..p + 1 + |text|] == "\"" + text
  {
    assert line[p..p + 1 + |text|] == [line[p]] + line[p + 1..p + 1 + |text|];
  }

  /** Quoted fields the pattern can capture, written at `p`, match there. */
  lemma MatchAtComplete(line: string, p: nat, fs: seq<string>)
    requires Captures(fs) && WrittenAt(line, p, fs)
    ensures MatchAt(line, p) == Some(fs)
  {
    var n := |FieldsText(fs)|;
    assert line[p] == RowText(fs)[0] == '"';
    assert line[p + 1..p + 1 + n] == RowText(fs)[1..] == FieldsText(fs);
    QuotedFieldsOfText(line, p + 1, fs);
  }

  /** The pattern matches at `p` with fields `fs` exactly when `fs` are
      fields it can capture and the line holds them, quoted, from `p` on. */
  lemma MatchAtExactly(line: string, p: nat, fs: seq<string>)
    ensures MatchAt(line, p) == Some(fs) <==> Captures(fs) && WrittenAt(line, p, fs)
  {
    if MatchAt(line, p) == Some(fs) {
      MatchAtSound(line, p, fs);
    }
    if Captures(fs) && WrittenAt(line, p, fs) {
      MatchAtComplete(line, p, fs);
    }
  }

  /** A row as the table file writes it: digits, then four fields, none with a
      quote or a line feed. */
  predicate ValidRow(fs: seq<string>) {
    |fs| == 5 && IsDigits(fs[0])
    && forall i :: 0 <= i < 5 ==> QuoteFree(fs[i]) && NoLineFeed(fs[i])
  }

  function RowLines(rows: seq<seq<string>>): (lines: seq<string>)
    requires forall i :: 0 <= i < |rows| ==> ValidRow(rows[i])
    ensures |lines| == |rows|
  {
    if |rows| == 0 then [] else assert ValidRow(rows[0]); [RowText(rows[0])] + RowLines(rows[1..])
  }

  function ToQuestions(rows: seq<seq<string>>): (qs: seq<Question>)
    requires forall i :: 0 <= i < |rows| ==> ValidRow(rows[i])
    ensures |qs| == |rows|
  {
    if |rows| == 0 then [] else assert ValidRow(rows[0]); [ToQuestion(rows[0])] + ToQuestions(rows[1..])
  }

  lemma {:induction false} FieldsTextNoLineFeed(fs: seq<string>)
    requires |fs| >= 1 && forall i :: 0 <= i < |fs| ==> NoLineFeed(fs[i])
    ensures NoLineFeed(FieldsText(fs))
    decreases |fs|
  {
    if |fs| > 1 {
      FieldsTextNoLineFeed(fs[1..]);
    }
  }

  /** The pattern matches a written row at its first character. */
  lemma RowTextMatches(fs: seq<string>)
    requires ValidRow(fs)
    ensures MatchAt(RowText(fs), 0) == Some(fs)
  {
    var line := RowText(fs);
    assert line[1..1 + |FieldsText(fs)|] == FieldsText(fs);
    QuotedFieldsOfText(line, 1, fs);
  }

  /** A line that opens with a quote is not blank, so it adds the question
      the pattern finds at its start. */
  lemma SelectedAtStart(line: string, fs: seq<string>)
    requires |line| > 0 && line[0] == '"' && MatchAt(line, 0) == Some(fs)
    ensures Selected(line) == [ToQuestion(fs)]
  {
    assert !IsJsWhitespace(line[0]);
    assert FirstMatchFrom(line, 0) == Some(fs);
  }

  /** A written row is a non-blank line that reads back as its own question. */
  lemma RowTextSelected(fs: seq<string>)
    requires ValidRow(fs)
    ensures NoLineFeed(RowText(fs))
    ensures Selected(RowText(fs)) == [ToQuestion(fs)]
  {
    var line := RowText(fs);
    FieldsTextNoLineFeed(fs);
    RowTextMatches(fs);
    assert line[0] == '"';
    SelectedAtStart(line, fs);
  }

  lemma {:induction false} KeepRowLines(rows: seq<seq<string>>)
    requires forall i :: 0 <= i < |rows| ==> ValidRow(rows[i])
    ensures Keep(RowLines(rows)) == ToQuestions(rows)
    ensures forall i :: 0 <= i < |rows| ==> NoLineFeed(RowLines(rows)[i])
    decreases |rows|
  {
    if |rows| > 0 {
      var line, others := RowText(rows[0]), rows[1..];
      KeepRowLines(others);
      RowTextSelected(rows[0]);
      assert RowLines(rows) == [line] + RowLines(others);
      KeepCons(line, RowLines(others));
      ConsNoLineFeed(line, RowLines(others));
    }
  }

  /** The first line's questions, then the others'. */
  lemma KeepCons(line: string, lines: seq<string>)
    ensures Keep([line] + lines) == Selected(line) + Keep(lines)
  {
    assert ([line] + lines)[0] == line && ([line] + lines)[1..] == lines;
  }

  /** Loading a table written as a header line followed by one quoted line per
      row yields exactly those rows, in order, as questions. */
  lemma ParseRowsRoundTrip(header: string, rows: seq<seq<string>>)
    requires NoLineFeed(header)
    requires forall i :: 0 <= i < |rows| ==> ValidRow(rows[i])
    ensures ParseRows(JoinLines([header] + RowLines(rows))) == ToQuestions(rows)
  {
    var body := RowLines(rows);
    var lines := [header] + body;
    KeepRowLines(rows);
    ConsNoLineFeed(header, body);
    SplitJoinLines(lines);
    assert lines[1..] == body;
  }

  /** A line and lines without line feeds. */
  lemma ConsNoLineFeed(line: string, lines: seq<string>)
    requires NoLineFeed(line) && forall i :: 0 <= i < |lines| ==> NoLineFeed(lines[i])
    ensures forall i :: 0 <= i < |[line] + lines| ==> NoLineFeed(([line] + lines)[i])
  {
    forall i | 0 <= i < |[line] + lines| ensures NoLineFeed(([line] + lines)[i]) {
      if i > 0 {
        assert ([line] + lines)[i] == lines[i - 1];
      }
    }
  }
}
