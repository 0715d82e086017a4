/** The CSV uploader's parser: header validation, per-row column count and
    type checks, and construction of the transaction records. */
module CsvParser {
  import opened Results
  import opened Transactions
  import opened Text

  /** Each way parsing can fail; every datum the error message interpolates
      is carried. Row numbers count the header as row 1. */
  datatype CsvError =
    | MissingColumns(columns: seq<string>)
    | WrongColumnCount(row: int)
    | InvalidType(found: string, row: int)
    | InvalidNumber(row: int)

  /** The columns a file must have, in the order a missing-column error lists them. */
  const RequiredHeaders: seq<string> := ["timestamp", "asset", "type", "quantity", "price", "fee", "exchange"]

  /** A line cut at commas, each piece trimmed. */
  function Fields(line: string): (r: seq<string>)
    ensures |r| == |Split(line, ',')|
    ensures forall k :: 0 <= k < |r| ==> r[k] == Trim(Split(line, ',')[k])
  {
    var pieces := Split(line, ',');
    seq(|pieces|, k requires 0 <= k < |pieces| => Trim(pieces[k]))
  }

  /** A line has one value more than it has commas, and no value holds a
      comma or starts or ends in white space. */
  lemma FieldsShape(line: string)
    ensures var r := Fields(line);
      && |r| == Occurrences(line, ',') + 1
      && (forall k :: 0 <= k < |r| ==> ',' !in r[k])
      && (forall k :: 0 <= k < |r| && |r[k]| > 0 ==> !IsSpace(r[k][0]) && !IsSpace(r[k][|r[k]| - 1]))
  {
    var pieces := Split(line, ',');
    SplitCount(line, ',');
    forall k | 0 <= k < |pieces|
      ensures ',' !in Fields(line)[k]
    {
      var lo := TrimStartIndex(pieces[k], 0);
      InfixFree(pieces[k], lo, TrimEndIndex(pieces[k], lo, |pieces[k]|), ',');
    }
  }

  /** The header line, lower-cased, cut at commas and trimmed. */
  function HeaderNames(line: string): seq<string>
  {
    Fields(ToLower(line))
  }

  /** The lines of a file: trimmed as a whole, cut at line feeds. */
  function Lines(text: string): (lines: seq<string>)
    ensures |lines| >= 1
  {
    Split(Trim(text), '\n')
  }

  /** `m` is `s` with some entries left out, the rest kept in order. */
  ghost predicate IsSubsequence(m: seq<string>, s: seq<string>)
    decreases |s|
  {
    if |m| == 0 then true
    else if |s| == 0 then false
    else (m[0] == s[0] && IsSubsequence(m[1..], s[1..])) || IsSubsequence(m, s[1..])
  }

  /** No entry occurs twice. */
  ghost predicate NoRepeats(s: seq<string>)
  {
    forall j, k :: 0 <= j < k < |s| ==> s[j] != s[k]
  }

  /** The entries of `required` absent from `headers`, in `required`'s order. */
  function Missing(required: seq<string>, headers: seq<string>): (m: seq<string>)
    ensures forall h :: h in m <==> h in required && h !in headers
    ensures |m| <= |required|
    ensures IsSubsequence(m, required)
  {
    if |required| == 0 then []
    else if required[0] in headers then Missing(required[1..], headers)
    else [required[0]] + Missing(required[1..], headers)
  }

  predicate HasRequiredHeaders(headers: seq<string>)
  {
    forall h :: h in RequiredHeaders ==> h in headers
  }

  /** The last column carrying `name`: building the row object assigns the
      columns left to right, so a repeated header keeps its last value. */
  function LastIndexOf(headers: seq<string>, name: string): (j: int)
    requires name in headers
    ensures 0 <= j < |headers| && headers[j] == name
    ensures forall k :: j < k < |headers| ==> headers[k] != name
  {
    if headers[|headers| - 1] == name then |headers| - 1
    else LastIndexOf(headers[..|headers| - 1], name)
  }

  /** The value of column `name` in a row. */
  function Field(headers: seq<string>, values: seq<string>, name: string): string
    requires |values| == |headers| && name in headers
  {
    values[LastIndexOf(headers, name)]
  }

  /** The transaction type a lower-cased `type` cell names, if any. */
  function KindOf(text: string): (r: Option<TxType>)
    ensures r == Some(Buy) <==> text == "buy"
    ensures r == Some(Sell) <==> text == "sell"
    ensures r == Some(Transfer) <==> text == "transfer"
    ensures r.None? <==> text != "buy" && text != "sell" && text != "transfer"
  {
    if text == "buy" then Some(Buy)
    else if text == "sell" then Some(Sell)
    else if text == "transfer" then Some(Transfer)
    else None
  }

  /** One data row, already cut into trimmed values, as a transaction.
      `parseNum` is `parseFloat` (`None` for `NaN`); `parseDate` gives the
      instant a timestamp cell denotes. */
  function ParseRow(headers: seq<string>, values: seq<string>, row: int,
                    parseNum: string -> Option<real>, parseDate: string -> int): (r: Result<TransactionData, CsvError>)
    requires HasRequiredHeaders(headers)
    ensures r.Failure? ==> !r.error.MissingColumns? && r.error.row == row
    ensures r.Failure? && r.error.WrongColumnCount? <==> |values| != |headers|
    ensures r.Failure? && r.error.InvalidType? <==>
      |values| == |headers| && KindOf(ToLower(Field(headers, values, "type"))).None?
    ensures r.Failure? && r.error.InvalidType? ==> r.error.found == Field(headers, values, "type")
    ensures r.Failure? && r.error.InvalidNumber? <==>
      && |values| == |headers| && KindOf(ToLower(Field(headers, values, "type"))).Some?
      && (parseNum(Field(headers, values, "quantity")).None? || parseNum(Field(headers, values, "price")).None?)
    ensures r.Success? ==>
      && |values| == |headers|
      && Some(r.value.kind) == KindOf(ToLower(Field(headers, values, "type")))
      && Some(r.value.quantity) == parseNum(Field(headers, values, "quantity"))
      && Some(r.value.price) == parseNum(Field(headers, values, "price"))
      && r.value.asset == ToUpper(Field(headers, values, "asset"))
      && r.value.fee == (match parseNum(Field(headers, values, "fee")) case Some(f) => f case None => 0.0)
      && r.value.timestamp == parseDate(Field(headers, values, "timestamp"))
      && r.value.exchange == Field(headers, values, "exchange")
  {
    if |values| != |headers| then Failure(WrongColumnCount(row))
    else
      var typeCell := Field(headers, values, "type");
      var quantity := parseNum(Field(headers, values, "quantity"));
      var price := parseNum(Field(headers, values, "price"));
      var fee := match parseNum(Field(headers, values, "fee")) case Some(f) => f case None => 0.0;
      match KindOf(ToLower(typeCell))
      case None => Failure(InvalidType(typeCell, row))
      case Some(kind) =>
        if quantity.None? || price.None? then Failure(InvalidNumber(row))
        else Success(TransactionData(
          parseDate(Field(headers, values, "timestamp")),
          ToUpper(Field(headers, values, "asset")),
          kind,
          quantity.value,
          price.value,
          fee,
          Field(headers, values, "exchange")))
  }

  /** Data line `i` of the file, reported as row `i + 1`. */
  function ParseLine(headers: seq<string>, lines: seq<string>, i: int,
                     parseNum: string -> Option<real>, parseDate: string -> int): Result<TransactionData, CsvError>
    requires HasRequiredHeaders(headers) && 0 <= i < |lines|
  {
    ParseRow(headers, Fields(lines[i]), i + 1, parseNum, parseDate)
  }

  /** The outcomes of rows parsed in order, combined as a loop that throws
      at the first failing row: the first failure, or every record in order. */
  function Collect<T, E>(rs: seq<Result<T, E>>): (r: Result<seq<T>, E>)
    ensures r.Success? <==> forall k :: 0 <= k < |rs| ==> rs[k].Success?
    ensures r.Success? ==> |r.value| == |rs| && forall k :: 0 <= k < |rs| ==> rs[k] == Success(r.value[k])
    ensures r.Failure? ==> exists k :: 0 <= k < |rs| && rs[k] == Failure(r.error) && forall j :: 0 <= j < k ==> rs[j].Success?
  {
    if |rs| == 0 then Success([])
    else
      match rs[0]
      case Failure(e) => Failure(e)
      case Success(t) =>
        match Collect(rs[1..])
        case Failure(e) =>
          CollectFailureShifts(rs, e);
          Failure(e)
        case Success(rest) => Success([t] + rest)
  }

  /** A leading success does not change which row fails first. */
  lemma CollectFailureShifts<T, E>(rs: seq<Result<T, E>>, e: E)
    requires |rs| > 0 && rs[0].Success?
    requires exists k :: 0 <= k < |rs[1..]| && rs[1..][k] == Failure(e) && forall j :: 0 <= j < k ==> rs[1..][j].Success?
    ensures exists k :: 0 <= k < |rs| && rs[k] == Failure(e) && forall j :: 0 <= j < k ==> rs[j].Success?
  {
    var k :| 0 <= k < |rs[1..]| && rs[1..][k] == Failure(e) && forall j :: 0 <= j < k ==> rs[1..][j].Success?;
    assert rs[k + 1] == Failure(e);
    forall j | 0 <= j < k + 1
      ensures rs[j].Success?
    {
      if j > 0 {
        assert rs[j] == rs[1..][j - 1];
      }
    }
  }

  /** The outcome of every data line, in file order. */
  function ParsedLines(headers: seq<string>, lines: seq<string>,
                       parseNum: string -> Option<real>, parseDate: string -> int): (rs: seq<Result<TransactionData, CsvError>>)
    requires HasRequiredHeaders(headers) && |lines| >= 1
    ensures |rs| == |lines| - 1
    ensures forall k :: 0 <= k < |rs| ==> rs[k] == ParseLine(headers, lines, k + 1, parseNum, parseDate)
  {
    seq(|lines| - 1, k requires 0 <= k < |lines| - 1 => ParseLine(headers, lines, k + 1, parseNum, parseDate))
  }

  /** A collected failure comes from the first data line that fails. */
  lemma FailingLine(headers: seq<string>, lines: seq<string>,
                    parseNum: string -> Option<real>, parseDate: string -> int,
                    r: Result<seq<TransactionData>, CsvError>)
    requires HasRequiredHeaders(headers) && |lines| >= 1
    requires r == Collect(ParsedLines(headers, lines, parseNum, parseDate))
    ensures r.Failure? ==>
      exists k ::
        && 1 <= k < |lines|
        && ParseLine(headers, lines, k, parseNum, parseDate) == Failure(r.error)
        && forall j :: 1 <= j < k ==> ParseLine(headers, lines, j, parseNum, parseDate).Success?
  {
    if r.Failure? {
      var rs := ParsedLines(headers, lines, parseNum, parseDate);
      var k :| 0 <= k < |rs| && rs[k] == Failure(r.error) && forall j :: 0 <= j < k ==> rs[j].Success?;
      assert ParseLine(headers, lines, k + 1, parseNum, parseDate) == Failure(r.error);
      forall j | 1 <= j < k + 1
        ensures ParseLine(headers, lines, j, parseNum, parseDate).Success?
      {
        assert rs[j - 1].Success?;
      }
    }
  }

  /** `parseCSV`: the header check, then every data line in order. */
  function ParseCsv(text: string, parseNum: string -> Option<real>, parseDate: string -> int): (r: Result<seq<TransactionData>, CsvError>)
    ensures !HasRequiredHeaders(HeaderNames(Lines(text)[0])) <==> r.Failure? && r.error.MissingColumns?
    ensures r.Failure? && r.error.MissingColumns? ==>
      && (forall h :: h in r.error.columns <==> h in RequiredHeaders && h !in HeaderNames(Lines(text)[0]))
      && IsSubsequence(r.error.columns, RequiredHeaders)
    ensures r.Success? ==>
      && |r.value| == |Lines(text)| - 1
      && forall k :: 0 <= k < |r.value| ==>
           ParseLine(HeaderNames(Lines(text)[0]), Lines(text), k + 1, parseNum, parseDate) == Success(r.value[k])
    ensures r.Failure? && !r.error.MissingColumns? ==>
      && HasRequiredHeaders(HeaderNames(Lines(text)[0]))
      && exists k :: 1 <= k < |Lines(text)|
           && ParseLine(HeaderNames(Lines(text)[0]), Lines(text), k, parseNum, parseDate) == Failure(r.error)
           && forall j :: 1 <= j < k ==> ParseLine(HeaderNames(Lines(text)[0]), Lines(text), j, parseNum, parseDate).Success?
  {
    var lines := Lines(text);
    var headers := HeaderNames(lines[0]);
    var missing := Missing(RequiredHeaders, headers);
    if |missing| > 0 then
      assert missing[0] in missing;
      Failure(MissingColumns(missing))
    else
      assert HasRequiredHeaders(headers) by {
        assert forall h :: h in RequiredHeaders && h !in headers ==> h in missing;
      }
      var r := Collect(ParsedLines(headers, lines, parseNum, parseDate));
      FailingLine(headers, lines, parseNum, parseDate, r);
      r
  }

  /** Every row error names the line's row number, and a wrong field count is
      reported exactly when the line's comma count disagrees with the header's. */
  lemma LineErrorsNameRow(headers: seq<string>, lines: seq<string>, i: int,
                          parseNum: string -> Option<real>, parseDate: string -> int)
    requires HasRequiredHeaders(headers) && 0 <= i < |lines|
    ensures var r := ParseLine(headers, lines, i, parseNum, parseDate);
      r.Failure? ==> !r.error.MissingColumns? && r.error.row == i + 1
    ensures var r := ParseLine(headers, lines, i, parseNum, parseDate);
      r.Failure? && r.error.WrongColumnCount? <==> |Split(lines[i], ',')| != |headers|
  {
  }

  /** No two columns share a header. */
  ghost predicate Distinct(headers: seq<string>)
  {
    forall j, k :: 0 <= j < k < |headers| ==> headers[j] != headers[k]
  }

  /** Each column's header with the row's value in it. */
  ghost function Columns(headers: seq<string>, values: seq<string>): set<(string, string)>
    requires |headers| == |values|
  {
    set i | 0 <= i < |headers| :: (headers[i], values[i])
  }

  /** With distinct headers, a field is the value paired with its header. */
  lemma FieldIsPairedValue(headers: seq<string>, values: seq<string>, name: string, v: string)
    requires |headers| == |values| && Distinct(headers)
    requires (name, v) in Columns(headers, values)
    ensures name in headers && Field(headers, values, name) == v
  {
    var i :| 0 <= i < |headers| && (headers[i], values[i]) == (name, v);
    var j := LastIndexOf(headers, name);
  }

  /** Fields are found by header, so reordering the columns of the header and
      of a row alike does not change the record parsed from it. */
  lemma ColumnOrderIrrelevant(h1: seq<string>, v1: seq<string>, h2: seq<string>, v2: seq<string>, row: int,
                              parseNum: string -> Option<real>, parseDate: string -> int)
    requires |h1| == |v1| == |h2| == |v2|
    requires Distinct(h1) && Distinct(h2)
    requires Columns(h1, v1) == Columns(h2, v2)
    requires HasRequiredHeaders(h1)
    ensures HasRequiredHeaders(h2)
    ensures ParseRow(h1, v1, row, parseNum, parseDate) == ParseRow(h2, v2, row, parseNum, parseDate)
  {
    forall name | name in RequiredHeaders
      ensures name in h2 && Field(h1, v1, name) == Field(h2, v2, name)
    {
      var j := LastIndexOf(h1, name);
      assert (name, v1[j]) in Columns(h1, v1);
      FieldIsPairedValue(h2, v2, name, v1[j]);
    }
  }

  /** An empty file fails the header check with every required column missing. */
  lemma EmptyFileMissesAllColumns(parseNum: string -> Option<real>, parseDate: string -> int)
    ensures ParseCsv("", parseNum, parseDate) == Failure(MissingColumns(RequiredHeaders))
  {
    assert Trim("") == "";
    assert Lines("") == [""];
    assert ToLower("") == "";
    assert HeaderNames("") == [""];
    MissingAll(RequiredHeaders, [""]);
  }

  /** Every entry of a subsequence occurs in the sequence. */
  lemma {:induction false} SubsequenceMembers(m: seq<string>, s: seq<string>)
    requires IsSubsequence(m, s)
    ensures forall x :: x in m ==> x in s
    decreases |s|
  {
    if |m| > 0 {
      if m[0] == s[0] && IsSubsequence(m[1..], s[1..]) {
        SubsequenceMembers(m[1..], s[1..]);
        assert m == [m[0]] + m[1..];
      } else {
        SubsequenceMembers(m, s[1..]);
      }
    }
  }

  /** A subsequence of a sequence without repeats has none either. */
  lemma {:induction false} SubsequenceNoRepeats(m: seq<string>, s: seq<string>)
    requires IsSubsequence(m, s) && NoRepeats(s)
    ensures NoRepeats(m)
    decreases |s|
  {
    if |m| > 0 {
      assert NoRepeats(s[1..]);
      if m[0] == s[0] && IsSubsequence(m[1..], s[1..]) {
        SubsequenceNoRepeats(m[1..], s[1..]);
        SubsequenceMembers(m[1..], s[1..]);
        assert s[0] !in s[1..];
        forall j, k | 0 <= j < k < |m|
          ensures m[j] != m[k]
        {
          if j == 0 {
            assert m[k] == m[1..][k - 1];
          } else {
            assert m[j] == m[1..][j - 1] && m[k] == m[1..][k - 1];
          }
        }
      } else {
        SubsequenceNoRepeats(m, s[1..]);
      }
    }
  }

  /** The required columns are seven different names. */
  lemma RequiredHeadersNoRepeats()
    ensures NoRepeats(RequiredHeaders)
  {
    forall j, k | 0 <= j < k < |RequiredHeaders|
      ensures RequiredHeaders[j] != RequiredHeaders[k]
    {
      assert |RequiredHeaders[j]| != |RequiredHeaders[k]| || RequiredHeaders[j][0] != RequiredHeaders[k][0];
    }
  }

  /** The missing-column list names each absent column once, in the order
      of the required columns. */
  lemma MissingColumnsInOrder(headers: seq<string>)
    ensures var m := Missing(RequiredHeaders, headers);
      IsSubsequence(m, RequiredHeaders) && NoRepeats(m)
  {
    RequiredHeadersNoRepeats();
    SubsequenceNoRepeats(Missing(RequiredHeaders, headers), RequiredHeaders);
  }

  /** When no required header is present, all of them are missing. */
  lemma {:induction false} MissingAll(required: seq<string>, headers: seq<string>)
    requires forall k :: 0 <= k < |required| ==> required[k] !in headers
    ensures Missing(required, headers) == required
  {
    if |required| > 0 {
      MissingAll(required[1..], headers);
    }
  }
}
